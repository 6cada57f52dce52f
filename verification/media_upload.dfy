/** The media step of the property editor: the same list operations as the stand-alone picker,
    applied to the property's `images` and sent to the parent as an update, with a
    confirmation before deleting. The preview URL maker is a parameter. */
module MediaUpload {
  import opened Wrappers
  import opened UploadMedia

  /** `propertyData?.images || []`, for a property whose images are a list or missing. */
  function FilesOf<F>(images: Option<seq<Entry<F>>>): seq<Entry<F>> {
    match images
    case Some(xs) => xs
    case None => []
  }

  /** `handleAddFiles`: the update carries the current images followed by the new ones. */
  function HandleAddFiles<F>(images: Option<seq<Entry<F>>>, files: seq<F>, preview: F -> string): (r: seq<Entry<F>>)
    ensures r == AddFiles(FilesOf(images), files, preview)
    ensures |r| == |FilesOf(images)| + |files|
  {
    FilesOf(images) + EntriesOf(files, preview)
  }

  /** `handleReplace`: `files.map((item, i) => i === index ? newEntry : item)`, or no update
      without a chosen file. */
  function HandleReplace<F>(images: Option<seq<Entry<F>>>, index: nat, file: Option<F>, preview: F -> string): (r: Option<seq<Entry<F>>>)
    ensures r.None? <==> file.None?
    ensures r.Some? ==> |r.value| == |FilesOf(images)|
    ensures r.Some? ==> forall i :: 0 <= i < |r.value| ==>
      r.value[i] == if i == index then Entry(file.value, preview(file.value)) else FilesOf(images)[i]
  {
    match file
    case None => None
    case Some(f) =>
      var xs := FilesOf(images);
      Some(seq(|xs|, i requires 0 <= i < |xs| => if i == index then Entry(f, preview(f)) else xs[i]))
  }

  /** On a shown entry the map-based replace here and the indexed write of the stand-alone
      picker give the same list. */
  lemma ReplaceAgreesWithPicker<F>(images: Option<seq<Entry<F>>>, index: nat, f: F, preview: F -> string)
    requires index < |FilesOf(images)|
    ensures HandleReplace(images, index, Some(f), preview) == Some(ReplaceAt(FilesOf(images), index, Some(f), preview))
  {
    var r := HandleReplace(images, index, Some(f), preview).value;
    var want := ReplaceAt(FilesOf(images), index, Some(f), preview);
    assert forall i :: 0 <= i < |r| ==> r[i] == want[i];
    assert r == want;
  }

  /** A replace aimed past the end changes nothing (but still sends the list). */
  lemma ReplacePastTheEnd<F>(images: Option<seq<Entry<F>>>, index: nat, f: F, preview: F -> string)
    requires index >= |FilesOf(images)|
    ensures HandleReplace(images, index, Some(f), preview) == Some(FilesOf(images))
  {
    var r := HandleReplace(images, index, Some(f), preview).value;
    assert forall i :: 0 <= i < |r| ==> r[i] == FilesOf(images)[i];
    assert r == FilesOf(images);
  }

  /** The delete confirmation: whether it is open, and the index chosen (`null` until a delete
      button is pressed). */
  datatype Confirm = Confirm(open: bool, deleteIndex: Option<nat>)

  /** A delete button opens the confirmation for its entry. */
  function AskDelete(c: Confirm, index: nat): (r: Confirm)
    ensures r.open && r.deleteIndex == Some(index)
  {
    Confirm(true, Some(index))
  }

  /** `handleDelete(deleteIndex)`: the update drops the chosen entry (none while no index is
      chosen, since no position equals `null`) and the confirmation closes. */
  function HandleDelete<F>(images: Option<seq<Entry<F>>>, c: Confirm): (r: (seq<Entry<F>>, Confirm))
    ensures !r.1.open && r.1.deleteIndex == c.deleteIndex
    ensures c.deleteIndex.None? ==> r.0 == FilesOf(images)
    ensures c.deleteIndex.Some? ==> r.0 == DeleteAt(FilesOf(images), c.deleteIndex.value)
  {
    var updated := match c.deleteIndex
      case Some(k) => DeleteAt(FilesOf(images), k)
      case None => FilesOf(images);
    (updated, c.(open := false))
  }

  /** Asking to delete a shown entry and confirming removes exactly that entry and closes the
      confirmation. */
  lemma AskThenConfirmDeletes<F>(images: Option<seq<Entry<F>>>, c: Confirm, index: nat)
    requires index < |FilesOf(images)|
    ensures var r := HandleDelete(images, AskDelete(c, index));
      && |r.0| == |FilesOf(images)| - 1
      && multiset(r.0) == multiset(FilesOf(images)) - multiset{FilesOf(images)[index]}
      && !r.1.open
  {
    DeleteRemovesOne(FilesOf(images), index);
  }
}
