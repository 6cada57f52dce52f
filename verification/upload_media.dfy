/** The stand-alone media picker: the list of chosen files with their previews, grown by
    picking or dropping files, shrunk by deleting one, and edited by replacing one. The
    preview URL maker is a parameter. */
module UploadMedia {
  import opened Wrappers

  /** A chosen file and its preview URL. */
  datatype Entry<F> = Entry(file: F, preview: string)

  /** `Array.from(files).map(file => ({ file, preview }))`. */
  function EntriesOf<F>(files: seq<F>, preview: F -> string): (r: seq<Entry<F>>)
    ensures |r| == |files|
    ensures forall i :: 0 <= i < |files| ==> r[i] == Entry(files[i], preview(files[i]))
  {
    seq(|files|, i requires 0 <= i < |files| => Entry(files[i], preview(files[i])))
  }

  /** `handleFiles`: the new files' entries go after the existing ones, in the order chosen. */
  function AddFiles<F>(entries: seq<Entry<F>>, files: seq<F>, preview: F -> string): (r: seq<Entry<F>>)
    ensures |r| == |entries| + |files|
    ensures r[..|entries|] == entries
    ensures forall i :: 0 <= i < |files| ==> r[|entries| + i] == Entry(files[i], preview(files[i]))
  {
    entries + EntriesOf(files, preview)
  }

  /** `prev.filter((_, i) => i !== index)`: the entry at `index` goes, the rest keep their
      order; an index past the end removes nothing. */
  function DeleteAt<T>(xs: seq<T>, index: nat): (r: seq<T>)
    ensures index < |xs| ==> |r| == |xs| - 1
    ensures index >= |xs| ==> r == xs
    ensures forall i :: 0 <= i < |r| ==> r[i] == if i < index then xs[i] else xs[i + 1]
  {
    if index < |xs| then xs[..index] + xs[index + 1..] else xs
  }

  /** `handleReplace` of a shown entry: with a chosen file its entry takes the new file and
      preview; without one nothing changes. */
  function ReplaceAt<F>(entries: seq<Entry<F>>, index: nat, file: Option<F>, preview: F -> string): (r: seq<Entry<F>>)
    requires index < |entries|
    ensures file.None? ==> r == entries
    ensures |r| == |entries|
    ensures file.Some? ==> r[index] == Entry(file.value, preview(file.value))
    ensures forall i :: 0 <= i < |r| && i != index ==> r[i] == entries[i]
  {
    match file
    case None => entries
    case Some(f) => entries[index := Entry(f, preview(f))]
  }

  /** Deleting the entry just replaced is deleting the old one: a replace leaves no trace once
      its entry is gone. */
  lemma ReplaceThenDelete<F>(entries: seq<Entry<F>>, index: nat, file: Option<F>, preview: F -> string)
    requires index < |entries|
    ensures DeleteAt(ReplaceAt(entries, index, file, preview), index) == DeleteAt(entries, index)
  {
  }

  /** Deleting one of the files just added leaves the earlier entries and the other new files,
      in order. */
  lemma AddThenDeleteNew<F>(entries: seq<Entry<F>>, files: seq<F>, preview: F -> string, k: nat)
    requires k < |files|
    ensures DeleteAt(AddFiles(entries, files, preview), |entries| + k) == AddFiles(entries, DeleteAt(files, k), preview)
  {
    var lhs := DeleteAt(AddFiles(entries, files, preview), |entries| + k);
    var rhs := AddFiles(entries, DeleteAt(files, k), preview);
    assert |lhs| == |rhs|;
    forall i | 0 <= i < |lhs|
      ensures lhs[i] == rhs[i]
    {
      if i >= |entries| {
        assert rhs[i] == rhs[|entries| + (i - |entries|)];
      }
    }
  }

  /** Deleting removes exactly one occurrence of the entry's value. */
  lemma DeleteRemovesOne<T>(xs: seq<T>, index: nat)
    requires index < |xs|
    ensures multiset(DeleteAt(xs, index)) == multiset(xs) - multiset{xs[index]}
  {
    assert xs == xs[..index] + [xs[index]] + xs[index + 1..];
  }
}
