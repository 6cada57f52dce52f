/** The users page: the add/edit form, the request a save sends, the form reset after a
    successful save, and the form an edit pre-fills from a user record. The request's outcome
    is a parameter. */
module UsersView {
  import opened Wrappers
  import opened JsText
  import opened JsValues

  const DefaultPassword: string := "12345678"
  const EditPassword: string := "...."

  /** The form's fields; `phone` exists only once a save has reset the form. */
  datatype UserForm = UserForm(firstName: string, lastName: string, email: string, password: string, phone: Option<string>)

  /** The page state the handlers touch. */
  datatype Page = Page(modalOpen: bool, form: UserForm, editingUserId: Value)

  const InitialForm: UserForm := UserForm("", "", "", DefaultPassword, None)
  const ResetForm: UserForm := UserForm("", "", "", DefaultPassword, Some(""))
  const Initial: Page := Page(false, InitialForm, Null)

  /** The request a save sends: an edit of the user being edited, or a new user carrying the
      whole form. */
  datatype Request =
    | EditUser(id: Value, name: string, email: string, password: string)
    | CreateUser(form: UserForm, name: string)

  /** `${firstName} ${lastName}`. */
  function FullName(f: UserForm): (r: string)
    ensures |r| == |f.firstName| + 1 + |f.lastName|
    ensures r[..|f.firstName|] == f.firstName && r[|f.firstName|] == ' ' && r[|f.firstName| + 1..] == f.lastName
  {
    f.firstName + " " + f.lastName
  }

  /** The required-field check: first name, last name and e-mail all non-empty. */
  predicate Complete(f: UserForm) {
    f.firstName != "" && f.lastName != "" && f.email != ""
  }

  /** The request `handleSave` sends, `None` when the form is refused. */
  function SaveRequest(p: Page): (r: Option<Request>)
    ensures r.None? <==> !Complete(p.form)
    ensures r.Some? ==> (r.value.EditUser? <==> Truthy(p.editingUserId))
    ensures r.Some? && r.value.EditUser? ==> r.value == EditUser(p.editingUserId, FullName(p.form), p.form.email, p.form.password)
    ensures r.Some? && r.value.CreateUser? ==> r.value == CreateUser(p.form, FullName(p.form))
  {
    if !Complete(p.form) then None
    else if Truthy(p.editingUserId) then Some(EditUser(p.editingUserId, FullName(p.form), p.form.email, p.form.password))
    else Some(CreateUser(p.form, FullName(p.form)))
  }

  /** `handleSave` once the request has settled: a refused form or a failed request leaves the
      page as it was; a successful one closes the modal, forgets the edited user and resets the
      form. */
  function Save(p: Page, succeeded: bool): (r: Page)
    ensures SaveRequest(p).None? || !succeeded ==> r == p
    ensures SaveRequest(p).Some? && succeeded ==> r == Page(false, ResetForm, Null)
  {
    if SaveRequest(p).Some? && succeeded then Page(false, ResetForm, Null) else p
  }

  /** A successful save lands on an empty form ready for a new user: saving it again is refused. */
  lemma SaveResetsForm(p: Page)
    requires Complete(p.form)
    ensures Save(p, true).form == ResetForm && !Save(p, true).modalOpen
    ensures SaveRequest(Save(p, true)).None?
  {
  }

  // ---------------------------------------------------------------------------
  // edit

  /** `handleEdit`: the first space-separated token as first name, the second (or "") as last
      name, the user's e-mail, and the placeholder password. */
  function EditForm(name: string, email: string): (r: UserForm)
    ensures r.firstName == Split(name, " ")[0]
    ensures |Split(name, " ")| >= 2 ==> r.lastName == Split(name, " ")[1]
    ensures |Split(name, " ")| < 2 ==> r.lastName == ""
    ensures r.email == email && r.password == EditPassword && r.phone.None?
  {
    var parts := Split(name, " ");
    UserForm(parts[0], if |parts| >= 2 && parts[1] != "" then parts[1] else "", email, EditPassword, None)
  }

  function Edit(p: Page, id: Value, name: string, email: string): (r: Page)
    ensures r.modalOpen && r.editingUserId == id && r.form == EditForm(name, email)
  {
    Page(true, EditForm(name, email), id)
  }

  /** A two-word name comes back unchanged: edit then save sends the same name, to the same
      user, with the placeholder password. */
  lemma EditThenSaveKeepsTwoWordName(p: Page, id: Value, first: string, last: string, email: string)
    requires Truthy(id) && first != "" && last != "" && email != ""
    requires ' ' !in first && ' ' !in last
    ensures SaveRequest(Edit(p, id, first + " " + last, email)) == Some(EditUser(id, first + " " + last, email, EditPassword))
  {
    SplitAtFirst(first, ' ', last);
    SplitWithoutSeparator(last, ' ');
  }

  /** A third word is dropped: "A B C" is sent back as "A B". */
  lemma EditThenSaveDropsThirdWord(p: Page, id: Value, a: string, b: string, c: string, email: string)
    requires Truthy(id) && a != "" && b != "" && email != ""
    requires ' ' !in a && ' ' !in b
    ensures SaveRequest(Edit(p, id, a + " " + b + " " + c, email)) == Some(EditUser(id, a + " " + b, email, EditPassword))
  {
    assert a + " " + b + " " + c == a + [' '] + (b + [' '] + c);
    SplitAtFirst(a, ' ', b + [' '] + c);
    SplitAtFirst(b, ' ', c);
  }

  /** A one-word name leaves the last name empty, so saving the edit is refused until a last
      name is typed. */
  lemma OneWordNameCannotBeSaved(p: Page, id: Value, name: string, email: string)
    requires ' ' !in name
    ensures SaveRequest(Edit(p, id, name, email)).None?
  {
    SplitWithoutSeparator(name, ' ');
  }
}
