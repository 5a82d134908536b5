/** The project-creation form: field edits with per-field validation, the
    comma-separated tag input, the archive toggle and the submit guard. */
module ProjectCreation {
  import opened Js
  import opened Text
  import opened Lists

  /** The four text inputs of the form. */
  datatype Field = Title | Description | DueDate | Priority {
    /** The input's `name` attribute, which is also its error-map key. */
    function Name(): string {
      match this
      case Title => "title"
      case Description => "description"
      case DueDate => "due_date"
      case Priority => "priority"
    }
  }

  datatype ProjectForm = ProjectForm(
    title: string,
    description: string,
    dueDate: string,
    priority: string,
    tags: seq<string>,
    teamMembers: seq<string>,
    uid: Option<string>,
    archived: Option<bool>)

  const EmptyForm := ProjectForm("", "", "", "", [], [], None, None)

  type Errors = map<string, string>

  /** The key a failed request leaves in the error map. */
  const SubmitKey := "submit"

  /** Membership in `["title", "description", "due_date", "priority"]`. */
  predicate IsRequired(field: string) {
    field == "title" || field == "description" || field == "due_date" || field == "priority"
  }

  function Get(f: ProjectForm, field: Field): string {
    match field
    case Title => f.title
    case Description => f.description
    case DueDate => f.dueDate
    case Priority => f.priority
  }

  /** `${field.replace("_", " ")} is required`: the field name with its
      first underscore turned into a space, then " is required". */
  function RequiredMessage(field: string): (m: string)
    ensures |m| == |field| + 12
    ensures m[|field|..] == " is required"
    ensures '_' !in field ==> m == field + " is required"
    ensures '_' in field ==> m == field[IndexOf(field, '_') := ' '] + " is required"
  {
    ReplaceFirst(field, '_', ' ') + " is required"
  }

  /** The first underscore of a field name reads as a space in its
      message and a later one stays, so `due_date` is reported as
      "due date is required". */
  lemma UnderscoreMessage(a: string, b: string)
    requires '_' !in a
    ensures RequiredMessage(a + "_" + b) == a + " " + b + " is required"
  {
    var s := a + "_" + b;
    assert s[..|a|] == a;
    IndexOfAt(s, '_', |a|);
    assert s[|a| := ' '] == a + " " + b;
  }

  /** The error map carries `name`'s message exactly when `value` is blank. */
  predicate Checked(r: Errors, name: string, value: string) {
    (name in r <==> IsBlank(value)) && (name in r ==> r[name] == RequiredMessage(name))
  }

  /** `r` and `errors` agree on every key other than `field`. */
  ghost predicate AgreeExcept(r: Errors, errors: Errors, field: string) {
    forall k :: k != field ==> (k in r <==> k in errors) && (k in r ==> r[k] == errors[k])
  }

  /** Validation of one field: a required field whose value is blank gets
      its message, a required field with a value loses its entry, and any
      other field name leaves the map alone. */
  function ValidateField(errors: Errors, field: string, value: string): (r: Errors)
    ensures !IsRequired(field) ==> r == errors
    ensures IsRequired(field) ==> Checked(r, field, value)
    ensures AgreeExcept(r, errors, field)
  {
    if IsRequired(field) then
      if IsBlank(value) then errors[field := RequiredMessage(field)] else errors - {field}
    else errors
  }

  /** Validation of the whole form: the rule applied to exactly the four
      required fields; every other key (such as `submit`) stays. */
  function ValidateAll(errors: Errors, form: ProjectForm): (r: Errors)
    ensures Checked(r, "title", form.title)
    ensures Checked(r, "description", form.description)
    ensures Checked(r, "due_date", form.dueDate)
    ensures Checked(r, "priority", form.priority)
    ensures forall k :: !IsRequired(k) ==> (k in r <==> k in errors) && (k in r ==> r[k] == errors[k])
  {
    var e1 := ValidateField(errors, "title", form.title);
    var e2 := ValidateField(e1, "description", form.description);
    var e3 := ValidateField(e2, "due_date", form.dueDate);
    var e4 := ValidateField(e3, "priority", form.priority);
    assert Checked(e2, "title", form.title);
    assert Checked(e3, "title", form.title) && Checked(e3, "description", form.description);
    e4
  }

  /** `validateForm()` with no argument: the form is valid exactly when all
      four required fields are filled in and no other error is recorded. */
  lemma FormValidIff(errors: Errors, form: ProjectForm)
    ensures |ValidateAll(errors, form)| == 0 <==>
      && !IsBlank(form.title) && !IsBlank(form.description)
      && !IsBlank(form.dueDate) && !IsBlank(form.priority)
      && (forall k :: k in errors ==> IsRequired(k))
  {
    var r := ValidateAll(errors, form);
    if |r| == 0 {
      assert "title" !in r && "description" !in r && "due_date" !in r && "priority" !in r;
    } else {
      var k :| k in r;
      if !IsRequired(k) {
        assert k in errors;
      } else if k == "title" {
      } else if k == "description" {
      } else if k == "due_date" {
      } else {
        assert k == "priority";
      }
    }
  }

  /** Once a failed request has recorded `submit`, whole-form validation
      keeps failing: nothing ever removes that key. */
  lemma SubmitErrorSticks(errors: Errors, form: ProjectForm, field: string, value: string)
    requires SubmitKey in errors
    ensures SubmitKey in ValidateAll(errors, form)
    ensures SubmitKey in ValidateField(errors, field, value)
    ensures |ValidateAll(errors, form)| != 0
  {
  }

  /** The tag input: split on ",", trim every piece, drop the empty ones. */
  function ParseTags(value: string): (tags: seq<string>)
    ensures |tags| <= Count(value, ',') + 1
    ensures forall i :: 0 <= i < |tags| ==> tags[i] != [] && Trimmed(tags[i]) && ',' !in tags[i]
  {
    KeepNonEmpty(TrimAll(Split(value, ',')))
  }

  function TrimAll(pieces: seq<string>): (r: seq<string>)
    ensures |r| == |pieces|
    ensures forall i :: 0 <= i < |r| ==> r[i] == Trim(pieces[i])
  {
    seq(|pieces|, i requires 0 <= i < |pieces| => Trim(pieces[i]))
  }

  function NonEmpty(): string -> bool {
    (p: string) => p != []
  }

  /** The pieces that are not empty, in their original order. */
  function KeepNonEmpty(pieces: seq<string>): (r: seq<string>)
    ensures |r| <= |pieces|
    ensures forall i :: 0 <= i < |r| ==> r[i] != [] && r[i] in pieces
    ensures forall p :: p in pieces && p != [] ==> p in r
    ensures (forall i :: 0 <= i < |pieces| ==> pieces[i] != []) ==> r == pieces
  {
    var r := Filter(pieces, NonEmpty());
    assert forall i :: 0 <= i < |r| ==> r[i] in r;
    r
  }

  /** Trimming and dropping empty pieces both work piece by piece, so the
      tags of two runs of pieces are those of the first run, then those of
      the second. */
  lemma TagsAppend(a: seq<string>, b: seq<string>)
    ensures KeepNonEmpty(TrimAll(a + b)) == KeepNonEmpty(TrimAll(a)) + KeepNonEmpty(TrimAll(b))
  {
    assert TrimAll(a + b) == TrimAll(a) + TrimAll(b);
    FilterAppend(TrimAll(a), TrimAll(b), NonEmpty());
  }

  /** Pieces without commas, written with commas between them and with any
      spacing inside each piece, parse to the trimmed pieces that are not
      blank, in the order they were written. */
  lemma ParseTagsOfJoin(pieces: seq<string>)
    requires |pieces| >= 1
    requires forall i :: 0 <= i < |pieces| ==> ',' !in pieces[i]
    ensures ParseTags(Join(pieces, ',')) == KeepNonEmpty(TrimAll(pieces))
  {
    SplitJoin(pieces, ',');
  }

  /** In particular a list of clean tags survives being written out with
      commas and parsed again. */
  lemma ParseTagsOfCleanJoin(tags: seq<string>)
    requires |tags| >= 1
    requires forall i :: 0 <= i < |tags| ==> tags[i] != [] && Trimmed(tags[i]) && ',' !in tags[i]
    ensures ParseTags(Join(tags, ',')) == tags
  {
    ParseTagsOfJoin(tags);
    TrimAllTrimmed(tags);
  }

  /** Trimming pieces that are already trimmed changes nothing. */
  lemma TrimAllTrimmed(pieces: seq<string>)
    requires forall i :: 0 <= i < |pieces| ==> Trimmed(pieces[i])
    ensures TrimAll(pieces) == pieces
  {
  }

  /** The form with one text input replaced. */
  function SetField(form: ProjectForm, field: Field, value: string): (f: ProjectForm)
    ensures Get(f, field) == value
    ensures forall g: Field :: g != field ==> Get(f, g) == Get(form, g)
    ensures f.tags == form.tags && f.teamMembers == form.teamMembers
    ensures f.uid == form.uid && f.archived == form.archived
  {
    match field
    case Title => form.(title := value)
    case Description => form.(description := value)
    case DueDate => form.(dueDate := value)
    case Priority => form.(priority := value)
  }

  /** `handleInputChange`: the named field takes the typed value and is
      re-validated; no other field and no other error changes. */
  function InputChange(form: ProjectForm, errors: Errors, field: Field, value: string): (r: (ProjectForm, Errors))
    ensures r.0 == SetField(form, field, value)
    ensures Checked(r.1, field.Name(), value)
    ensures AgreeExcept(r.1, errors, field.Name())
  {
    assert IsRequired(field.Name());
    (SetField(form, field, value), ValidateField(errors, field.Name(), value))
  }

  /** The archive toggle: `!prev.archived`, where a missing flag reads false. */
  function ToggleArchived(form: ProjectForm): (r: ProjectForm)
    ensures r.archived.Some? && r.archived.value == !form.archived.GetOr(false)
    ensures r.(archived := form.archived) == form
  {
    form.(archived := Some(!form.archived.GetOr(false)))
  }

  /** Two toggles restore the flag's truth value, and the flag itself once it
      has been set; from the initial missing flag they leave `Some(false)`. */
  lemma ToggleArchivedTwice(form: ProjectForm)
    ensures ToggleArchived(ToggleArchived(form)).archived.GetOr(false) == form.archived.GetOr(false)
    ensures form.archived.Some? ==> ToggleArchived(ToggleArchived(form)) == form
    ensures form.archived.None? ==> ToggleArchived(ToggleArchived(form)).archived == Some(false)
  {
  }

  /** What submitting did: nothing sent, a navigation to the new project, or
      a failed request. */
  datatype SubmitResult =
    | NotSent(errors: Errors)
    | Created(errors: Errors, path: string)
    | RequestFailed(errors: Errors)

  /** `submitProject`: whole-form validation first; only a valid form is
      posted. `server` is the created project's uid, or None when the
      request throws. */
  function Submit(form: ProjectForm, errors: Errors, server: Option<string>): (r: SubmitResult)
    ensures |ValidateAll(errors, form)| != 0 <==> r.NotSent?
    ensures r.NotSent? ==> r.errors == ValidateAll(errors, form)
    ensures r.Created? ==> server.Some? && r.path == "/project/" + server.value
    ensures r.RequestFailed? ==>
      server.None? && SubmitKey in r.errors
      && r.errors[SubmitKey] == "Unable to submit project. Please try again."
  {
    var checked := ValidateAll(errors, form);
    if |checked| != 0 then NotSent(checked)
    else match server
      case Some(uid) => Created(checked, "/project/" + uid)
      case None => RequestFailed(checked[SubmitKey := "Unable to submit project. Please try again."])
  }

  /** A valid form whose request fails can never be submitted again, with
      whatever later edits. */
  lemma FailedSubmitBlocksLaterSubmits(form: ProjectForm, errors: Errors, form': ProjectForm, server: Option<string>)
    requires !IsBlank(form.title) && !IsBlank(form.description)
    requires !IsBlank(form.dueDate) && !IsBlank(form.priority)
    requires forall k :: k in errors ==> IsRequired(k)
    ensures Submit(form, errors, None).RequestFailed?
    ensures Submit(form', Submit(form, errors, None).errors, server).NotSent?
  {
    FormValidIff(errors, form);
    SubmitErrorSticks(Submit(form, errors, None).errors, form', "", "");
  }
}
