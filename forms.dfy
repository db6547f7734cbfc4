/** The validation rules of `app/admin/forms.py`, as functions from the submitted
    values to the list of field errors (empty when the form validates).

    WTForms semantics used here: `DataRequired` rejects a value that is empty
    after stripping white space and stops that field's other validators;
    `Length` counts the code points of the raw (unstripped) value; `Optional`
    accepts a value that is empty after stripping and skips the rest of the
    chain; a multiple-choice field rejects any submitted value that is not one
    of its choices. Submitted strings are stored as given: no field strips. */
module Forms {

  import opened Seqs
  import opened Text
  import opened Models
  import opened Schema

  /** The form fields a validation error can be attached to. */
  datatype Field =
    | NameField | StagesField
    | ProductField | PartIdField | RouteTemplateField | DesignationField
    | UsernameField | RoleField | PasswordField

  datatype FormError =
    | Required(field: Field)
    | TooShort(field: Field)
    | TooLong(field: Field)
    | NotAChoice(field: Field)
    | NameTaken

  /** DataRequired() followed by Length(max=...). */
  function RequiredUpTo(field: Field, value: string, max: nat): (errs: seq<FormError>)
    ensures errs == [] <==> !IsBlank(value) && |value| <= max
  {
    if IsBlank(value) then [Required(field)]
    else if |value| > max then [TooLong(field)]
    else []
  }

  // ----- RouteTemplateForm -----

  /** `RouteTemplate.query.filter(RouteTemplate.name == name).first()`: an exact,
      case-sensitive match. */
  function FirstNamed(templates: seq<RouteTemplate>, name: string): Option<nat>
  {
    Find(templates, (t: RouteTemplate) => t.name == name)
  }

  /** `RouteTemplateForm.validate_name`. `editTarget` is the id of the template the
      form edits (the form's `obj`), or None on creation. On creation any
      template with that exact name is a collision; on edit only a template
      other than the target is. */
  function NameAvailable(templates: seq<RouteTemplate>, name: string, editTarget: Option<int>): (ok: bool)
    ensures editTarget.None? ==>
      (ok <==> forall i :: 0 <= i < |templates| ==> templates[i].name != name)
    ensures editTarget.Some? ==>
      (ok <==> forall i :: 0 <= i < |templates| && templates[i].name == name &&
                 (forall j :: 0 <= j < i ==> templates[j].name != name)
                 ==> templates[i].id == editTarget.value)
  {
    match FirstNamed(templates, name)
    case None => true
    case Some(k) => editTarget.Some? && templates[k].id == editTarget.value
  }

  /** Where template names are unique, the edit rule is: every template bearing
      the name is the one being edited. */
  lemma NameAvailableOnEdit(templates: seq<RouteTemplate>, name: string, target: int)
    requires Pairwise(templates, (a: RouteTemplate, b: RouteTemplate) => a.id != b.id && a.name != b.name)
    ensures NameAvailable(templates, name, Some(target)) <==>
      forall i :: 0 <= i < |templates| && templates[i].name == name ==> templates[i].id == target
  {
    if NameAvailable(templates, name, Some(target)) {
      forall i | 0 <= i < |templates| && templates[i].name == name
        ensures templates[i].id == target
      {
        forall j | 0 <= j < i ensures templates[j].name != name {
          assert ((a: RouteTemplate, b: RouteTemplate) => a.id != b.id && a.name != b.name)(templates[j], templates[i]);
        }
      }
    }
  }

  /** Where template names are unique, editing a template without renaming it
      is accepted by the rule above. */
  lemma NameAvailableKeepsOwnName(templates: seq<RouteTemplate>, k: nat)
    requires k < |templates|
    requires Pairwise(templates, (a: RouteTemplate, b: RouteTemplate) => a.id != b.id && a.name != b.name)
    ensures NameAvailable(templates, templates[k].name, Some(templates[k].id))
  {
    NameAvailableOnEdit(templates, templates[k].name, templates[k].id);
    forall i | 0 <= i < |templates| && templates[i].name == templates[k].name
      ensures templates[i].id == templates[k].id
    {
      if i < k {
        assert ((a: RouteTemplate, b: RouteTemplate) => a.id != b.id && a.name != b.name)(templates[i], templates[k]);
      } else if i > k {
        assert ((a: RouteTemplate, b: RouteTemplate) => a.id != b.id && a.name != b.name)(templates[k], templates[i]);
      }
    }
  }

  /** `validate_name` as the form class runs it. The edit branch tests
      `hasattr(self, 'obj')`, but a WTForms form does not keep the `obj` it was
      built from, so the creation branch runs on every submission and the
      template being edited is never exempt. */
  function ValidateNameAsWritten(templates: seq<RouteTemplate>, name: string, editTarget: Option<int>): (ok: bool)
    ensures ok <==> forall i :: 0 <= i < |templates| ==> templates[i].name != name
  {
    FirstNamed(templates, name).None?
  }

  /** The rule as written rejects an edit that keeps the template's own name,
      which the corrected rule accepts. */
  lemma ValidateNameAsWrittenRejectsOwnName(templates: seq<RouteTemplate>, k: nat)
    requires k < |templates|
    requires Pairwise(templates, (a: RouteTemplate, b: RouteTemplate) => a.id != b.id && a.name != b.name)
    ensures !ValidateNameAsWritten(templates, templates[k].name, Some(templates[k].id))
    ensures NameAvailable(templates, templates[k].name, Some(templates[k].id))
  {
    NameAvailableKeepsOwnName(templates, k);
  }

  /** The errors of a RouteTemplateForm submission. `stages` is the dictionary the
      stage choices come from; `stageIds` the submitted ids, in order. */
  function RouteFormErrors(templates: seq<RouteTemplate>, stages: seq<Stage>, name: string,
                           stageIds: seq<int>, editTarget: Option<int>): (errs: seq<FormError>)
    ensures errs == [] <==>
      && !IsBlank(name) && NameAvailable(templates, name, editTarget)
      && stageIds != [] && forall i :: 0 <= i < |stageIds| ==> IsStageId(stages, stageIds[i])
    ensures stageIds == [] ==> Required(StagesField) in errs
    ensures !IsBlank(name) && !NameAvailable(templates, name, editTarget) ==> NameTaken in errs
  {
    var nameErrs :=
      if IsBlank(name) then [Required(NameField)]
      else if !NameAvailable(templates, name, editTarget) then [NameTaken]
      else [];
    var stageErrs :=
      if stageIds == [] then [Required(StagesField)]
      else if exists i :: 0 <= i < |stageIds| && !IsStageId(stages, stageIds[i]) then [NotAChoice(StagesField)]
      else [];
    assert stageIds == [] ==> (nameErrs + stageErrs)[|nameErrs|] == Required(StagesField);
    assert !IsBlank(name) && !NameAvailable(templates, name, editTarget) ==> (nameErrs + stageErrs)[0] == NameTaken;
    nameErrs + stageErrs
  }

  // ----- StageDictionaryForm -----

  /** The stage name is required; nothing else is checked by the form. */
  function StageFormErrors(name: string): (errs: seq<FormError>)
    ensures errs == [] <==> !IsBlank(name)
    ensures errs != [] ==> errs == [Required(NameField)]
  {
    if IsBlank(name) then [Required(NameField)] else []
  }

  // ----- PartForm and EditPartForm -----

  /** The errors of a PartForm submission: product and part id are required and
      at most 100 characters long; the route must be one of the templates. */
  function PartFormErrors(templates: seq<RouteTemplate>, product: string, partId: string,
                          templateChoice: int): (errs: seq<FormError>)
    ensures errs == [] <==>
      && !IsBlank(product) && |product| <= 100
      && !IsBlank(partId) && |partId| <= 100
      && IsTemplateId(templates, templateChoice)
  {
    RequiredUpTo(ProductField, product, 100) + RequiredUpTo(PartIdField, partId, 100)
    + (if IsTemplateId(templates, templateChoice) then [] else [NotAChoice(RouteTemplateField)])
  }

  /** The errors of an EditPartForm submission. */
  function EditPartFormErrors(designation: string): (errs: seq<FormError>)
    ensures errs == [] <==> !IsBlank(designation) && |designation| <= 100
  {
    RequiredUpTo(DesignationField, designation, 100)
  }

  // ----- UserBaseForm, AddUserForm, EditUserForm -----

  /** Username: required, 3 to 64 characters. Role: required. */
  function UserBaseErrors(username: string, role: string): (errs: seq<FormError>)
    ensures errs == [] <==> !IsBlank(username) && 3 <= |username| <= 64 && !IsBlank(role)
  {
    (if IsBlank(username) then [Required(UsernameField)]
     else if |username| < 3 then [TooShort(UsernameField)]
     else if |username| > 64 then [TooLong(UsernameField)]
     else [])
    + (if IsBlank(role) then [Required(RoleField)] else [])
  }

  /** A new user's password is required and at least 6 characters long. */
  function AddUserFormErrors(username: string, role: string, password: string): (errs: seq<FormError>)
    ensures errs == [] <==>
      UserBaseErrors(username, role) == [] && !IsBlank(password) && |password| >= 6
  {
    UserBaseErrors(username, role)
    + (if IsBlank(password) then [Required(PasswordField)]
       else if |password| < 6 then [TooShort(PasswordField)]
       else [])
  }

  /** On edit the password may be left out. `Optional` treats a value that is
      only white space as left out, so that value passes whatever its length. */
  function EditUserFormErrors(username: string, role: string, password: string): (errs: seq<FormError>)
    ensures errs == [] <==>
      UserBaseErrors(username, role) == [] && (IsBlank(password) || |password| >= 6)
  {
    UserBaseErrors(username, role)
    + (if !IsBlank(password) && |password| < 6 then [TooShort(PasswordField)] else [])
  }
}
