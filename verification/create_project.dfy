/** The "Create Project" form: five text fields, all required after trimming, sent
    to `createProject` as one object. */
module CreateProject {
  import opened Common
  import WalletContext

  /** The form object, keyed by input id. */
  type Form = map<string, string>

  const EmptyForm: Form := map["title" := "", "description" := "", "budget" := "", "deadline" := "", "image" := ""]

  /** `handleChange`: the field named by the input's id takes the typed value. */
  function HandleChange(form: Form, id: string, value: string): (r: Form)
    ensures r.Keys == form.Keys + {id}
    ensures r[id] == value
    ensures forall k :: k in form && k != id ==> r[k] == form[k]
  {
    SetField(form, id, value)
  }

  /** `Object.values(form).every((field) => field.trim() !== "")`. */
  predicate IsFormValid(form: Form) {
    forall k :: k in form ==> Trim(form[k]) != ""
  }

  /** A form is valid exactly when no field is blank, so a field of spaces fails. */
  lemma ValidIffNoBlankField(form: Form)
    ensures IsFormValid(form) <==> forall k :: k in form ==> !IsBlank(form[k])
  {
    forall k | k in form {
      TrimEmptyIffBlank(form[k]);
    }
  }

  /** On the five-field form, validity is each of the five fields being non-blank. */
  lemma ValidFiveFields(form: Form)
    requires form.Keys == EmptyForm.Keys
    ensures IsFormValid(form) <==>
              && !IsBlank(form["title"]) && !IsBlank(form["description"]) && !IsBlank(form["budget"])
              && !IsBlank(form["deadline"]) && !IsBlank(form["image"])
  {
    var names := {"title", "description", "budget", "deadline", "image"};
    assert EmptyForm.Keys == names;
    ValidIffNoBlankField(form);
    if !IsBlank(form["title"]) && !IsBlank(form["description"]) && !IsBlank(form["budget"])
       && !IsBlank(form["deadline"]) && !IsBlank(form["image"]) {
      forall k | k in form
        ensures !IsBlank(form[k])
      {
        assert k in names;
      }
    }
  }

  /** The empty form and any form with a whitespace-only field are invalid. */
  lemma BlankFieldInvalidates(form: Form, k: string)
    requires k in form && IsBlank(form[k])
    ensures !IsFormValid(form)
  {
    TrimEmptyIffBlank(form[k]);
  }

  /** The page state. */
  datatype Page = Page(form: Form, loading: bool)

  /** What a submit did: the resulting state, the object passed to `createProject`
      (if it was called) and where the page navigated (if it did). */
  datatype Submitted = Submitted(page: Page, call: Option<Form>, navigateTo: Option<string>)

  /** `handleSubmit`: an invalid form makes no call and changes nothing; a valid form
      is passed as is, and on success the form resets and the page goes home. On
      either outcome `loading` ends false. */
  function HandleSubmit(p: Page, outcome: CallOutcome): (r: Submitted)
    ensures !IsFormValid(p.form) ==> r == Submitted(p, None, None)
    ensures IsFormValid(p.form) ==> r.call == Some(p.form) && !r.page.loading
    ensures IsFormValid(p.form) && outcome.Resolved? ==> r.page.form == EmptyForm && r.navigateTo == Some("/")
    ensures IsFormValid(p.form) && outcome.Threw? ==> r.page.form == p.form && r.navigateTo.None?
    ensures r.call.Some? ==> IsFormValid(r.call.value)
  {
    if !IsFormValid(p.form) then Submitted(p, None, None)
    else match outcome
      case Resolved => Submitted(Page(EmptyForm, false), Some(p.form), Some("/"))
      case Threw => Submitted(Page(p.form, false), Some(p.form), None)
  }

  /** After a successful submit the form is empty again, so submitting it at once
      makes no second call. */
  lemma NoResubmitAfterSuccess(p: Page)
    requires IsFormValid(p.form)
    ensures HandleSubmit(HandleSubmit(p, Resolved).page, Resolved).call.None?
  {
    assert IsBlank(EmptyForm["title"]);
    BlankFieldInvalidates(EmptyForm, "title");
  }

  /** The context carries no `createProject`, so a valid submit always throws:
      the form is kept, loading ends and the page never navigates. */
  lemma ContextSubmitNeverCompletes(p: Page, outcome: CallOutcome)
    requires IsFormValid(p.form)
    ensures var r := HandleSubmit(p, WalletContext.CallThroughContext("createProject", outcome));
            && r.call == Some(p.form) && r.navigateTo.None? && r.page == Page(p.form, false)
  {
  }
}
