/** The "Update Profile" form: name, image and about are required (untrimmed),
    email, twitter and github are optional, and the form is sent through the
    context's `updateProfile` under renamed keys. */
module UpdateProfile {
  import opened Common
  import opened WalletContext

  /** The form object, keyed by input name. */
  type Form = map<string, string>

  const EmptyForm: Form := map["name" := "", "image" := "", "about" := "", "email" := "", "twitter" := "", "github" := ""]

  const MissingFieldsAlert: string := "Please fill in all required fields (name, image, about)"
  const NotReadyAlert: string := "Contracts not ready. Please try again shortly."
  const FailedAlert: string := "Something went wrong updating your profile."

  /** `form.key`: `undefined` when the form has no such key. */
  function FormField(form: Form, key: string): Option<string> {
    if key in form then Some(form[key]) else None
  }

  /** `handleChange`: the field named by the input's name takes the typed value. */
  function HandleChange(form: Form, name: string, value: string): (r: Form)
    ensures FormField(r, name) == Some(value)
    ensures forall k :: k != name ==> FormField(r, k) == FormField(form, k)
  {
    SetField(form, name, value)
  }

  /** `!form.name || !form.image || !form.about` is false. No trimming: a field of
      spaces passes. */
  predicate RequiredFilled(form: Form) {
    Truthy(FormField(form, "name")) && Truthy(FormField(form, "image")) && Truthy(FormField(form, "about"))
  }

  /** The object `handleSubmit` passes to `updateProfile`: name goes out as `title`,
      about as `description`, email as `mail`; image, twitter and github keep their
      names. */
  function Payload(form: Form): (r: Payload)
    ensures Field(r, "title") == FormField(form, "name")
    ensures Field(r, "description") == FormField(form, "about")
    ensures Field(r, "image") == FormField(form, "image")
    ensures Field(r, "mail") == FormField(form, "email")
    ensures Field(r, "twitter") == FormField(form, "twitter")
    ensures Field(r, "github") == FormField(form, "github")
    ensures "name" !in r && "about" !in r
  {
    map["title" := FormField(form, "name"), "description" := FormField(form, "about"),
        "image" := FormField(form, "image"), "mail" := FormField(form, "email"),
        "twitter" := FormField(form, "twitter"), "github" := FormField(form, "github")]
  }

  /** What a submit did: `loading` afterwards, the contract call made (if any), the
      navigation (if any) and the alert shown (if any). */
  datatype Submitted = Submitted(loading: bool, call: Option<ProfileArgs>, navigateTo: Option<string>, alert: Option<string>)

  /** `handleSubmit`: the required-field check comes first, then readiness; either
      failure alerts and makes no call. Otherwise `updateProfile` runs; if it throws
      the user is alerted, if not the page goes to the profile; `loading` ends false. */
  function HandleSubmit(form: Form, loading: bool, s: Session, tx: TxOutcome): (r: Submitted)
    ensures !RequiredFilled(form) ==> r == Submitted(loading, None, None, Some(MissingFieldsAlert))
    ensures RequiredFilled(form) && !s.contractsReady ==> r == Submitted(loading, None, None, Some(NotReadyAlert))
    ensures RequiredFilled(form) && s.contractsReady ==>
              && !r.loading
              && r.call == UpdateProfile(s, Payload(form), tx).call
              && (r.navigateTo == Some("/profile") <==> UpdateProfile(s, Payload(form), tx).error.None?)
              && (r.alert == Some(FailedAlert) <==> UpdateProfile(s, Payload(form), tx).error.Some?)
  {
    if !RequiredFilled(form) then Submitted(loading, None, None, Some(MissingFieldsAlert))
    else if !s.contractsReady then Submitted(loading, None, None, Some(NotReadyAlert))
    else
      var u := UpdateProfile(s, Payload(form), tx);
      if u.error.None? then Submitted(false, u.call, Some("/profile"), None)
      else Submitted(false, u.call, None, Some(FailedAlert))
  }

  /** Only name, image and about are required: the optional fields may be empty. */
  lemma OptionalFieldsMayBeEmpty(name: string, image: string, about: string)
    requires name != "" && image != "" && about != ""
    ensures RequiredFilled(EmptyForm["name" := name]["image" := image]["about" := about])
  {
  }

  /** The profile contract never receives the name or the about text typed into the
      form: the payload carries them as `title` and `description`, while
      `updateProfile` reads `name` and `about`. The other four fields arrive. */
  lemma NameAndAboutNeverReachContract(form: Form, s: Session, tx: TxOutcome)
    requires RequiredFilled(form) && s.contractsReady && s.contracts.Some? && s.contracts.value.userProfile
    ensures var r := HandleSubmit(form, true, s, tx);
            && r.call.Some?
            && r.call.value.name.None? && r.call.value.about.None?
            && r.call.value.image == FormField(form, "image")
            && r.call.value.mail == FormField(form, "email")
            && r.call.value.twitter == FormField(form, "twitter")
            && r.call.value.github == FormField(form, "github")
  {
  }
}
