/** The add-user form: its schema, its defaults, and what a submit does. */
module AddUser {
  import opened Wrappers
  import opened Users
  import opened UserContext
  import opened ImageUpload

  /** The form's fields: the record without identifier and photo. */
  datatype FormInputs = FormInputs(name: string, email: string, role: string, status: string)

  const Roles: set<string> := {"Admin", "User", "Guest"}
  const Statuses: set<string> := {"Active", "Inactive"}

  /** The form's `defaultValues`; name and email start empty. */
  const DefaultValues: FormInputs := FormInputs("", "", "User", "Active")

  function FormField(data: FormInputs, f: Field): string {
    match f
    case Name => data.name
    case Email => data.email
    case Role => data.role
    case Status => data.status
  }

  /** A form field's input event. */
  function SetFormField(data: FormInputs, f: Field, v: string): (r: FormInputs)
    ensures FormField(r, f) == v
    ensures forall g :: g != f ==> FormField(r, g) == FormField(data, g)
  {
    match f
    case Name => data.(name := v)
    case Email => data.(email := v)
    case Role => data.(role := v)
    case Status => data.(status := v)
  }

  /**
   * The fields the schema rejects. `isEmail` is the email-format test of the
   * validation library. Name and email are required (non-empty); role and
   * status must be members of their enumerations.
   */
  function InvalidFields(data: FormInputs, isEmail: string -> bool): (bad: set<Field>)
    ensures Name in bad <==> data.name == ""
    ensures Email in bad <==> data.email == "" || !isEmail(data.email)
    ensures Role in bad <==> data.role !in Roles
    ensures Status in bad <==> data.status !in Statuses
    ensures bad == {} <==> data.name != "" && data.email != "" && isEmail(data.email)
                           && data.role in Roles && data.status in Statuses
  {
    (if data.name == "" then {Name} else {})
    + (if data.email == "" || !isEmail(data.email) then {Email} else {})
    + (if data.role !in Roles then {Role} else {})
    + (if data.status !in Statuses then {Status} else {})
  }

  /** The defaults satisfy the role and status rules; only name and email are still missing. */
  lemma DefaultsValidEnums(isEmail: string -> bool)
    ensures InvalidFields(DefaultValues, isEmail) == {Name, Email}
  {
  }

  /** `{ ...data, profilePhoto }`: the record `addUser` receives. */
  function Compose(data: FormInputs, profilePhoto: string): (d: UserData)
    ensures d.name == data.name && d.email == data.email
    ensures d.role == data.role && d.status == data.status
    ensures d.profilePhoto == profilePhoto
  {
    UserData(data.name, data.email, data.role, data.status, profilePhoto)
  }

  class AddUserPage {
    /** The form values held by the form library. */
    var form: FormInputs
    /** `profilePhoto`: the data URL of the last accepted image, `''` if none. */
    var profilePhoto: string
    var isSubmitting: bool

    constructor ()
      ensures form == DefaultValues && profilePhoto == "" && !isSubmitting
    {
      form := DefaultValues;
      profilePhoto := "";
      isSubmitting := false;
    }

    method SetField(f: Field, v: string)
      modifies this
      ensures form == SetFormField(old(form), f, v)
      ensures profilePhoto == old(profilePhoto) && isSubmitting == old(isSubmitting)
    {
      form := SetFormField(form, f, v);
    }

    /** The picker's change event; only an accepted file replaces the photo. */
    method ChoosePhoto(uploader: ImageUploader, file: Option<File>, dataUrl: string)
      returns (outcome: UploadOutcome)
      modifies this, uploader
      ensures file.None? ==> outcome == NoFile
      ensures file.Some? && CheckFile(file.value).Some? ==> outcome == Rejected(CheckFile(file.value).value)
      ensures file.Some? && CheckFile(file.value).None? ==> outcome == Accepted(dataUrl)
      ensures profilePhoto == if outcome.Accepted? then dataUrl else old(profilePhoto)
      ensures uploader.preview == if outcome.Accepted? then Some(dataUrl) else old(uploader.preview)
      ensures form == old(form) && isSubmitting == old(isSubmitting)
    {
      outcome := uploader.HandleImageUpload(file, dataUrl);
      if outcome.Accepted? {
        profilePhoto := outcome.photo;
      }
    }

    /**
     * `handleSubmit(onSubmit)`: when the schema rejects a field nothing changes;
     * otherwise the store gains the form's record with the current photo and the
     * generated identifier, the form goes back to its defaults, and the page is
     * no longer submitting.
     */
    method HandleSubmit(store: UserStore, isEmail: string -> bool, newId: string) returns (errors: set<Field>)
      requires store.Valid()
      modifies this, store
      ensures store.Valid()
      ensures errors == InvalidFields(old(form), isEmail)
      ensures errors != {} ==> store.users == old(store.users) && form == old(form)
                               && isSubmitting == old(isSubmitting)
      ensures errors == {} ==> store.users == old(store.users) + [WithId(Compose(old(form), old(profilePhoto)), newId)]
                               && form == DefaultValues && !isSubmitting
      ensures errors == {} && DistinctIds(old(store.users)) && newId !in Ids(old(store.users))
              ==> DistinctIds(store.users)
      ensures profilePhoto == old(profilePhoto)
    {
      errors := InvalidFields(form, isEmail);
      if errors != {} {
        return;
      }
      isSubmitting := true;
      store.AddUser(Compose(form, profilePhoto), newId);
      form := DefaultValues;
      isSubmitting := false;
    }
  }
}
