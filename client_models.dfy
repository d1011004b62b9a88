/** The client's form models and their data-annotation rules, and how they
    relate to the validators the services run on the same data. */
module ClientModels {
  import opened Wrappers
  import opened Text
  import opened Rules
  import opened FileModel
  import opened FileMapping
  import opened FileValidators
  import opened AuthModel
  import opened AuthValidators

  /** `RegisterViewModel`: the registration form. */
  datatype RegisterViewModel = RegisterViewModel(name: Option<string>, email: Option<string>, password: Option<string>)

  /** The form's annotations: a required name of at most 50 characters, a
      required e-mail in e-mail form, and a required password of 8 to 100
      characters matching the strength pattern. */
  predicate RegisterViewModelValid(m: RegisterViewModel) {
    NotEmpty(m.name) && StringLength(m.name, 0, 50)
    && NotEmpty(m.email) && IsEmailAddress(m.email)
    && NotEmpty(m.password) && StringLength(m.password, 8, 100) && StrongPasswordPattern(m.password)
  }

  /** The registration request the form is sent as: the three fields by name. */
  function RegisterRequestOf(m: RegisterViewModel): RegisterCommand {
    RegisterCommand(m.name, m.email, m.password)
  }

  /** A password the form accepts also passes the service's password rules. */
  lemma {:induction false} ClientPasswordPassesServer(p: Option<string>)
    requires NotEmpty(p) && StringLength(p, 8, 100) && StrongPasswordPattern(p)
    ensures RegisterPasswordValid(p)
  {
    assert p.value != "" by {
      NotEmptyMeans(p);
    }
  }

  /** Every registration form the client accepts passes `RegisterCommandValidator`. */
  lemma {:induction false} ClientRegisterPassesServer(m: RegisterViewModel)
    requires RegisterViewModelValid(m)
    ensures RegisterCommandValid(RegisterRequestOf(m))
  {
    ClientPasswordPassesServer(m.password);
  }

  /** Not the other way round: the service takes a password with a line feed
      in it, which the form's pattern refuses. */
  lemma ServerPasswordFailsClient()
    ensures RegisterPasswordValid(Some("Aa1!aaaa\n"))
    ensures !StrongPasswordPattern(Some("Aa1!aaaa\n"))
  {
    var p := "Aa1!aaaa\n";
    assert !IsWhiteSpace(p[0]);
    assert IsAsciiUpper(p[0]) && IsDigit(p[2]) && IsSpecial(p[3]);
    assert p[8] == '\n';
  }

  /** `UpdateFileViewModel`: the file edit form. */
  datatype UpdateFileViewModel = UpdateFileViewModel(
    id: int,
    name: Option<string>,
    description: Option<string>,
    visibility: Option<string>,
    sharedUserIds: Option<string>,
    permission: Option<string>)

  /** The form's annotations: a required name of at most 255 characters, a
      description of at most 1000 and a required visibility. `Permission` is
      a non-nullable `string` in a nullable context, so MVC requires it as it
      would with `[Required]`; the id and the optional id list carry no rule. */
  predicate UpdateFileViewModelValid(m: UpdateFileViewModel) {
    NotEmpty(m.name) && MaximumLength(m.name, 255)
    && MaximumLength(m.description, 1000)
    && NotEmpty(m.visibility)
    && NotEmpty(m.permission)
  }

  /** The service's update DTO holding the form's fields. */
  function UpdateRequestOf(m: UpdateFileViewModel): UpdateFileDto {
    UpdateFileDto(m.id, m.name, m.description, m.visibility, m.sharedUserIds, m.permission)
  }

  /** The id and the id list do not enter the form's check; a missing or blank
      permission fails it whatever the other fields hold. */
  lemma {:induction false} UpdateFormIgnoresShareFields(m: UpdateFileViewModel, id: int, ids: Option<string>)
    ensures UpdateFileViewModelValid(m) <==> UpdateFileViewModelValid(m.(id := id, sharedUserIds := ids))
    ensures !UpdateFileViewModelValid(m.(permission := None)) && !UpdateFileViewModelValid(m.(permission := Some("")))
  {
  }

  /** An update the service's validator accepts passes the form exactly when
      it carries a permission: the service asks for none when nobody is
      shared, the form always does. */
  lemma {:induction false} ServerUpdatePassesClient(m: UpdateFileViewModel)
    requires UpdateFileCommandValid(MapUpdateFileDto(UpdateRequestOf(m)))
    ensures UpdateFileViewModelValid(m) <==> NotEmpty(m.permission)
  {
  }

  /** A private update with no id list and no permission passes the service
      but not the form. */
  lemma ServerAcceptsFormRejects()
    ensures var m := UpdateFileViewModel(1, Some("a"), None, Some("Private"), None, None);
      UpdateFileCommandValid(MapUpdateFileDto(UpdateRequestOf(m))) && !UpdateFileViewModelValid(m)
  {
    assert !IsWhiteSpace("a"[0]);
    NameIsTrimmed(Private);
    VisibilityRuleMeans(Some("Private"));
  }

  /** The form checks no value of the visibility: "public" passes the form
      but not the service's visibility rule, which wants a member name as
      declared. */
  lemma FormVisibilityUnchecked()
    ensures UpdateFileViewModelValid(UpdateFileViewModel(1, Some("a"), None, Some("public"), None, Some("Read")))
    ensures !VisibilityRule(Some("public"))
  {
    assert !IsWhiteSpace("a"[0]) && !IsWhiteSpace("public"[0]) && !IsWhiteSpace("Read"[0]);
    TrimOfTrimmed("public");
    VisibilityRuleMeans(Some("public"));
  }
}
