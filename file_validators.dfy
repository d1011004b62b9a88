/** The FluentValidation validators of the file-metadata service's requests
    and DTO, each a predicate on the value it validates. The MediatR pipeline
    runs the validator of each command and query that has one before its
    handler and rejects a request that fails it; `FileShareDTOValidator` runs
    as their child validator. `FileDTOValidator` is registered but run by
    nothing. */
module FileValidators {
  import opened Wrappers
  import opened Text
  import opened Rules
  import opened FileModel
  import opened FileMapping

  /** `FileShareDTOValidator`: a positive user id and the permission "Read" or "Edit". */
  predicate FileShareDtoValid(s: Share) {
    s.userId > 0 && NotEmpty(s.permission) && (s.permission == Some("Read") || s.permission == Some("Edit"))
  }

  /** `RuleForEach(x => x.FileShares).SetValidator(new FileShareDTOValidator())`. */
  predicate AllSharesValid(shares: seq<Share>) {
    forall k :: 0 <= k < |shares| ==> FileShareDtoValid(shares[k])
  }

  /** The visibility rule of every validator: `NotEmpty()` and
      `Enum.TryParse<Visibility>(v, out _)`, which trims but folds no case. */
  predicate VisibilityRule(v: Option<string>) {
    NotEmpty(v) && v.Some? && ParseVisibility(v.value, false).Some?
  }

  /** `CreateFileCommandValidator`. */
  predicate CreateFileCommandValid(c: CreateFileCommand) {
    NotEmpty(c.name) && MaximumLength(c.name, 255)
    && MaximumLength(c.description, 1000)
    && VisibilityRule(c.visibility)
    && AllSharesValid(c.fileShares)
  }

  /** `UpdateFileCommandValidator`: as for create, plus a positive id and the
      share list empty for "Private" and "Public" and non-empty for "Shared";
      those two guards compare the raw text. */
  predicate UpdateFileCommandValid(c: UpdateFileCommand) {
    c.id > 0
    && NotEmpty(c.name) && MaximumLength(c.name, 255)
    && MaximumLength(c.description, 1000)
    && VisibilityRule(c.visibility)
    && ((c.visibility == Some("Private") || c.visibility == Some("Public")) ==> c.fileShares == [])
    && (c.visibility == Some("Shared") ==> c.fileShares != [])
    && AllSharesValid(c.fileShares)
  }

  /** `ShareFileCommandValidator`: a positive file id, the visibility rule and valid shares. */
  predicate ShareFileCommandValid(c: ShareFileCommand) {
    c.fileId > 0 && VisibilityRule(c.visibility) && AllSharesValid(c.fileShares)
  }

  /** `FileDTOValidator`; `UploadDate` must not be `default(DateTime)`. */
  predicate FileDtoValid(d: FileDto) {
    d.id > 0
    && NotEmpty(d.name) && MaximumLength(d.name, 255)
    && MaximumLength(d.description, 1000)
    && d.ownerId > 0
    && d.uploadDate != 0
    && VisibilityRule(d.visibility)
    && AllSharesValid(d.fileShares)
  }

  /** `DeleteFileCommandValidator`. */
  predicate DeleteFileCommandValid(c: DeleteFileCommand) {
    c.id > 0
  }

  /** `GetFileByIdQueryValidator`. */
  predicate GetFileByIdQueryValid(q: GetFileByIdQuery) {
    q.id > 0
  }

  /** The permission rule accepts exactly the two texts, in that case: "read" fails. */
  lemma {:induction false} FileShareDtoValidMeans(s: Share)
    ensures FileShareDtoValid(s) <==> s.userId > 0 && (s.permission == Some("Read") || s.permission == Some("Edit"))
  {
    assert !IsWhiteSpace("Read"[0]) && !IsWhiteSpace("Edit"[0]);
  }

  /** The visibility rule accepts exactly the three member names, spelled as
      declared, with any white space around them. */
  lemma {:induction false} VisibilityRuleMeans(v: Option<string>)
    ensures VisibilityRule(v) <==> v.Some? && (Trim(v.value) == "Private" || Trim(v.value) == "Public" || Trim(v.value) == "Shared")
  {
    if v.Some? {
      ParseVisibilityExact(v.value);
      TrimEmptyIffBlank(v.value);
    }
  }

  /** A visibility the validators accept also parses in each handler: the
      create map (trim, then ignore case), the update map (ignore case) and the
      share handler (exact), all to the same member. */
  lemma {:induction false} ValidVisibilityParses(v: Option<string>)
    requires VisibilityRule(v)
    ensures CreateVisibility(v) == UpdateVisibility(v) == ParseVisibility(v.value, false)
    ensures ParseVisibility(v.value, false).Some?
  {
    VisibilityRuleMeans(v);
    var m := ParseVisibility(v.value, false).value;
    assert Trim(v.value) == VisibilityName(m);
    assert NameMatches(Trim(v.value), VisibilityName(m), true);
    ParseVisibilityOfName(v.value, m, true);
    CreateAgreesWithUpdate(v);
  }

  /** A valid update command with the text "Shared" shares the file with
      somebody, and one with "Private" or "Public" with nobody; when the text
      carries no white space at its ends, it shares the file exactly when it
      says "Shared". */
  lemma {:induction false} ValidUpdateSharesIffShared(c: UpdateFileCommand)
    requires UpdateFileCommandValid(c)
    ensures c.visibility == Some("Shared") ==> c.fileShares != []
    ensures c.visibility == Some("Private") || c.visibility == Some("Public") ==> c.fileShares == []
    ensures IsTrimmed(c.visibility.value) ==> (c.fileShares != [] <==> c.visibility == Some("Shared"))
  {
    VisibilityRuleMeans(c.visibility);
    if IsTrimmed(c.visibility.value) {
      TrimOfTrimmed(c.visibility.value);
    }
  }

  /** " Shared " passes the update validator with an empty share list: the
      visibility rule trims, the share-list guards do not, and the update map
      reads it as `Shared`. */
  lemma PaddedSharedPassesUpdateValidator()
    ensures UpdateFileCommandValid(UpdateFileCommand(1, Some("a"), None, Some(" Shared "), []))
    ensures UpdateVisibility(Some(" Shared ")) == Some(Shared)
  {
    PaddedSharedRule();
    ValidVisibilityParses(Some(" Shared "));
    assert !IsWhiteSpace("a"[0]);
  }

  /** " Shared " trims to "Shared" and so passes the visibility rule. */
  lemma PaddedSharedRule()
    ensures Trim(" Shared ") == "Shared" && VisibilityRule(Some(" Shared "))
  {
    assert " Shared " == [' '] + "Shared" + [' '];
    TrimPadded("Shared");
    VisibilityRuleMeans(Some(" Shared "));
  }

  /** The update validator with its share-list guards on the visibility the
      update will store, rather than on the raw text. */
  predicate UpdateFileCommandValidIntended(c: UpdateFileCommand) {
    c.id > 0
    && NotEmpty(c.name) && MaximumLength(c.name, 255)
    && MaximumLength(c.description, 1000)
    && VisibilityRule(c.visibility)
    && (UpdateVisibility(c.visibility) == Some(Private) || UpdateVisibility(c.visibility) == Some(Public) ==> c.fileShares == [])
    && (UpdateVisibility(c.visibility) == Some(Shared) ==> c.fileShares != [])
    && AllSharesValid(c.fileShares)
  }

  /** A command the corrected validator accepts shares the file with somebody
      exactly when its visibility parses to `Shared`; on text with no white
      space at its ends it agrees with the validator as written. */
  lemma {:induction false} IntendedUpdateSharesIffShared(c: UpdateFileCommand)
    requires UpdateFileCommandValidIntended(c)
    ensures c.fileShares != [] <==> UpdateVisibility(c.visibility) == Some(Shared)
    ensures IsTrimmed(c.visibility.value) ==> UpdateFileCommandValid(c)
  {
    ValidVisibilityParses(c.visibility);
    VisibilityRuleMeans(c.visibility);
    if IsTrimmed(c.visibility.value) {
      TrimOfTrimmed(c.visibility.value);
      var m := UpdateVisibility(c.visibility).value;
      ParseVisibilityOfName(c.visibility.value, m, false);
    }
  }

  /** The create and share validators do not relate visibility to the share
      list: "Shared" with no share and "Private" with a share both pass. */
  lemma CreateAndShareIgnoreShareList()
    ensures CreateFileCommandValid(CreateFileCommand(Some("a"), None, Some("Shared"), []))
    ensures CreateFileCommandValid(CreateFileCommand(Some("a"), None, Some("Private"), [Share(2, Some("Read"))]))
    ensures ShareFileCommandValid(ShareFileCommand(1, Some("Private"), [Share(2, Some("Edit"))]))
    ensures ShareFileCommandValid(ShareFileCommand(1, Some("Shared"), []))
  {
    NameIsTrimmed(Shared);
    NameIsTrimmed(Private);
    VisibilityRuleMeans(Some("Shared"));
    VisibilityRuleMeans(Some("Private"));
    FileShareDtoValidMeans(Share(2, Some("Read")));
    FileShareDtoValidMeans(Share(2, Some("Edit")));
    assert !IsWhiteSpace("a"[0]);
  }

  /** Every share row the update form's id list yields carries a positive user
      id; it passes `FileShareDTOValidator` exactly when the one permission
      does. */
  lemma {:induction false} MappedSharesValid(ids: Option<string>, permission: Option<string>)
    requires SharesFromUserIds(ids, permission) != []
    ensures AllSharesValid(SharesFromUserIds(ids, permission)) <==> (permission == Some("Read") || permission == Some("Edit"))
  {
    var r := SharesFromUserIds(ids, permission);
    FileShareDtoValidMeans(r[0]);
    forall k | 0 <= k < |r| ensures FileShareDtoValid(r[k]) <==> (permission == Some("Read") || permission == Some("Edit")) {
      FileShareDtoValidMeans(r[k]);
    }
  }
}
