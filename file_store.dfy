/** The file-metadata service's handlers over its database. The `Files`
    table with its share rows is one map from file id to record; the handlers
    that change it are methods of `FileStore`, the two queries are functions
    of the table. */
module FileStore {
  import opened Wrappers
  import opened Text
  import opened Claims
  import opened FileModel
  import opened FileMapping
  import opened FileValidators

  /** How a handler fails: the exception it throws, by kind. */
  datatype FileError =
    | Unauthorized        // UnauthorizedAccessException: no authenticated user
    | Forbidden           // ForbiddenException: no user id claim, or not allowed
    | NotFound            // NotFoundException: no file with that id
    | NoHttpContext       // NullReferenceException: the handler dereferences a missing context
    | MissingUserClaim    // Exception "User ID not found"
    | MalformedUserClaim  // the user id claim is not an Int32
    | NotFoundOrDenied    // Exception "File not found or authorization error."
    | InvalidVisibility   // Enum.Parse fails, or is given null
    | SaveFailed          // SaveChanges rejects a row: a null name or permission, or one user shared twice

  /** The caller of delete, update and share: authenticated, with a user id
      claim that `int.Parse` accepts. */
  function AuthenticatedUserId(ctx: HttpContext): (r: Result<int, FileError>)
    ensures r.Success? <==> ctx.Some? && ctx.value.authenticated && ClaimedId(ctx.value).Some?
    ensures r.Success? ==> Some(r.value) == ClaimedId(ctx.value) && IsInt32(r.value)
    ensures r == Failure(Unauthorized) <==> ctx.None? || !ctx.value.authenticated
  {
    if ctx.None? || !ctx.value.authenticated then Failure(Unauthorized)
    else if ctx.value.nameIdentifier.None? then Failure(Forbidden)
    else match ClaimedId(ctx.value)
      case None => Failure(MalformedUserClaim)
      case Some(id) => Success(id)
  }

  /** The caller of create and of both queries: whatever user id claim the
      context carries; authentication is not checked. */
  function ClaimedUserId(ctx: HttpContext): (r: Result<int, FileError>)
    ensures r.Success? <==> ctx.Some? && ClaimedId(ctx.value).Some?
    ensures r.Success? ==> Some(r.value) == ClaimedId(ctx.value) && IsInt32(r.value)
    ensures r == Failure(NoHttpContext) <==> ctx.None?
  {
    if ctx.None? then Failure(NoHttpContext)
    else if ctx.value.nameIdentifier.None? then Failure(MissingUserClaim)
    else match ClaimedId(ctx.value)
      case None => Failure(MalformedUserClaim)
      case Some(id) => Success(id)
  }

  /** The handlers that check authentication accept exactly the callers the
      others accept that are also authenticated. */
  lemma {:induction false} AuthenticatedIsClaimedAndAuthenticated(ctx: HttpContext)
    ensures AuthenticatedUserId(ctx).Success? <==> ClaimedUserId(ctx).Success? && ctx.value.authenticated
    ensures AuthenticatedUserId(ctx).Success? ==> AuthenticatedUserId(ctx) == ClaimedUserId(ctx)
  {
  }

  /** Whether share rows may be saved: the permission column is not null and
      the share table's key (file, user) is not repeated. */
  predicate SharesSaveable(shares: seq<Share>) {
    DistinctUsers(shares) && forall k :: 0 <= k < |shares| ==> shares[k].permission.Some?
  }

  /** Whether the rows of one file may be saved: the name column is not null
      and its share rows may be saved. */
  predicate Saveable(name: Option<string>, shares: seq<Share>) {
    name.Some? && SharesSaveable(shares)
  }

  /** The record the create handler saves: the command mapped (visibility
      trimmed and parsed ignoring case, no path), owned by the caller and
      stamped with the current time. */
  function NewRecord(cmd: CreateFileCommand, owner: int, now: Instant): (r: Result<FileRecord, FileError>)
    ensures r.Success? <==> CreateVisibility(cmd.visibility).Some? && Saveable(cmd.name, cmd.fileShares)
    ensures r.Success? ==> (r.value.ownerId == owner && r.value.uploadDate == now && r.value.path.None?
      && Some(r.value.name) == cmd.name && r.value.description == cmd.description
      && Some(r.value.visibility) == CreateVisibility(cmd.visibility) && r.value.shares == cmd.fileShares)
  {
    match CreateVisibility(cmd.visibility)
    case None => Failure(InvalidVisibility)
    case Some(v) =>
      if !Saveable(cmd.name, cmd.fileShares) then Failure(SaveFailed)
      else Success(FileRecord(cmd.name.value, cmd.description, owner, now, v, None, cmd.fileShares))
  }

  /** The update handler's change to a record: `mapper.Map(request, file)`
      sets name, description and visibility (parsed ignoring case) and the
      share rows are replaced by the command's; owner, upload date and path
      are kept. */
  function ApplyUpdate(f: FileRecord, cmd: UpdateFileCommand): (r: Result<FileRecord, FileError>)
    ensures r.Success? <==> UpdateVisibility(cmd.visibility).Some? && Saveable(cmd.name, cmd.fileShares)
    ensures r.Success? ==> (r.value.ownerId == f.ownerId && r.value.uploadDate == f.uploadDate && r.value.path == f.path
      && Some(r.value.name) == cmd.name && r.value.description == cmd.description
      && Some(r.value.visibility) == UpdateVisibility(cmd.visibility) && r.value.shares == cmd.fileShares)
  {
    match UpdateVisibility(cmd.visibility)
    case None => Failure(InvalidVisibility)
    case Some(v) =>
      if !Saveable(cmd.name, cmd.fileShares) then Failure(SaveFailed)
      else Success(f.(name := cmd.name.value, description := cmd.description, visibility := v, shares := cmd.fileShares))
  }

  /** The share handler's change to a record: the visibility, parsed without
      case folding, and the share rows, replaced by the command's; nothing else. */
  function ApplyShare(f: FileRecord, cmd: ShareFileCommand): (r: Result<FileRecord, FileError>)
    ensures r.Success? <==> cmd.visibility.Some? && ParseVisibility(cmd.visibility.value, false).Some? && SharesSaveable(cmd.fileShares)
    ensures r.Success? ==> (r == Success(f.(visibility := r.value.visibility, shares := cmd.fileShares))
      && VisibilityName(r.value.visibility) == Trim(cmd.visibility.value))
  {
    if cmd.visibility.None? then Failure(InvalidVisibility)
    else match ParseVisibility(cmd.visibility.value, false)
      case None => Failure(InvalidVisibility)
      case Some(v) =>
        if !SharesSaveable(cmd.fileShares) then Failure(SaveFailed)
        else Success(f.(visibility := v, shares := cmd.fileShares))
  }

  /** The update validator as written lets " Shared " through with no share,
      and the update then stores a `Shared` file nobody is shared with. */
  lemma PaddedSharedUpdateStoresNoShares(f: FileRecord)
    ensures var cmd := UpdateFileCommand(1, Some("a"), None, Some(" Shared "), []);
      UpdateFileCommandValid(cmd) && ApplyUpdate(f, cmd) == Success(f.(name := "a", description := None, visibility := Shared, shares := []))
  {
    PaddedSharedPassesUpdateValidator();
  }

  /** An update the corrected validator accepts leaves the file shared with
      somebody exactly when it leaves it `Shared`. */
  lemma {:induction false} ValidatedUpdateKeepsSharesConsistent(f: FileRecord, cmd: UpdateFileCommand)
    requires UpdateFileCommandValidIntended(cmd) && ApplyUpdate(f, cmd).Success?
    ensures ApplyUpdate(f, cmd).value.shares != [] <==> ApplyUpdate(f, cmd).value.visibility == Shared
  {
    IntendedUpdateSharesIffShared(cmd);
  }

  /** What create returns for a validated command passes `FileDTOValidator`,
      given a positive owner, a set clock and an id from the identity column. */
  lemma {:induction false} CreatedDtoValid(cmd: CreateFileCommand, owner: int, now: Instant, id: int)
    requires CreateFileCommandValid(cmd) && NewRecord(cmd, owner, now).Success?
    requires owner > 0 && now != 0 && id >= 1
    ensures FileDtoValid(ToDto(id, NewRecord(cmd, owner, now).value))
  {
    var rec := NewRecord(cmd, owner, now).value;
    NameIsTrimmed(rec.visibility);
    VisibilityRuleMeans(Some(VisibilityName(rec.visibility)));
  }

  /** The share handler does not tie visibility to the share rows: a validated
      share command can leave a `Private` file with share rows, and each of
      those users can then read it. */
  lemma PrivateFileWithShares(f: FileRecord)
    requires f.ownerId != 2
    ensures var cmd := ShareFileCommand(1, Some("Private"), [Share(2, Some("Read"))]);
      ShareFileCommandValid(cmd) && ApplyShare(f, cmd).Success?
      && ApplyShare(f, cmd).value.visibility == Private
      && CanRead(ApplyShare(f, cmd).value, 2) && !CanModify(ApplyShare(f, cmd).value, 2)
  {
    var shares := [Share(2, Some("Read"))];
    var cmd := ShareFileCommand(1, Some("Private"), shares);
    assert ShareFileCommandValid(cmd) by {
      NameIsTrimmed(Private);
      VisibilityRuleMeans(Some("Private"));
      FileShareDtoValidMeans(shares[0]);
    }
    assert ParseVisibility("Private", false) == Some(Private) by {
      NameIsTrimmed(Private);
      ParseVisibilityOfName("Private", Private, false);
    }
    assert SharesSaveable(shares);
    var g := f.(visibility := Private, shares := shares);
    assert ApplyShare(f, cmd) == Success(g);
    assert SharedWith(g, 2) by {
      assert g.shares[0].userId == 2;
    }
  }

  /** The table is consistent: every id is one the identity column hands
      out, and every file's share rows may be saved. */
  ghost predicate WellFormed(files: map<int, FileRecord>) {
    forall id :: id in files ==> id >= 1 && SharesSaveable(files[id].shares)
  }

  /** The rows of the `FileShares` table as (file id, user id) pairs. */
  ghost function ShareRows(files: map<int, FileRecord>): set<(int, int)> {
    set id, k | id in files && 0 <= k < |files[id].shares| :: (id, files[id].shares[k].userId)
  }

  /** Deleting a file deletes its share rows with it (the foreign key
      cascades) and no other row. */
  lemma {:induction false} DeleteCascades(files: map<int, FileRecord>, id: int)
    ensures ShareRows(files - {id}) == set p | p in ShareRows(files) && p.0 != id
  {
    var after := files - {id};
    forall p | p in ShareRows(files) && p.0 != id ensures p in ShareRows(after) {
      var fid, k :| fid in files && 0 <= k < |files[fid].shares| && p == (fid, files[fid].shares[k].userId);
      assert fid in after && after[fid] == files[fid];
    }
  }

  /** Every id of a consistent table passes the delete and get-by-id validators. */
  lemma {:induction false} StoredIdsPassIdValidators(files: map<int, FileRecord>, id: int)
    requires WellFormed(files) && id in files
    ensures DeleteFileCommandValid(DeleteFileCommand(id)) && GetFileByIdQueryValid(GetFileByIdQuery(id))
  {
    assert id >= 1;
  }

  /** `GetFilesQueryHandler`: the caller's readable files, as DTOs keyed by id
      (the query fixes no order). */
  function ListFiles(files: map<int, FileRecord>, ctx: HttpContext): (r: Result<map<int, FileDto>, FileError>)
    ensures r.Success? <==> ClaimedUserId(ctx).Success?
    ensures r.Success? ==> forall id :: id in r.value <==> id in files && CanRead(files[id], ClaimedUserId(ctx).value)
  {
    match ClaimedUserId(ctx)
    case Failure(e) => Failure(e)
    case Success(user) =>
      Success(map id | id in files && CanRead(files[id], user) :: ToDto(id, files[id]))
  }

  /** `GetFileByIdQueryHandler`: the file, as a DTO, when it exists and the
      caller may read it; a missing file and a denied one fail alike. */
  function FindFile(files: map<int, FileRecord>, ctx: HttpContext, q: GetFileByIdQuery): (r: Result<FileDto, FileError>)
    ensures r.Success? ==> r.value.id == q.id && q.id in files && r.value == ToDto(q.id, files[q.id])
  {
    match ClaimedUserId(ctx)
    case Failure(e) => Failure(e)
    case Success(user) =>
      if q.id in files && CanRead(files[q.id], user) then Success(ToDto(q.id, files[q.id]))
      else Failure(NotFoundOrDenied)
  }

  /** The two queries agree: a file is found by id exactly when it is listed,
      with the same DTO, and they fail alike. */
  lemma {:induction false} FindAgreesWithList(files: map<int, FileRecord>, ctx: HttpContext, q: GetFileByIdQuery)
    ensures ListFiles(files, ctx).Failure? <==> FindFile(files, ctx, q).Failure? && FindFile(files, ctx, q).error != NotFoundOrDenied
    ensures FindFile(files, ctx, q).Success? <==> ListFiles(files, ctx).Success? && q.id in ListFiles(files, ctx).value
    ensures FindFile(files, ctx, q).Success? ==> FindFile(files, ctx, q).value == ListFiles(files, ctx).value[q.id]
  {
  }

  /** Reading consults neither the role claim nor authentication: callers
      with the same user id claim see the same files. */
  lemma {:induction false} ReadsIgnoreRoleAndAuthentication(files: map<int, FileRecord>, p1: Principal, p2: Principal, q: GetFileByIdQuery)
    requires p1.nameIdentifier == p2.nameIdentifier
    ensures ListFiles(files, Some(p1)) == ListFiles(files, Some(p2))
    ensures FindFile(files, Some(p1), q) == FindFile(files, Some(p2), q)
  {
  }

  /** The `Files` table and its share rows. */
  class FileStore {
    var files: map<int, FileRecord>

    ghost predicate Valid()
      reads this
    {
      WellFormed(files)
    }

    constructor ()
      ensures Valid() && files == map[]
    {
      files := map[];
    }

    /** `CreateFileCommandHandler`: the caller's id from the claim, the
        command mapped to a record owned by the caller and stamped `now`, the
        record saved under the id the database gives it, and its DTO returned. */
    method Create(ctx: HttpContext, cmd: CreateFileCommand, now: Instant, newId: int) returns (r: Result<FileDto, FileError>)
      requires Valid()
      requires newId >= 1 && newId !in files
      modifies this
      ensures Valid()
      ensures r.Failure? ==> files == old(files)
      ensures r.Failure? <==> ClaimedUserId(ctx).Failure? || NewRecord(cmd, ClaimedUserId(ctx).value, now).Failure?
      ensures r.Failure? && ClaimedUserId(ctx).Failure? ==> r.error == ClaimedUserId(ctx).error
      ensures r.Success? ==> var rec := NewRecord(cmd, ClaimedUserId(ctx).value, now).value;
        files == old(files)[newId := rec] && r.value == ToDto(newId, rec)
    {
      var user := ClaimedUserId(ctx);
      if user.Failure? {
        return Failure(user.error);
      }
      var rec := NewRecord(cmd, user.value, now);
      if rec.Failure? {
        return Failure(rec.error);
      }
      files := files[newId := rec.value];
      r := Success(ToDto(newId, rec.value));
    }

    /** `UpdateFileCommandHandler`: an authenticated owner's file updated in
        place and returned as a DTO. */
    method Update(ctx: HttpContext, cmd: UpdateFileCommand) returns (r: Result<FileDto, FileError>)
      requires Valid()
      modifies this
      ensures Valid()
      ensures r.Failure? ==> files == old(files)
      ensures AuthenticatedUserId(ctx).Failure? ==> r == Failure(AuthenticatedUserId(ctx).error)
      ensures AuthenticatedUserId(ctx).Success? && cmd.id !in old(files) ==> r == Failure(NotFound)
      ensures AuthenticatedUserId(ctx).Success? && cmd.id in old(files) && !CanModify(old(files)[cmd.id], AuthenticatedUserId(ctx).value)
        ==> r == Failure(Forbidden)
      ensures r.Success? <==> (AuthenticatedUserId(ctx).Success? && cmd.id in old(files)
        && CanModify(old(files)[cmd.id], AuthenticatedUserId(ctx).value) && ApplyUpdate(old(files)[cmd.id], cmd).Success?)
      ensures r.Success? ==> (files == old(files)[cmd.id := ApplyUpdate(old(files)[cmd.id], cmd).value]
        && r.value == ToDto(cmd.id, files[cmd.id]))
    {
      var user := AuthenticatedUserId(ctx);
      if user.Failure? {
        return Failure(user.error);
      }
      if cmd.id !in files {
        return Failure(NotFound);
      }
      var f := files[cmd.id];
      if !CanModify(f, user.value) {
        return Failure(Forbidden);
      }
      var updated := ApplyUpdate(f, cmd);
      if updated.Failure? {
        return Failure(updated.error);
      }
      files := files[cmd.id := updated.value];
      r := Success(ToDto(cmd.id, updated.value));
    }

    /** `ShareFileCommandHandler`: an authenticated owner's file given a new
        visibility and a new set of share rows. */
    method Share(ctx: HttpContext, cmd: ShareFileCommand) returns (r: Outcome<FileError>)
      requires Valid()
      modifies this
      ensures Valid()
      ensures r.Fail? ==> files == old(files)
      ensures AuthenticatedUserId(ctx).Failure? ==> r == Fail(AuthenticatedUserId(ctx).error)
      ensures AuthenticatedUserId(ctx).Success? && cmd.fileId !in old(files) ==> r == Fail(NotFound)
      ensures AuthenticatedUserId(ctx).Success? && cmd.fileId in old(files) && !CanModify(old(files)[cmd.fileId], AuthenticatedUserId(ctx).value)
        ==> r == Fail(Forbidden)
      ensures r.Pass? <==> (AuthenticatedUserId(ctx).Success? && cmd.fileId in old(files)
        && CanModify(old(files)[cmd.fileId], AuthenticatedUserId(ctx).value) && ApplyShare(old(files)[cmd.fileId], cmd).Success?)
      ensures r.Pass? ==> files == old(files)[cmd.fileId := ApplyShare(old(files)[cmd.fileId], cmd).value]
    {
      var user := AuthenticatedUserId(ctx);
      if user.Failure? {
        return Fail(user.error);
      }
      if cmd.fileId !in files {
        return Fail(NotFound);
      }
      var f := files[cmd.fileId];
      if !CanModify(f, user.value) {
        return Fail(Forbidden);
      }
      var shared := ApplyShare(f, cmd);
      if shared.Failure? {
        return Fail(shared.error);
      }
      files := files[cmd.fileId := shared.value];
      r := Pass;
    }

    /** `DeleteFileCommandHandler`: the file removed, with its share rows,
        when the authenticated caller owns it or has the role "admin". */
    method Delete(ctx: HttpContext, cmd: DeleteFileCommand) returns (r: Outcome<FileError>)
      requires Valid()
      modifies this
      ensures Valid()
      ensures r.Fail? ==> files == old(files)
      ensures AuthenticatedUserId(ctx).Failure? ==> r == Fail(AuthenticatedUserId(ctx).error)
      ensures AuthenticatedUserId(ctx).Success? && cmd.id !in old(files) ==> r == Fail(NotFound)
      ensures r.Pass? <==> (AuthenticatedUserId(ctx).Success? && cmd.id in old(files)
        && CanDelete(old(files)[cmd.id], AuthenticatedUserId(ctx).value, ctx.value.role))
      ensures AuthenticatedUserId(ctx).Success? && cmd.id in old(files) && r.Fail? ==> r == Fail(Forbidden)
      ensures r.Pass? ==> (files == old(files) - {cmd.id}
        && ShareRows(files) == set p | p in ShareRows(old(files)) && p.0 != cmd.id)
    {
      var user := AuthenticatedUserId(ctx);
      if user.Failure? {
        return Fail(user.error);
      }
      if cmd.id !in files {
        return Fail(NotFound);
      }
      if !CanDelete(files[cmd.id], user.value, ctx.value.role) {
        return Fail(Forbidden);
      }
      DeleteCascades(files, cmd.id);
      files := files - {cmd.id};
      r := Pass;
    }
  }
}
