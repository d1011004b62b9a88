/** The file-metadata service's data: the `Visibility` enum, share rows,
    file records, the DTO the service returns, the commands and queries it
    accepts, and the access rules its handlers apply. */
module FileModel {
  import opened Wrappers
  import opened Text

  datatype Visibility = Private | Public | Shared

  /** `Visibility.ToString()`. */
  function VisibilityName(v: Visibility): string {
    match v
    case Private => "Private"
    case Public => "Public"
    case Shared => "Shared"
  }

  /** Name comparison of `Enum.Parse`: ordinal, or ordinal ignoring case. */
  predicate NameMatches(s: string, name: string, ignoreCase: bool) {
    if ignoreCase then EqualsIgnoreCase(s, name) else s == name
  }

  /** `Enum.Parse<Visibility>(s, ignoreCase)` and `Enum.TryParse`, restricted
      to the three member names: white space around the text is dropped, then
      the result is the member whose name the rest matches. */
  function ParseVisibility(s: string, ignoreCase: bool): (r: Option<Visibility>)
    ensures r.Some? ==> NameMatches(Trim(s), VisibilityName(r.value), ignoreCase)
    ensures r.None? ==> forall v :: !NameMatches(Trim(s), VisibilityName(v), ignoreCase)
  {
    var t := Trim(s);
    if NameMatches(t, "Private", ignoreCase) then Some(Private)
    else if NameMatches(t, "Public", ignoreCase) then Some(Public)
    else if NameMatches(t, "Shared", ignoreCase) then Some(Shared)
    else None
  }

  /** A member name has no white space at its ends. */
  lemma NameIsTrimmed(v: Visibility)
    ensures Trim(VisibilityName(v)) == VisibilityName(v)
  {
    TrimOfTrimmed(VisibilityName(v));
  }

  /** Text that trims to a member's name parses to that member; with case
      folding, text that trims to the name in any case does: no two names
      are equal ignoring case. */
  lemma {:induction false} ParseVisibilityOfName(s: string, v: Visibility, ignoreCase: bool)
    requires NameMatches(Trim(s), VisibilityName(v), ignoreCase)
    ensures ParseVisibility(s, ignoreCase) == Some(v)
  {
    var n := VisibilityName(v);
    var t := Trim(s);
    if ignoreCase {
      assert ToLowerAscii(t[1]) == ToLowerAscii(n[1]) && ToLowerAscii(t[0]) == ToLowerAscii(n[0]);
      assert ToLowerAscii(n[1]) != ToLowerAscii("Private"[1]) || n == "Private";
      assert ToLowerAscii(n[1]) != ToLowerAscii("Public"[1]) || n == "Public";
      assert ToLowerAscii(n[0]) != ToLowerAscii("Shared"[0]) || n == "Shared";
    }
  }

  /** Printing a visibility and parsing it back, with or without case folding,
      gives the same visibility. */
  lemma {:induction false} ParseVisibilityName(v: Visibility, ignoreCase: bool)
    ensures ParseVisibility(VisibilityName(v), ignoreCase) == Some(v)
  {
    NameIsTrimmed(v);
    assert NameMatches(VisibilityName(v), VisibilityName(v), ignoreCase);
    ParseVisibilityOfName(VisibilityName(v), v, ignoreCase);
  }

  /** `TryParse` without case folding accepts exactly the texts that are one
      of the three names once trimmed. */
  lemma ParseVisibilityExact(s: string)
    ensures ParseVisibility(s, false).Some? <==> Trim(s) == "Private" || Trim(s) == "Public" || Trim(s) == "Shared"
  {
  }

  /** A share row: the user a file is shared with and the permission text.
      The same shape serves as `FileShareDTO`; within a file the row's
      `FileId` is the file's own id. */
  datatype Share = Share(userId: int, permission: Option<string>)

  /** A row of the `Files` table with its share rows. */
  datatype FileRecord = FileRecord(
    name: string,
    description: Option<string>,
    ownerId: int,
    uploadDate: int,
    visibility: Visibility,
    path: Option<string>,
    shares: seq<Share>)

  /** The share rows' primary key is (FileId, UserId): no user twice in one file. */
  predicate DistinctUsers(shares: seq<Share>) {
    forall i, j :: 0 <= i < j < |shares| ==> shares[i].userId != shares[j].userId
  }

  /** `FileDTO`; its `Visibility` is text. */
  datatype FileDto = FileDto(
    id: int,
    name: Option<string>,
    description: Option<string>,
    ownerId: int,
    uploadDate: int,
    visibility: Option<string>,
    path: Option<string>,
    fileShares: seq<Share>)

  datatype CreateFileCommand = CreateFileCommand(
    name: Option<string>, description: Option<string>, visibility: Option<string>, fileShares: seq<Share>)

  datatype UpdateFileCommand = UpdateFileCommand(
    id: int, name: Option<string>, description: Option<string>, visibility: Option<string>, fileShares: seq<Share>)

  datatype ShareFileCommand = ShareFileCommand(fileId: int, visibility: Option<string>, fileShares: seq<Share>)

  datatype DeleteFileCommand = DeleteFileCommand(id: int)

  datatype GetFileByIdQuery = GetFileByIdQuery(id: int)

  /** `UpdateFileDTO`, the form post that is mapped to an update command;
      the share list arrives as a comma-separated id list with one permission. */
  datatype UpdateFileDto = UpdateFileDto(
    id: int, name: Option<string>, description: Option<string>, visibility: Option<string>,
    sharedUserIds: Option<string>, permission: Option<string>)

  // ---------------------------------------------------------------------
  // Access rules, as the handlers state them
  // ---------------------------------------------------------------------

  /** The exact role text the delete handler accepts instead of ownership. */
  const AdminRole: string := "admin"

  /** Some share row of the file names the user, whatever its permission. */
  predicate SharedWith(f: FileRecord, user: int) {
    exists k :: 0 <= k < |f.shares| && f.shares[k].userId == user
  }

  /** The read filter of both queries: owner, or public, or any share row. */
  predicate CanRead(f: FileRecord, user: int) {
    f.ownerId == user || f.visibility == Public || SharedWith(f, user)
  }

  /** Update and share: the owner only. */
  predicate CanModify(f: FileRecord, user: int) {
    f.ownerId == user
  }

  /** Delete: the owner, or a caller whose role claim is exactly "admin". */
  predicate CanDelete(f: FileRecord, user: int, role: Option<string>) {
    f.ownerId == user || role == Some(AdminRole)
  }

  /** The owner may read, modify and delete, whatever the visibility and shares. */
  lemma OwnerHasEveryRight(f: FileRecord, role: Option<string>)
    ensures CanRead(f, f.ownerId) && CanModify(f, f.ownerId) && CanDelete(f, f.ownerId, role)
  {
  }

  /** A share row gives read access, and nothing more, whatever its permission
      and the file's visibility: it never lets a non-owner modify or delete. */
  lemma {:induction false} ShareGrantsReadOnly(f: FileRecord, k: nat, role: Option<string>)
    requires k < |f.shares| && f.shares[k].userId != f.ownerId
    requires role != Some(AdminRole)
    ensures CanRead(f, f.shares[k].userId)
    ensures !CanModify(f, f.shares[k].userId) && !CanDelete(f, f.shares[k].userId, role)
  {
    assert SharedWith(f, f.shares[k].userId);
  }

  /** A private file nobody is shared with is readable by its owner alone;
      no role opens it. */
  lemma PrivateUnsharedIsOwnerOnly(f: FileRecord, user: int)
    requires f.visibility == Private && f.shares == []
    ensures CanRead(f, user) <==> user == f.ownerId
  {
  }

  /** "admin" in the role claim lets a caller delete any file; it is the only
      role text that does, and the match is exact ("Admin" does not). */
  lemma AdminDeletes(f: FileRecord, user: int, role: Option<string>)
    ensures role == Some("admin") ==> CanDelete(f, user, role)
    ensures user != f.ownerId && role == Some("Admin") ==> !CanDelete(f, user, role)
  {
  }
}
