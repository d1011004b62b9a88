/** The AutoMapper profile of the file-metadata service: File <-> FileDTO,
    the visibility parse of the create and update maps, and the `AfterMap`
    that turns a comma-separated id list into share rows. */
module FileMapping {
  import opened Wrappers
  import opened Text
  import opened FileModel

  /** File -> FileDTO: members copied by name, `Visibility` written as its name. */
  function ToDto(id: int, f: FileRecord): FileDto {
    FileDto(id, Some(f.name), f.description, f.ownerId, f.uploadDate,
            Some(VisibilityName(f.visibility)), f.path, f.shares)
  }

  /** FileDTO -> File: members copied by name, `Visibility` parsed ignoring
      case. A DTO without a name or with an unparseable visibility has no
      record form. */
  function FromDto(d: FileDto): Option<(int, FileRecord)> {
    if d.name.None? || d.visibility.None? then None
    else
      match ParseVisibility(d.visibility.value, true)
      case None => None
      case Some(v) => Some((d.id, FileRecord(d.name.value, d.description, d.ownerId, d.uploadDate, v, d.path, d.fileShares)))
  }

  /** A record written to a DTO and read back is the same record. */
  lemma FromDtoToDto(id: int, f: FileRecord)
    ensures FromDto(ToDto(id, f)) == Some((id, f))
  {
    ParseVisibilityName(f.visibility, true);
  }

  /** CreateFileCommand -> File: `Enum.Parse(src.Visibility.Trim(), true)`;
      a null visibility throws, shown as none. */
  function CreateVisibility(v: Option<string>): Option<Visibility> {
    if v.None? then None else ParseVisibility(Trim(v.value), true)
  }

  /** UpdateFileCommand -> File: `Enum.Parse(src.Visibility, true)`, with no
      explicit trim. */
  function UpdateVisibility(v: Option<string>): Option<Visibility> {
    if v.None? then None else ParseVisibility(v.value, true)
  }

  /** Create's explicit trim changes nothing: `Enum.Parse` trims on its own,
      so both maps give every text the same visibility. */
  lemma CreateAgreesWithUpdate(v: Option<string>)
    ensures CreateVisibility(v) == UpdateVisibility(v)
  {
    if v.Some? {
      TrimIdempotent(v.value);
    }
  }

  /** " public " trims to "public". */
  lemma PaddedPublicTrims()
    ensures Trim(" public ") == "public"
  {
    assert " public " == [' '] + "public" + [' '];
    TrimPadded("public");
  }

  /** Both maps fold case and drop surrounding white space: " public " is Public. */
  lemma PaddedNameParses()
    ensures CreateVisibility(Some(" public ")) == Some(Public)
    ensures UpdateVisibility(Some(" public ")) == Some(Public)
  {
    PaddedPublicTrims();
    assert EqualsIgnoreCase("public", "Public");
    ParseVisibilityOfName(" public ", Public, true);
    CreateAgreesWithUpdate(Some(" public "));
  }

  /** One piece of the AfterMap's id list: trimmed, parsed as an Int32 and
      kept when greater than 0, as a share row carrying the permission. */
  function ShareOfPiece(piece: string, permission: Option<string>): (r: seq<Share>)
    ensures r != [] <==> ParseInt32(Trim(piece)).Some? && ParseInt32(Trim(piece)).value > 0
    ensures r != [] ==> r == [Share(ParseInt32(Trim(piece)).value, permission)]
  {
    match ParseInt32(Trim(piece))
    case Some(v) => if v > 0 then [Share(v, permission)] else []
    case None => []
  }

  /** The pieces' share rows, in order; duplicates stay. */
  function SharesFromPieces(pieces: seq<string>, permission: Option<string>): (r: seq<Share>)
    ensures |r| <= |pieces|
    ensures forall k :: 0 <= k < |r| ==> r[k].permission == permission && r[k].userId > 0
  {
    if pieces == [] then []
    else ShareOfPiece(pieces[0], permission) + SharesFromPieces(pieces[1..], permission)
  }

  /** The rows a permission gives one piece. */
  function RowsOf(permission: Option<string>): string -> seq<Share> {
    piece => ShareOfPiece(piece, permission)
  }

  /** `rows` applied to each piece, piece by piece. */
  function MapRows(rows: string -> seq<Share>, pieces: seq<string>): (r: seq<seq<Share>>)
    ensures |r| == |pieces|
    ensures forall i :: 0 <= i < |pieces| ==> r[i] == rows(pieces[i])
  {
    seq(|pieces|, i requires 0 <= i < |pieces| => rows(pieces[i]))
  }

  lemma MapRowsAppend(rows: string -> seq<Share>, a: seq<string>, b: seq<string>)
    ensures MapRows(rows, a + b) == MapRows(rows, a) + MapRows(rows, b)
  {
    var l, r := MapRows(rows, a + b), MapRows(rows, a) + MapRows(rows, b);
    forall i | 0 <= i < |l| ensures l[i] == r[i] {
      if i < |a| {
        assert (a + b)[i] == a[i];
      } else {
        assert (a + b)[i] == b[i - |a|];
      }
    }
  }

  /** The rows one after the other. */
  function Flatten(rows: seq<seq<Share>>): seq<Share> {
    if rows == [] then [] else rows[0] + Flatten(rows[1..])
  }

  lemma {:induction false} FlattenAppend(a: seq<seq<Share>>, b: seq<seq<Share>>)
    ensures Flatten(a + b) == Flatten(a) + Flatten(b)
    decreases |a|
  {
    if a == [] {
      assert a + b == b;
    } else {
      assert (a + b)[0] == a[0] && (a + b)[1..] == a[1..] + b;
      FlattenAppend(a[1..], b);
    }
  }

  lemma {:induction false} SharesFromPiecesFlatten(pieces: seq<string>, permission: Option<string>)
    ensures SharesFromPieces(pieces, permission) == Flatten(MapRows(RowsOf(permission), pieces))
    decreases |pieces|
  {
    if pieces != [] {
      assert MapRows(RowsOf(permission), pieces)[1..] == MapRows(RowsOf(permission), pieces[1..]);
      SharesFromPiecesFlatten(pieces[1..], permission);
    }
  }

  /** The rows of a list of pieces are those of its parts, one after the other. */
  lemma SharesFromPiecesAppend(a: seq<string>, b: seq<string>, permission: Option<string>)
    ensures SharesFromPieces(a + b, permission) == SharesFromPieces(a, permission) + SharesFromPieces(b, permission)
  {
    MapRowsAppend(RowsOf(permission), a, b);
    SharesFromPiecesFlatten(a + b, permission);
    SharesFromPiecesFlatten(a, permission);
    SharesFromPiecesFlatten(b, permission);
    FlattenAppend(MapRows(RowsOf(permission), a), MapRows(RowsOf(permission), b));
  }

  /** A row is in the flattened rows exactly when one of the rows holds it. */
  lemma {:induction false} FlattenMembers(rows: seq<seq<Share>>, s: Share)
    ensures s in Flatten(rows) <==> exists k :: 0 <= k < |rows| && s in rows[k]
    decreases |rows|
  {
    if rows != [] {
      FlattenMembers(rows[1..], s);
      if s in Flatten(rows[1..]) {
        var k :| 0 <= k < |rows[1..]| && s in rows[1..][k];
        assert s in rows[k + 1];
      }
      if exists k :: 0 <= k < |rows| && s in rows[k] {
        var k :| 0 <= k < |rows| && s in rows[k];
        if k > 0 {
          assert s in rows[1..][k - 1];
        }
      }
    }
  }

  /** A share row comes out of the pieces exactly when it carries the form's
      permission and a positive user id that some piece, trimmed, parses to. */
  lemma {:induction false} SharesFromPiecesMembers(pieces: seq<string>, permission: Option<string>, v: int, q: Option<string>)
    ensures Share(v, q) in SharesFromPieces(pieces, permission)
      <==> q == permission && v > 0 && exists k :: 0 <= k < |pieces| && ParseInt32(Trim(pieces[k])) == Some(v)
  {
    var rows := MapRows(RowsOf(permission), pieces);
    SharesFromPiecesFlatten(pieces, permission);
    FlattenMembers(rows, Share(v, q));
    forall k | 0 <= k < |pieces|
      ensures Share(v, q) in rows[k] <==> q == permission && v > 0 && ParseInt32(Trim(pieces[k])) == Some(v)
    {
      assert rows[k] == ShareOfPiece(pieces[k], permission);
    }
  }

  /** The printed form of a positive Int32 gives that user's row. */
  lemma ShareOfIdText(id: int, permission: Option<string>)
    requires 0 < id <= Int32Max
    ensures ShareOfPiece(IntToString(id), permission) == [Share(id, permission)]
  {
    ParseTrimIntToString(id);
  }

  /** `dest.FileShares` as the AfterMap assigns it from `SharedUserIds` and `Permission`. */
  function SharesFromUserIds(ids: Option<string>, permission: Option<string>): (r: seq<Share>)
    ensures IsNullOrEmpty(ids) ==> r == []
    ensures ids.Some? ==> |r| <= |RemoveEmptyEntries(Split(ids.value, ','))|
    ensures forall k :: 0 <= k < |r| ==> r[k].permission == permission && r[k].userId > 0
  {
    if IsNullOrEmpty(ids) then [] else SharesFromPieces(RemoveEmptyEntries(Split(ids.value, ',')), permission)
  }

  /** Dropping the empty pieces drops no piece that parses to a user id. */
  lemma {:induction false} ParsingPieceKept(parts: seq<string>, v: int)
    ensures (exists piece :: piece in parts && ParseInt32(Trim(piece)) == Some(v))
      <==> (exists k :: 0 <= k < |RemoveEmptyEntries(parts)| && ParseInt32(Trim(RemoveEmptyEntries(parts)[k])) == Some(v))
  {
    TrimOfTrimmed("");
    if exists piece :: piece in parts && ParseInt32(Trim(piece)) == Some(v) {
      var piece :| piece in parts && ParseInt32(Trim(piece)) == Some(v);
      assert piece in RemoveEmptyEntries(parts);
      var k :| 0 <= k < |RemoveEmptyEntries(parts)| && RemoveEmptyEntries(parts)[k] == piece;
      assert ParseInt32(Trim(RemoveEmptyEntries(parts)[k])) == Some(v);
    }
    if exists k :: 0 <= k < |RemoveEmptyEntries(parts)| && ParseInt32(Trim(RemoveEmptyEntries(parts)[k])) == Some(v) {
      var k :| 0 <= k < |RemoveEmptyEntries(parts)| && ParseInt32(Trim(RemoveEmptyEntries(parts)[k])) == Some(v);
      assert RemoveEmptyEntries(parts)[k] in RemoveEmptyEntries(parts);
      assert RemoveEmptyEntries(parts)[k] in parts;
    }
  }

  /** The AfterMap shares the file with a user exactly when the id list is
      neither null nor empty and one of its comma-separated pieces, trimmed,
      parses to that user's positive id; every row carries the form's
      permission. */
  lemma {:induction false} SharesFromUserIdsMembers(ids: Option<string>, permission: Option<string>, v: int, q: Option<string>)
    ensures Share(v, q) in SharesFromUserIds(ids, permission)
      <==> (!IsNullOrEmpty(ids) && q == permission && v > 0
            && exists piece :: piece in Split(ids.value, ',') && ParseInt32(Trim(piece)) == Some(v))
  {
    if !IsNullOrEmpty(ids) {
      assert SharesFromUserIds(ids, permission) == SharesFromPieces(RemoveEmptyEntries(Split(ids.value, ',')), permission);
      SharesFromPiecesMembers(RemoveEmptyEntries(Split(ids.value, ',')), permission, v, q);
      ParsingPieceKept(Split(ids.value, ','), v);
    }
  }

  /** UpdateFileDTO -> UpdateFileCommand: members copied by name, shares from the AfterMap. */
  function MapUpdateFileDto(d: UpdateFileDto): UpdateFileCommand {
    UpdateFileCommand(d.id, d.name, d.description, d.visibility, SharesFromUserIds(d.sharedUserIds, d.permission))
  }

  /** The decimal texts of the ids. */
  function IdTexts(ids: seq<int>): (r: seq<string>)
    ensures |r| == |ids|
  {
    seq(|ids|, i requires 0 <= i < |ids| => IntToString(ids[i]))
  }

  /** The share rows one permission gives the ids, in order. */
  function SharesFor(ids: seq<int>, permission: Option<string>): (r: seq<Share>)
    ensures |r| == |ids|
  {
    seq(|ids|, i requires 0 <= i < |ids| => Share(ids[i], permission))
  }

  predicate PositiveInt32s(ids: seq<int>) {
    forall i :: 0 <= i < |ids| ==> 0 < ids[i] <= Int32Max
  }

  lemma {:induction false} SharesFromIdTexts(ids: seq<int>, permission: Option<string>)
    requires PositiveInt32s(ids)
    ensures SharesFromPieces(IdTexts(ids), permission) == SharesFor(ids, permission)
  {
    if ids != [] {
      var texts := IdTexts(ids);
      assert texts[1..] == IdTexts(ids[1..]);
      assert SharesFor(ids, permission) == [Share(ids[0], permission)] + SharesFor(ids[1..], permission);
      SharesFromIdTexts(ids[1..], permission);
      ShareOfIdText(ids[0], permission);
    }
  }

  /** Writing positive ids as a comma-separated list and running the AfterMap
      on it gives one share per id, in order, duplicates kept. */
  lemma SharesFromJoinedIds(ids: seq<int>, permission: Option<string>)
    requires |ids| >= 1 && PositiveInt32s(ids)
    ensures SharesFromUserIds(Some(Join(IdTexts(ids), ',')), permission) == SharesFor(ids, permission)
  {
    var texts := IdTexts(ids);
    forall k | 0 <= k < |texts| ensures ',' !in texts[k] && texts[k] != "" {
      IntToStringPlain(ids[k]);
    }
    SplitJoin(texts, ',');
    RemoveEmptyEntriesOfNonEmpty(texts);
    assert Join(texts, ',') != "" by {
      assert |texts| == 1 || Join(texts, ',') == texts[0] + [','] + Join(texts[1..], ',');
    }
    SharesFromIdTexts(ids, permission);
  }

  /** " 7 " is trimmed and kept; "x" does not parse and "-3" is not positive. */
  lemma PieceExamples(permission: Option<string>)
    ensures ShareOfPiece(" 7 ", permission) == [Share(7, permission)]
    ensures ShareOfPiece("x", permission) == []
    ensures ShareOfPiece("-3", permission) == []
  {
    PaddedSevenKept(permission);
    LetterDropped(permission);
    NegativeDropped(permission);
  }

  /** " 7 " trims to "7", which parses to 7. */
  lemma PaddedSevenKept(permission: Option<string>)
    ensures ShareOfPiece(" 7 ", permission) == [Share(7, permission)]
  {
    assert Trim(" 7 ") == "7" by {
      assert " 7 " == [' '] + "7" + [' '];
      TrimPadded("7");
    }
    assert ParseInt32("7") == Some(7) by {
      assert DigitsValue("7") == DigitsValue("7"[..0]) * 10 + 7;
    }
  }

  /** "x" is no number. */
  lemma LetterDropped(permission: Option<string>)
    ensures ShareOfPiece("x", permission) == []
  {
    TrimOfTrimmed("x");
    assert !IsDigit("x"[0]);
  }

  /** "-3" parses to a value that is not above 0. */
  lemma NegativeDropped(permission: Option<string>)
    ensures ShareOfPiece("-3", permission) == []
  {
    TrimOfTrimmed("-3");
  }

  /** A single piece gives its own rows. */
  lemma SharesFromOnePiece(piece: string, permission: Option<string>)
    ensures SharesFromPieces([piece], permission) == ShareOfPiece(piece, permission)
  {
    assert [piece][1..] == [];
  }

  lemma {:induction false} SplitExample()
    ensures Split(" 7 ,x,-3", ',') == [" 7 ", "x", "-3"]
  {
    assert " 7 ,x,-3" == " 7 " + [','] + ("x" + [','] + "-3");
    assert ',' !in " 7 " && ',' !in "x" && ',' !in "-3";
    SplitNoSeparator("-3", ',');
    SplitCons("x", "-3", ',');
    SplitCons(" 7 ", "x" + [','] + "-3", ',');
  }

  lemma SharesFromThreePieces(a: string, b: string, c: string, permission: Option<string>)
    ensures SharesFromPieces([a, b, c], permission) == ShareOfPiece(a, permission) + ShareOfPiece(b, permission) + ShareOfPiece(c, permission)
  {
    var ab := [a] + [b];
    assert [a, b, c] == ab + [c];
    calc {
      SharesFromPieces([a, b, c], permission);
      { SharesFromPiecesAppend(ab, [c], permission); }
      SharesFromPieces(ab, permission) + SharesFromPieces([c], permission);
      { SharesFromPiecesAppend([a], [b], permission); }
      SharesFromPieces([a], permission) + SharesFromPieces([b], permission) + SharesFromPieces([c], permission);
      { SharesFromOnePiece(a, permission); SharesFromOnePiece(b, permission); SharesFromOnePiece(c, permission); }
      ShareOfPiece(a, permission) + ShareOfPiece(b, permission) + ShareOfPiece(c, permission);
    }
  }

  /** The AfterMap on " 7 ,x,-3" shares the file with user 7 alone. */
  lemma {:induction false} AfterMapExample(permission: Option<string>)
    ensures SharesFromUserIds(Some(" 7 ,x,-3"), permission) == [Share(7, permission)]
  {
    calc {
      SharesFromUserIds(Some(" 7 ,x,-3"), permission);
      { SplitExample();
        RemoveEmptyEntriesOfNonEmpty([" 7 ", "x", "-3"]);
        SharesOfPieces(" 7 ,x,-3", [" 7 ", "x", "-3"], permission); }
      SharesFromPieces([" 7 ", "x", "-3"], permission);
      { SharesFromThreePieces(" 7 ", "x", "-3", permission); }
      ShareOfPiece(" 7 ", permission) + ShareOfPiece("x", permission) + ShareOfPiece("-3", permission);
      { PieceExamples(permission); }
      [Share(7, permission)];
    }
  }

  lemma SharesOfPieces(ids: string, pieces: seq<string>, permission: Option<string>)
    requires ids != "" && RemoveEmptyEntries(Split(ids, ',')) == pieces
    ensures SharesFromUserIds(Some(ids), permission) == SharesFromPieces(pieces, permission)
  {
  }
}
