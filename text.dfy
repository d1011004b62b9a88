/** The .NET string primitives the services rely on: white space, trimming,
    ordinal and case-insensitive comparison, splitting on a separator,
    searching for a character, and Int32 parsing and printing. */
module Text {
  import opened Wrappers

  // ---------------------------------------------------------------------
  // White space and trimming
  // ---------------------------------------------------------------------

  /** `char.IsWhiteSpace`: U+0009..U+000D, U+0085 and the Unicode space,
      line and paragraph separators. */
  predicate IsWhiteSpace(c: char) {
    ('\t' <= c <= '\r') || c == ' ' || c == '\U{0085}' || c == '\U{00A0}' || c == '\U{1680}'
    || ('\U{2000}' <= c <= '\U{200A}') || c == '\U{2028}' || c == '\U{2029}'
    || c == '\U{202F}' || c == '\U{205F}' || c == '\U{3000}'
  }

  /** Every character is white space (the empty string included). */
  predicate IsBlank(s: string) {
    forall i :: 0 <= i < |s| ==> IsWhiteSpace(s[i])
  }

  /** `string.IsNullOrWhiteSpace` */
  predicate IsNullOrWhiteSpace(s: Option<string>) {
    s.None? || IsBlank(s.value)
  }

  /** `string.IsNullOrEmpty` */
  predicate IsNullOrEmpty(s: Option<string>) {
    s.None? || s.value == ""
  }

  /** Neither end of the string is white space. */
  predicate IsTrimmed(s: string) {
    s == [] || (!IsWhiteSpace(s[0]) && !IsWhiteSpace(s[|s| - 1]))
  }

  /** The first position at or after `i` that is not white space, or `|s|`. */
  function SkipLeading(s: string, i: nat): (j: nat)
    requires i <= |s|
    ensures i <= j <= |s|
    ensures forall k :: i <= k < j ==> IsWhiteSpace(s[k])
    ensures j == |s| || !IsWhiteSpace(s[j])
    decreases |s| - i
  {
    if i == |s| || !IsWhiteSpace(s[i]) then i else SkipLeading(s, i + 1)
  }

  /** The end of `s[lo..j]` once the white space before `j` is dropped. */
  function SkipTrailing(s: string, lo: nat, j: nat): (i: nat)
    requires lo <= j <= |s|
    ensures lo <= i <= j
    ensures forall k :: i <= k < j ==> IsWhiteSpace(s[k])
    ensures i == lo || !IsWhiteSpace(s[i - 1])
    decreases j
  {
    if j == lo || !IsWhiteSpace(s[j - 1]) then j else SkipTrailing(s, lo, j - 1)
  }

  /** `string.Trim()`: the middle slice of `s` with white space only outside it,
      and none at either of its ends. */
  function Trim(s: string): (r: string)
    ensures IsTrimmed(r)
    ensures exists i, j :: 0 <= i <= j <= |s| && r == s[i..j] && IsBlank(s[..i]) && IsBlank(s[j..])
  {
    var i := SkipLeading(s, 0);
    var j := SkipTrailing(s, i, |s|);
    assert IsBlank(s[..i]) && IsBlank(s[j..]);
    s[i..j]
  }

  /** Trimming a string that has no white space at its ends gives it back. */
  lemma TrimOfTrimmed(s: string)
    requires IsTrimmed(s)
    ensures Trim(s) == s
  {
  }

  /** `Trim` is idempotent. */
  lemma TrimIdempotent(s: string)
    ensures Trim(Trim(s)) == Trim(s)
  {
    TrimOfTrimmed(Trim(s));
  }

  /** Trimming leaves nothing exactly when the text is all white space. */
  lemma {:induction false} TrimEmptyIffBlank(s: string)
    ensures Trim(s) == [] <==> IsBlank(s)
  {
    var i, j :| 0 <= i <= j <= |s| && Trim(s) == s[i..j] && IsBlank(s[..i]) && IsBlank(s[j..]);
    if Trim(s) == [] {
      forall k | 0 <= k < |s| ensures IsWhiteSpace(s[k]) {
        if k < i {
          assert s[..i][k] == s[k];
        } else {
          assert s[j..][k - j] == s[k];
        }
      }
    } else {
      assert Trim(s)[0] == s[i];
    }
  }

  /** One space on each side of a non-empty trimmed text trims away. */
  lemma {:induction false} TrimPadded(t: string)
    requires t != [] && IsTrimmed(t)
    ensures Trim([' '] + t + [' ']) == t
  {
    var s := [' '] + t + [' '];
    assert SkipLeading(s, 0) == 1 by {
      assert s[1] == t[0];
      assert SkipLeading(s, 0) == SkipLeading(s, 1);
    }
    assert SkipTrailing(s, 1, |s|) == |s| - 1 by {
      assert s[|s| - 2] == t[|t| - 1];
      assert SkipTrailing(s, 1, |s|) == SkipTrailing(s, 1, |s| - 1);
    }
    assert s[1..|s| - 1] == t;
  }

  // ---------------------------------------------------------------------
  // Case and comparison
  // ---------------------------------------------------------------------

  /** `char.ToLowerInvariant` restricted to ASCII: A..Z map to a..z, every other character is kept. */
  function ToLowerAscii(c: char): char {
    if 'A' <= c <= 'Z' then (c as int + 32) as char else c
  }

  /** `char.ToUpper` restricted to ASCII: a..z map to A..Z, every other character is kept. */
  function ToUpperAscii(c: char): char {
    if 'a' <= c <= 'z' then (c as int - 32) as char else c
  }

  /** `string.ToLowerInvariant` over ASCII. */
  function ToLowerInvariant(s: string): string {
    seq(|s|, i requires 0 <= i < |s| => ToLowerAscii(s[i]))
  }

  /** `string.Equals(a, b, StringComparison.OrdinalIgnoreCase)` over ASCII. */
  predicate EqualsIgnoreCase(a: string, b: string) {
    |a| == |b| && forall i :: 0 <= i < |a| ==> ToLowerAscii(a[i]) == ToLowerAscii(b[i])
  }

  /** Ordinal `string.StartsWith`. */
  predicate StartsWith(s: string, prefix: string) {
    |prefix| <= |s| && s[..|prefix|] == prefix
  }

  /** `string.StartsWith(prefix, StringComparison.OrdinalIgnoreCase)` over ASCII. */
  predicate StartsWithIgnoreCase(s: string, prefix: string) {
    |prefix| <= |s| && EqualsIgnoreCase(s[..|prefix|], prefix)
  }

  /** Ordinal comparison implies the case-insensitive one. */
  lemma StartsWithIgnoringCase(s: string, prefix: string)
    requires StartsWith(s, prefix)
    ensures StartsWithIgnoreCase(s, prefix)
  {
  }

  /** A lower-cased string starts with a lower-case prefix exactly when the
      original starts with it ignoring case. */
  lemma {:induction false} LowerStartsWith(s: string, prefix: string)
    requires ToLowerInvariant(prefix) == prefix
    ensures StartsWith(ToLowerInvariant(s), prefix) <==> StartsWithIgnoreCase(s, prefix)
  {
    if |prefix| <= |s| {
      var low := ToLowerInvariant(s);
      if StartsWith(low, prefix) {
        forall i | 0 <= i < |prefix|
          ensures ToLowerAscii(s[..|prefix|][i]) == ToLowerAscii(prefix[i])
        {
          assert prefix[i] == low[i] == ToLowerAscii(s[i]);
          assert ToLowerAscii(prefix[i]) == prefix[i] by {
            assert ToLowerInvariant(prefix)[i] == ToLowerAscii(prefix[i]);
          }
        }
      }
      if StartsWithIgnoreCase(s, prefix) {
        forall i | 0 <= i < |prefix|
          ensures low[..|prefix|][i] == prefix[i]
        {
          assert ToLowerAscii(s[..|prefix|][i]) == ToLowerAscii(prefix[i]);
          assert ToLowerInvariant(prefix)[i] == ToLowerAscii(prefix[i]);
        }
      }
    }
  }

  // ---------------------------------------------------------------------
  // Splitting and joining on a separator character
  // ---------------------------------------------------------------------

  /** `s.Split(sep)`: the pieces between separators, empty ones included. */
  function Split(s: string, sep: char): (parts: seq<string>)
    ensures |parts| >= 1
    ensures forall k :: 0 <= k < |parts| ==> sep !in parts[k]
  {
    if s == [] then [""]
    else
      var rest := Split(s[1..], sep);
      if s[0] == sep then [""] + rest
      else [[s[0]] + rest[0]] + rest[1..]
  }

  /** `string.Join(sep, parts)`. */
  function Join(parts: seq<string>, sep: char): string
    requires |parts| >= 1
  {
    if |parts| == 1 then parts[0] else parts[0] + [sep] + Join(parts[1..], sep)
  }

  /** Joining the pieces again restores the original string. */
  lemma {:induction false} JoinSplit(s: string, sep: char)
    ensures Join(Split(s, sep), sep) == s
  {
    if s != [] {
      var rest := Split(s[1..], sep);
      JoinSplit(s[1..], sep);
      if s[0] != sep {
        var parts := [[s[0]] + rest[0]] + rest[1..];
        assert parts[1..] == rest[1..];
        if |rest| == 1 {
          assert Join(parts, sep) == [s[0]] + rest[0];
        } else {
          assert Join(rest, sep) == rest[0] + [sep] + Join(rest[1..], sep);
          assert Join(parts, sep) == [s[0]] + rest[0] + [sep] + Join(rest[1..], sep);
        }
      }
    }
  }

  /** A piece without the separator splits to itself. */
  lemma {:induction false} SplitNoSeparator(p: string, sep: char)
    requires sep !in p
    ensures Split(p, sep) == [p]
  {
    if p != [] {
      SplitNoSeparator(p[1..], sep);
      assert p[0] != sep;
      assert [p[0]] + p[1..] == p;
    }
  }

  /** Splitting `p + sep + t` peels off `p` when `p` has no separator. */
  lemma {:induction false} SplitCons(p: string, t: string, sep: char)
    requires sep !in p
    ensures Split(p + [sep] + t, sep) == [p] + Split(t, sep)
  {
    var s := p + [sep] + t;
    if p == [] {
      assert s[1..] == t;
    } else {
      assert s[1..] == p[1..] + [sep] + t;
      SplitCons(p[1..], t, sep);
      assert [p[0]] + p[1..] == p;
    }
  }

  /** Splitting a join of separator-free pieces gives the pieces back. */
  lemma {:induction false} SplitJoin(parts: seq<string>, sep: char)
    requires |parts| >= 1
    requires forall k :: 0 <= k < |parts| ==> sep !in parts[k]
    ensures Split(Join(parts, sep), sep) == parts
  {
    if |parts| == 1 {
      SplitNoSeparator(parts[0], sep);
    } else {
      SplitJoin(parts[1..], sep);
      SplitCons(parts[0], Join(parts[1..], sep), sep);
      assert [parts[0]] + parts[1..] == parts;
    }
  }

  /** `StringSplitOptions.RemoveEmptyEntries`: the non-empty pieces, in order. */
  function RemoveEmptyEntries(parts: seq<string>): (r: seq<string>)
    ensures |r| <= |parts|
    ensures forall x :: x in r <==> x in parts && x != ""
  {
    if parts == [] then []
    else (if parts[0] == "" then [] else [parts[0]]) + RemoveEmptyEntries(parts[1..])
  }

  /** Removing empty pieces works part by part: it keeps the order. */
  lemma {:induction false} RemoveEmptyEntriesAppend(a: seq<string>, b: seq<string>)
    ensures RemoveEmptyEntries(a + b) == RemoveEmptyEntries(a) + RemoveEmptyEntries(b)
    decreases |a|
  {
    if a != [] {
      var head := if a[0] == "" then [] else [a[0]];
      assert (a + b)[0] == a[0] && (a + b)[1..] == a[1..] + b;
      RemoveEmptyEntriesAppend(a[1..], b);
      calc {
        RemoveEmptyEntries(a + b);
        head + RemoveEmptyEntries(a[1..] + b);
        head + (RemoveEmptyEntries(a[1..]) + RemoveEmptyEntries(b));
        (head + RemoveEmptyEntries(a[1..])) + RemoveEmptyEntries(b);
      }
    } else {
      assert a + b == b;
    }
  }

  /** Removing empty pieces from a list that has none keeps the list. */
  lemma {:induction false} RemoveEmptyEntriesOfNonEmpty(parts: seq<string>)
    requires forall k :: 0 <= k < |parts| ==> parts[k] != ""
    ensures RemoveEmptyEntries(parts) == parts
  {
    if parts != [] {
      RemoveEmptyEntriesOfNonEmpty(parts[1..]);
    }
  }

  // ---------------------------------------------------------------------
  // Searching for a character
  // ---------------------------------------------------------------------

  /** `s.IndexOf(c)`: the first position of `c`, or none. */
  function IndexOf(s: string, c: char): (r: Option<nat>)
    ensures r.None? <==> c !in s
    ensures r.Some? ==> r.value < |s| && s[r.value] == c && c !in s[..r.value]
  {
    if s == [] then None
    else if s[0] == c then Some(0)
    else
      match IndexOf(s[1..], c)
      case None => None
      case Some(k) =>
        assert s[..k + 1] == [s[0]] + s[1..][..k];
        Some(k + 1)
  }

  /** `s.LastIndexOf(c)`: the last position of `c`, or none. */
  function LastIndexOf(s: string, c: char): (r: Option<nat>)
    ensures r.None? <==> c !in s
    ensures r.Some? ==> r.value < |s| && s[r.value] == c && c !in s[r.value + 1..]
  {
    if s == [] then None
    else if s[|s| - 1] == c then Some(|s| - 1)
    else
      var init := s[..|s| - 1];
      match LastIndexOf(init, c)
      case None =>
        assert s == init + [s[|s| - 1]];
        None
      case Some(k) =>
        assert s[k + 1..] == init[k + 1..] + [s[|s| - 1]];
        Some(k)
  }

  // ---------------------------------------------------------------------
  // Int32 parsing and printing
  // ---------------------------------------------------------------------

  const Int32Min: int := -0x8000_0000
  const Int32Max: int := 0x7FFF_FFFF

  predicate IsInt32(n: int) {
    Int32Min <= n <= Int32Max
  }

  predicate IsDigit(c: char) {
    '0' <= c <= '9'
  }

  predicate AllDigits(s: string) {
    forall i :: 0 <= i < |s| ==> IsDigit(s[i])
  }

  /** The decimal value of a string of ASCII digits. */
  function DigitsValue(s: string): nat
    requires AllDigits(s)
  {
    if s == [] then 0 else DigitsValue(s[..|s| - 1]) * 10 + (s[|s| - 1] as int - '0' as int)
  }

  /** `int.TryParse(s, out v)`: an optional sign followed by one or more ASCII
      digits whose value fits the Int32 range. */
  function ParseInt32(s: string): (r: Option<int>)
    ensures r.Some? ==> IsInt32(r.value)
    ensures r.Some? && r.value < 0 ==> s != [] && s[0] == '-'
  {
    var signed := s != [] && (s[0] == '-' || s[0] == '+');
    var digits := if signed then s[1..] else s;
    if digits == [] || !AllDigits(digits) then None
    else
      var v: int := if signed && s[0] == '-' then 0 - (DigitsValue(digits) as int) else DigitsValue(digits) as int;
      if IsInt32(v) then Some(v) else None
  }

  function DigitChar(d: nat): char
    requires d < 10
  {
    ('0' as int + d) as char
  }

  /** Decimal digits of `n` with no leading zero; they read back as `n`. */
  function NatToString(n: nat): (r: string)
    ensures |r| >= 1 && AllDigits(r) && DigitsValue(r) == n
  {
    if n < 10 then [DigitChar(n)]
    else
      var r := NatToString(n / 10) + [DigitChar(n % 10)];
      assert r[..|r| - 1] == NatToString(n / 10);
      r
  }

  /** `int.ToString()`: a minus sign for negative numbers, then the digits. */
  function IntToString(n: int): string {
    if n < 0 then "-" + NatToString(-n) else NatToString(n)
  }

  /** Printing an Int32 and parsing the text gives the number back. */
  lemma ParseIntToString(n: int)
    requires IsInt32(n)
    ensures ParseInt32(IntToString(n)) == Some(n)
  {
    var s := IntToString(n);
    if n < 0 {
      assert s[1..] == NatToString(-n);
    } else {
      assert IsDigit(s[0]);
    }
  }

  /** The printed form of an integer has no comma and no white space. */
  lemma IntToStringPlain(n: int)
    ensures ',' !in IntToString(n)
    ensures IntToString(n) != "" && IsTrimmed(IntToString(n))
  {
    var s := IntToString(n);
    if n < 0 {
      assert s[1..] == NatToString(-n);
      assert forall i :: 1 <= i < |s| ==> IsDigit(s[i]);
    }
  }

  /** Printing an Int32, trimming and parsing gives the number back. */
  lemma ParseTrimIntToString(n: int)
    requires IsInt32(n)
    ensures ParseInt32(Trim(IntToString(n))) == Some(n)
  {
    IntToStringPlain(n);
    TrimOfTrimmed(IntToString(n));
    ParseIntToString(n);
  }
}
