/** The client's string helper `ToUpperFirst`, used to show names such as the
    visibility of a file with a capital first letter. */
module StringExtensions {
  import opened Wrappers
  import opened Text

  /** `ToUpperFirst`: null and "" come back as they are; otherwise the first
      character is upper-cased (`char.ToUpper`, over ASCII) and the rest of
      the text (`Substring(1)`) follows unchanged. */
  function ToUpperFirst(input: Option<string>): (r: Option<string>)
    ensures r.Some? <==> input.Some?
    ensures input.Some? ==> |r.value| == |input.value|
  {
    if IsNullOrEmpty(input) then input
    else Some([ToUpperAscii(input.value[0])] + input.value[1..])
  }

  /** Position by position: a null or empty input is returned unchanged, the
      first character becomes its upper-case form, every later character is
      the input's own. */
  lemma {:induction false} ToUpperFirstPointwise(input: Option<string>)
    ensures IsNullOrEmpty(input) ==> ToUpperFirst(input) == input
    ensures input.Some? ==>
      (forall i :: 0 <= i < |input.value| ==>
        ToUpperFirst(input).value[i] == (if i == 0 then ToUpperAscii(input.value[0]) else input.value[i]))
  {
  }

  /** The first character of the result is never a lower-case ASCII letter. */
  lemma {:induction false} ToUpperFirstStartsUpper(s: string)
    requires s != ""
    ensures !('a' <= ToUpperFirst(Some(s)).value[0] <= 'z')
    ensures 'a' <= s[0] <= 'z' ==> ToUpperFirst(Some(s)).value[0] as int == s[0] as int - 32
  {
  }

  /** A text that already starts with anything but a lower-case letter is left as it is. */
  lemma {:induction false} ToUpperFirstKeepsUpper(s: string)
    requires s != "" && !('a' <= s[0] <= 'z')
    ensures ToUpperFirst(Some(s)) == Some(s)
  {
    assert [s[0]] + s[1..] == s;
  }

  /** Upper-casing the first letter twice is doing it once. */
  lemma {:induction false} ToUpperFirstIdempotent(input: Option<string>)
    ensures ToUpperFirst(ToUpperFirst(input)) == ToUpperFirst(input)
  {
    if !IsNullOrEmpty(input) {
      var r := ToUpperFirst(input).value;
      assert r[0] == ToUpperAscii(input.value[0]);
      ToUpperFirstStartsUpper(input.value);
      ToUpperFirstKeepsUpper(r);
    }
  }
}
