/** Byte strings, one char per byte, and the part of them that is valid UTF-8
    (RFC 3629, section 4). */
module Utf8 {
  predicate Cont(c: char) { 0x80 <= c as int <= 0xBF }

  /** The length of the rune a string starts with; 0 if it starts with an invalid byte. */
  function RuneSize(s: string): (n: nat)
    ensures n <= 4 && n <= |s|
  {
    if s == "" then 0
    else
      var b := s[0] as int;
      if b < 0x80 then 1
      else if 0xC2 <= b <= 0xDF then if |s| >= 2 && Cont(s[1]) then 2 else 0
      else if 0xE0 <= b <= 0xEF then
        if |s| >= 3 && Cont(s[1]) && Cont(s[2]) && (b == 0xE0 ==> s[1] as int >= 0xA0)
            && (b == 0xED ==> s[1] as int <= 0x9F)
        then 3 else 0
      else if 0xF0 <= b <= 0xF4 then
        if |s| >= 4 && Cont(s[1]) && Cont(s[2]) && Cont(s[3]) && (b == 0xF0 ==> s[1] as int >= 0x90)
            && (b == 0xF4 ==> s[1] as int <= 0x8F)
        then 4 else 0
      else 0
  }

  predicate Valid(s: string) { s == "" || (RuneSize(s) > 0 && Valid(s[RuneSize(s)..])) }

  /** The string without its invalid bytes. */
  function ToValid(s: string): (r: string)
    ensures |r| <= |s|
  {
    if s == "" then ""
    else if RuneSize(s) > 0 then s[..RuneSize(s)] + ToValid(s[RuneSize(s)..])
    else ToValid(s[1..])
  }

  lemma RuneSizeLocal(s: string, t: string)
    requires RuneSize(s) > 0
    ensures RuneSize(s[..RuneSize(s)] + t) == RuneSize(s)
  {
  }

  /** What is kept is valid UTF-8, and valid text is kept whole. */
  lemma {:induction false} ToValidIsValid(s: string)
    ensures Valid(ToValid(s))
    ensures Valid(s) <==> ToValid(s) == s
    decreases |s|
  {
    if s != "" {
      var n := RuneSize(s);
      if n > 0 {
        var rest := ToValid(s[n..]);
        ToValidIsValid(s[n..]);
        RuneSizeLocal(s, rest);
        assert (s[..n] + rest)[n..] == rest;
        assert s == s[..n] + s[n..];
      } else {
        ToValidIsValid(s[1..]);
        assert |ToValid(s[1..])| < |s|;
      }
    }
  }

  /** Leading invalid bytes are dropped first, the others with the conversion: the
      result is simply the string without its invalid bytes. */
  method ValidTail(tail: string) returns (text: string)
    ensures text == ToValid(tail)
  {
    ToValidIsValid(tail);
    if |tail| == 0 { return ""; }
    if Valid(tail) { return tail; }
    var aligned := tail;
    while |aligned| > 0
      invariant ToValid(aligned) == ToValid(tail)
    {
      if RuneSize(aligned) > 0 { break; }
      aligned := aligned[1..];
    }
    return ToValid(aligned);
  }
}
