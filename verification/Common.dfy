/** The optional value used wherever the program has a nil pointer or a zero time. */
module Wrappers {
  datatype Option<+T> = None | Some(value: T)
}

/** The string helpers the modelled code relies on. */
module Text {
  /** White space as Go's unicode.IsSpace sees it. */
  predicate IsSpace(c: char) {
    var n := c as int;
    || 9 <= n <= 13 || n == 0x20 || n == 0x85 || n == 0xA0 || n == 0x1680
    || 0x2000 <= n <= 0x200A || n == 0x2028 || n == 0x2029 || n == 0x202F || n == 0x205F || n == 0x3000
  }

  function TrimLeft(s: string): string {
    if s != "" && IsSpace(s[0]) then TrimLeft(s[1..]) else s
  }

  function TrimRight(s: string): string {
    if s != "" && IsSpace(s[|s| - 1]) then TrimRight(s[..|s| - 1]) else s
  }

  function Trim(s: string): string { TrimRight(TrimLeft(s)) }

  function LowerChar(c: char): char {
    if 'A' <= c <= 'Z' then ((c as int) + 32) as char else c
  }

  /** ASCII lower case. */
  function Lower(s: string): string {
    seq(|s|, i requires 0 <= i < |s| => LowerChar(s[i]))
  }

  predicate EqualFold(a: string, b: string) { Lower(a) == Lower(b) }

  /** The first argument that is not blank, trimmed. */
  function FirstNonEmpty(a: string, b: string): string { if Trim(a) != "" then Trim(a) else Trim(b) }

  lemma TrimLeftIdem(s: string)
    ensures TrimLeft(TrimLeft(s)) == TrimLeft(s)
    ensures TrimLeft(s) == "" || !IsSpace(TrimLeft(s)[0])
  {
  }

  lemma TrimRightFacts(s: string)
    ensures TrimRight(s) <= s
    ensures TrimRight(s) == "" || !IsSpace(TrimRight(s)[|TrimRight(s)| - 1])
    ensures TrimRight(TrimRight(s)) == TrimRight(s)
  {
  }

  lemma TrimIdem(s: string)
    ensures Trim(Trim(s)) == Trim(s)
  {
    TrimLeftIdem(s);
    TrimRightFacts(TrimLeft(s));
    var t := Trim(s);
    if t != "" { assert t[0] == TrimLeft(s)[0]; }
    assert TrimLeft(t) == t;
  }

  predicate AllSpace(s: string) { forall i | 0 <= i < |s| :: IsSpace(s[i]) }

  lemma {:induction false} TrimLeftMeans(s: string) returns (before: string)
    ensures s == before + TrimLeft(s) && AllSpace(before)
  {
    hide IsSpace;
    if s != "" && IsSpace(s[0]) {
      var rest := TrimLeftMeans(s[1..]);
      before := [s[0]] + rest;
      assert s == [s[0]] + s[1..];
    } else {
      before := "";
    }
  }

  lemma {:induction false} TrimRightMeans(s: string) returns (after: string)
    ensures s == TrimRight(s) + after && AllSpace(after)
  {
    hide IsSpace;
    if s != "" && IsSpace(s[|s| - 1]) {
      var rest := TrimRightMeans(s[..|s| - 1]);
      after := rest + [s[|s| - 1]];
      assert s == s[..|s| - 1] + [s[|s| - 1]];
    } else {
      after := "";
    }
  }

  /** Trimming takes away white space at both ends, all of it and nothing else. */
  lemma TrimMeans(s: string) returns (before: string, after: string)
    ensures s == before + Trim(s) + after && AllSpace(before) && AllSpace(after)
    ensures Trim(s) != "" ==> !IsSpace(Trim(s)[0]) && !IsSpace(Trim(s)[|Trim(s)| - 1])
  {
    before := TrimLeftMeans(s);
    after := TrimRightMeans(TrimLeft(s));
    TrimLeftIdem(s);
    TrimRightFacts(TrimLeft(s));
    assert before + Trim(s) + after == before + (Trim(s) + after);
  }

  lemma LowerEmpty(s: string)
    ensures Lower(s) == "" <==> s == ""
  {
    assert |Lower(s)| == |s|;
  }
}
