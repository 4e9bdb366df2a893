/** What a rune is: the UTF-8 form of a code point (RFC 3629, section 3). */
module Utf8Runes {
  import opened Utf8

  /** The code points that have a UTF-8 form: all but the surrogates. */
  predicate Scalar(p: int) { 0 <= p < 0xD800 || 0xE000 <= p <= 0x10FFFF }

  function Trail(n: nat): char { (0x80 + n % 64) as char }

  /** The shortest form, one to four bytes. */
  function Encoding(p: nat): string
    requires Scalar(p)
  {
    if p < 0x80 then [p as char]
    else if p < 0x800 then [(0xC0 + p / 64) as char, Trail(p)]
    else if p < 0x10000 then [(0xE0 + p / 4096) as char, Trail(p / 64), Trail(p)]
    else [(0xF0 + p / 262144) as char, Trail(p / 4096), Trail(p / 64), Trail(p)]
  }

  lemma ThreeByteForms(p: nat)
    requires Scalar(p) && 0x800 <= p < 0x10000
    ensures p / 4096 < 16 && (p / 4096 == 0 ==> p / 64 % 64 >= 32) && (p / 4096 == 13 ==> p / 64 % 64 < 32)
  {
    assert p / 64 / 64 == p / 4096;
  }

  lemma FourByteForms(p: nat)
    requires 0x10000 <= p <= 0x10FFFF
    ensures p / 262144 < 5 && (p / 262144 == 0 ==> p / 4096 % 64 >= 16) && (p / 262144 == 4 ==> p / 4096 % 64 < 16)
  {
    assert p / 4096 / 64 == p / 262144;
  }

  /** A form is a rune, whatever follows. */
  lemma FormIsRune(p: nat, rest: string)
    requires Scalar(p)
    ensures RuneSize(Encoding(p) + rest) == |Encoding(p)|
  {
    if 0x800 <= p < 0x10000 { ThreeByteForms(p); }
    if 0x10000 <= p { FourByteForms(p); }
  }

  function Low(c: char): int { c as int - 0x80 }

  lemma TwoByteRune(s: string) returns (p: nat)
    requires RuneSize(s) == 2
    ensures Scalar(p) && Encoding(p) == s[..2]
  {
    p := (s[0] as int - 0xC0) * 64 + Low(s[1]);
    assert p / 64 == s[0] as int - 0xC0 && p % 64 == Low(s[1]);
  }

  lemma ThreeByteRune(s: string) returns (p: nat)
    requires RuneSize(s) == 3
    ensures Scalar(p) && Encoding(p) == s[..3]
  {
    var a, b, c := s[0] as int - 0xE0, Low(s[1]), Low(s[2]);
    p := (a * 64 + b) * 64 + c;
    assert p / 64 == a * 64 + b && p % 64 == c;
    assert (a * 64 + b) / 64 == a && (a * 64 + b) % 64 == b;
    assert p / 4096 == p / 64 / 64;
  }

  lemma FourByteRune(s: string) returns (p: nat)
    requires RuneSize(s) == 4
    ensures Scalar(p) && Encoding(p) == s[..4]
  {
    var a, b, c, d := s[0] as int - 0xF0, Low(s[1]), Low(s[2]), Low(s[3]);
    var high := a * 64 + b;
    p := (high * 64 + c) * 64 + d;
    assert p / 64 == high * 64 + c && p % 64 == d;
    assert (high * 64 + c) / 64 == high && (high * 64 + c) % 64 == c;
    assert high / 64 == a && high % 64 == b;
    assert p / 4096 == high && p / 262144 == high / 64;
  }

  /** A string starts with a rune of some size exactly when it starts with the form of
      that size of some code point. */
  lemma RunesAreForms(s: string, n: nat)
    requires n > 0
    ensures RuneSize(s) == n <==> exists p :: Scalar(p) && Encoding(p) <= s && |Encoding(p)| == n
  {
    if RuneSize(s) == n {
      var p: nat;
      if n == 1 {
        p := s[0] as int;
        assert Encoding(p) == s[..1];
      } else if n == 2 {
        p := TwoByteRune(s);
      } else if n == 3 {
        p := ThreeByteRune(s);
      } else {
        p := FourByteRune(s);
      }
      assert Scalar(p) && Encoding(p) <= s && |Encoding(p)| == n;
    }
    if p :| Scalar(p) && Encoding(p) <= s && |Encoding(p)| == n {
      FormIsRune(p, s[n..]);
      assert s == Encoding(p) + s[n..];
    }
  }

  /** The text of some code points. */
  function Text(points: seq<nat>): string
    requires forall p | p in points :: Scalar(p)
  {
    if points == [] then "" else Encoding(points[0]) + Text(points[1..])
  }

  lemma ValidRest(a: string)
    requires Valid(a) && a != ""
    ensures 0 < RuneSize(a) <= |a| && Valid(a[RuneSize(a)..])
  {
  }

  lemma FirstForm(s: string) returns (p: nat)
    requires RuneSize(s) > 0
    ensures Scalar(p) && Encoding(p) == s[..RuneSize(s)]
  {
    RunesAreForms(s, RuneSize(s));
    hide RuneSize, Encoding;
    var q :| Scalar(q) && Encoding(q) <= s && |Encoding(q)| == RuneSize(s);
    p := q;
  }

  /** Valid is what some code points are written as. */
  lemma {:induction false} ValidIsText(s: string) returns (points: seq<nat>)
    requires Valid(s)
    ensures (forall p | p in points :: Scalar(p)) && Text(points) == s
    decreases |s|
  {
    hide RuneSize, Encoding, Valid, Scalar;
    if s == "" {
      points := [];
    } else {
      ValidRest(s);
      var p := FirstForm(s);
      var rest := ValidIsText(s[RuneSize(s)..]);
      points := [p] + rest;
      assert points[1..] == rest && s == s[..RuneSize(s)] + s[RuneSize(s)..];
    }
  }

  lemma {:induction false} TextIsValid(points: seq<nat>)
    requires forall p | p in points :: Scalar(p)
    ensures Valid(Text(points))
  {
    if points != [] {
      var first, rest := Encoding(points[0]), Text(points[1..]);
      TextIsValid(points[1..]);
      FormIsRune(points[0], rest);
      assert (first + rest)[|first|..] == rest;
    }
  }

  lemma FirstRuneIsKept(a: string, b: string)
    requires RuneSize(a) > 0
    ensures var n := RuneSize(a); ToValid(a + b) == a[..n] + ToValid(a[n..] + b)
  {
    var n := RuneSize(a);
    RuneSizeLocal(a, a[n..] + b);
    var all := a + b;
    assert a[..n] + (a[n..] + b) == all;
    assert all[..n] == a[..n] && all[n..] == a[n..] + b;
    hide RuneSize;
  }

  lemma {:induction false} ValidIsKept(a: string, b: string)
    requires Valid(a)
    ensures ToValid(a + b) == a + ToValid(b)
    decreases |a|
  {
    hide *;
    if a == "" {
      assert "" + b == b && "" + ToValid(b) == ToValid(b);
    } else {
      ValidRest(a);
      FirstRuneIsKept(a, b);
      var first, rest := a[..RuneSize(a)], a[RuneSize(a)..];
      ValidIsKept(rest, b);
      assert first + (rest + ToValid(b)) == a + ToValid(b);
    }
  }

  /** Between valid stretches single bytes that start no rune are dropped, and nothing
      else. */
  lemma OnlyInvalidBytesAreDropped(a: string, b: string)
    requires Valid(a)
    ensures ToValid(a + b) == a + if b != "" && RuneSize(b) == 0 then ToValid(b[1..]) else ToValid(b)
  {
    ValidIsKept(a, b);
    hide RuneSize, Valid;
  }
}
