/** Console output as text: valid UTF-8 is taken as it is, anything else as Windows-1252;
    words that look like UTF-8 read as Windows-1252 are mended. Strings are bytes. */
module ConsoleText {
  import opened Wrappers
  import opened Utf8

  // ---------------------------------------------------------------- runes

  const REPLACEMENT: nat := 0xFFFD

  /** What Windows-1252 has at 0x80 to 0x9F. */
  const HIGH: seq<nat> :=
    [0x20AC, REPLACEMENT, 0x201A, 0x0192, 0x201E, 0x2026, 0x2020, 0x2021,
     0x02C6, 0x2030, 0x0160, 0x2039, 0x0152, REPLACEMENT, 0x017D, REPLACEMENT,
     REPLACEMENT, 0x2018, 0x2019, 0x201C, 0x201D, 0x2022, 0x2013, 0x2014,
     0x02DC, 0x2122, 0x0161, 0x203A, 0x0153, REPLACEMENT, 0x017E, 0x0178]

  function Point(b: char): (p: nat)
    ensures p < 0xD800 || p == REPLACEMENT
    ensures b as int >= 0x80 ==> p >= 0x80
  {
    if b as int < 0x80 || 0xA0 <= b as int <= 0xFF then b as int
    else if b as int < 0xA0 then HIGH[b as int - 0x80]
    else REPLACEMENT
  }

  /** The UTF-8 form of a code point of the basic plane. */
  function Utf8Of(p: nat): (r: string)
    requires p < 0xD800 || p == REPLACEMENT
    ensures RuneSize(r) == |r| > 0 && CodePoint(r) == p && (p >= 0x80 ==> |r| >= 2)
  {
    if p < 0x80 then [p as char]
    else if p < 0x800 then
      SplitTwo(p);
      TwoBytes(p / 64, p % 64)
    else
      SplitThree(p);
      ThreeBytes(p / 4096, p / 64 % 64, p % 64)
  }

  function TwoBytes(a: nat, b: nat): (r: string)
    requires 2 <= a < 32 && b < 64
    ensures |r| == RuneSize(r) == 2 && CodePoint(r) == a * 64 + b
  {
    [(0xC0 + a) as char, (0x80 + b) as char]
  }

  function ThreeBytes(a: nat, b: nat, c: nat): (r: string)
    requires a < 16 && b < 64 && c < 64 && (a == 0 ==> b >= 32) && (a == 13 ==> b < 32)
    ensures |r| == RuneSize(r) == 3 && CodePoint(r) == a * 4096 + b * 64 + c
  {
    [(0xE0 + a) as char, (0x80 + b) as char, (0x80 + c) as char]
  }

  lemma SplitTwo(p: nat)
    requires 0x80 <= p < 0x800
    ensures 2 <= p / 64 < 32 && p % 64 < 64 && p == p / 64 * 64 + p % 64
  {
  }

  lemma SplitThree(p: nat)
    requires 0x800 <= p < 0xD800 || p == REPLACEMENT
    ensures p / 4096 < 16 && p / 64 % 64 < 64 && p % 64 < 64
    ensures p == p / 4096 * 4096 + p / 64 % 64 * 64 + p % 64
    ensures (p / 4096 == 0 ==> p / 64 % 64 >= 32) && (p / 4096 == 13 ==> p / 64 % 64 < 32)
  {
    assert p / 64 / 64 == p / 4096;
  }

  /** The code point a string starts with. */
  function CodePoint(s: string): (p: nat)
    requires RuneSize(s) > 0
  {
    var b := s[0] as int;
    match RuneSize(s)
    case 1 => b
    case 2 => (b - 0xC0) * 64 + (s[1] as int - 0x80)
    case 3 => (b - 0xE0) * 4096 + (s[1] as int - 0x80) * 64 + (s[2] as int - 0x80)
    case _ => (b - 0xF0) * 262144 + (s[1] as int - 0x80) * 4096 + (s[2] as int - 0x80) * 64 + (s[3] as int - 0x80)
  }

  /** The Windows-1252 byte of a code point. */
  function ByteOf(p: nat): (b: Option<char>)
    ensures b.Some? ==> Point(b.value) == p && (p != REPLACEMENT)
    ensures b.None? ==> forall c | Point(c) == p :: p == REPLACEMENT
  {
    if p < 0x80 || 0xA0 <= p <= 0xFF then Some(p as char)
    else if p != REPLACEMENT && exists i | 0 <= i < |HIGH| :: HIGH[i] == p then
      var i := IndexOf(HIGH, p);
      Some((0x80 + i) as char)
    else None
  }

  function IndexOf(s: seq<nat>, p: nat): (i: nat)
    requires p in s
    ensures i < |s| && s[i] == p && forall k | 0 <= k < i :: s[k] != p
  {
    if s[0] == p then 0 else 1 + IndexOf(s[1..], p)
  }

  predicate Space(p: nat) {
    || 0x09 <= p <= 0x0D || p == 0x20 || p == 0x85 || p == 0xA0 || p == 0x1680 || 0x2000 <= p <= 0x200A
    || p == 0x2028 || p == 0x2029 || p == 0x202F || p == 0x205F || p == 0x3000
  }

  /** Capital A with tilde or circumflex, and a with circumflex. */
  predicate Marker(p: nat) { p == 0xC3 || p == 0xC2 || p == 0xE2 }

  /** How far to the next rune; an invalid byte counts as one. */
  function Step(s: string): (n: nat)
    requires s != ""
    ensures 0 < n <= |s|
  {
    if RuneSize(s) > 0 then RuneSize(s) else 1
  }

  predicate EndsWord(text: string) { RuneSize(text) > 0 && Space(CodePoint(text)) }

  predicate HasMarker(s: string) {
    s != "" && ((RuneSize(s) > 0 && Marker(CodePoint(s))) || HasMarker(s[Step(s)..]))
  }

  // ---------------------------------------------------------------- mending

  function Windows1252(bytes: string): (text: string)
  {
    if bytes == "" then "" else Utf8Of(Point(bytes[0])) + Windows1252(bytes[1..])
  }

  /** The bytes whose Windows-1252 reading a text is. */
  function Unread(text: string): (bytes: Option<string>)
    ensures bytes.Some? ==> |bytes.value| <= |text|
  {
    if text == "" then Some("")
    else if RuneSize(text) == 0 then None
    else
      match (ByteOf(CodePoint(text)), Unread(text[RuneSize(text)..]))
      case (Some(b), Some(rest)) => Some([b] + rest)
      case _ => None
  }

  /** A word that is better read as UTF-8, by some score of how it looks. */
  function Mended(word: string, score: string -> int): Option<string> {
    if word == "" || !HasMarker(word) then None
    else
      match Unread(word)
      case None => None
      case Some(bytes) => if Valid(bytes) && score(bytes) > score(word) + 2 then Some(bytes) else None
  }

  function Flushed(word: string, score: string -> int): string {
    if Mended(word, score).Some? then Mended(word, score).value else word
  }

  /** Mends word by word; `word` is what has been read of the current one. */
  function MendWords(text: string, word: string, score: string -> int): string
    decreases |text|
  {
    if text == "" then Flushed(word, score)
    else
      var n := Step(text);
      if EndsWord(text) then Flushed(word, score) + text[..n] + MendWords(text[n..], "", score)
      else MendWords(text[n..], word + text[..n], score)
  }

  predicate SomeMended(text: string, word: string, score: string -> int)
    decreases |text|
  {
    if text == "" then Mended(word, score).Some?
    else
      var n := Step(text);
      if EndsWord(text) then Mended(word, score).Some? || SomeMended(text[n..], "", score)
      else SomeMended(text[n..], word + text[..n], score)
  }

  function Repaired(text: string, score: string -> int): string {
    if text == "" || !HasMarker(text) then text else MendWords(text, "", score)
  }

  method RepairMojibake(text: string, score: string -> int) returns (repaired: string)
    ensures repaired == Repaired(text, score)
  {
    if text == "" || !HasMarker(text) { return text; }
    var output, word, rest, any := "", "", text, false;
    while rest != ""
      invariant output + MendWords(rest, word, score) == MendWords(text, "", score)
      invariant any || output + word + rest == text
      decreases |rest|
    {
      var n := Step(rest);
      var rune, next := rest[..n], rest[n..];
      assert rest == rune + next;
      if EndsWord(rest) {
        var flushed := Flushed(word, score);
        WordEnds(output, flushed, rune, MendWords(next, "", score));
        WordEnds(output, word, rune, next);
        any := any || Mended(word, score).Some?;
        output, word := output + flushed + rune, "";
      } else {
        WordEnds(output, word, rune, next);
        word := word + rune;
      }
      rest := next;
    }
    any := any || Mended(word, score).Some?;
    if !any { return text; }
    repaired := output + Flushed(word, score);
  }

  lemma WordEnds(output: string, word: string, rune: string, rest: string)
    ensures output + (word + rune + rest) == output + word + rune + rest
    ensures output + word + (rune + rest) == output + word + rune + "" + rest == output + (word + rune) + rest
  {
  }

  function Decoded(bytes: string, score: string -> int): string
  {
    if bytes == "" then "" else Repaired(if Valid(bytes) then bytes else Windows1252(bytes), score)
  }

  // ---------------------------------------------------------------- runes of concatenations

  lemma FirstRune(a: string, b: string)
    requires RuneSize(a) > 0
    ensures RuneSize(a + b) == RuneSize(a) && CodePoint(a + b) == CodePoint(a)
    ensures (a + b)[RuneSize(a)..] == a[RuneSize(a)..] + b
  {
  }

  lemma {:induction false} ValidConcat(a: string, b: string)
    requires Valid(a)
    ensures Valid(a + b) <==> Valid(b)
    decreases |a|
  {
    if a == "" {
      assert a + b == b;
    } else {
      FirstRune(a, b);
      ValidConcat(a[RuneSize(a)..], b);
    }
  }

  lemma {:induction false} MarkerConcat(a: string, b: string)
    requires Valid(a)
    ensures HasMarker(a + b) <==> HasMarker(a) || HasMarker(b)
    decreases |a|
  {
    if a == "" {
      assert a + b == b;
    } else {
      FirstRune(a, b);
      MarkerConcat(a[RuneSize(a)..], b);
    }
  }

  lemma RuneIsValid(s: string)
    requires RuneSize(s) > 0
    ensures Valid(s[..RuneSize(s)]) && (Valid(s) <==> Valid(s[RuneSize(s)..]))
    ensures HasMarker(s[..RuneSize(s)]) ==> HasMarker(s)
  {
    var r, rest := s[..RuneSize(s)], s[RuneSize(s)..];
    assert s == r + rest;
    RuneSizeLocal(s, "");
    assert r + "" == r && r[RuneSize(r)..] == "";
    MarkerConcat(r, rest);
  }

  lemma {:induction false} Windows1252IsValid(bytes: string)
    ensures Valid(Windows1252(bytes))
  {
    if bytes != "" {
      Windows1252IsValid(bytes[1..]);
      var r := Utf8Of(Point(bytes[0]));
      RuneIsValid(r);
      assert r[..|r|] == r;
      ValidConcat(r, Windows1252(bytes[1..]));
    }
  }

  // ---------------------------------------------------------------- what mending does

  lemma {:induction false} UnreadIsShorter(text: string)
    requires Unread(text).Some?
    ensures HasMarker(text) ==> |Unread(text).value| < |text|
    decreases |text|
  {
    if text != "" { UnreadIsShorter(text[RuneSize(text)..]); }
  }

  lemma FlushedShortens(word: string, score: string -> int)
    ensures if Mended(word, score).Some? then |Flushed(word, score)| < |word| else Flushed(word, score) == word
    ensures Valid(word) ==> Valid(Flushed(word, score))
  {
    if Mended(word, score).Some? { UnreadIsShorter(word); }
  }

  /** One rune of mending. */
  lemma MendStep(text: string, word: string, score: string -> int)
    requires text != ""
    ensures var r, rest := text[..Step(text)], text[Step(text)..];
      && text == r + rest
      && MendWords(text, word, score)
         == (if EndsWord(text) then Flushed(word, score) + r + MendWords(rest, "", score)
             else MendWords(rest, word + r, score))
      && (SomeMended(text, word, score) <==>
          if EndsWord(text) then Mended(word, score).Some? || SomeMended(rest, "", score)
              else SomeMended(rest, word + r, score))
  {
  }

  /** Mending shortens what it changes. */
  ghost predicate Shortens(text: string, word: string, score: string -> int) {
    if SomeMended(text, word, score) then |MendWords(text, word, score)| < |word| + |text|
    else MendWords(text, word, score) == word + text
  }

  lemma {:induction false} MendingShortens(text: string, word: string, score: string -> int)
    ensures Shortens(text, word, score)
    decreases |text|
  {
    FlushedShortens(word, score);
    if text != "" {
      var r, rest := text[..Step(text)], text[Step(text)..];
      MendStep(text, word, score);
      MendingShortens(rest, if EndsWord(text) then "" else word + r, score);
      WordShortens(word, r, rest, Flushed(word, score), MendWords(rest, "", score));
      hide MendWords, SomeMended, Flushed, Mended, EndsWord, Step;
      assert text == r + rest;
    }
  }

  lemma WordShortens(word: string, r: string, rest: string, flushed: string, tail: string)
    ensures flushed == word && tail == "" + rest ==> flushed + r + tail == word + (r + rest)
    ensures |flushed| <= |word| && |tail| <= |rest| && (|flushed| < |word| || |tail| < |rest|) ==>
      |flushed + r + tail| < |word| + |r + rest|
    ensures word + r + rest == word + (r + rest)
  {
  }

  lemma {:induction false} NothingToMend(text: string, word: string, score: string -> int)
    requires Valid(text) && Valid(word) && !HasMarker(word) && !HasMarker(text)
    ensures !SomeMended(text, word, score)
    decreases |text|
  {
    if text != "" {
      var n := RuneSize(text);
      RuneIsValid(text);
      ValidConcat(word, text[..n]);
      MarkerConcat(word, text[..n]);
      NothingToMend(text[n..], if Space(CodePoint(text)) then "" else word + text[..n], score);
    }
  }

  lemma {:induction false} MendingKeepsValid(text: string, word: string, score: string -> int)
    requires Valid(text) && Valid(word)
    ensures Valid(MendWords(text, word, score))
    decreases |text|
  {
    FlushedShortens(word, score);
    if text != "" {
      MendStep(text, word, score);
      RuneIsValid(text);
      var r, rest, tail, flushed := text[..Step(text)], text[Step(text)..], MendWords(text[Step(text)..], "", score),
          Flushed(word, score);
      ValidConcat(word, r);
      hide MendWords, Flushed, EndsWord, Step, Valid;
      if EndsWord(text) {
        MendingKeepsValid(rest, "", score);
        ValidConcat(flushed, r);
        ValidConcat(flushed + r, tail);
      } else {
        MendingKeepsValid(rest, word + r, score);
      }
    }
  }

  /** Decoding always yields valid UTF-8, however the bytes were cut. */
  lemma DecodedIsValid(bytes: string, score: string -> int)
    ensures Valid(Decoded(bytes, score))
  {
    Windows1252IsValid(bytes);
    MendingKeepsValid(if Valid(bytes) then bytes else Windows1252(bytes), "", score);
  }

  /** Decoding leaves output alone exactly when it is valid UTF-8 and no word of it is
      mended; without a marker, exactly when it is valid. */
  lemma DecodedIsOutputExactlyWhen(bytes: string, score: string -> int)
    ensures Decoded(bytes, score) == bytes <==> Valid(bytes) && !SomeMended(bytes, "", score)
    ensures Valid(bytes) && !HasMarker(bytes) ==> !SomeMended(bytes, "", score)
  {
    DecodedIsValid(bytes, score);
    MendingShortens(bytes, "", score);
    assert "" + bytes == bytes;
    if Valid(bytes) && !HasMarker(bytes) { NothingToMend(bytes, "", score); }
  }

  // ---------------------------------------------------------------- decoding piece by piece

  lemma HighPointsDiffer(i: nat, j: nat)
    requires i < j < |HIGH| && HIGH[i] == HIGH[j]
    ensures HIGH[i] == REPLACEMENT
  {
  }

  lemma HighPoint(b: char)
    ensures 0x80 <= b as int < 0xA0 ==> Point(b) == HIGH[b as int - 0x80] && Point(b) > 0xFF
    ensures b as int < 0x80 || 0xA0 <= b as int <= 0xFF ==> Point(b) == b as int
    ensures b as int > 0xFF ==> Point(b) == REPLACEMENT
  {
  }

  lemma PointsDiffer(a: char, b: char)
    requires Point(a) == Point(b) != REPLACEMENT
    ensures a == b
  {
    hide Point;
    HighPoint(a);
    HighPoint(b);
    if 0x80 <= a as int < 0xA0 && 0x80 <= b as int < 0xA0 {
      var i, j := a as int - 0x80, b as int - 0x80;
      if i < j { HighPointsDiffer(i, j); }
      if j < i { HighPointsDiffer(j, i); }
    }
  }

  lemma ByteOfPoint(b: char)
    ensures ByteOf(Point(b)).Some? ==> ByteOf(Point(b)) == Some(b)
  {
    hide ByteOf, Point;
    if ByteOf(Point(b)).Some? { PointsDiffer(b, ByteOf(Point(b)).value); }
  }

  /** Reading bytes as Windows-1252 can only be undone to these bytes. */
  lemma {:induction false} UnreadUndoes(bytes: string)
    ensures Unread(Windows1252(bytes)).Some? ==> Unread(Windows1252(bytes)) == Some(bytes)
  {
    hide Utf8Of, Point, ByteOf;
    if bytes != "" {
      var r := Utf8Of(Point(bytes[0]));
      FirstRune(r, Windows1252(bytes[1..]));
      assert r[RuneSize(r)..] == "";
      assert Windows1252(bytes)[|r|..] == Windows1252(bytes[1..]);
      ByteOfPoint(bytes[0]);
      UnreadUndoes(bytes[1..]);
      assert bytes == [bytes[0]] + bytes[1..];
    }
  }

  lemma {:induction false} ReadingGrows(bytes: string)
    ensures |Windows1252(bytes)| >= |bytes|
    ensures !Valid(bytes) ==> |Windows1252(bytes)| > |bytes|
  {
    if bytes != "" { ReadingGrows(bytes[1..]); }
  }

  lemma {:induction false} ReadingAppends(bytes: string, b: char)
    ensures Windows1252(bytes + [b]) == Windows1252(bytes) + Utf8Of(Point(b))
  {
    hide Utf8Of, Point;
    if bytes == "" {
      assert [b][1..] == "" && bytes + [b] == [b];
    } else {
      ReadingAppends(bytes[1..], b);
      assert (bytes + [b])[1..] == bytes[1..] + [b];
    }
  }

  lemma FlushedGrows(bytes: string, score: string -> int)
    ensures Grows(Flushed(Windows1252(bytes), score), bytes)
  {
    UnreadUndoes(bytes);
    ReadingGrows(bytes);
  }

  lemma ReadingStep(bytes: string)
    requires bytes != ""
    ensures var text, r := Windows1252(bytes), Utf8Of(Point(bytes[0]));
      text != "" && Step(text) == |r| && text[..|r|] == r && text[|r|..] == Windows1252(bytes[1..])
      && (EndsWord(text) <==> Space(Point(bytes[0])))
    ensures Windows1252("") == ""
  {
    FirstRune(Utf8Of(Point(bytes[0])), Windows1252(bytes[1..]));
  }

  ghost predicate Grows(text: string, bytes: string) { |text| >= |bytes| && (!Valid(bytes) ==> |text| > |bytes|) }

  lemma GrowsByParts(flushed: string, r: string, tail: string, word: string, b: char, rest: string)
    requires Grows(flushed, word) && Grows(tail, rest) && |r| >= 1 && (b as int >= 0x80 ==> |r| >= 2)
    ensures Grows(flushed + r + tail, word + ([b] + rest))
  {
    InvalidPart(word, b, rest);
  }

  /** However words are mended, invalid bytes read as Windows-1252 become longer text. */
  lemma {:induction false} MendedReadingGrows(bytes: string, word: string, score: string -> int)
    ensures Grows(MendWords(Windows1252(bytes), Windows1252(word), score), word + bytes)
    decreases |bytes|
  {
    FlushedGrows(word, score);
    if bytes == "" {
      assert word + bytes == word;
    } else if Space(Point(bytes[0])) {
      MendedReadingGrows(bytes[1..], "", score);
      WordEndGrows(bytes, word, score);
    } else {
      MendedReadingGrows(bytes[1..], word + [bytes[0]], score);
      WordGoesOn(bytes, word, score);
    }
  }

  lemma WordEndGrows(bytes: string, word: string, score: string -> int)
    requires bytes != "" && Space(Point(bytes[0])) && Grows(Flushed(Windows1252(word), score), word)
    requires Grows(MendWords(Windows1252(bytes[1..]), Windows1252(""), score), "" + bytes[1..])
    ensures Grows(MendWords(Windows1252(bytes), Windows1252(word), score), word + bytes)
  {
    hide *;
    var b, rest := bytes[0], bytes[1..];
    var tail := MendWords(Windows1252(rest), Windows1252(""), score);
    assert "" + rest == rest && [b] + rest == bytes;
    ReadingStep(bytes);
    MendStep(Windows1252(bytes), Windows1252(word), score);
    HighIsLong(b);
    GrowsByParts(Flushed(Windows1252(word), score), Utf8Of(Point(b)), tail, word, b, rest);
  }

  lemma WordGoesOn(bytes: string, word: string, score: string -> int)
    requires bytes != "" && !Space(Point(bytes[0]))
    requires Grows(MendWords(Windows1252(bytes[1..]), Windows1252(word + [bytes[0]]), score),
                   word + [bytes[0]] + bytes[1..])
    ensures Grows(MendWords(Windows1252(bytes), Windows1252(word), score), word + bytes)
  {
    hide *;
    assert word + [bytes[0]] + bytes[1..] == word + bytes;
    ReadingStep(bytes);
    MendStep(Windows1252(bytes), Windows1252(word), score);
    ReadingAppends(word, bytes[0]);
  }

  lemma HighIsLong(b: char)
    ensures b as int >= 0x80 ==> |Utf8Of(Point(b))| >= 2
  {
    hide Utf8Of, Point;
  }

  lemma InvalidPart(word: string, b: char, rest: string)
    ensures !Valid(word + ([b] + rest)) ==> !Valid(word) || b as int >= 0x80 || !Valid(rest)
  {
    if Valid(word) { ValidConcat(word, [b] + rest); }
    if (b as int) < 0x80 {
      assert [b][1..] == "";
      ValidConcat([b], rest);
    }
  }

  /** A piece that decodes to itself if it is valid. */
  predicate Plain(bytes: string) { !Valid(bytes) || !HasMarker(bytes) }

  lemma PlainPiece(bytes: string, score: string -> int)
    requires Plain(bytes)
    ensures if Valid(bytes) then Decoded(bytes, score) == bytes else |Decoded(bytes, score)| > |bytes|
  {
    if Valid(bytes) {
      DecodedIsOutputExactlyWhen(bytes, score);
    } else {
      InvalidGrows(bytes, score);
    }
  }

  lemma InvalidGrows(bytes: string, score: string -> int)
    requires !Valid(bytes)
    ensures |Decoded(bytes, score)| > |bytes|
  {
    ReadingGrows(bytes);
    MendedReadingGrows(bytes, "", score);
    assert Windows1252("") == "" && "" + bytes == bytes;
  }

  function Joined(chunks: seq<string>): string {
    if chunks == [] then "" else Joined(chunks[..|chunks| - 1]) + chunks[|chunks| - 1]
  }

  /** What a reader of live output sees: every chunk is decoded by itself. */
  function Streamed(chunks: seq<string>, score: string -> int): string {
    if chunks == [] then "" else Streamed(chunks[..|chunks| - 1], score) + Decoded(chunks[|chunks| - 1], score)
  }

  lemma {:induction false} StreamGrows(chunks: seq<string>, score: string -> int)
    requires forall c | c in chunks :: Plain(c)
    ensures if forall c | c in chunks :: Valid(c) then Streamed(chunks, score) == Joined(chunks)
            else |Streamed(chunks, score)| > |Joined(chunks)|
  {
    if chunks != [] {
      var earlier, last := chunks[..|chunks| - 1], chunks[|chunks| - 1];
      assert chunks == earlier + [last];
      StreamGrows(earlier, score);
      PlainPiece(last, score);
    }
  }

  /** Rune boundaries are where the bytes say: a valid piece of valid text shows its
      markers in the text. */
  lemma {:induction false} PieceShowsItsMarkers(a: string, c: string, b: string)
    requires Valid(a + (c + b)) && Valid(c) && HasMarker(c)
    ensures HasMarker(a + (c + b))
    decreases |a|
  {
    var whole := a + (c + b);
    if a == "" {
      MarkerConcat(c, b);
      assert whole == c + b;
    } else {
      var n := RuneSize(whole);
      assert whole[|a|] == c[0];
      if n <= |a| {
        assert whole[n..] == a[n..] + (c + b);
        PieceShowsItsMarkers(a[n..], c, b);
      } else {
        assert false;
      }
    }
  }

  lemma {:induction false} PiecesArePlain(chunks: seq<string>, b: string)
    requires Valid(Joined(chunks) + b) && !HasMarker(Joined(chunks) + b)
    ensures forall c | c in chunks :: Plain(c)
  {
    if chunks != [] {
      var earlier, last := chunks[..|chunks| - 1], chunks[|chunks| - 1];
      assert chunks == earlier + [last];
      assert Joined(chunks) + b == Joined(earlier) + (last + b);
      if !Plain(last) { PieceShowsItsMarkers(Joined(earlier), last, b); }
      PiecesArePlain(earlier, last + b);
    }
  }

  /** Valid output without a marker reads the same live, chunk by chunk, as decoded in
      one go, exactly when no chunk ends inside a rune. */
  lemma LiveAgreesExactlyWhen(chunks: seq<string>, score: string -> int)
    requires Valid(Joined(chunks)) && !HasMarker(Joined(chunks))
    ensures Decoded(Joined(chunks), score) == Joined(chunks)
    ensures Streamed(chunks, score) == Decoded(Joined(chunks), score) <==> forall c | c in chunks :: Valid(c)
  {
    assert Joined(chunks) + "" == Joined(chunks);
    PiecesArePlain(chunks, "");
    StreamGrows(chunks, score);
    DecodedIsOutputExactlyWhen(Joined(chunks), score);
  }
}
