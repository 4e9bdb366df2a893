/** What mending does to a word, and where words end. */
module ConsoleWords {
  import opened Wrappers
  import opened Utf8
  import opened ConsoleText

  // ---------------------------------------------------------------- markers

  /** The bytes 0xC3 and then one of 0x82, 0x83 and 0xA2: how the markers are written. */
  predicate MarkerAt(s: string, i: int) {
    0 <= i < |s| - 1 && s[i] as int == 0xC3 && s[i + 1] as int in {0x82, 0x83, 0xA2}
  }

  lemma MarkerFirst(s: string)
    requires RuneSize(s) > 0
    ensures Marker(CodePoint(s)) <==> MarkerAt(s, 0)
    ensures forall i | 0 < i < RuneSize(s) :: !MarkerAt(s, i)
  {
  }

  /** Valid text has a marker exactly where these bytes stand. */
  lemma MarkerNext(s: string)
    requires Valid(s) && s != ""
    ensures var n := RuneSize(s);
      && 0 < n <= |s| && Valid(s[n..]) && (HasMarker(s) <==> MarkerAt(s, 0) || HasMarker(s[n..]))
      && forall i | 0 < i < n :: !MarkerAt(s, i)
  {
    MarkerFirst(s);
    hide CodePoint, MarkerAt;
  }

  /** Valid text has a marker exactly where these bytes stand. */
  lemma {:induction false} MarkersAreBytes(s: string)
    requires Valid(s)
    ensures HasMarker(s) <==> exists i :: MarkerAt(s, i)
    decreases |s|
  {
    hide HasMarker, RuneSize, Valid;
    if s == "" {
      NoMarker();
    } else {
      var n := RuneSize(s);
      MarkerNext(s);
      MarkersAreBytes(s[n..]);
      if j :| MarkerAt(s[n..], j) { assert MarkerAt(s, j + n); }
      if j :| MarkerAt(s, j) { assert j == 0 || MarkerAt(s[n..], j - n); }
    }
  }

  lemma NoMarker()
    ensures !HasMarker("")
  {
  }

  // ---------------------------------------------------------------- one word

  /** Every byte has a character of its own in Windows-1252. */
  predicate AllDefined(bytes: string) { forall b | b in bytes :: Point(b) != REPLACEMENT }

  lemma TwoByteRune(s: string)
    requires RuneSize(s) == 2
    ensures 0x80 <= CodePoint(s) < 0x800 && Utf8Of(CodePoint(s)) == s[..2]
  {
    var p := CodePoint(s);
    assert p / 64 == s[0] as int - 0xC0 && p % 64 == s[1] as int - 0x80;
  }

  lemma ThreeByteRune(s: string)
    requires RuneSize(s) == 3 && (CodePoint(s) < 0xD800 || CodePoint(s) == REPLACEMENT)
    ensures CodePoint(s) >= 0x800 && Utf8Of(CodePoint(s)) == s[..3]
  {
    var p, high := CodePoint(s), (s[0] as int - 0xE0) * 64 + (s[1] as int - 0x80);
    assert p / 64 == high && p % 64 == s[2] as int - 0x80;
    assert p / 4096 == high / 64;
  }

  lemma RuneOfPoint(s: string)
    requires RuneSize(s) > 0 && (CodePoint(s) < 0xD800 || CodePoint(s) == REPLACEMENT)
    ensures Utf8Of(CodePoint(s)) == s[..RuneSize(s)]
  {
    if RuneSize(s) == 2 {
      TwoByteRune(s);
      hide *;
    } else if RuneSize(s) == 3 {
      ThreeByteRune(s);
      hide *;
    } else if RuneSize(s) == 4 {
      FourBytesAreHigh(s);
    }
  }

  lemma FourBytesAreHigh(s: string)
    requires RuneSize(s) == 4
    ensures CodePoint(s) >= 0x10000
  {
  }

  /** The first byte of a reading that can be undone. */
  lemma UnreadFirst(text: string) returns (b: char)
    requires text != "" && Unread(text).Some?
    ensures var n := RuneSize(text);
      && n > 0 && Unread(text[n..]).Some? && Unread(text).value == [b] + Unread(text[n..]).value
      && Point(b) != REPLACEMENT && Utf8Of(Point(b)) == text[..n]
  {
    hide Point, Utf8Of, CodePoint, RuneSize;
    b := ByteOf(CodePoint(text)).value;
    hide ByteOf;
    PointIsShort(b);
    RuneOfPoint(text);
  }

  lemma PointIsShort(b: char)
    ensures Point(b) < 0xD800 || Point(b) == REPLACEMENT
  {
  }

  lemma ReadingGrowsBy(b: char, rest: string, first: string, more: string)
    requires Windows1252(rest) == more && AllDefined(rest) && Point(b) != REPLACEMENT && Utf8Of(Point(b)) == first
    ensures Windows1252([b] + rest) == first + more && AllDefined([b] + rest)
  {
    hide Point, Utf8Of;
    assert ([b] + rest)[1..] == rest;
  }

  lemma EmptyReading()
    ensures Unread("") == Some("") && Windows1252("") == "" && AllDefined("")
  {
  }

  lemma {:induction false} UnreadIsAReading(text: string)
    ensures Unread(text).Some? ==> Windows1252(Unread(text).value) == text && AllDefined(Unread(text).value)
    decreases |text|
  {
    hide *;
    if text == "" {
      EmptyReading();
    } else if Unread(text).Some? {
      var b := UnreadFirst(text);
      var n := RuneSize(text);
      UnreadIsAReading(text[n..]);
      ReadingGrowsBy(b, Unread(text[n..]).value, text[..n], text[n..]);
      assert text == text[..n] + text[n..];
    }
  }

  lemma {:induction false} ReadingIsUnread(bytes: string)
    requires AllDefined(bytes)
    ensures Unread(Windows1252(bytes)) == Some(bytes)
  {
    UnreadUndoes(bytes);
    if bytes != "" {
      assert bytes[0] in bytes && forall b | b in bytes[1..] :: b in bytes;
      ReadingIsUnread(bytes[1..]);
      var r := Utf8Of(Point(bytes[0]));
      FirstRune(r, Windows1252(bytes[1..]));
      assert r[RuneSize(r)..] == "";
      hide Point, Utf8Of, CodePoint, RuneSize;
      assert Windows1252(bytes)[|r|..] == Windows1252(bytes[1..]);
      assert ByteOf(Point(bytes[0])).Some?;
    }
  }

  /** The bytes a word would have been, had it been read as what it is. */
  ghost predicate Misread(word: string, bytes: string) {
    Windows1252(bytes) == word && AllDefined(bytes) && Valid(bytes)
  }

  /** A word is mended exactly when it carries a marker and is the Windows-1252 reading of
      valid UTF-8 that looks better by more than two points; it becomes that. */
  lemma MendedExactlyWhen(word: string, bytes: string, score: string -> int)
    ensures Mended(word, score) == Some(bytes)
      <==> word != "" && HasMarker(word) && Misread(word, bytes) && score(bytes) - score(word) >= 3
  {
    UnreadIsAReading(word);
    if Windows1252(bytes) == word && AllDefined(bytes) { ReadingIsUnread(bytes); }
    hide Windows1252, Unread, AllDefined, HasMarker, Valid;
  }

  // ---------------------------------------------------------------- words

  /** No rune of the string is white space. */
  predicate OneWord(s: string) {
    s == "" || (RuneSize(s) > 0 && !Space(CodePoint(s)) && OneWord(s[RuneSize(s)..]))
  }

  /** The first rune of a word. */
  lemma RuneOfWord(a: string, rest: string, word: string, score: string -> int)
    requires OneWord(a) && a != ""
    ensures var n := RuneSize(a);
      && 0 < n <= |a| && OneWord(a[n..])
      && MendWords(a + rest, word, score) == MendWords(a[n..] + rest, word + a[..n], score)
  {
    FirstRune(a, rest);
    MendStep(a + rest, word, score);
    assert (a + rest)[..RuneSize(a)] == a[..RuneSize(a)];
    hide MendWords, RuneSize, CodePoint, Space;
  }

  lemma {:induction false} WordIsCollected(a: string, rest: string, word: string, score: string -> int)
    requires OneWord(a)
    ensures MendWords(a + rest, word, score) == MendWords(rest, word + a, score)
    decreases |a|
  {
    hide *;
    if a == "" {
      assert a + rest == rest && word + a == word;
    } else {
      RuneOfWord(a, rest, word, score);
      var first, more := a[..RuneSize(a)], a[RuneSize(a)..];
      WordIsCollected(more, rest, word + first, score);
      assert word + first + more == word + a;
    }
  }

  lemma SpaceEnds(sp: string, rest: string, word: string, score: string -> int)
    requires |sp| == 1 && (sp[0] as int == 0x20 || 0x09 <= sp[0] as int <= 0x0D)
    ensures MendWords(sp + rest, word, score) == Flushed(word, score) + sp + MendWords(rest, "", score)
  {
    assert (sp + rest)[..1] == sp && (sp + rest)[1..] == rest;
    hide Flushed;
  }

  /** Words are mended one by one, and the white space between them stays. */
  lemma WordsAreMendedAlone(a: string, sp: string, b: string, score: string -> int)
    requires OneWord(a) && |sp| == 1 && (sp[0] as int == 0x20 || 0x09 <= sp[0] as int <= 0x0D)
    ensures MendWords(a + sp + b, "", score)
      == (if Mended(a, score).Some? then Mended(a, score).value else a) + sp + MendWords(b, "", score)
  {
    assert a + sp + b == a + (sp + b) && "" + a == a;
    WordIsCollected(a, sp + b, "", score);
    SpaceEnds(sp, b, a, score);
    hide MendWords, Mended;
  }
}
