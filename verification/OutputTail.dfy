/** The bounded tail of a command's output. */
module OutputTail {
  import opened Utf8
  import opened LogEntries
  import opened ConsoleText

  /** The last `limit` bytes. */
  function Last(s: string, limit: int): (tail: string)
    ensures |tail| == if limit <= 0 then 0 else if |s| < limit then |s| else limit
  {
    if limit <= 0 then "" else if |s| <= limit then s else s[|s| - limit..]
  }

  const OMITTED_HEAD := "[output truncated: omitted "
  const OMITTED_TAIL := " bytes]\n"

  /** What is shown of the retained bytes. */
  function Shown(retained: string, omitted: nat, score: string -> int): string {
    if omitted == 0 then ToValid(Decoded(retained, score))
        else OMITTED_HEAD + Digits(omitted) + OMITTED_TAIL + ToValid(Decoded(retained, score))
  }

  /** The tail a command ends with, however its output arrived. */
  function TailText(output: string, limit: int, score: string -> int): string {
    Shown(Last(output, limit), |output| - |Last(output, limit)|, score)
  }

  class Tail {
    const limitBytes: int
    var retainedBytes: string
    var omittedBytes: nat
    ghost var written: string // everything written so far

    constructor (limitBytes: int)
      ensures this.limitBytes == limitBytes && Valid() && written == ""
    {
      this.limitBytes := limitBytes;
      retainedBytes, omittedBytes, written := "", 0, "";
    }

    /** Exactly the last bytes are retained, and the others are counted. */
    ghost predicate Valid()
      reads this
    {
      retainedBytes == Last(written, limitBytes) && omittedBytes == |written| - |retainedBytes|
    }

    method Write(chunk: string) returns (n: nat)
      requires Valid()
      modifies this
      ensures Valid() && written == old(written) + chunk && n == |chunk|
    {
      LastOfConcat(written, chunk, limitBytes);
      if |chunk| >= limitBytes > 0 { LastOfLongChunk(written, chunk, limitBytes); }
      n := |chunk|;
      ghost var all := written + chunk;
      written := all;
      if n == 0 {
        assert all == old(written);
        return;
      }
      if limitBytes <= 0 {
        omittedBytes := omittedBytes + n;
        return;
      }
      if n >= limitBytes {
        omittedBytes := omittedBytes + (|retainedBytes| + n - limitBytes);
        retainedBytes := chunk[n - limitBytes..];
        return;
      }
      var overflow := |retainedBytes| + n - limitBytes;
      if overflow > 0 {
        omittedBytes := omittedBytes + overflow;
        retainedBytes := retainedBytes[overflow..];
      }
      retainedBytes := retainedBytes + chunk;
    }

    method Text(score: string -> int) returns (text: string)
      requires Valid()
      ensures text == TailText(written, limitBytes, score)
    {
      text := ValidTail(Decoded(retainedBytes, score));
      if omittedBytes != 0 { text := OMITTED_HEAD + Digits(omittedBytes) + OMITTED_TAIL + text; }
    }
  }

  lemma LastOfLongChunk(a: string, b: string, limit: int)
    requires |b| >= limit > 0
    ensures Last(a + b, limit) == b[|b| - limit..]
  {
    assert (a + b)[|a + b| - limit..] == b[|b| - limit..];
  }

  lemma LastOfShortChunk(a: string, b: string, limit: int)
    requires |b| < limit < |a| + |b|
    ensures Last(a + b, limit) == a[|a| + |b| - limit..] + b
  {
    assert (a + b)[|a + b| - limit..] == a[|a| + |b| - limit..] + b;
  }

  /** The tail of a concatenation needs only the tail of its first part. */
  lemma LastOfConcat(a: string, b: string, limit: int)
    ensures Last(a + b, limit) == Last(Last(a, limit) + b, limit)
  {
    if limit > 0 && |b| >= limit {
      LastOfLongChunk(a, b, limit);
      LastOfLongChunk(Last(a, limit), b, limit);
    } else if limit > 0 && |a| > limit && |b| > 0 {
      var kept := a[|a| - limit..];
      LastOfShortChunk(a, b, limit);
      LastOfShortChunk(kept, b, limit);
      assert kept[|kept| + |b| - limit..] == a[|a| + |b| - limit..];
    } else if limit > 0 && |a| > limit {
      assert a + b == a && Last(a, limit) + b == Last(a, limit);
    }
  }

  /** Writes the chunks in turn. */
  method Collect(chunks: seq<string>, limit: int, score: string -> int) returns (text: string)
    ensures text == TailText(Joined(chunks), limit, score)
  {
    var tail := new Tail(limit);
    for i := 0 to |chunks|
      invariant tail.Valid() && tail.written == Joined(chunks[..i]) && tail.limitBytes == limit
    {
      assert chunks[..i + 1][..i] == chunks[..i];
      var _ := tail.Write(chunks[i]);
    }
    assert chunks[..|chunks|] == chunks;
    text := tail.Text(score);
  }

  /** Text bounded in one go. */
  method BoundText(text: string, limit: int, score: string -> int) returns (bounded: string)
    ensures bounded == Bounded(text, limit, score)
  {
    if limit <= 0 || |text| <= limit { return text; }
    bounded := Collect([text], limit, score);
    assert Joined([text]) == text by { assert [text][..0] == []; }
  }

  function Bounded(text: string, limit: int, score: string -> int): string {
    if limit <= 0 || |text| <= limit then text else TailText(text, limit, score)
  }

  /** With a positive limit, streaming and bounding in one go agree exactly when the
      output is over the limit, or is valid UTF-8 with no word to mend; without a limit,
      streaming keeps nothing and bounding keeps everything. */
  lemma StreamingAgreesWithBounding(output: string, limit: int, score: string -> int)
    ensures limit > 0 ==>
              (TailText(output, limit, score) == Bounded(output, limit, score) <==>
               |output| > limit || (Valid(output) && !SomeMended(output, "", score)))
    ensures limit > 0 && Valid(output) && !HasMarker(output) ==>
      TailText(output, limit, score) == Bounded(output, limit, score)
    ensures limit <= 0 ==>
              (TailText(output, limit, score) == Bounded(output, limit, score) <==>
               output == "" || output == OMITTED_HEAD + Digits(|output|) + OMITTED_TAIL)
  {
    DecodedIsOutputExactlyWhen(output, score);
    DecodedIsValid(Last(output, limit), score);
    ToValidIsValid(Decoded(Last(output, limit), score));
    hide Valid, SomeMended, HasMarker, Digits;
    if limit <= 0 {
      assert OMITTED_HEAD + Digits(|output|) + OMITTED_TAIL + "" == OMITTED_HEAD + Digits(|output|) + OMITTED_TAIL;
    }
  }

  /** A tail cut inside a rune is shown whole as Windows-1252, not just without the
      broken rune. */
  lemma CutRuneChangesTheWholeTail(output: string, limit: int, score: string -> int)
    requires 0 < limit < |output| && Cont(output[|output| - limit])
    ensures var tail := Last(output, limit);
      && !Valid(tail) && Decoded(tail, score) == Repaired(Windows1252(tail), score)
      && TailText(output, limit, score) == OMITTED_HEAD + Digits(|output| - limit) + OMITTED_TAIL
            + Repaired(Windows1252(tail), score)
      && |Repaired(Windows1252(tail), score)| > limit
  {
    var tail := Last(output, limit);
    DecodedIsValid(tail, score);
    ToValidIsValid(Decoded(tail, score));
    StartsInsideRune(tail);
    InvalidGrows(tail, score);
    hide Valid, ToValid, Repaired, Windows1252, Digits, OMITTED_HEAD, OMITTED_TAIL;
  }

  lemma StartsInsideRune(s: string)
    requires s != "" && Cont(s[0])
    ensures !Valid(s)
  {
  }

  /** Every retained byte is the byte of the output at the same distance from its end. */
  lemma RetainedBytesAreTheLast(output: string, limit: int, k: nat)
    requires k < |Last(output, limit)|
    ensures Last(output, limit)[|Last(output, limit)| - 1 - k] == output[|output| - 1 - k]
  {
  }

  // ---------------------------------------------------------------- decoding twice

  /** What a command's result shows: the tail receives chunks that were decoded one by
      one for the live log, and decodes again. */
  function Retold(chunks: seq<string>, limit: int, score: string -> int): string {
    TailText(Streamed(chunks, score), limit, score)
  }

  lemma {:induction false} DigitsAreDigits(n: nat, i: nat)
    requires i < |Digits(n)|
    ensures '0' <= Digits(n)[i] <= '9'
  {
    if n >= 10 && i < |Digits(n)| - 1 { DigitsAreDigits(n / 10, i); }
  }

  lemma {:induction false} DigitsDiffer(a: nat, b: nat)
    requires Digits(a) == Digits(b)
    ensures a == b
  {
    DigitsEnd(a);
    DigitsEnd(b);
    if a >= 10 && b >= 10 { DigitsDiffer(a / 10, b / 10); }
  }

  lemma DigitsEnd(n: nat)
    ensures var d := Digits(n); |d| > 0 && d[|d| - 1] as int == '0' as int + n % 10
    ensures n >= 10 ==> |Digits(n)| > 1 && Digits(n)[..|Digits(n)| - 1] == Digits(n / 10)
    ensures n < 10 ==> |Digits(n)| == 1
  {
    if n >= 10 { assert |Digits(n / 10)| > 0; }
  }

  /** A notice tells how much was omitted. */
  lemma NoticesDiffer(a: nat, b: nat, x: string, y: string)
    requires a != b
    ensures OMITTED_HEAD + Digits(a) + OMITTED_TAIL + x != OMITTED_HEAD + Digits(b) + OMITTED_TAIL + y
  {
    if Digits(a) == Digits(b) { DigitsDiffer(a, b); }
    DelimitedDiffer(OMITTED_HEAD, Digits(a), Digits(b), OMITTED_TAIL, x, y, a, b);
  }

  lemma DelimitedDiffer(head: string, da: string, db: string, tail: string, x: string, y: string, a: nat, b: nat)
    requires da == Digits(a) && db == Digits(b) && da != db && tail != "" && tail[0] == ' '
    ensures head + da + tail + x != head + db + tail + y
  {
    var s, t := head + da + tail + x, head + db + tail + y;
    if |da| < |db| {
      DigitsAreDigits(b, |da|);
      assert s[|head| + |da|] == ' ' && t[|head| + |da|] == db[|da|];
    } else if |db| < |da| {
      DigitsAreDigits(a, |db|);
      assert t[|head| + |db|] == ' ' && s[|head| + |db|] == da[|db|];
    } else {
      var i :| 0 <= i < |da| && da[i] != db[i];
      assert s[|head| + i] == da[i] && t[|head| + i] == db[i];
    }
  }

  /** Valid output without a marker: the two steps give what decoding the raw tail gives
      if no chunk ends inside a rune. If one does, they differ whenever something is
      omitted, and where nothing is they agree exactly when mending undoes the damage. */
  lemma RetoldAgreesExactlyWhen(chunks: seq<string>, limit: int, score: string -> int)
    requires Valid(Joined(chunks)) && !HasMarker(Joined(chunks))
    ensures var raw, twice := TailText(Joined(chunks), limit, score), Retold(chunks, limit, score);
      && ((forall c | c in chunks :: Valid(c)) ==> twice == raw)
      && (|Joined(chunks)| > limit ==> (twice == raw <==> forall c | c in chunks :: Valid(c)))
      && (|Streamed(chunks, score)| <= limit ==>
          (twice == raw <==> Decoded(Streamed(chunks, score), score) == Joined(chunks)))
      && (|Joined(chunks)| <= limit < |Streamed(chunks, score)| && twice == raw ==> OMITTED_HEAD <= Joined(chunks))
  {
    var output, streamed := Joined(chunks), Streamed(chunks, score);
    LiveAgreesExactlyWhen(chunks, score);
    assert output + "" == output;
    PiecesArePlain(chunks, "");
    StreamGrows(chunks, score);
    DecodedIsValid(streamed, score);
    ToValidIsValid(Decoded(streamed, score));
    ToValidIsValid(output);
    hide Decoded, Streamed, Joined, Valid, ToValid, HasMarker, OMITTED_HEAD, OMITTED_TAIL, Digits;
    if |output| > limit && streamed != output { OmissionsDiffer(output, streamed, limit, score); }
    if |output| <= limit < |streamed| { TruncatedHasNotice(streamed, limit, score); }
  }

  lemma OmissionsDiffer(output: string, streamed: string, limit: int, score: string -> int)
    requires |streamed| > |output| > limit
    ensures TailText(streamed, limit, score) != TailText(output, limit, score)
  {
    if output == "" {
      assert Decoded("", score) == "" && ToValid("") == "" && OMITTED_HEAD != "";
    } else {
      SomeOmitted(output, limit, score);
    }
    SomeOmitted(streamed, limit, score);
    hide Decoded, ToValid, Digits, TailText, Last;
    var a, b := |streamed| - |Last(streamed, limit)|, |output| - |Last(output, limit)|;
    if output != "" {
      NoticesDiffer(a, b, ToValid(Decoded(Last(streamed, limit), score)), ToValid(Decoded(Last(output, limit), score)));
    }
  }

  lemma SomeOmitted(output: string, limit: int, score: string -> int)
    requires |output| > limit && output != ""
    ensures var kept := Last(output, limit);
      && |output| > |kept| == (if limit <= 0 then 0 else limit)
      && TailText(output, limit, score)
         == OMITTED_HEAD + Digits(|output| - |kept|) + OMITTED_TAIL + ToValid(Decoded(kept, score))
  {
    hide Decoded, ToValid, Digits;
  }

  lemma TruncatedHasNotice(streamed: string, limit: int, score: string -> int)
    requires 0 <= limit < |streamed|
    ensures OMITTED_HEAD <= TailText(streamed, limit, score)
  {
    hide Decoded, ToValid, Digits, OMITTED_HEAD, OMITTED_TAIL;
  }
}
