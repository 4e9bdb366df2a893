/** Log entries, their size, and how an oversized one is cut. */
module LogEntries {
  import opened Utf8

  datatype LogEntry = LogEntry(id: int, timestamp: string, stream: string, message: string, categories: seq<string>,
                               jobId: string, jobType: string, packageKey: string, manager: string, activity: string,
                               commandId: string, scanId: string)

  const BLANK := LogEntry(0, "", "", "", [], "", "", "", "", "", "", "")

  const ENTRY_OVERHEAD := 32
  const MAX_ENTRY_BYTES: nat := 16384
  const NOTICE_ROOM := 64
  const MAX_INT64 := 9_223_372_036_854_775_807

  function CategoryBytes(categories: seq<string>): nat {
    if categories == [] then 0 else CategoryBytes(categories[..|categories| - 1]) + |categories[|categories| - 1]| + 1
  }

  /** Bytes other than the message's. */
  function FrameBytes(e: LogEntry): nat {
    |e.timestamp| + |e.stream| + ENTRY_OVERHEAD + CategoryBytes(e.categories) + |e.jobId| + |e.jobType| + |e.packageKey|
    + |e.manager| + |e.activity| + |e.commandId| + |e.scanId|
  }

  function Size(e: LogEntry): nat { FrameBytes(e) + |e.message| }

  method EntrySize(e: LogEntry) returns (bytes: nat)
    ensures bytes == Size(e)
  {
    bytes := |e.timestamp| + |e.stream| + |e.message| + ENTRY_OVERHEAD;
    for n := 0 to |e.categories|
      invariant bytes == |e.timestamp| + |e.stream| + |e.message| + ENTRY_OVERHEAD + CategoryBytes(e.categories[..n])
    {
      assert e.categories[..n + 1][..n] == e.categories[..n];
      bytes := bytes + |e.categories[n]| + 1;
    }
    assert e.categories[..|e.categories|] == e.categories;
    bytes := bytes + |e.jobId| + |e.jobType| + |e.packageKey| + |e.manager| + |e.activity| + |e.commandId| + |e.scanId|;
  }

  function Digits(n: nat): string {
    if n < 10 then [('0' as int + n) as char] else Digits(n / 10) + [('0' as int + n % 10) as char]
  }

  const NOTICE_HEAD := " [log entry truncated: omitted "
  const NOTICE_TAIL := " bytes]"

  function Notice(omitted: nat): string { NOTICE_HEAD + Digits(omitted) + NOTICE_TAIL }

  /** The message cut to a limit, with a note of what is missing. */
  function Cut(message: string, limit: nat): string {
    if |message| <= limit then message else ToValid(message[..limit]) + Notice(|message| - limit)
  }

  function Clamp(e: LogEntry, maxBytes: int): LogEntry {
    if maxBytes <= 0 || Size(e) <= maxBytes then e
    else
      var room := maxBytes - FrameBytes(e) - NOTICE_ROOM;
      e.(message := Cut(e.message, if room < 0 then 0 else room))
  }

  lemma {:induction false} DigitsBound(n: nat, k: nat, power: nat)
    requires n < power && power == Pow10(k) && k > 0
    ensures |Digits(n)| <= k
    decreases k
  {
    if n >= 10 {
      DigitsBound(n / 10, k - 1, Pow10(k - 1));
    }
  }

  function Pow10(k: nat): nat { if k == 0 then 1 else 10 * Pow10(k - 1) }

  lemma NoticeBound(omitted: nat)
    requires omitted <= MAX_INT64
    ensures |Notice(omitted)| <= NOTICE_ROOM
  {
    Pow10Is19();
    DigitsBound(omitted, 19, Pow10(19));
  }

  lemma Pow10Is19()
    ensures Pow10(19) == 10_000_000_000_000_000_000
  {
    assert Pow10(4) == 10_000;
    assert Pow10(8) == 100_000_000;
    assert Pow10(12) == 1_000_000_000_000;
    assert Pow10(16) == 10_000_000_000_000_000;
  }

  /** Clamping keeps everything but the message, leaves what fits alone, and meets its
      limit whenever the frame leaves room for the notice; when it does not, the cut
      entry is the frame and the notice, whatever the message was. */
  lemma ClampMeetsItsLimit(e: LogEntry, maxBytes: int)
    requires |e.message| <= MAX_INT64
    ensures var c := Clamp(e, maxBytes);
      && c == e.(message := c.message) && FrameBytes(c) == FrameBytes(e)
      && (0 < maxBytes && FrameBytes(e) + NOTICE_ROOM <= maxBytes ==> Size(c) <= maxBytes)
      && (maxBytes <= 0 || Size(e) <= maxBytes ==> c == e)
      && (0 < maxBytes < Size(e) && maxBytes <= FrameBytes(e) + NOTICE_ROOM && e.message != "" ==>
            Size(c) <= FrameBytes(e) + NOTICE_ROOM)
  {
    var room := maxBytes - FrameBytes(e) - NOTICE_ROOM;
    var limit: nat := if room < 0 then 0 else room;
    if |e.message| > limit { NoticeBound(|e.message| - limit); }
  }

  lemma ClampIsIdempotent(e: LogEntry, maxBytes: int)
    requires |e.message| <= MAX_INT64 && FrameBytes(e) + NOTICE_ROOM <= maxBytes
    ensures Clamp(Clamp(e, maxBytes), maxBytes) == Clamp(e, maxBytes)
  {
    if maxBytes > 0 { ClampMeetsItsLimit(e, maxBytes); }
  }

  // ---------------------------------------------------------------- what sizes and notices mean

  function CategoryList(categories: seq<string>): string {
    if categories == [] then "" else CategoryList(categories[..|categories| - 1]) + categories[|categories| - 1] + ","
  }

  /** Everything an entry says, each category followed by a separator. */
  function Written(e: LogEntry): string {
    e.timestamp + e.stream + e.message + CategoryList(e.categories) + e.jobId + e.jobType + e.packageKey + e.manager
    + e.activity + e.commandId + e.scanId
  }

  lemma {:induction false} CategoriesCount(categories: seq<string>)
    ensures CategoryBytes(categories) == |CategoryList(categories)|
  {
    if categories != [] { CategoriesCount(categories[..|categories| - 1]); }
  }

  /** An entry takes up what it says and thirty-two bytes. */
  lemma SizeIsWhatIsWritten(e: LogEntry)
    ensures Size(e) == |Written(e)| + 32
  {
    CategoriesCount(e.categories);
  }

  /** The number some decimal digits stand for. */
  function Value(digits: string): int {
    if digits == "" then 0 else 10 * Value(digits[..|digits| - 1]) + (digits[|digits| - 1] as int - '0' as int)
  }

  lemma {:induction false} DigitsReadBack(n: nat)
    ensures Value(Digits(n)) == n
  {
    if n >= 10 {
      DigitsReadBack(n / 10);
      var d := [('0' as int + n % 10) as char];
      assert (Digits(n / 10) + d)[..|Digits(n)| - 1] == Digits(n / 10);
    } else {
      assert Digits(n)[..0] == "";
    }
  }

  /** A cut message is the valid part of what fits beside the frame and the notice, and
      tells how many bytes are missing from there on. */
  lemma CutTellsWhatIsMissing(e: LogEntry, maxBytes: int) returns (digits: string)
    requires 0 < maxBytes < Size(e) && e.message != ""
    ensures var room := maxBytes - (Size(e) - |e.message|) - 64;
      var kept := if room < 0 then 0 else room;
      && kept < |e.message| && Value(digits) == |e.message| - kept
      && Clamp(e, maxBytes).message
         == ToValid(e.message[..kept]) + " [log entry truncated: omitted " + digits + " bytes]"
  {
    var room := maxBytes - FrameBytes(e) - NOTICE_ROOM;
    var kept := if room < 0 then 0 else room;
    digits := Digits(|e.message| - kept);
    DigitsReadBack(|e.message| - kept);
    hide FrameBytes, ToValid, Value, Digits;
    assert ToValid(e.message[..kept]) + (" [log entry truncated: omitted " + digits + " bytes]")
        == ToValid(e.message[..kept]) + " [log entry truncated: omitted " + digits + " bytes]";
  }
}
