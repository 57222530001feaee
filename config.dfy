/**
 * config.py: the run's constants, the ledger of processed article ids kept
 * in a text file, and the reference timestamp sent to Readwise, obtained by
 * parsing a "%Y-%m-%d" date the way CPython's `datetime.strptime` does and
 * rendering midnight UTC of that day with `isoformat`.
 */
module Config {
  import opened Wrappers
  import opened Text

  const ArticlesPerRun := 5
  const ArticlesUpdatedAfter := "2024-12-05"
  const DefaultTags := ["pendente", "readwise"]

  // ---------------------------------------------------------------------
  // The processed-ids ledger
  // ---------------------------------------------------------------------

  /** Reading a text file line by line splits at "\n", "\r" and "\r\n". */
  const LineBreaks: set<char> := {'\n', '\r'}

  predicate NoLineBreak(s: string) {
    forall k :: 0 <= k < |s| ==> s[k] !in LineBreaks
  }

  /** Content the program wrote itself: empty, or ending with a line break. */
  predicate Terminated(content: string) {
    content == "" || content[|content| - 1] in LineBreaks
  }

  /** The stripped, non-empty members of a sequence of lines, as a set. */
  function StrippedIds(lines: seq<string>): set<string> {
    set i | 0 <= i < |lines| && Strip(lines[i]) != "" :: Strip(lines[i])
  }

  /** `get_processed_ids`: the stripped lines of the file, without the empty ones. */
  function ProcessedIds(content: string): (ids: set<string>)
    ensures "" !in ids
    ensures forall id :: id in ids ==> NoLineBreak(id) && !IsSpace(id[0]) && !IsSpace(id[|id| - 1])
  {
    var lines := Split(content, LineBreaks);
    StrippedIdsClean(lines);
    StrippedIds(lines)
  }

  /** Stripping a line without line breaks leaves none. */
  lemma StripKeepsNoLineBreak(line: string)
    requires forall c :: c in LineBreaks ==> c !in line
    ensures NoLineBreak(Strip(line))
  {
    StripSpec(line);
    var i, j :| 0 <= i <= j <= |line| && Strip(line) == line[i..j];
    forall k | 0 <= k < |Strip(line)| ensures Strip(line)[k] !in LineBreaks {
      assert Strip(line)[k] == line[i + k];
    }
  }

  lemma StrippedIdsClean(lines: seq<string>)
    requires forall k, c :: 0 <= k < |lines| && c in LineBreaks ==> c !in lines[k]
    ensures forall id :: id in StrippedIds(lines) ==>
              id != "" && NoLineBreak(id) && !IsSpace(id[0]) && !IsSpace(id[|id| - 1])
  {
    forall id | id in StrippedIds(lines)
      ensures id != "" && NoLineBreak(id) && !IsSpace(id[0]) && !IsSpace(id[|id| - 1])
    {
      var i :| 0 <= i < |lines| && Strip(lines[i]) != "" && Strip(lines[i]) == id;
      StripKeepsNoLineBreak(lines[i]);
    }
  }

  /**
   * The ledger file. `content` is its text; `Open` is the check at import
   * time that creates an empty file when there is none.
   */
  class ProcessedIdsFile {
    var content: string

    constructor Open(existing: Option<string>)
      ensures content == existing.GetOr("")
    {
      content := existing.GetOr("");
    }

    /** `add_processed_id`: appends the id and a line break, nothing else. */
    method Add(id: string)
      modifies this
      ensures content == old(content) + id + "\n"
      ensures old(content) <= content
      ensures Terminated(content)
    {
      content := content + id + "\n";
    }
  }

  lemma {:induction false} StrippedIdsAppend(a: seq<string>, b: seq<string>)
    ensures StrippedIds(a + b) == StrippedIds(a) + StrippedIds(b)
  {
    forall x | x in StrippedIds(a + b) ensures x in StrippedIds(a) + StrippedIds(b) {
      var i :| 0 <= i < |a + b| && Strip((a + b)[i]) != "" && Strip((a + b)[i]) == x;
      if i >= |a| {
        assert (a + b)[i] == b[i - |a|];
      }
    }
    forall x | x in StrippedIds(a) ensures x in StrippedIds(a + b) {
      var i :| 0 <= i < |a| && Strip(a[i]) != "" && Strip(a[i]) == x;
      assert (a + b)[i] == a[i];
    }
    forall x | x in StrippedIds(b) ensures x in StrippedIds(a + b) {
      var i :| 0 <= i < |b| && Strip(b[i]) != "" && Strip(b[i]) == x;
      assert (a + b)[|a| + i] == b[i];
    }
  }

  lemma StrippedIdsSingle(line: string)
    ensures StrippedIds([line]) == if Strip(line) != "" then {Strip(line)} else {}
  {
    assert [line][0] == line;
  }

  /**
   * Terminated content read as lines ends with an empty piece; appending a
   * line replaces that piece by the line and a new empty piece.
   */
  lemma LinesAfterAdd(content: string, id: string)
    requires Terminated(content)
    requires NoLineBreak(id)
    ensures var lines := Split(content, LineBreaks);
            lines[|lines| - 1] == "" &&
            Split(content + id + "\n", LineBreaks) == lines[..|lines| - 1] + [id, ""]
  {
    LineOfId(id);
    if content == "" {
      assert content + id + "\n" == id + ['\n'];
    } else {
      var front, c, tail := content[..|content| - 1], content[|content| - 1], id + ['\n'];
      assert content == front + [c] + "" && content + id + "\n" == front + [c] + tail by {
        assert content == front + [c];
      }
      LinesAfterBreak(front, c, tail);
    }
  }

  /** A line holding `id` alone splits into the id and the empty piece after it. */
  lemma LineOfId(id: string)
    requires NoLineBreak(id)
    ensures Split(id + ['\n'], LineBreaks) == [id, ""]
  {
    SplitWithoutSep(id, LineBreaks);
    SplitConcat(id, '\n', "", LineBreaks);
    assert id + ['\n'] + "" == id + ['\n'];
  }

  /** Text after a final line break adds its own lines after the empty last piece's place. */
  lemma LinesAfterBreak(front: string, c: char, tail: string)
    requires c in LineBreaks
    ensures var lines := Split(front + [c] + "", LineBreaks);
            lines[|lines| - 1] == "" &&
            Split(front + [c] + tail, LineBreaks) == lines[..|lines| - 1] + Split(tail, LineBreaks)
  {
    SplitConcat(front, c, "", LineBreaks);
    SplitConcat(front, c, tail, LineBreaks);
    var lines := Split(front, LineBreaks) + [""];
    assert lines[..|lines| - 1] == Split(front, LineBreaks);
  }

  /**
   * Adding an id to content the program wrote adds exactly the stripped id
   * to what `get_processed_ids` reads back (nothing, if it strips to "").
   */
  lemma AddProcessedIdSpec(content: string, id: string)
    requires Terminated(content)
    requires NoLineBreak(id)
    ensures ProcessedIds(content + id + "\n") ==
              ProcessedIds(content) + (if Strip(id) != "" then {Strip(id)} else {})
  {
    LinesAfterAdd(content, id);
    var lines := Split(content, LineBreaks);
    var front := lines[..|lines| - 1];
    assert lines == front + [""];
    assert front + [id, ""] == (front + [id]) + [""];
    StrippedIdsDropEmpty(front);
    StrippedIdsDropEmpty(front + [id]);
    StrippedIdsSnoc(front, id);
  }

  lemma StrippedIdsDropEmpty(lines: seq<string>)
    ensures StrippedIds(lines + [""]) == StrippedIds(lines)
  {
    StrippedIdsAppend(lines, [""]);
    StrippedIdsSingle("");
  }

  lemma StrippedIdsSnoc(lines: seq<string>, line: string)
    ensures StrippedIds(lines + [line]) == StrippedIds(lines) + (if Strip(line) != "" then {Strip(line)} else {})
  {
    StrippedIdsAppend(lines, [line]);
    StrippedIdsSingle(line);
  }

  /** Recording an id that is already there changes nothing that is read back. */
  lemma AddPresentIdUnchanged(content: string, id: string)
    requires Terminated(content)
    requires NoLineBreak(id)
    requires Strip(id) in ProcessedIds(content)
    ensures ProcessedIds(content + id + "\n") == ProcessedIds(content)
  {
    AddProcessedIdSpec(content, id);
  }

  /** The ledger text after adding `ids`, in order, to the freshly created empty file. */
  function Ledger(ids: seq<string>): (content: string)
    ensures Terminated(content)
  {
    if ids == [] then "" else Ledger(ids[..|ids| - 1]) + ids[|ids| - 1] + "\n"
  }

  /** The ledger's lines are the ids written, then the empty piece after the last line break. */
  lemma {:induction false} LedgerLines(ids: seq<string>)
    requires forall i :: 0 <= i < |ids| ==> NoLineBreak(ids[i])
    ensures Split(Ledger(ids), LineBreaks) == ids + [""]
  {
    if ids != [] {
      var front := ids[..|ids| - 1];
      LedgerLines(front);
      LinesAfterAdd(Ledger(front), ids[|ids| - 1]);
      assert (front + [""])[..|front|] == front;
      assert front + [ids[|ids| - 1], ""] == ids + [""];
    }
  }

  /** Writing ids one per line from an empty file and reading them back gives their stripped forms. */
  lemma LedgerRoundTrip(ids: seq<string>)
    requires forall i :: 0 <= i < |ids| ==> NoLineBreak(ids[i])
    ensures ProcessedIds(Ledger(ids)) == StrippedIds(ids)
  {
    LedgerLines(ids);
    StrippedIdsAppend(ids, [""]);
    StrippedIdsSingle("");
  }

  lemma LedgerSnoc(content: string, ids: seq<string>)
    requires |ids| > 0
    ensures content + Ledger(ids) == (content + Ledger(ids[..|ids| - 1])) + ids[|ids| - 1] + "\n"
    ensures ids == ids[..|ids| - 1] + [ids[|ids| - 1]]
  {
    var front, last := ids[..|ids| - 1], ids[|ids| - 1];
    assert Ledger(ids) == Ledger(front) + last + "\n";
    AppendLineAssoc(content, Ledger(front), last);
    FrontLast(ids);
  }

  lemma FrontLast(ids: seq<string>)
    requires |ids| > 0
    ensures ids == ids[..|ids| - 1] + [ids[|ids| - 1]]
  {
    var r := ids[..|ids| - 1] + [ids[|ids| - 1]];
    assert |r| == |ids|;
    forall k | 0 <= k < |ids| ensures r[k] == ids[k] {
    }
  }

  lemma AppendLineAssoc(content: string, x: string, y: string)
    ensures content + (x + y + "\n") == (content + x) + y + "\n"
  {
  }

  /** Adding several ids to content the program wrote adds their stripped forms. */
  lemma {:induction false} LedgerAppend(content: string, ids: seq<string>)
    requires Terminated(content)
    requires forall i :: 0 <= i < |ids| ==> NoLineBreak(ids[i])
    ensures Terminated(content + Ledger(ids))
    ensures ProcessedIds(content + Ledger(ids)) == ProcessedIds(content) + StrippedIds(ids)
  {
    if ids == [] {
      assert content + Ledger(ids) == content;
      assert StrippedIds(ids) == {};
    } else {
      var front := ids[..|ids| - 1];
      LedgerAppend(content, front);
      LedgerAppendStep(content, ids);
      LedgerEndsTerminated(content, ids);
    }
  }

  /** One more id on top of the induction hypothesis of `LedgerAppend`. */
  lemma LedgerAppendStep(content: string, ids: seq<string>)
    requires |ids| > 0
    requires NoLineBreak(ids[|ids| - 1])
    requires Terminated(content + Ledger(ids[..|ids| - 1]))
    requires ProcessedIds(content + Ledger(ids[..|ids| - 1])) == ProcessedIds(content) + StrippedIds(ids[..|ids| - 1])
    ensures ProcessedIds(content + Ledger(ids)) == ProcessedIds(content) + StrippedIds(ids)
  {
    var front := ids[..|ids| - 1];
    var last := ids[|ids| - 1];
    var mid := content + Ledger(front);
    LedgerSnoc(content, ids);
    AddProcessedIdSpec(mid, last);
    StrippedIdsAppend(front, [last]);
    StrippedIdsSingle(last);
  }

  /** Content that ends in a line written by the program is terminated. */
  lemma LedgerEndsTerminated(content: string, ids: seq<string>)
    requires |ids| > 0
    ensures Terminated(content + Ledger(ids))
  {
    LedgerSnoc(content, ids);
  }

  lemma NoSpaceNoLineBreak(s: string)
    requires NoSpace(s)
    ensures NoLineBreak(s)
  {
    forall k | 0 <= k < |s| ensures s[k] !in LineBreaks {
      assert !IsSpace(s[k]);
    }
  }

  lemma StrippedIdsOfPlain(ids: seq<string>)
    requires forall i :: 0 <= i < |ids| ==> ids[i] != "" && NoSpace(ids[i])
    ensures StrippedIds(ids) == set id | id in ids
  {
    forall x | x in ids ensures x in StrippedIds(ids) {
      var i :| 0 <= i < |ids| && ids[i] == x;
      assert Strip(ids[i]) == x;
    }
  }

  /** For ids without whitespace, the ledger gives back exactly the ids written. */
  lemma LedgerRoundTripPlain(ids: seq<string>)
    requires forall i :: 0 <= i < |ids| ==> ids[i] != "" && NoSpace(ids[i])
    ensures ProcessedIds(Ledger(ids)) == set id | id in ids
  {
    forall i | 0 <= i < |ids| ensures NoLineBreak(ids[i]) {
      NoSpaceNoLineBreak(ids[i]);
    }
    LedgerRoundTrip(ids);
    StrippedIdsOfPlain(ids);
  }

  // ---------------------------------------------------------------------
  // The reference timestamp
  // ---------------------------------------------------------------------

  /** The ways `strptime` and the date constructor reject a date string. */
  datatype DateError = DoesNotMatchFormat | UnconvertedDataRemains | YearOutOfRange | DayOutOfRange

  datatype Date = Date(year: int, month: int, day: int)

  predicate IsDigit(c: char) { '0' <= c <= '9' }

  function DigitValue(c: char): (n: nat)
    requires IsDigit(c)
    ensures n < 10
  {
    c as int - '0' as int
  }

  function Digit(n: nat): (c: char)
    requires n < 10
    ensures IsDigit(c) && DigitValue(c) == n
  {
    ('0' as int + n) as char
  }

  /** The number two decimal digits spell. */
  function TwoDigits(hi: char, lo: char): (n: nat)
    requires IsDigit(hi) && IsDigit(lo)
    ensures n < 100
  {
    10 * DigitValue(hi) + DigitValue(lo)
  }

  /**
   * Length of the `%m` token at i, by the first alternative of
   * `1[0-2]|0[1-9]|[1-9]` that matches, or 0 when none does.
   */
  function MonthToken(s: string, i: nat): (n: nat)
    requires i <= |s|
    ensures n <= 2 && i + n <= |s|
    ensures forall k :: i <= k < i + n ==> IsDigit(s[k])
  {
    if i + 1 < |s| && s[i] == '1' && '0' <= s[i + 1] <= '2' then 2
    else if i + 1 < |s| && s[i] == '0' && '1' <= s[i + 1] <= '9' then 2
    else if i < |s| && '1' <= s[i] <= '9' then 1
    else 0
  }

  /**
   * Length of the `%d` token at i, by the first alternative of
   * `3[01]|[12]\d|0[1-9]|[1-9]| [1-9]` that matches, or 0 when none does.
   */
  function DayToken(s: string, i: nat): (n: nat)
    requires i <= |s|
    ensures n <= 2 && i + n <= |s|
    ensures n == 2 ==> (IsDigit(s[i]) || s[i] == ' ') && IsDigit(s[i + 1])
    ensures n == 1 ==> IsDigit(s[i])
  {
    if i + 1 < |s| && s[i] == '3' && '0' <= s[i + 1] <= '1' then 2
    else if i + 1 < |s| && '1' <= s[i] <= '2' && IsDigit(s[i + 1]) then 2
    else if i + 1 < |s| && s[i] == '0' && '1' <= s[i + 1] <= '9' then 2
    else if i < |s| && '1' <= s[i] <= '9' then 1
    else if i + 1 < |s| && s[i] == ' ' && '1' <= s[i + 1] <= '9' then 2
    else 0
  }

  /** `int()` of a one- or two-character token; a leading blank counts as nothing. */
  function TokenValue(s: string, i: nat, n: nat): nat
    requires 1 <= n <= 2 && i + n <= |s|
    requires n == 2 ==> (IsDigit(s[i]) || s[i] == ' ') && IsDigit(s[i + 1])
    requires n == 1 ==> IsDigit(s[i])
  {
    if n == 1 then DigitValue(s[i])
    else if s[i] == ' ' then DigitValue(s[i + 1])
    else TwoDigits(s[i], s[i + 1])
  }

  /**
   * `datetime.strptime(s, "%Y-%m-%d")` up to the date's range checks: four
   * year digits, "-", a month token, "-", a day token, and nothing after it.
   */
  function ParseDate(s: string): (r: Result<Date, DateError>)
    ensures r.Ok? ==> 0 <= r.value.year <= 9999 && 1 <= r.value.month <= 12 && 1 <= r.value.day <= 31
  {
    if |s| < 5 || !(IsDigit(s[0]) && IsDigit(s[1]) && IsDigit(s[2]) && IsDigit(s[3])) || s[4] != '-' then
      Err(DoesNotMatchFormat)
    else
      var m := MonthToken(s, 5);
      if m == 0 || 5 + m >= |s| || s[5 + m] != '-' then Err(DoesNotMatchFormat)
      else
        var dayAt := 6 + m;
        var d := DayToken(s, dayAt);
        if d == 0 then Err(DoesNotMatchFormat)
        else if dayAt + d != |s| then Err(UnconvertedDataRemains)
        else
          Ok(Date(100 * TwoDigits(s[0], s[1]) + TwoDigits(s[2], s[3]), TokenValue(s, 5, m), TokenValue(s, dayAt, d)))
  }

  predicate IsLeapYear(y: int) {
    y % 4 == 0 && (y % 100 != 0 || y % 400 == 0)
  }

  function DaysInMonth(y: int, m: int): int {
    if m == 2 then (if IsLeapYear(y) then 29 else 28)
    else if m == 4 || m == 6 || m == 9 || m == 11 then 30
    else 31
  }

  /** A date the `date` constructor accepts. */
  predicate ValidDate(d: Date) {
    1 <= d.year <= 9999 && 1 <= d.month <= 12 && 1 <= d.day <= DaysInMonth(d.year, d.month)
  }

  /** `%02d`. */
  function Pad2(n: nat): (s: string)
    requires n < 100
    ensures |s| == 2 && IsDigit(s[0]) && IsDigit(s[1])
  {
    [Digit(n / 10), Digit(n % 10)]
  }

  /** `%04d`. */
  function Pad4(n: nat): (s: string)
    requires n < 10000
    ensures |s| == 4
  {
    Pad2(n / 100) + Pad2(n % 100)
  }

  /** `date.isoformat()`: "YYYY-MM-DD". */
  function IsoDate(d: Date): (s: string)
    requires ValidDate(d)
    ensures |s| == 10 && s[4] == '-' && s[7] == '-'
  {
    Pad4(d.year) + "-" + Pad2(d.month) + "-" + Pad2(d.day)
  }

  /** What `isoformat` adds for midnight in UTC. */
  const MidnightUtc := "T00:00:00+00:00"

  /**
   * `get_reference_timestamp` for a configured date: the date's midnight in
   * UTC in ISO 8601, or the ValueError the parse raises.
   */
  function ReferenceTimestamp(date: string): (r: Result<string, DateError>)
    ensures r.Ok? ==> |r.value| == 25 && r.value[10..] == MidnightUtc
    ensures r.Ok? <==> ParseDate(date).Ok? && ValidDate(ParseDate(date).value)
  {
    match ParseDate(date)
    case Err(e) => Err(e)
    case Ok(d) =>
      if d.year < 1 then Err(YearOutOfRange)
      else if d.day > DaysInMonth(d.year, d.month) then Err(DayOutOfRange)
      else Ok(IsoDate(d) + MidnightUtc)
  }

  /** A string of the form "YYYY-MM-DD" with every Y, M and D a digit. */
  predicate ZeroPadded(s: string) {
    && |s| == 10 && s[4] == '-' && s[7] == '-'
    && (forall k :: 0 <= k < 10 && k != 4 && k != 7 ==> IsDigit(s[k]))
  }

  /** The numbers a zero-padded date string spells. */
  function Spelled(s: string): Date
    requires ZeroPadded(s)
  {
    Date(100 * TwoDigits(s[0], s[1]) + TwoDigits(s[2], s[3]), TwoDigits(s[5], s[6]), TwoDigits(s[8], s[9]))
  }

  lemma Pad2OfTwoDigits(hi: char, lo: char)
    requires IsDigit(hi) && IsDigit(lo)
    ensures Pad2(TwoDigits(hi, lo)) == [hi, lo]
  {
    var n := TwoDigits(hi, lo);
    assert n / 10 == DigitValue(hi) && n % 10 == DigitValue(lo);
    assert Digit(DigitValue(hi)) == hi && Digit(DigitValue(lo)) == lo;
  }

  lemma TwoDigitsOfPad2(n: nat)
    requires n < 100
    ensures TwoDigits(Pad2(n)[0], Pad2(n)[1]) == n
  {
  }

  /** Rendering the spelled numbers gives back the string. */
  lemma IsoDateOfSpelled(s: string)
    requires ZeroPadded(s)
    requires ValidDate(Spelled(s))
    ensures IsoDate(Spelled(s)) == s
  {
    var d := Spelled(s);
    var hi, lo := TwoDigits(s[0], s[1]), TwoDigits(s[2], s[3]);
    assert d.year / 100 == hi && d.year % 100 == lo;
    Pad2OfTwoDigits(s[0], s[1]);
    Pad2OfTwoDigits(s[2], s[3]);
    Pad2OfTwoDigits(s[5], s[6]);
    Pad2OfTwoDigits(s[8], s[9]);
    assert s == [s[0], s[1]] + [s[2], s[3]] + "-" + [s[5], s[6]] + "-" + [s[8], s[9]];
  }

  /** Writing a date out and reading the digits back gives the date. */
  lemma SpelledOfIsoDate(d: Date)
    requires ValidDate(d)
    ensures ZeroPadded(IsoDate(d)) && Spelled(IsoDate(d)) == d
  {
    var s := IsoDate(d);
    var y1, y2, m, dd := Pad2(d.year / 100), Pad2(d.year % 100), Pad2(d.month), Pad2(d.day);
    assert s == y1 + y2 + "-" + m + "-" + dd;
    assert s[0] == y1[0] && s[1] == y1[1] && s[2] == y2[0] && s[3] == y2[1];
    assert s[5] == m[0] && s[6] == m[1] && s[8] == dd[0] && s[9] == dd[1];
    TwoDigitsOfPad2(d.year / 100);
    TwoDigitsOfPad2(d.year % 100);
    TwoDigitsOfPad2(d.month);
    TwoDigitsOfPad2(d.day);
  }

  /**
   * A zero-padded date string parses to the numbers it spells, or fails to
   * match when the month or day can never be valid.
   */
  lemma ParseZeroPadded(s: string)
    requires ZeroPadded(s)
    ensures ParseDate(s).Ok? <==> 1 <= Spelled(s).month <= 12 && 1 <= Spelled(s).day <= 31
    ensures ParseDate(s).Ok? ==> ParseDate(s).value == Spelled(s)
  {
    var m := TwoDigits(s[5], s[6]);
    var d := TwoDigits(s[8], s[9]);
    if 1 <= m <= 12 {
      assert MonthToken(s, 5) == 2;
      if 1 <= d <= 31 {
        assert DayToken(s, 8) == 2;
      } else {
        assert DayToken(s, 8) <= 1;
      }
    } else {
      assert MonthToken(s, 5) == 0 || s[5 + MonthToken(s, 5)] != '-';
    }
  }

  /**
   * For a zero-padded "YYYY-MM-DD", the reference timestamp is that string
   * followed by midnight UTC exactly when it names a calendar date, and a
   * ValueError otherwise.
   */
  lemma ReferenceTimestampZeroPadded(s: string)
    requires ZeroPadded(s)
    ensures ValidDate(Spelled(s)) ==> ReferenceTimestamp(s) == Ok(s + MidnightUtc)
    ensures !ValidDate(Spelled(s)) ==> ReferenceTimestamp(s).Err?
  {
    ParseZeroPadded(s);
    if ValidDate(Spelled(s)) {
      IsoDateOfSpelled(s);
    }
  }

  /** Every calendar date, written out, gives its own midnight back. */
  lemma ReferenceTimestampOfIsoDate(d: Date)
    requires ValidDate(d)
    ensures ReferenceTimestamp(IsoDate(d)) == Ok(IsoDate(d) + MidnightUtc)
  {
    SpelledOfIsoDate(d);
    ReferenceTimestampZeroPadded(IsoDate(d));
  }

  /** The timestamp's date part names the same day: the computation is idempotent on it. */
  lemma ReferenceTimestampIdempotent(date: string)
    requires ReferenceTimestamp(date).Ok?
    ensures ReferenceTimestamp(ReferenceTimestamp(date).value[..10]) == ReferenceTimestamp(date)
  {
    var d := ParseDate(date).value;
    assert ReferenceTimestamp(date).value[..10] == IsoDate(d);
    ReferenceTimestampOfIsoDate(d);
  }

  /** The configured date yields its UTC midnight. */
  lemma ConfiguredReferenceTimestamp()
    ensures ReferenceTimestamp(ArticlesUpdatedAfter) == Ok("2024-12-05T00:00:00+00:00")
  {
    var s := ArticlesUpdatedAfter;
    assert ZeroPadded(s);
    assert Spelled(s) == Date(2024, 12, 5);
    ReferenceTimestampZeroPadded(s);
    ConfiguredTimestampText();
  }

  lemma ConfiguredTimestampText()
    ensures ArticlesUpdatedAfter + MidnightUtc == "2024-12-05T00:00:00+00:00"
  {
  }

  /** `strptime` is lenient: single-digit months and days are accepted too. */
  lemma UnpaddedDateAccepted()
    ensures ReferenceTimestamp("2024-1-5") == Ok("2024-01-05T00:00:00+00:00")
  {
    UnpaddedDateParses();
    UnpaddedDateSpelled();
    assert DaysInMonth(2024, 1) == 31;
  }

  lemma UnpaddedDateParses()
    ensures ParseDate("2024-1-5") == Ok(Date(2024, 1, 5))
  {
    var s := "2024-1-5";
    assert MonthToken(s, 5) == 1;
    assert DayToken(s, 7) == 1;
  }

  lemma UnpaddedDateSpelled()
    ensures IsoDate(Date(2024, 1, 5)) + MidnightUtc == "2024-01-05T00:00:00+00:00"
  {
    assert IsoDate(Date(2024, 1, 5)) == "2024-01-05" by {
      assert Pad4(2024) == "2024";
      assert Pad2(1) == "01" && Pad2(5) == "05";
    }
  }
}
