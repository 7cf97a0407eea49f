/** Bounding a container's log: the newest lines that fit, and an account of the rest. */
module LogBounds {
  import opened Wrappers

  const MIN_LOG_LINES := 10
  const MAX_LOG_LINES := 2000
  const MIN_LOG_BYTES := 4096
  const MAX_LOG_BYTES := 262144
  const READ_OVERDRAFT := 4
  const MAX_READ_CEILING := 4194304

  // A line's own bytes are those of its content, after capping.
  datatype Line = Line(at: Option<int>, content: string)

  // What splits a timestamp off an entry, and what caps the content of a line.
  datatype Library = Library(stamp: string -> (Option<int>, string), cap: string -> string)

  function Bytes(lines: seq<Line>): nat {
    if lines == [] then 0 else Bytes(lines[..|lines| - 1]) + |lines[|lines| - 1].content|
  }

  lemma {:induction false} BytesConcat(a: seq<Line>, b: seq<Line>)
    ensures Bytes(a + b) == Bytes(a) + Bytes(b)
    decreases |b|
  {
    if b == [] {
      assert a + b == a;
    } else {
      assert (a + b)[..|a + b| - 1] == a + b[..|b| - 1];
      BytesConcat(a, b[..|b| - 1]);
    }
  }

  lemma BytesCut(lines: seq<Line>, i: nat)
    requires i <= |lines|
    ensures Bytes(lines) == Bytes(lines[..i]) + Bytes(lines[i..])
  {
    assert lines == lines[..i] + lines[i..];
    BytesConcat(lines[..i], lines[i..]);
  }

  lemma BytesFrom(lines: seq<Line>, i: nat, j: nat)
    requires i <= j <= |lines|
    ensures Bytes(lines[i..]) >= Bytes(lines[j..])
    ensures i < j == i + 1 ==> Bytes(lines[i..]) == |lines[i].content| + Bytes(lines[j..])
  {
    assert lines[i..][j - i..] == lines[j..];
    BytesCut(lines[i..], j - i);
    if i < j == i + 1 {
      assert lines[i..][..1] == [lines[i]] && [lines[i]][..0] == [];
    }
  }

  // ---------------------------------------------------------------- effective bounds

  /** What the control plane asked for, clamped, and then never above the operator's cap. */
  function Lower(dispatched: nat, localCap: int, minimum: int, maximum: int): (effective: int)
    requires 0 < minimum <= maximum
    ensures 0 < effective <= maximum
    ensures localCap > 0 ==> effective <= localCap
    ensures effective <= dispatched || effective <= minimum
    ensures localCap <= 0 || effective != localCap ==>
              && (dispatched < minimum ==> effective == minimum)
              && (minimum <= dispatched <= maximum ==> effective == dispatched)
              && (dispatched > maximum ==> effective == maximum)
  {
    var clamped := if dispatched < minimum then minimum else if dispatched > maximum then maximum else dispatched;
    if 0 < localCap < clamped then localCap else clamped
  }

  /** Enough to keep the newest, and bounded absolutely; within the bounds a read can have,
      the absolute bound is never the one that decides. */
  function FetchCeiling(byteBound: int): (ceiling: int)
    requires 0 < byteBound
    ensures byteBound <= 1048576 ==> ceiling == 4 * byteBound
    ensures byteBound > 1048576 ==> ceiling == 4194304
  {
    var ceiling := byteBound * READ_OVERDRAFT;
    if ceiling > MAX_READ_CEILING then MAX_READ_CEILING else ceiling
  }

  // ---------------------------------------------------------------- the newest that fit

  predicate Fits(lines: seq<Line>, lineBound: nat, byteBound: nat) {
    |lines| <= lineBound && Bytes(lines) <= byteBound
  }

  // From k on is the longest end of the lines that fits both bounds.
  predicate LongestFit(parsed: seq<Line>, lineBound: nat, byteBound: nat, k: int) {
    0 <= k <= |parsed| && Fits(parsed[k..], lineBound, byteBound) && forall j :: 0 <= j < k ==>
        !Fits(parsed[j..], lineBound, byteBound)
  }

  function Newest(parsed: seq<Line>, lineBound: nat): seq<Line> {
    if |parsed| > lineBound then parsed[|parsed| - lineBound..] else parsed
  }

  datatype Bounded = Bounded(lines: seq<Line>, returnedBytes: nat, withheldBytes: nat, byLines: bool, byBytes: bool)

  method SumBytes(lines: seq<Line>) returns (total: nat)
    ensures total == Bytes(lines)
  {
    total := 0;
    for i := 0 to |lines|
      invariant total == Bytes(lines[..i])
    {
      assert lines[..i + 1][..i] == lines[..i];
      total := total + |lines[i].content|;
    }
    assert lines[..|lines|] == lines;
  }

  // The backwards walk: lines are taken from the newest while they fit.
  method TakeNewest(keep: seq<Line>, byteBound: nat) returns (first: nat, total: nat, cut: bool)
    ensures first <= |keep| && total == Bytes(keep[first..]) <= byteBound
    ensures cut <==> first > 0
    ensures first > 0 ==> Bytes(keep[first - 1..]) > byteBound
  {
    total, first, cut := 0, |keep|, false;
    var index := |keep|;
    while index > 0
      invariant index <= |keep| && first == index && !cut
      invariant total == Bytes(keep[first..]) <= byteBound
    {
      index := index - 1;
      BytesFrom(keep, index, index + 1);
      if total + |keep[index].content| > byteBound {
        cut := true;
        return;
      }
      total := total + |keep[index].content|;
      first := index;
    }
  }

  /** Returns the longest end of the log that fits both bounds, and accounts for every byte
      it leaves out. */
  method ApplyBounds(parsed: seq<Line>, fetchTruncated: bool, lineBound: nat, byteBound: nat) returns (bounded: Bounded)
    ensures var k := |parsed| - |bounded.lines|;
            0 <= k && bounded.lines == parsed[k..] && LongestFit(parsed, lineBound, byteBound, k)
    ensures bounded.returnedBytes == Bytes(bounded.lines)
    ensures bounded.returnedBytes + bounded.withheldBytes == Bytes(parsed)
    ensures bounded.byLines <==> |parsed| > lineBound
    ensures bounded.byBytes <==> fetchTruncated || Bytes(Newest(parsed, lineBound)) > byteBound
    ensures !bounded.byLines && !bounded.byBytes <==> bounded.lines == parsed && !fetchTruncated
  {
    var byLines, withheld := false, 0;
    var from := 0;
    if |parsed| > lineBound {
      byLines := true;
      from := |parsed| - lineBound;
      withheld := SumBytes(parsed[..from]);
    }
    var keep := parsed[from..];
    var first, total, cut := TakeNewest(keep, byteBound);
    var dropped := SumBytes(keep[..first]);
    BytesAddUp(parsed, from, first);
    NewestIsLongest(parsed, lineBound, byteBound, from, first);
    NewestIsCut(parsed, lineBound, byteBound, from, first);
    bounded := Bounded(keep[first..], total, withheld + dropped, byLines, fetchTruncated || cut);
  }

  lemma BytesAddUp(parsed: seq<Line>, from: nat, first: nat)
    requires from <= |parsed| && first <= |parsed[from..]|
    ensures Bytes(parsed) == Bytes(parsed[..from]) + Bytes(parsed[from..][..first]) + Bytes(parsed[from..][first..])
    ensures from == 0 ==> Bytes(parsed[..from]) == 0
  {
    BytesCut(parsed, from);
    BytesCut(parsed[from..], first);
    assert from == 0 ==> parsed[..from] == [];
  }

  lemma NewestIsCut(parsed: seq<Line>, lineBound: nat, byteBound: nat, from: nat, first: nat)
    requires from == (if |parsed| > lineBound then |parsed| - lineBound else 0)
    requires first <= |parsed[from..]| && Bytes(parsed[from..][first..]) <= byteBound
    requires first > 0 ==> Bytes(parsed[from..][first - 1..]) > byteBound
    ensures first > 0 <==> Bytes(Newest(parsed, lineBound)) > byteBound
  {
    var keep := parsed[from..];
    assert keep == Newest(parsed, lineBound) && keep[0..] == keep;
    if first > 0 { BytesFrom(keep, 0, first - 1); }
  }

  lemma NewestIsLongest(parsed: seq<Line>, lineBound: nat, byteBound: nat, from: nat, first: nat)
    requires from == (if |parsed| > lineBound then |parsed| - lineBound else 0)
    requires first <= |parsed[from..]| && Bytes(parsed[from..][first..]) <= byteBound
    requires first > 0 ==> Bytes(parsed[from..][first - 1..]) > byteBound
    ensures parsed[from..][first..] == parsed[from + first..] && LongestFit(parsed, lineBound, byteBound, from + first)
  {
    var k := from + first;
    assert parsed[from..][first..] == parsed[k..];
    assert first > 0 ==> parsed[from..][first - 1..] == parsed[k - 1..];
    forall j | 0 <= j < k ensures !Fits(parsed[j..], lineBound, byteBound) {
      if j >= from { BytesFrom(parsed, j, k - 1); }
    }
  }

  // ---------------------------------------------------------------- from bytes to lines

  // The pieces between newlines; there is always at least one.
  function Split(raw: string): (r: seq<string>)
    ensures r != []
  {
    if raw == "" then [""]
    else
      var rest := Split(raw[1..]);
      if raw[0] == '\n' then [""] + rest else [[raw[0]] + rest[0]] + rest[1..]
  }

  // The last piece is not a line when it is empty, or when the fetch stopped inside it.
  function Entries(raw: string, truncated: bool): seq<string> {
    var split := Split(raw);
    var last := |split| - 1;
    if split[last] == "" || truncated then split[..last] else split
  }

  function TrimReturn(entry: string): string {
    if entry != "" && entry[|entry| - 1] == '\r' then entry[..|entry| - 1] else entry
  }

  function LineOf(lib: Library, entry: string): Line {
    var (at, content) := lib.stamp(TrimReturn(entry));
    Line(at, lib.cap(content))
  }

  function Parsed(lib: Library, entries: seq<string>): seq<Line> {
    if entries == [] then []
    else
      var entry := entries[|entries| - 1];
      Parsed(lib, entries[..|entries| - 1]) + if TrimReturn(entry) == "" then [] else [LineOf(lib, entry)]
  }

  // Nothing in the entry but its end.
  predicate Blank(entry: string) {
    entry == "" || entry == "\r"
  }

  /** One entry gives one line, unless it is blank: without the carriage return it may end in, its
      time split off and the rest of it capped. */
  lemma OneEntryOneLine(lib: Library, entry: string)
    ensures Blank(entry) ==> Parsed(lib, [entry]) == []
    ensures !Blank(entry) && entry[|entry| - 1] != '\r' ==>
              Parsed(lib, [entry]) == [Line(lib.stamp(entry).0, lib.cap(lib.stamp(entry).1))]
    ensures !Blank(entry) && entry[|entry| - 1] == '\r' ==>
              var trimmed := entry[..|entry| - 1];
              Parsed(lib, [entry]) == [Line(lib.stamp(trimmed).0, lib.cap(lib.stamp(trimmed).1))]
  {
    assert [entry][..0] == [];
  }

  method ParseEach(lib: Library, entries: seq<string>) returns (parsed: seq<Line>)
    ensures parsed == Parsed(lib, entries)
  {
    parsed := [];
    for i := 0 to |entries|
      invariant parsed == Parsed(lib, entries[..i])
    {
      assert entries[..i + 1][..i] == entries[..i];
      var entry := TrimReturn(entries[i]);
      if entry != "" {
        var (at, content) := lib.stamp(entry);
        parsed := parsed + [Line(at, lib.cap(content))];
      }
    }
    assert entries[..|entries|] == entries;
  }

  method ParseLines(lib: Library, raw: string, truncated: bool) returns (parsed: seq<Line>)
    ensures parsed == Parsed(lib, Entries(raw, truncated))
  {
    var split := Split(raw);
    var last := |split| - 1;
    if split[last] == "" {
      split := split[..last];
    } else if truncated {
      split := split[..last];
    }
    parsed := ParseEach(lib, split);
  }

  // ---------------------------------------------------------------- what the container wrote

  predicate Unbroken(line: string) {
    forall i :: 0 <= i < |line| ==> line[i] != '\n'
  }

  predicate Log(lines: seq<string>) {
    forall i :: 0 <= i < |lines| ==> Unbroken(lines[i])
  }

  // The text of whole lines, each ended.
  function Written(lines: seq<string>): string {
    if lines == [] then "" else lines[0] + "\n" + Written(lines[1..])
  }

  lemma {:induction false} SplitLine(line: string, rest: string)
    requires Unbroken(line)
    ensures Split(line + "\n" + rest) == [line] + Split(rest)
    ensures Split(line) == [line]
    decreases |line|
  {
    var text := line + "\n" + rest;
    if line == "" {
      assert text[1..] == rest;
    } else {
      assert text[1..] == line[1..] + "\n" + rest;
      SplitLine(line[1..], rest);
      assert [line[0]] + line[1..] == line;
    }
  }

  // Whole lines and then a piece that is not ended split back into exactly those.
  lemma {:induction false} SplitWritten(lines: seq<string>, piece: string)
    requires Log(lines) && Unbroken(piece)
    ensures Split(Written(lines) + piece) == lines + [piece]
    decreases |lines|
  {
    if lines == [] {
      SplitLine(piece, "");
      assert Written(lines) + piece == piece;
    } else {
      SplitWritten(lines[1..], piece);
      assert Written(lines) + piece == lines[0] + "\n" + (Written(lines[1..]) + piece);
      SplitLine(lines[0], Written(lines[1..]) + piece);
    }
  }

  /** A complete read gives back every line written, including a last one without a newline. */
  lemma ReadGivesBackWhatWasWritten(lines: seq<string>, last: string)
    requires Log(lines) && Unbroken(last)
    ensures Entries(Written(lines) + last, false) == lines + if last == "" then [] else [last]
  {
    SplitWritten(lines, last);
  }

  lemma {:induction false} CutText(lines: seq<string>, last: string, n: nat) returns (m: nat, piece: string)
    requires Log(lines) && Unbroken(last) && n <= |Written(lines) + last|
    ensures m <= |lines| && Unbroken(piece) && (Written(lines) + last)[..n] == Written(lines[..m]) + piece
    ensures |Written(lines[..m])| <= n && (m < |lines| ==> |Written(lines[..m + 1])| > n)
    decreases |lines|
  {
    var text := Written(lines) + last;
    if lines == [] {
      m, piece := 0, last[..n];
      assert text == last;
    } else if n <= |lines[0]| {
      m, piece := 0, lines[0][..n];
      assert text[..n] == lines[0][..n];
      assert lines[..1][1..] == [];
    } else {
      var ended, rest := lines[0] + "\n", Written(lines[1..]) + last;
      assert text == ended + rest;
      m, piece := CutText(lines[1..], last, n - |ended|);
      assert text[..n] == ended + rest[..n - |ended|];
      assert lines[..m + 1][1..] == lines[1..][..m];
      assert m + 1 < |lines| ==> lines[..m + 2][1..] == lines[1..][..m + 1];
      m := m + 1;
    }
  }

  /** Wherever a fetch is cut, what is kept is the whole lines from the start of it, all of those
      that end before the cut: a fragment is never reported as something the container said. */
  lemma CutKeepsWholeLines(lines: seq<string>, last: string, n: nat) returns (m: nat)
    requires Log(lines) && Unbroken(last) && n <= |Written(lines) + last|
    ensures m <= |lines| && Entries((Written(lines) + last)[..n], true) == lines[..m]
    ensures |Written(lines[..m])| <= n && (m < |lines| ==> |Written(lines[..m + 1])| > n)
  {
    var piece;
    m, piece := CutText(lines, last, n);
    SplitWritten(lines[..m], piece);
  }

  // ---------------------------------------------------------------- one read

  datatype LogResult = LogResult(bounded: Bounded, appliedLines: int, appliedBytes: int, complete: bool)

  // What a container wrote; `ended` says whether its last line got its newline.
  datatype Output = Output(lines: seq<string>, ended: bool)

  predicate WellFormed(output: Output) {
    Log(output.lines) && (!output.ended ==> output.lines != [] && output.lines[|output.lines| - 1] != "")
  }

  function Tail(lines: seq<string>, n: nat): seq<string> {
    if |lines| > n then lines[|lines| - n..] else lines
  }

  function TextOf(lines: seq<string>, ended: bool): string {
    if ended || lines == [] then Written(lines) else Written(lines[..|lines| - 1]) + lines[|lines| - 1]
  }

  // The newest lines asked for, as the cluster serves them.
  function FetchedText(output: Output, tailLines: nat): string {
    TextOf(Tail(output.lines, tailLines), output.ended)
  }

  function RawOf(text: string, ceiling: nat): string {
    if |text| > ceiling then text[..ceiling] else text
  }

  // The fetch stopped at its ceiling.
  predicate CutShort(output: Output, lineBound: nat, byteBound: nat)
    requires 0 < byteBound
  {
    |FetchedText(output, lineBound + 1)| > FetchCeiling(byteBound)
  }

  function FetchedLines(lib: Library, output: Output, lineBound: nat, byteBound: nat): seq<Line>
    requires 0 < byteBound
  {
    Parsed(lib, Entries(RawOf(FetchedText(output, lineBound + 1), FetchCeiling(byteBound)),
                        CutShort(output, lineBound, byteBound)))
  }

  // What a read makes of what it fetched, under the bounds it applied.
  predicate Accounts(result: LogResult, fetched: seq<Line>, cut: bool) {
    && 0 < result.appliedLines && 0 < result.appliedBytes
    && |fetched| >= |result.bounded.lines| && result.bounded.lines == fetched[|fetched| - |result.bounded.lines|..]
    && LongestFit(fetched, result.appliedLines, result.appliedBytes, |fetched| - |result.bounded.lines|)
    && result.bounded.returnedBytes == Bytes(result.bounded.lines)
    && result.bounded.returnedBytes + result.bounded.withheldBytes == Bytes(fetched)
    && (result.complete <==> result.bounded.lines == fetched && !cut)
  }

  // Which of the two bounds cut it.
  predicate Flags(result: LogResult, fetched: seq<Line>, cut: bool) {
    && 0 <= result.appliedLines
    && (result.bounded.byLines <==> |fetched| > result.appliedLines)
    && (result.bounded.byBytes <==> cut || Bytes(Newest(fetched, result.appliedLines)) > result.appliedBytes)
  }

  method Account(fetched: seq<Line>, cut: bool, lineBound: nat, byteBound: nat) returns (result: LogResult)
    requires 0 < lineBound && 0 < byteBound
    ensures result.appliedLines == lineBound && result.appliedBytes == byteBound
    ensures Accounts(result, fetched, cut) && Flags(result, fetched, cut)
  {
    var bounded := ApplyBounds(fetched, cut, lineBound, byteBound);
    result := LogResult(bounded, lineBound, byteBound, !bounded.byLines && !bounded.byBytes);
  }

  method FetchAndBound(lib: Library, output: Output, lineBound: nat, byteBound: nat) returns (result: LogResult)
    requires 0 < lineBound && 0 < byteBound
    ensures result.appliedLines == lineBound && result.appliedBytes == byteBound
    ensures Accounts(result, FetchedLines(lib, output, lineBound, byteBound), CutShort(output, lineBound, byteBound))
    ensures Flags(result, FetchedLines(lib, output, lineBound, byteBound), CutShort(output, lineBound, byteBound))
  {
    var text := FetchedText(output, lineBound + 1);
    var ceiling := FetchCeiling(byteBound);
    var parsed := ParseLines(lib, RawOf(text, ceiling), |text| > ceiling);
    result := Account(parsed, |text| > ceiling, lineBound, byteBound);
  }

  /** Whatever was dispatched, what is emitted is within the compiled bounds and within any
      local cap, and is the longest end of what was fetched that is. */
  method ReadLogs(lib: Library, dispatchedLines: nat, dispatchedBytes: nat, localLines: int, localBytes: int,
                  output: Output)
    returns (result: LogResult)
    ensures 0 < result.appliedLines <= 2000 && 0 < result.appliedBytes <= 262144
    ensures result.appliedLines == Lower(dispatchedLines, localLines, 10, 2000)
    ensures result.appliedBytes == Lower(dispatchedBytes, localBytes, 4096, 262144)
    ensures |result.bounded.lines| <= result.appliedLines && Bytes(result.bounded.lines) <= result.appliedBytes
    ensures localBytes > 0 ==> Bytes(result.bounded.lines) <= localBytes
    ensures localLines > 0 ==> |result.bounded.lines| <= localLines
    ensures Accounts(result, FetchedLines(lib, output, result.appliedLines, result.appliedBytes),
                     CutShort(output, result.appliedLines, result.appliedBytes))
    ensures Flags(result, FetchedLines(lib, output, result.appliedLines, result.appliedBytes),
                  CutShort(output, result.appliedLines, result.appliedBytes))
  {
    var lineBound := Lower(dispatchedLines, localLines, MIN_LOG_LINES, MAX_LOG_LINES);
    var byteBound := Lower(dispatchedBytes, localBytes, MIN_LOG_BYTES, MAX_LOG_BYTES);
    result := FetchAndBound(lib, output, lineBound, byteBound);
  }

  // ---------------------------------------------------------------- complete

  lemma TextGivesBackLines(lines: seq<string>, ended: bool)
    requires Log(lines) && (!ended && lines != [] ==> lines[|lines| - 1] != "")
    ensures Entries(TextOf(lines, ended), false) == lines
  {
    if ended || lines == [] {
      assert Written(lines) + "" == Written(lines) && lines + [] == lines;
      ReadGivesBackWhatWasWritten(lines, "");
    } else {
      var n := |lines| - 1;
      assert lines == lines[..n] + [lines[n]];
      ReadGivesBackWhatWasWritten(lines[..n], lines[n]);
    }
  }

  lemma FetchedWhole(lib: Library, output: Output, lineBound: nat, byteBound: nat)
    requires 0 < byteBound && WellFormed(output) && !CutShort(output, lineBound, byteBound)
    ensures FetchedLines(lib, output, lineBound, byteBound) == Parsed(lib, Tail(output.lines, lineBound + 1))
  {
    TextGivesBackLines(Tail(output.lines, lineBound + 1), output.ended);
  }

  lemma {:induction false} WrittenOneMore(lines: seq<string>, line: string)
    ensures Written(lines + [line]) == Written(lines) + line + "\n"
  {
    if lines == [] {
      assert ([] + [line])[1..] == [];
    } else {
      assert (lines + [line])[1..] == lines[1..] + [line];
      WrittenOneMore(lines[1..], line);
    }
  }

  lemma CutTail(tail: seq<string>, ended: bool, ceiling: nat) returns (m: nat)
    requires Log(tail) && |TextOf(tail, ended)| > ceiling
    ensures m < |tail| && Entries(TextOf(tail, ended)[..ceiling], true) == tail[..m]
    ensures |Written(tail[..m])| <= ceiling < |Written(tail[..m + 1])|
  {
    if ended {
      assert Written(tail) + "" == Written(tail) && tail[..|tail|] == tail;
      m := CutKeepsWholeLines(tail, "", ceiling);
    } else {
      m := CutUnended(tail, ceiling);
    }
  }

  lemma CutUnended(tail: seq<string>, ceiling: nat) returns (m: nat)
    requires Log(tail) && |TextOf(tail, false)| > ceiling
    ensures m < |tail| && Entries(TextOf(tail, false)[..ceiling], true) == tail[..m]
    ensures |Written(tail[..m])| <= ceiling < |Written(tail[..m + 1])|
  {
    var k := |tail| - 1;
    m := CutKeepsWholeLines(tail[..k], tail[k], ceiling);
    assert tail[..k][..m] == tail[..m];
    if m < k {
      assert tail[..k][..m + 1] == tail[..m + 1];
    } else {
      WrittenOneMore(tail[..k], tail[k]);
      assert tail[..m + 1] == tail[..k] + [tail[k]];
    }
  }

  /** What a read works on is the newest lines it asked for, all of them if they fit its ceiling,
      and otherwise those of them that end within it, from the oldest on. */
  lemma FetchedLinesAre(lib: Library, output: Output, lineBound: nat, byteBound: nat) returns (m: nat)
    requires 0 < byteBound && WellFormed(output)
    ensures var tail, ceiling := Tail(output.lines, lineBound + 1), FetchCeiling(byteBound);
            && m <= |tail| && FetchedLines(lib, output, lineBound, byteBound) == Parsed(lib, tail[..m])
            && (|TextOf(tail, output.ended)| <= ceiling ==> m == |tail|)
            && (|TextOf(tail, output.ended)| > ceiling ==>
                  m < |tail| && |Written(tail[..m])| <= ceiling < |Written(tail[..m + 1])|)
  {
    var tail, ceiling := Tail(output.lines, lineBound + 1), FetchCeiling(byteBound);
    if !CutShort(output, lineBound, byteBound) {
      m := |tail|;
      assert tail[..m] == tail;
      FetchedWhole(lib, output, lineBound, byteBound);
    } else {
      m := CutTail(tail, output.ended, ceiling);
    }
  }

  // Whether lines already fit is all it takes for none to be withheld.
  lemma AllReturnedIffAllFit(result: LogResult, fetched: seq<Line>, cut: bool)
    requires Accounts(result, fetched, cut)
    ensures result.bounded.lines == fetched <==> Fits(fetched, result.appliedLines, result.appliedBytes)
  {
    assert fetched[0..] == fetched;
    assert Fits(fetched, result.appliedLines, result.appliedBytes) ==>
               Fits(fetched[0..], result.appliedLines, result.appliedBytes);
  }

  /** Entries are read one after the other. */
  lemma {:induction false} ParsedConcat(lib: Library, a: seq<string>, b: seq<string>)
    ensures Parsed(lib, a + b) == Parsed(lib, a) + Parsed(lib, b)
    decreases |b|
  {
    if b == [] {
      assert a + b == a;
    } else {
      assert (a + b)[..|a + b| - 1] == a + b[..|b| - 1];
      ParsedConcat(lib, a, b[..|b| - 1]);
    }
  }

  // The lines older than any that were asked for.
  function Skipped(lines: seq<string>, n: nat): seq<string> {
    if |lines| > n then lines[..|lines| - n] else []
  }

  lemma FetchedIsWhole(lib: Library, lines: seq<string>, n: nat)
    ensures Parsed(lib, Tail(lines, n)) == Parsed(lib, lines) <==> Parsed(lib, Skipped(lines, n)) == []
  {
    var older, newer := Skipped(lines, n), Tail(lines, n);
    assert lines == older + newer;
    ParsedConcat(lib, older, newer);
    assert |Parsed(lib, lines)| == |Parsed(lib, older)| + |Parsed(lib, newer)|;
    assert Parsed(lib, older) == [] ==> [] + Parsed(lib, newer) == Parsed(lib, newer);
  }

  /** A read is complete exactly when nothing was cut off and everything fetched fits.  Then
      it returned the whole log exactly when no line older than those it asked for has any
      content. */
  lemma CompleteIffEverythingFits(lib: Library, output: Output, result: LogResult)
    requires WellFormed(output) && 0 < result.appliedLines && 0 < result.appliedBytes
    requires Accounts(result, FetchedLines(lib, output, result.appliedLines, result.appliedBytes),
                      CutShort(output, result.appliedLines, result.appliedBytes))
    ensures result.complete <==>
              && !CutShort(output, result.appliedLines, result.appliedBytes)
              && Fits(Parsed(lib, Tail(output.lines, result.appliedLines + 1)), result.appliedLines,
                      result.appliedBytes)
    ensures result.complete ==>
              (result.bounded.lines == Parsed(lib, output.lines) <==>
               Parsed(lib, Skipped(output.lines, result.appliedLines + 1)) == [])
  {
    var fetched := FetchedLines(lib, output, result.appliedLines, result.appliedBytes);
    var cut := CutShort(output, result.appliedLines, result.appliedBytes);
    AllReturnedIffAllFit(result, fetched, cut);
    if !cut {
      FetchedWhole(lib, output, result.appliedLines, result.appliedBytes);
      FetchedIsWhole(lib, output.lines, result.appliedLines + 1);
    }
  }

  // Every line served carries its timestamp, so none is blank.
  predicate NoBlank(entries: seq<string>) {
    forall i :: 0 <= i < |entries| ==> TrimReturn(entries[i]) != ""
  }

  lemma {:induction false} NoneSkipped(lib: Library, entries: seq<string>)
    requires NoBlank(entries)
    ensures |Parsed(lib, entries)| == |entries|
  {
    if entries != [] { NoneSkipped(lib, entries[..|entries| - 1]); }
  }

  /** With timestamps, as the read asks for them, no line is blank: then a read is complete
      exactly when the whole log fits both bounds and the fetch, and it returned the whole
      log, though it only ever asked for one line more than it may return. */
  lemma CompleteIffTheWholeLog(lib: Library, output: Output, result: LogResult)
    requires WellFormed(output) && NoBlank(output.lines) && 0 < result.appliedLines && 0 < result.appliedBytes
    requires Accounts(result, FetchedLines(lib, output, result.appliedLines, result.appliedBytes),
                      CutShort(output, result.appliedLines, result.appliedBytes))
    ensures result.complete <==>
              && Fits(Parsed(lib, output.lines), result.appliedLines, result.appliedBytes)
              && !CutShort(output, result.appliedLines, result.appliedBytes)
    ensures result.complete ==> result.bounded.lines == Parsed(lib, output.lines)
  {
    CompleteIffEverythingFits(lib, output, result);
    NoneSkipped(lib, output.lines);
    NoneSkipped(lib, Tail(output.lines, result.appliedLines + 1));
  }
}
