/** What the TAP counters mean: after any sequence of calls they are counts over the log that was written. */
module TapLaws {
  import opened Machine
  import opened KnownFailures
  import opened Tap

  datatype Call =
    | CallOk(passed: bool, description: string)
    | CallSkip(reason: string)
    | CallComment(text: string)
    | CallNote(text: string)
    | CallBegin(name: string)
    | CallEnd
    | CallBail(reason: string)
    | CallPlan(count: int)

  function Perform(s: State, entries: seq<Entry>, c: Call): State {
    match c
    case CallOk(passed, description) => OnOk(s, entries, passed, description)
    case CallSkip(reason) => OnSkip(s, reason)
    case CallComment(text) => OnComment(s, text)
    case CallNote(text) => OnNote(s, text)
    case CallBegin(name) => OnBegin(s, name)
    case CallEnd => OnEnd(s)
    case CallBail(reason) => OnBail(s, reason)
    case CallPlan(count) => OnPlan(s, count)
  }

  function PerformAll(s: State, entries: seq<Entry>, calls: seq<Call>): State
    decreases |calls|
  {
    if calls == [] then s else PerformAll(Perform(s, entries, calls[0]), entries, calls[1..])
  }

  // ---- Counting lines of the log ----

  datatype Kind =
    | AnyResult | Passing | CleanPass | Unexpected | KnownFailing | Skip | Bail | PlanLine | SummaryLine

  predicate Is(line: LogLine, kind: Kind) {
    match kind
    case AnyResult => line.Ok? || line.NotOk? || line.Skipped?
    case Passing => line.Ok? || line.Skipped?
    case CleanPass => line.Ok?
    case Unexpected => line.NotOk? && line.annotation.None?
    case KnownFailing => line.NotOk? && line.annotation.Some?
    case Skip => line.Skipped?
    case Bail => line.BailOut?
    case PlanLine => line.Plan?
    case SummaryLine => line.Results?
  }

  function CountOf(log: seq<LogLine>, kind: Kind): nat {
    if log == [] then 0
    else CountOf(log[..|log| - 1], kind) + if Is(log[|log| - 1], kind) then 1 else 0
  }

  /** The result lines are numbered 1, 2, 3, ... without gaps. */
  ghost predicate Numbered(log: seq<LogLine>) {
    forall i :: 0 <= i < |log| && Is(log[i], AnyResult) ==> log[i].number == CountOf(log[..i + 1], AnyResult)
  }

  /** A result is annotated exactly when its number is a known issue; a skip never is. */
  ghost predicate Annotated(log: seq<LogLine>, entries: seq<Entry>) {
    forall i :: 0 <= i < |log| && (log[i].Ok? || log[i].NotOk?) ==>
      log[i].annotation == Lookup(entries, log[i].number, None)
  }

  /** The lines of the category begun last. */
  function SinceMark(log: seq<LogLine>): seq<LogLine> {
    if log == [] || log[|log| - 1].CategoryMark? then []
    else SinceMark(log[..|log| - 1]) + [log[|log| - 1]]
  }

  function FailuresIn(log: seq<LogLine>): seq<(int, string)> {
    if log == [] then []
    else
      var last := log[|log| - 1];
      FailuresIn(log[..|log| - 1])
      + if Is(last, Unexpected) then [(last.number, Truncated(last.description, TEXT_SIZE))] else []
  }

  function FirstOf<T>(s: seq<T>, n: nat): seq<T> {
    if |s| <= n then s else s[..n]
  }

  /** The category summaries printed so far, added up. */
  function Summed(shown: seq<ScreenLine>): Counts {
    if shown == [] then ZERO
    else
      var last := shown[|shown| - 1];
      var before := Summed(shown[..|shown| - 1]);
      if last.Summary? then Plus(before, Counts(last.passed, last.failed, last.known, last.skipped)) else before
  }

  // ---- The invariant ----

  /** The global counters are counts over the whole log. */
  ghost predicate GlobalCounts(s: State) {
    && s.number == CountOf(s.log, AnyResult)
    && s.global == Counts(CountOf(s.log, Passing), CountOf(s.log, Unexpected),
                          CountOf(s.log, KnownFailing), CountOf(s.log, Skip))
    && (s.bailed <==> CountOf(s.log, Bail) > 0)
  }

  /** The category counters are counts over the lines of the open category. */
  ghost predicate CategoryCounts(s: State) {
    s.InCategory() ==>
      var lines := SinceMark(s.log);
      && s.cat == Counts(CountOf(lines, CleanPass), CountOf(lines, Unexpected),
                         CountOf(lines, KnownFailing), CountOf(lines, Skip))
      && s.catTotal == CountOf(lines, AnyResult)
      && s.failures == FirstOf(FailuresIn(lines), MAX_FAILURES_DISPLAY)
  }

  ghost predicate Inv(s: State, entries: seq<Entry>) {
    && GlobalCounts(s) && CategoryCounts(s)
    && Numbered(s.log) && Annotated(s.log, entries)
    && s.screen == Summed(s.shown)
    && |s.failures| <= MAX_FAILURES_DISPLAY && |s.notes| <= MAX_NOTES
  }

  lemma CountLast(log: seq<LogLine>, line: LogLine, kind: Kind)
    ensures CountOf(log + [line], kind) == CountOf(log, kind) + if Is(line, kind) then 1 else 0
  {
    assert (log + [line])[..|log|] == log;
  }

  lemma SinceMarkLast(log: seq<LogLine>, line: LogLine)
    ensures SinceMark(log + [line]) == if line.CategoryMark? then [] else SinceMark(log) + [line]
  {
    assert (log + [line])[..|log|] == log;
  }

  lemma FailuresLast(log: seq<LogLine>, line: LogLine)
    ensures FailuresIn(log + [line])
         == FailuresIn(log)
            + if Is(line, Unexpected) then [(line.number, Truncated(line.description, TEXT_SIZE))] else []
  {
    assert (log + [line])[..|log|] == log;
  }

  /** Appending a line keeps the numbering if the line, when it is a result, has the next number. */
  lemma NumberedLast(log: seq<LogLine>, line: LogLine)
    requires Numbered(log)
    requires Is(line, AnyResult) ==> line.number == CountOf(log, AnyResult) + 1
    ensures Numbered(log + [line])
  {
    var longer := log + [line];
    CountLast(log, line, AnyResult);
    forall i | 0 <= i < |longer| && Is(longer[i], AnyResult)
      ensures longer[i].number == CountOf(longer[..i + 1], AnyResult)
    {
      if i < |log| {
        assert longer[..i + 1] == log[..i + 1];
      } else {
        assert longer[..i + 1] == longer;
      }
    }
  }

  lemma AnnotatedLast(log: seq<LogLine>, line: LogLine, entries: seq<Entry>)
    requires Annotated(log, entries)
    requires line.Ok? || line.NotOk? ==> line.annotation == Lookup(entries, line.number, None)
    ensures Annotated(log + [line], entries)
  {
    hide Lookup;
  }

  /** All the counts of a log with one more line. */
  ghost predicate CountsGrow(log: seq<LogLine>, line: LogLine) {
    forall k: Kind :: CountOf(log + [line], k) == CountOf(log, k) + if Is(line, k) then 1 else 0
  }

  lemma AllCountsLast(log: seq<LogLine>, line: LogLine)
    ensures CountsGrow(log, line)
  {
    forall k: Kind ensures CountOf(log + [line], k) == CountOf(log, k) + if Is(line, k) then 1 else 0 {
      CountLast(log, line, k);
    }
  }

  lemma NoLines()
    ensures forall k: Kind :: CountOf([], k) == 0
    ensures FailuresIn([]) == [] && SinceMark([]) == [] && Numbered([]) && Summed([]) == ZERO
  {}

  /** What one more line of the log means for the invariant. */
  ghost predicate Written(s: State, line: LogLine, entries: seq<Entry>) {
    && Numbered(s.log + [line]) && Annotated(s.log + [line], entries)
    && CountsGrow(s.log, line) && CountsGrow(SinceMark(s.log), line)
    && SinceMark(s.log + [line]) == (if line.CategoryMark? then [] else SinceMark(s.log) + [line])
    && FailuresIn(SinceMark(s.log) + [line])
    == FailuresIn(SinceMark(s.log))
       + if Is(line, Unexpected) then [(line.number, Truncated(line.description, TEXT_SIZE))] else []
  }

  lemma LineWritten(s: State, line: LogLine, entries: seq<Entry>)
    requires Inv(s, entries)
    requires Is(line, AnyResult) ==> line.number == s.number + 1
    requires line.Ok? || line.NotOk? ==> line.annotation == Lookup(entries, line.number, None)
    ensures Written(s, line, entries)
  {
    hide Lookup, CountOf, CountsGrow;
    NumberedLast(s.log, line);
    AnnotatedLast(s.log, line, entries);
    AllCountsLast(s.log, line);
    SinceMarkLast(s.log, line);
    AllCountsLast(SinceMark(s.log), line);
    FailuresLast(SinceMark(s.log), line);
  }

  lemma OkKeepsInv(s: State, entries: seq<Entry>, passed: bool, description: string)
    requires Inv(s, entries)
    ensures Inv(OnOk(s, entries, passed, description), entries)
  {
    hide Lookup, CountOf, SinceMark, FailuresIn, Numbered, Annotated, Summed;
    var t := OnOk(s, entries, passed, description);
    LineWritten(s, t.log[|s.log|], entries);
  }

  lemma SkipKeepsInv(s: State, entries: seq<Entry>, reason: string)
    requires Inv(s, entries)
    ensures Inv(OnSkip(s, reason), entries)
  {
    hide Lookup, CountOf, SinceMark, FailuresIn, Numbered, Annotated, Summed;
    var t := OnSkip(s, reason);
    LineWritten(s, t.log[|s.log|], entries);
  }

  /** Calls that write a line which is no result. */
  lemma PlainLinesKeepInv(s: State, entries: seq<Entry>, c: Call)
    requires Inv(s, entries) && (c.CallComment? || c.CallNote? || c.CallPlan? || c.CallBegin? || c.CallBail?)
    ensures Inv(Perform(s, entries, c), entries)
  {
    hide Lookup, CountOf, SinceMark, FailuresIn, Numbered, Annotated, Summed;
    var t := Perform(s, entries, c);
    NoLines();
    LineWritten(s, t.log[|s.log|], entries);
    if c.CallBail? {
      SummedPlain(s.shown, t.shown[|s.shown|]);
    }
  }

  lemma SummedPlain(shown: seq<ScreenLine>, line: ScreenLine)
    ensures Summed(shown + [line])
         == if line.Summary? then Plus(Summed(shown), Counts(line.passed, line.failed, line.known, line.skipped))
            else Summed(shown)
  {
    assert (shown + [line])[..|shown|] == shown;
  }

  lemma {:induction false} SummedAppend(a: seq<ScreenLine>, b: seq<ScreenLine>)
    requires forall l <- b :: !l.Summary?
    ensures Summed(a + b) == Summed(a)
  {
    if b == [] {
      assert a + b == a;
    } else {
      var front := b[..|b| - 1];
      assert a + b == (a + front) + [b[|b| - 1]];
      SummedPlain(a + front, b[|b| - 1]);
      SummedAppend(a, front);
    }
  }

  lemma EndKeepsInv(s: State, entries: seq<Entry>)
    requires Inv(s, entries)
    ensures Inv(OnEnd(s), entries)
  {
    hide Lookup, CountOf, SinceMark, FailuresIn, Numbered, Annotated, Summed;
    var summary := Summary(s.category, s.cat.passed, s.cat.passed + s.cat.failed + s.cat.known,
                           s.cat.failed, s.cat.known, s.cat.skipped);
    var rest := FailureLines(s.failures) + MoreLines(s.cat.failed - |s.failures|) + NoteLines(s.notes);
    assert s.shown + CategoryScreen(s) == (s.shown + [summary]) + rest;
    SummedPlain(s.shown, summary);
    SummedAppend(s.shown + [summary], rest);
  }

  lemma PerformKeepsInv(s: State, entries: seq<Entry>, c: Call)
    requires Inv(s, entries)
    ensures Inv(Perform(s, entries, c), entries)
  {
    hide Inv;
    match c
    case CallOk(passed, description) => OkKeepsInv(s, entries, passed, description);
    case CallSkip(reason) => SkipKeepsInv(s, entries, reason);
    case CallEnd => EndKeepsInv(s, entries);
    case _ => PlainLinesKeepInv(s, entries, c);
  }

  lemma {:induction false} PerformAllKeepsInv(s: State, entries: seq<Entry>, calls: seq<Call>)
    requires Inv(s, entries)
    ensures Inv(PerformAll(s, entries, calls), entries)
    decreases |calls|
  {
    hide Inv, Perform;
    if calls == [] {
    } else {
      PerformKeepsInv(s, entries, calls[0]);
      PerformAllKeepsInv(Perform(s, entries, calls[0]), entries, calls[1..]);
    }
  }

  // ---- The laws ----

  lemma StartKeepsInv(s: State, version: Option<string>, entries: seq<Entry>)
    requires |s.failures| <= MAX_FAILURES_DISPLAY && |s.notes| <= MAX_NOTES
    ensures Inv(OnInit(s, version), entries)
  {
    var t := OnInit(s, version);
    NoLines();
    assert t.log == [] + [t.log[0]];
    AllCountsLast([], t.log[0]);
  }

  lemma {:induction false} ResultsSplit(log: seq<LogLine>)
    ensures CountOf(log, AnyResult) == CountOf(log, Passing) + CountOf(log, Unexpected) + CountOf(log, KnownFailing)
    ensures CountOf(log, Passing) == CountOf(log, CleanPass) + CountOf(log, Skip)
  {
    if log == [] {
    } else {
      ResultsSplit(log[..|log| - 1]);
    }
  }

  /**
    After any sequence of calls: results are numbered 1..test_number without gaps; test_number is passed + failed +
    known; skipped counts the SKIP lines, which are among the passed; and failed counts exactly the `not ok` lines
    that are not annotated, annotation depending on the test number alone.
   */
  lemma CountersMatchLog(version: Option<string>, entries: seq<Entry>, calls: seq<Call>)
    ensures var s := PerformAll(OnInit(BLANK, version), entries, calls);
            && Numbered(s.log) && s.number == CountOf(s.log, AnyResult)
            && s.number == s.global.passed + s.global.failed + s.global.known
            && s.global.skipped == CountOf(s.log, Skip) <= s.global.passed
            && s.global.failed == CountOf(s.log, Unexpected)
            && Annotated(s.log, entries)
            && (s.bailed <==> CountOf(s.log, Bail) > 0)
  {
    hide CountOf, Numbered, Annotated;
    StartKeepsInv(BLANK, version, entries);
    PerformAllKeepsInv(OnInit(BLANK, version), entries, calls);
    ResultsSplit(PerformAll(OnInit(BLANK, version), entries, calls).log);
  }

  lemma {:induction false} FailuresCounted(log: seq<LogLine>)
    ensures |FailuresIn(log)| == CountOf(log, Unexpected)
  {
    if log == [] {
    } else {
      FailuresCounted(log[..|log| - 1]);
    }
  }

  /**
    The screen summary of a category accounts for every unexpected failure in it: the first sixteen are expanded in
    order, with number and description, and the rest are counted.
   */
  lemma CategorySummaryAccounts(s: State, entries: seq<Entry>)
    requires Inv(s, entries) && s.InCategory()
    ensures var lines := SinceMark(s.log);
            var added := OnEnd(s).shown[|s.shown|..];
            && added == CategoryScreen(s)
            && added[0] == Summary(s.category, CountOf(lines, CleanPass),
                                   CountOf(lines, AnyResult) - CountOf(lines, Skip),
                                   CountOf(lines, Unexpected), CountOf(lines, KnownFailing), CountOf(lines, Skip))
            && FailureLines(FirstOf(FailuresIn(lines), MAX_FAILURES_DISPLAY))
               + MoreLines(CountOf(lines, Unexpected) - MAX_FAILURES_DISPLAY) <= added[1..]
  {
    hide CountOf, SinceMark, Numbered, Annotated, FailuresIn, FailureLines, MoreLines, NoteLines, FirstOf, Summed;
    var lines := SinceMark(s.log);
    ResultsSplit(lines);
    assert OnEnd(s).shown[|s.shown|..] == CategoryScreen(s);
    HiddenFailures(lines);
    var shownNow := FailureLines(s.failures) + MoreLines(s.cat.failed - |s.failures|);
    assert CategoryScreen(s)[1..] == shownNow + NoteLines(s.notes);
  }

  /** What is not expanded is counted, and that is what goes beyond sixteen. */
  lemma HiddenFailures(lines: seq<LogLine>)
    ensures var failed := CountOf(lines, Unexpected);
            MoreLines(failed - |FirstOf(FailuresIn(lines), MAX_FAILURES_DISPLAY)|)
            == MoreLines(failed - MAX_FAILURES_DISPLAY)
  {
    hide CountOf, FailuresIn;
    FailuresCounted(lines);
  }

  // ---- Notes ----

  /** The notes among some calls, cut to 127 characters. */
  function NoteTexts(calls: seq<Call>): seq<string> {
    if calls == [] then []
    else
      var last := calls[|calls| - 1];
      NoteTexts(calls[..|calls| - 1])
      + if last.CallNote? then [if |last.text| <= 127 then last.text else last.text[..127]] else []
  }

  lemma PerformLast(s: State, entries: seq<Entry>, calls: seq<Call>, c: Call)
    ensures PerformAll(s, entries, calls + [c]) == Perform(PerformAll(s, entries, calls), entries, c)
    decreases |calls|
  {
    hide Perform;
    if calls == [] {
      assert calls + [c] == [c] && [c][1..] == [];
    } else {
      assert (calls + [c])[0] == calls[0] && (calls + [c])[1..] == calls[1..] + [c];
      PerformLast(Perform(s, entries, calls[0]), entries, calls[1..], c);
    }
  }

  lemma {:induction false} NotesKept(s: State, name: string, entries: seq<Entry>, calls: seq<Call>)
    requires name != "" && forall c <- calls :: !c.CallBegin? && !c.CallEnd?
    ensures var t := PerformAll(OnBegin(s, name), entries, calls);
            t.InCategory() && t.notes == FirstOf(NoteTexts(calls), 8)
  {
    hide Lookup, PerformAll;
    if calls == [] {
      assert PerformAll(OnBegin(s, name), entries, []) == OnBegin(s, name) by { NoCalls(OnBegin(s, name), entries); }
    } else {
      var front, c := calls[..|calls| - 1], calls[|calls| - 1];
      assert c in calls && forall d <- front :: d in calls;
      NotesKept(s, name, entries, front);
      PerformLast(OnBegin(s, name), entries, front, c);
      assert front + [c] == calls;
    }
  }

  lemma NoCalls(s: State, entries: seq<Entry>)
    ensures PerformAll(s, entries, []) == s
  {}

  /** The screen shows, after everything else about a category, its first eight notes. */
  lemma NotesShown(s: State, name: string, entries: seq<Entry>, calls: seq<Call>)
    requires name != "" && forall c <- calls :: !c.CallBegin? && !c.CallEnd?
    ensures var t := PerformAll(OnBegin(s, name), entries, calls);
            var notes, shown := FirstOf(NoteTexts(calls), 8), OnEnd(t).shown;
            && |notes| <= |shown|
            && (forall i :: 0 <= i < |notes| ==> shown[|shown| - |notes| + i] == NoteLine(notes[i]))
            && forall i :: |t.shown| <= i < |shown| - |notes| ==> !shown[i].NoteLine?
  {
    hide PerformAll, NoteTexts;
    NotesKept(s, name, entries, calls);
  }
}
