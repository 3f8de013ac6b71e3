/**
  The TAP engine: three layers of counters (global, per category, per screen) kept beside the log it writes and the
  dashboard it prints.
 */
module Tap {
  import opened Machine
  import opened Decimal
  import opened KnownFailures
  import opened Pager

  const MAX_FAILURES_DISPLAY: nat := 16
  const MAX_NOTES: nat := 8
  const NAME_SIZE: nat := 32
  const TEXT_SIZE: nat := 128

  const RETURN_OK: int := 0
  const RETURN_WARN: int := 5
  const RETURN_FAIL: int := 20

  // ---- What is written ----

  /** A result line carries its number and, when annotated KNOWN, the reason. */
  datatype LogLine =
    | Ok(number: int, description: string, annotation: Option<string>)
    | NotOk(number: int, description: string, annotation: Option<string>)
    | Skipped(number: int, reason: string)
    | Comment(text: string)
    | CategoryMark(name: string)
    | Plan(count: int)
    | BailOut(reason: string)
    | Results(passed: int, failed: int, known: int, skipped: int, total: int)

  datatype ScreenLine =
    | Summary(name: string, passed: int, ran: int, failed: int, known: int, skipped: int)
    | FailureLine(number: int, description: string)
    | MoreFailures(count: int)
    | NoteLine(text: string)
    | BailLine(reason: string)
    | Final(passed: int, ran: int, failed: int, known: int, skipped: int)

  /** passed, failed, known and skipped, in the categories and on the screen; tests of a category in total. */
  datatype Counts = Counts(passed: int, failed: int, known: int, skipped: int)

  const ZERO: Counts := Counts(0, 0, 0, 0)

  function Plus(a: Counts, b: Counts): Counts {
    Counts(a.passed + b.passed, a.failed + b.failed, a.known + b.known, a.skipped + b.skipped)
  }

  // ---- The state and its operations ----

  /** The module's counters with everything written so far; `entries` is the known-failures table in force. */
  datatype State = State(
    number: int, global: Counts, bailed: bool,
    category: string, cat: Counts, catTotal: int,
    failures: seq<(int, string)>, notes: seq<string>,
    screen: Counts,
    log: seq<LogLine>, shown: seq<ScreenLine>)
  {
    predicate InCategory() {
      category != ""
    }
  }

  const BLANK: State := State(0, ZERO, false, "", ZERO, 0, [], [], ZERO, [], [])

  /** strncpy into a buffer whose last byte is then set to NUL. */
  function Truncated(s: string, size: nat): (t: string)
    requires size > 0
    ensures |t| < size && t <= s
    ensures |s| < size ==> t == s
    ensures |s| >= size ==> |t| == size - 1
  {
    if |s| < size then s else s[..size - 1]
  }

  function Logged(s: State, line: LogLine): State {
    s.(log := s.log + [line])
  }

  /** Counts one result globally and, inside a category, for the category. */
  function Counted(s: State, c: Counts): State {
    s.(global := Plus(s.global, c),
       cat := if s.InCategory() then Plus(s.cat, c) else s.cat,
       catTotal := if s.InCategory() then s.catTotal + 1 else s.catTotal)
  }

  function OnOk(s: State, entries: seq<Entry>, passed: bool, description: string): State {
    var n := s.number + 1;
    var known := Lookup(entries, n, None);
    var t := s.(number := n);
    if passed then Logged(Counted(t, Counts(1, 0, 0, 0)), Ok(n, description, known))
    else if known.Some? then Logged(Counted(t, Counts(0, 0, 1, 0)), NotOk(n, description, known))
    else
      var failures := if s.InCategory() && |s.failures| < MAX_FAILURES_DISPLAY
                      then s.failures + [(n, Truncated(description, TEXT_SIZE))] else s.failures;
      Logged(Counted(t, Counts(0, 1, 0, 0)), NotOk(n, description, None)).(failures := failures)
  }

  /** Counting touches neither the list of failures nor the log, and takes no account of the number. */
  lemma CountedKeeps(s: State, n: int)
    ensures forall c: Counts ::
              var t := Counted(s, c);
              t == s.(global := t.global, cat := t.cat, catTotal := t.catTotal)
    ensures forall c: Counts :: Counted(s.(number := n), c) == Counted(s, c).(number := n)
  {}

  /** A skip counts as passed globally, but not in its category. */
  function OnSkip(s: State, reason: string): State {
    var n := s.number + 1;
    var t := s.(number := n,
                global := Plus(s.global, Counts(1, 0, 0, 1)),
                cat := if s.InCategory() then Plus(s.cat, Counts(0, 0, 0, 1)) else s.cat,
                catTotal := if s.InCategory() then s.catTotal + 1 else s.catTotal);
    Logged(t, Skipped(n, reason))
  }

  function OnComment(s: State, text: string): State {
    Logged(s, Comment(text))
  }

  function OnNote(s: State, text: string): State {
    var notes := if s.InCategory() && |s.notes| < MAX_NOTES then s.notes + [Truncated(text, TEXT_SIZE)] else s.notes;
    Logged(s, Comment(text)).(notes := notes)
  }

  function OnBegin(s: State, name: string): State {
    Logged(s, CategoryMark(name)).(
      category := Truncated(name, NAME_SIZE), cat := ZERO, catTotal := 0, failures := [], notes := [])
  }

  function FailureLines(failures: seq<(int, string)>): seq<ScreenLine> {
    seq(|failures|, i requires 0 <= i < |failures| => FailureLine(failures[i].0, failures[i].1))
  }

  function MoreLines(hidden: int): seq<ScreenLine> {
    if hidden > 0 then [MoreFailures(hidden)] else []
  }

  function NoteLines(notes: seq<string>): seq<ScreenLine> {
    seq(|notes|, i requires 0 <= i < |notes| => NoteLine(notes[i]))
  }

  /** The lines that sum up a category on the screen. */
  function CategoryScreen(s: State): seq<ScreenLine> {
    [Summary(s.category, s.cat.passed, s.cat.passed + s.cat.failed + s.cat.known,
             s.cat.failed, s.cat.known, s.cat.skipped)]
    + FailureLines(s.failures) + MoreLines(s.cat.failed - |s.failures|) + NoteLines(s.notes)
  }

  function OnEnd(s: State): State {
    s.(screen := Plus(s.screen, s.cat), category := "", shown := s.shown + CategoryScreen(s))
  }

  function OnBail(s: State, reason: string): State {
    Logged(s, BailOut(reason)).(bailed := true, shown := s.shown + [BailLine(reason)])
  }

  function OnPlan(s: State, count: int): State {
    Logged(s, Plan(count))
  }

  /**
    The figures of the final summary: the global ones after a bail-out, else those collected category by category.
   */
  function FinalCounts(s: State): Counts {
    if s.bailed then s.global else s.screen
  }

  function OnFinish(s: State): State {
    var c := FinalCounts(s);
    Logged(s, Results(c.passed, c.failed, c.known, c.skipped, s.number)).(
      shown := s.shown + [Final(c.passed, c.passed + c.failed + c.known, c.failed, c.known, c.skipped)])
  }

  function ExitCode(s: State): int {
    if s.bailed then RETURN_FAIL else if s.global.failed > 0 then RETURN_WARN else RETURN_OK
  }

  function OnInit(s: State, version: Option<string>): State {
    s.(number := 0, global := ZERO, bailed := false, category := "", screen := ZERO,
       log := [Comment(if version.Some? then version.value else "not available")], shown := [])
  }

  lemma NextNumber(s: State, entries: seq<Entry>, passed: bool, description: string)
    ensures OnOk(s, entries, passed, description).number == s.number + 1
  {}

  // ---- Screen rows ----

  /** A number printed with "%3d". */
  function PaddedWidth(n: int): nat {
    if |PrintInt(n)| < 3 then 3 else |PrintInt(n)|
  }

  /** The rows of one line of the verbose display, of an expanded failure, and of a note. */
  function VerboseRows(width: int, number: int, tag: nat, text: string): nat {
    WrapRows(width, 2 + PaddedWidth(number) + tag + |text|)
  }

  function FailureRows(width: int, failure: (int, string)): nat {
    WrapRows(width, 8 + |PrintInt(failure.0)| + 2 + |failure.1|)
  }

  function NoteRows(width: int, note: string): nat {
    WrapRows(width, 2 + |note|)
  }

  function AllFailureRows(failures: seq<(int, string)>, width: int): seq<nat> {
    seq(|failures|, i requires 0 <= i < |failures| => FailureRows(width, failures[i]))
  }

  function AllNoteRows(notes: seq<string>, width: int): seq<nat> {
    seq(|notes|, i requires 0 <= i < |notes| => NoteRows(width, notes[i]))
  }

  function CategoryRows(s: State, width: int): seq<nat> {
    [1] + AllFailureRows(s.failures, width) + (if s.cat.failed > |s.failures| then [1] else [])
    + AllNoteRows(s.notes, width)
  }

  /** The header on the screen: the version, the log's path unless it is NIL: or unwritable, and an empty line. */
  function HeaderRows(nil: bool, opens: bool): seq<nat> {
    if !nil && opens then [1, 1, 1] else [1, 1]
  }

  /** sprintf("%3d", n). */
  function Padded(n: int): string {
    var digits := PrintInt(n);
    if |digits| == 1 then "  " + digits else if |digits| == 2 then " " + digits else digits
  }

  /** The rows of a verbose line are those of its text, whichever of the four kinds it is. */
  lemma VerboseText(width: int, number: int, text: string)
    ensures VerboseRows(width, number, 9, text) == WrapRows(width, |"  " + Padded(number) + " ok    - " + text|)
    ensures VerboseRows(width, number, 9, text) == WrapRows(width, |"  " + Padded(number) + " KNOWN - " + text|)
    ensures VerboseRows(width, number, 9, text) == WrapRows(width, |"  " + Padded(number) + " FAIL  - " + text|)
    ensures VerboseRows(width, number, 8, text) == WrapRows(width, |"  " + Padded(number) + " skip - " + text|)
  {
    hide WrapRows;
    assert |PrintInt(number)| >= 1 by { PrintsSomething(number); }
    hide PrintInt;
  }

  lemma PrintsSomething(n: int)
    ensures |PrintInt(n)| >= 1
  {}

  /** Of the lines of a category's summary only failures and notes can be longer than the screen is wide. */
  function RowsOf(line: ScreenLine, width: int): nat {
    match line
    case FailureLine(number, description) => WrapRows(width, |"  FAIL #" + PrintInt(number) + ": " + description|)
    case NoteLine(text) => WrapRows(width, |"  " + text|)
    case _ => 1
  }

  /** The rows counted for a category are those of the lines shown for it, one by one. */
  lemma RowsMatchLines(s: State, width: int)
    ensures |CategoryRows(s, width)| == |CategoryScreen(s)|
    ensures forall i :: 0 <= i < |CategoryScreen(s)| ==>
              CategoryRows(s, width)[i] == RowsOf(CategoryScreen(s)[i], width)
  {
    hide WrapRows, PrintInt;
    var more := if s.cat.failed > |s.failures| then [1] else [];
    assert |MoreLines(s.cat.failed - |s.failures|)| == |more|;
  }

  lemma RunAppend(p: Page, rows: seq<nat>, r: nat)
    ensures Run(p, rows + [r]).page == Advanced(Run(p, rows).page, r)
    ensures Run(p, []).page == p && Run(p, rows).page.width == p.width
  {
    assert (rows + [r])[..|rows|] == rows;
    RunKeepsWidth(p, rows);
  }

  lemma {:induction false} RunKeepsWidth(p: Page, rows: seq<nat>)
    ensures Run(p, rows).page.width == p.width
  {
    if rows == [] {
    } else {
      RunKeepsWidth(p, rows[..|rows| - 1]);
    }
  }

  lemma MoreLinesIs(hidden: int)
    ensures MoreLines(hidden) == if hidden > 0 then [MoreFailures(hidden)] else []
  {}

  // ---- The code ----

  class Engine {
    var testNumber: int
    var counts: Counts
    var bailedOut: bool
    var verbose: bool
    var currentCategory: string
    var cat: Counts
    var catTotal: int
    const catFailures: array<(int, string)>
    var catFailureCount: nat
    const catNotes: array<string>
    var catNoteCount: nat
    var screen: Counts
    const pager: ScreenPager
    const known: KnownTable
    ghost var log: seq<LogLine>
    ghost var shown: seq<ScreenLine>

    ghost predicate Valid()
      reads this
    {
      && catFailures.Length == MAX_FAILURES_DISPLAY && catNotes.Length == MAX_NOTES
      && catFailureCount <= MAX_FAILURES_DISPLAY && catNoteCount <= MAX_NOTES
    }

    ghost function Current(): State
      requires Valid()
      reads this, catFailures, catNotes
    {
      State(testNumber, counts, bailedOut, currentCategory, cat, catTotal,
            catFailures[..catFailureCount], catNotes[..catNoteCount], screen, log, shown)
    }

    constructor (pager: ScreenPager, known: KnownTable, verbose: bool)
      ensures Valid() && Current() == BLANK && fresh(catFailures) && fresh(catNotes)
      ensures this.pager == pager && this.known == known && this.verbose == verbose
    {
      testNumber, counts := 0, ZERO;
      bailedOut, currentCategory := false, "";
      cat, catTotal := ZERO, 0;
      catFailures := new (int, string)[MAX_FAILURES_DISPLAY](_ => (0, ""));
      catNotes := new string[MAX_NOTES](_ => "");
      catFailureCount, catNoteCount := 0, 0;
      screen := ZERO;
      log, shown := [], [];
      this.pager, this.known, this.verbose := pager, known, verbose;
    }

    /** Starts a log; `nil` is the log path NIL:, and `opens` whether the log file could be opened. */
    method TapInit(version: Option<string>, nil: bool, opens: bool)
      requires Valid()
      modifies this, pager
      ensures Valid() && Current() == OnInit(old(Current()), version)
      ensures pager.State() == Run(old(pager.State()), if !nil && opens then [1, 1, 1] else [1, 1]).page
      ensures verbose == old(verbose)
    {
      hide Run;
      Reset(version);
      ShowRows(HeaderRows(nil, opens));
    }

    method Reset(version: Option<string>)
      requires Valid()
      modifies this
      ensures Valid() && Current() == OnInit(old(Current()), version)
      ensures verbose == old(verbose)
    {
      testNumber, counts := 0, ZERO;
      bailedOut, currentCategory := false, "";
      screen := ZERO;
      log := [Comment(if version.Some? then version.value else "not available")];
      shown := [];
    }

    /** A few lines that say nothing about results. */
    method ShowRows(rows: seq<nat>)
      modifies pager
      ensures pager.State() == Run(old(pager.State()), rows).page
    {
      hide Advanced, Run;
      ghost var p := pager.State();
      RunAppend(p, [], 0);
      for i := 0 to |rows|
        invariant pager.State() == Run(p, rows[..i]).page
      {
        RunAppend(p, rows[..i], rows[i]);
        assert rows[..i + 1] == rows[..i] + [rows[i]];
        pager.PageAdvance(rows[i]);
      }
      assert rows[..|rows|] == rows;
    }

    method TapPlan(count: int)
      requires Valid()
      modifies this`log
      ensures Valid() && Current() == OnPlan(old(Current()), count)
    {
      log := log + [Plan(count)];
    }

    method TapOk(passed: bool, description: string)
      requires Valid()
      modifies this, catFailures, pager
      ensures Valid() && Current() == OnOk(old(Current()), known.Entries(), passed, description)
      ensures pager.State() == if verbose
                then Advanced(old(pager.State()),
                              VerboseRows(old(pager.screenWidth), old(testNumber) + 1, 9, description))
                else old(pager.State())
      ensures verbose == old(verbose)
    {
      hide Advanced, VerboseRows, OnOk;
      NextNumber(Current(), known.Entries(), passed, description);
      CountOk(passed, description);
      if verbose {
        pager.PageAdvance(VerboseRows(pager.screenWidth, testNumber, 9, description));
      }
    }

    /** The counters and the log line of a result. */
    method CountOk(passed: bool, description: string)
      requires Valid()
      modifies this, catFailures
      ensures Valid() && Current() == OnOk(old(Current()), known.Entries(), passed, description)
      ensures verbose == old(verbose)
    {
      hide Lookup, Counted, Truncated;
      CountedKeeps(Current(), testNumber + 1);
      testNumber := testNumber + 1;
      var kr := known.KnownCheck(testNumber);
      if passed {
        Record(Counts(1, 0, 0, 0), Ok(testNumber, description, kr));
      } else if kr.Some? {
        Record(Counts(0, 0, 1, 0), NotOk(testNumber, description, kr));
      } else {
        Record(Counts(0, 1, 0, 0), NotOk(testNumber, description, None));
        if currentCategory != "" {
          RecordFailure(testNumber, description);
        }
      }
    }

    /** One result in the counters and in the log. */
    method Record(c: Counts, line: LogLine)
      requires Valid()
      modifies this`counts, this`cat, this`catTotal, this`log
      ensures Valid() && Current() == Logged(Counted(old(Current()), c), line)
    {
      hide Counted;
      CountedKeeps(Current(), testNumber);
      Count(c);
      log := log + [line];
    }

    /** Adds a result to the global counters and, inside a category, to the category's. */
    method Count(c: Counts)
      requires Valid()
      modifies this`counts, this`cat, this`catTotal
      ensures Current() == Counted(old(Current()), c)
    {
      counts := Plus(counts, c);
      if currentCategory != "" {
        catTotal := catTotal + 1;
        cat := Plus(cat, c);
      }
    }

    /** Keeps a failure for the screen while there is room. */
    method RecordFailure(number: int, description: string)
      requires Valid()
      modifies this`catFailureCount, catFailures
      ensures Valid()
      ensures catFailures[..catFailureCount]
           == if old(catFailureCount) < MAX_FAILURES_DISPLAY
              then old(catFailures[..catFailureCount]) + [(number, Truncated(description, TEXT_SIZE))]
              else old(catFailures[..catFailureCount])
    {
      if catFailureCount < MAX_FAILURES_DISPLAY {
        catFailures[catFailureCount] := (number, Truncated(description, TEXT_SIZE));
        catFailureCount := catFailureCount + 1;
      }
    }

    method TapSkip(reason: string)
      requires Valid()
      modifies this, pager
      ensures Valid() && Current() == OnSkip(old(Current()), reason)
      ensures pager.State() == if verbose
                then Advanced(old(pager.State()), VerboseRows(old(pager.screenWidth), old(testNumber) + 1, 8, reason))
                else old(pager.State())
      ensures verbose == old(verbose)
    {
      hide Advanced, VerboseRows, FailureRows, NoteRows, Run, Lookup;
      testNumber := testNumber + 1;
      counts := counts.(passed := counts.passed + 1, skipped := counts.skipped + 1);
      if currentCategory != "" {
        catTotal := catTotal + 1;
        cat := cat.(skipped := cat.skipped + 1);
      }
      log := log + [Skipped(testNumber, reason)];
      if verbose {
        pager.PageAdvance(VerboseRows(pager.screenWidth, testNumber, 8, reason));
      }
    }

    method TapDiag(text: string)
      requires Valid()
      modifies this`log
      ensures Valid() && Current() == OnComment(old(Current()), text)
    {
      log := log + [Comment(text)];
    }

    method TapNote(text: string)
      requires Valid()
      modifies this`log, this`catNoteCount, catNotes
      ensures Valid() && Current() == OnNote(old(Current()), text)
    {
      log := log + [Comment(text)];
      if currentCategory != "" && catNoteCount < MAX_NOTES {
        catNotes[catNoteCount] := Truncated(text, TEXT_SIZE);
        catNoteCount := catNoteCount + 1;
      }
    }

    method TapBeginCategory(name: string)
      requires Valid()
      modifies this
      ensures Valid() && Current() == OnBegin(old(Current()), name)
      ensures verbose == old(verbose)
    {
      hide Advanced, VerboseRows, FailureRows, NoteRows, Run, Lookup;
      currentCategory := Truncated(name, NAME_SIZE);
      cat, catTotal := ZERO, 0;
      catFailureCount, catNoteCount := 0, 0;
      log := log + [CategoryMark(name)];
    }

    method TapEndCategory()
      requires Valid()
      modifies this, pager
      ensures Valid() && Current() == OnEnd(old(Current()))
      ensures pager.State() == Run(old(pager.State()), CategoryRows(old(Current()), old(pager.screenWidth))).page
      ensures verbose == old(verbose)
    {
      hide CategoryScreen, CategoryRows, Run;
      PrintCategory();
      screen := Plus(screen, cat);
      currentCategory := "";
    }

    method PrintCategory()
      requires Valid()
      modifies this`shown, pager
      ensures shown == old(shown) + CategoryScreen(old(Current()))
      ensures pager.State() == Run(old(pager.State()), CategoryRows(old(Current()), old(pager.screenWidth))).page
    {
      hide Run, AllFailureRows, AllNoteRows, FailureLines, NoteLines, MoreLines, Advanced;
      ghost var s, p := Current(), pager.State();
      var width := pager.screenWidth;
      RunAppend(p, [], 1);
      ShowLine(Summary(currentCategory, cat.passed, cat.passed + cat.failed + cat.known,
                       cat.failed, cat.known, cat.skipped), [], p);
      ghost var rows: seq<nat> := [] + [1];
      ShowFailures(rows, p, width);
      rows := rows + AllFailureRows(s.failures, width);
      assert MoreLines(cat.failed - catFailureCount)
          == if cat.failed > catFailureCount then [MoreFailures(cat.failed - catFailureCount)] else [] by {
        MoreLinesIs(cat.failed - catFailureCount);
      }
      if cat.failed > catFailureCount {
        ShowLine(MoreFailures(cat.failed - catFailureCount), rows, p);
        rows := rows + [1];
      }
      ShowNotes(rows, p, width);
      rows := rows + AllNoteRows(s.notes, width);
      assert rows == CategoryRows(s, width);
      assert shown == old(shown) + CategoryScreen(s);
    }

    /** A short line on the screen; `before` are the rows printed since the page was p. */
    method ShowLine(line: ScreenLine, ghost before: seq<nat>, ghost p: Page)
      requires pager.State() == Run(p, before).page
      modifies this`shown, pager
      ensures shown == old(shown) + [line]
      ensures pager.State() == Run(p, before + [1]).page
    {
      hide Run, Advanced;
      RunAppend(p, before, 1);
      shown := shown + [line];
      pager.PageAdvance(1);
    }

    method ShowFailures(ghost before: seq<nat>, ghost p: Page, width: int)
      requires Valid() && pager.State() == Run(p, before).page && width == p.width
      modifies this`shown, pager
      ensures shown == old(shown) + FailureLines(Current().failures)
      ensures pager.State() == Run(p, before + AllFailureRows(Current().failures, width)).page
    {
      hide Advanced, FailureRows, Run;
      ghost var rows, lines := AllFailureRows(Current().failures, width), FailureLines(Current().failures);
      assert before + rows[..0] == before;
      for i := 0 to catFailureCount
        invariant shown == old(shown) + lines[..i]
        invariant pager.State() == Run(p, before + rows[..i]).page
      {
        RunAppend(p, before + rows[..i], rows[i]);
        assert before + rows[..i + 1] == before + rows[..i] + [rows[i]];
        assert lines[..i + 1] == lines[..i] + [lines[i]];
        shown := shown + [FailureLine(catFailures[i].0, catFailures[i].1)];
        pager.PageAdvance(FailureRows(pager.screenWidth, catFailures[i]));
      }
      assert rows[..catFailureCount] == rows && lines[..catFailureCount] == lines;
    }

    method ShowNotes(ghost before: seq<nat>, ghost p: Page, width: int)
      requires Valid() && pager.State() == Run(p, before).page && width == p.width
      modifies this`shown, pager
      ensures shown == old(shown) + NoteLines(Current().notes)
      ensures pager.State() == Run(p, before + AllNoteRows(Current().notes, width)).page
    {
      hide Advanced, NoteRows, Run;
      ghost var rows, lines := AllNoteRows(Current().notes, width), NoteLines(Current().notes);
      assert before + rows[..0] == before;
      for i := 0 to catNoteCount
        invariant shown == old(shown) + lines[..i]
        invariant pager.State() == Run(p, before + rows[..i]).page
      {
        RunAppend(p, before + rows[..i], rows[i]);
        assert before + rows[..i + 1] == before + rows[..i] + [rows[i]];
        assert lines[..i + 1] == lines[..i] + [lines[i]];
        shown := shown + [NoteLine(catNotes[i])];
        pager.PageAdvance(NoteRows(pager.screenWidth, catNotes[i]));
      }
      assert rows[..catNoteCount] == rows && lines[..catNoteCount] == lines;
    }

    method TapBail(reason: string)
      requires Valid()
      modifies this`bailedOut, this`shown, this`log, pager
      ensures Valid() && Current() == OnBail(old(Current()), reason)
      ensures pager.State() == Advanced(old(pager.State()), 1)
    {
      hide Advanced, VerboseRows, FailureRows, NoteRows, Run, Lookup;
      bailedOut := true;
      shown := shown + [BailLine(reason)];
      pager.PageAdvance(1);
      log := log + [BailOut(reason)];
    }

    method TapFinish() returns (code: int)
      requires Valid()
      modifies this`shown, this`log, pager
      ensures Valid() && Current() == OnFinish(old(Current())) && code == ExitCode(old(Current()))
      ensures pager.State() == Run(old(pager.State()), [1, 1]).page
    {
      hide Run;
      var sum := if bailedOut then counts else screen;
      ghost var p := pager.State();
      RunAppend(p, [], 1);
      RunAppend(p, [1], 1);
      assert [] + [1] == [1] && [1] + [1] == [1, 1];
      pager.PageAdvance(1);
      shown := shown + [Final(sum.passed, sum.passed + sum.failed + sum.known, sum.failed, sum.known, sum.skipped)];
      pager.PageAdvance(1);
      log := log + [Results(sum.passed, sum.failed, sum.known, sum.skipped, testNumber)];
      if bailedOut {
        return RETURN_FAIL;
      }
      return if counts.failed > 0 then RETURN_WARN else RETURN_OK;
    }
  }
}
