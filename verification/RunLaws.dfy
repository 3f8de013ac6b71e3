/** What a whole run leaves behind: categories selected by name, the tests' lines, the plan and the final line. */
module RunLaws {
  import opened Machine
  import opened KnownFailures
  import opened Pager
  import opened Tap
  import opened TapLaws
  import opened Dispatch
  import opened DispatchLaws
  import opened Annotations

  // ---- Selecting by name ----

  predicate SmallLetters(s: string) {
    forall i :: 0 <= i < |s| ==> 'a' <= s[i] <= 'z'
  }

  lemma NamesAreSmall(k: nat)
    requires k < N
    ensures SmallLetters(Cat(k).name)
  {
    hide Cat;
    Names();
    assert SmallLetters("socket") && SmallLetters("sendrecv") && SmallLetters("sockopt");
    assert SmallLetters("waitselect") && SmallLetters("signals") && SmallLetters("dns");
    assert SmallLetters("utility") && SmallLetters("transfer") && SmallLetters("errno");
    assert SmallLetters("misc") && SmallLetters("icmp") && SmallLetters("throughput");
  }

  lemma LowerKeeps(s: string)
    requires SmallLetters(s)
    ensures Lower(s) == s
  {}

  /** A name selects the category it spells, in small or capital letters, whatever the tier. */
  lemma NameSelects(k: nat, name: string, tier: Tier)
    requires k < N
    ensures ShouldRun(Cat(k), Filter(Some(name), tier)) <==>
              && |name| == |Cat(k).name|
              && forall i :: 0 <= i < |name| ==>
                   name[i] == Cat(k).name[i] || name[i] as int + 32 == Cat(k).name[i] as int
  {
    hide Cat;
    NamesAreSmall(k);
    LowerKeeps(Cat(k).name);
    var low, wanted := Lower(name), Cat(k).name;
    assert |low| == |name| && forall i :: 0 <= i < |name| ==> low[i] == Lowered(name[i]);
    if |name| == |wanted| {
      assert low == wanted <==> forall i :: 0 <= i < |name| ==> low[i] == wanted[i];
      forall i | 0 <= i < |name|
        ensures low[i] == wanted[i] <==> name[i] == wanted[i] || name[i] as int + 32 == wanted[i] as int
      {
        OneLetter(name[i], wanted[i]);
      }
    }
  }

  function Lowered(c: char): char {
    if 'A' <= c <= 'Z' then c + 32 as char else c
  }

  lemma OneLetter(c: char, wanted: char)
    requires 'a' <= wanted <= 'z'
    ensures Lowered(c) == wanted <==> c == wanted || c as int + 32 == wanted as int
  {}

  // ---- Tests and tables ----

  /** The table in force is that of the profile the version string begins with, or empty. */
  lemma TableInForce(version: Option<string>, i: nat)
    requires i < |PROFILES|
    ensures version.Some? && PROFILES[i].version <= version.value ==> EntriesFor(version) == PROFILES[i].entries
    ensures version.None? || (forall k: nat :: !Matches(version.value, k)) ==> EntriesFor(version) == []
  {
    hide PROFILES, Selected;
    if version.Some? {
      SelectedIff(version.value, i);
    } else {
      NoVersion(version);
    }
  }

  /**
    On every run a test of a selected category that is reached has its line in the final log: a check says whether it
    passed, a skip why it was left out, and a guarded test one or the other unless it would crash; under its own number
    less the tests left out, with the annotation of that number.
   */
  lemma TestLines(l: Launch, k: nat, i: nat)
    requires Realistic(l.world) && l.Starts() && k < N && ShouldRun(Cat(k), l.filter)
    requires Uninterrupted(l.filter, l.world, k) && !l.world.breaks[k]
    requires i < |l.world.scripts[k]| && IsTest(l.world.scripts[k][i])
    ensures var a, n := l.world.scripts[k][i], StaticNumber(l.world, k, i) - LeftOut(l.filter, k);
            var known := Lookup(EntriesFor(l.version), n, None);
            && (a.Check? && a.passed ==> Ok(n, a.description, known) in Suite(l).log)
            && (a.Check? && !a.passed ==> NotOk(n, a.description, known) in Suite(l).log)
            && (a.Omit? ==> Skipped(n, a.reason) in Suite(l).log)
            && (a.Guarded? && Lookup(EntriesFor(l.version), a.number, Some(Crash)).None? ==>
                  match a.otherwise
                  case Finished(true) => Ok(n, a.description, known) in Suite(l).log
                  case Finished(false) => NotOk(n, a.description, known) in Suite(l).log
                  case CannotRun(reason) => Skipped(n, reason) in Suite(l).log)
  {
    hide Suite, Lookup, EntriesFor, StaticNumber, LeftOut, Cat, ShouldRun, Uninterrupted, Realistic;
    EveryTestLogged(l, k, i);
  }

  /** A selected category that is reached is marked in the log, with its description. */
  lemma CategoryMarked(l: Launch, k: nat)
    requires Realistic(l.world) && l.Starts() && k < N && ShouldRun(Cat(k), l.filter)
    requires Uninterrupted(l.filter, l.world, k) && !l.world.breaks[k]
    ensures CategoryMark(Cat(k).name) in Suite(l).log && Comment(Cat(k).description) in Suite(l).log
  {
    hide Between, Conforms, Cat, Suite, EntriesFor, ActAll, Entered, FirstTest, LeftOut, ShouldRun, OnInit,
         Uninterrupted, StateAt;
    var f, w, entries, s := l.filter, l.world, EntriesFor(l.version), OnInit(BLANK, l.version);
    FreshStart(l.version, entries, f);
    ReachedIff(s, entries, f, w, k);
    ReachedIsBetween(s, entries, f, w, k);
    var r := StateAt(s, entries, f, w, k).value;
    MarkWritten(r, entries, k, w.scripts[k]);
    InSuite(l, k, r, CategoryMark(Cat(k).name));
    InSuite(l, k, r, Comment(Cat(k).description));
  }

  lemma MarkWritten(s: State, entries: seq<Entry>, k: nat, script: seq<Action>)
    requires k < N
    ensures var log := ActAll(Entered(s, k), entries, script).log;
            CategoryMark(Cat(k).name) in log && Comment(Cat(k).description) in log
  {
    hide Cat, ActAll;
    CategoryExtends(s, entries, k, script, 0);
    var e, log := Entered(s, k).log, ActAll(Entered(s, k), entries, script).log;
    assert e == s.log + [CategoryMark(Cat(k).name), Comment(Cat(k).description)];
    assert log[|s.log|] == e[|s.log|] && log[|s.log| + 1] == e[|s.log| + 1];
  }

  // ---- The end of the log and of the screen ----

  /** No plan and no summary so far, and what the log says of bail-outs the screen says too. */
  ghost predicate Plain(s: State) {
    && CountOf(s.log, PlanLine) == 0 && CountOf(s.log, SummaryLine) == 0
    && (forall l <- s.shown :: !l.Final?)
    && BailsShown(s)
  }

  ghost predicate BailsShown(s: State) {
    forall r: string :: BailOut(r) in s.log <==> BailLine(r) in s.shown
  }

  lemma PerformPlain(s: State, entries: seq<Entry>, c: Call)
    requires Plain(s) && !c.CallPlan?
    ensures Plain(Perform(s, entries, c))
  {
    hide Lookup, CountOf, FailureLines, MoreLines, NoteLines;
    var t := Perform(s, entries, c);
    if c.CallEnd? {
      var added := CategoryScreen(s);
      assert forall l <- added :: !l.Final? && !l.BailLine? by { CategoryLines(s); }
      assert t.shown == s.shown + added;
    } else {
      CountLast(s.log, t.log[|s.log|], PlanLine);
      CountLast(s.log, t.log[|s.log|], SummaryLine);
    }
  }

  lemma CategoryLines(s: State)
    ensures forall l <- CategoryScreen(s) :: !l.Final? && !l.BailLine?
  {}

  lemma ActPlain(s: State, entries: seq<Entry>, a: Action)
    requires Plain(s)
    ensures Plain(Act(s, entries, a))
  {
    hide Lookup, PerformAll, Act, Perform, Plain;
    ActIs(s, entries, a);
    var c := CallsOf(a, entries)[0];
    PerformPlain(s, entries, c);
    PerformPlain(Perform(s, entries, c), entries, CallComment("not exercised"));
    assert OnComment(Perform(s, entries, c), "not exercised")
        == Perform(Perform(s, entries, c), entries, CallComment("not exercised")) by {
      CommentIsCall(Perform(s, entries, c), entries);
    }
  }

  lemma {:induction false} ScriptPlain(s: State, entries: seq<Entry>, script: seq<Action>)
    requires Plain(s)
    ensures Plain(ActAll(s, entries, script))
  {
    hide Act, Plain;
    if script == [] {
    } else {
      ScriptPlain(s, entries, script[..|script| - 1]);
      ActPlain(ActAll(s, entries, script[..|script| - 1]), entries, script[|script| - 1]);
    }
  }

  lemma EnteredPlain(s: State, entries: seq<Entry>, k: nat)
    requires k < N && Plain(s)
    ensures Plain(Entered(s, k))
  {
    hide Plain, Cat;
    PerformPlain(s, entries, CallBegin(Cat(k).name));
    PerformPlain(OnBegin(s, Cat(k).name), entries, CallComment(Cat(k).description));
  }

  lemma {:induction false} DispatchPlain(s: State, entries: seq<Entry>, f: Filter, w: World, k: nat)
    requires |w.breaks| == |w.scripts| == N && k <= N && Plain(s)
    ensures Plain(DispatchFrom(s, entries, f, w, k))
    decreases N - k
  {
    hide Plain, Entered, ActAll, OnEnd, OnBail, Cat, ShouldRun;
    if k == N {
    } else if w.breaks[k] {
      PerformPlain(s, entries, CallBail("Interrupted by Ctrl-C"));
    } else if !ShouldRun(Cat(k), f) {
      DispatchPlain(s, entries, f, w, k + 1);
    } else {
      EnteredPlain(s, entries, k);
      var t := ActAll(Entered(s, k), entries, w.scripts[k]);
      ScriptPlain(Entered(s, k), entries, w.scripts[k]);
      PerformPlain(t, entries, CallEnd);
      if !t.bailed {
        DispatchPlain(OnEnd(t), entries, f, w, k + 1);
      }
    }
  }

  lemma StartPlain(version: Option<string>)
    ensures Plain(OnInit(BLANK, version)) && OnInit(BLANK, version).number == 0
  {
    var t := OnInit(BLANK, version);
    assert t.log == [] + [t.log[0]];
    CountLast([], t.log[0], PlanLine);
    CountLast([], t.log[0], SummaryLine);
  }

  /** The dispatcher enters some category: one that is selected, with no break pending up to it. */
  ghost predicate Enters(f: Filter, w: World)
    requires |w.breaks| == |w.scripts| == N
  {
    exists k: nat :: k < N && ShouldRun(Cat(k), f) && forall j :: 0 <= j <= k ==> !w.breaks[j]
  }

  lemma {:induction false} RanAnyIff(f: Filter, w: World, k: nat)
    requires |w.breaks| == |w.scripts| == N && k <= N
    ensures RanAny(f, w, k) <==>
              exists i: nat :: k <= i < N && ShouldRun(Cat(i), f) && forall j :: k <= j <= i ==> !w.breaks[j]
    decreases N - k
  {
    hide Cat, ShouldRun;
    if k == N {
    } else {
      RanAnyIff(f, w, k + 1);
    }
  }

  /**
    What a run that started adds to the log and the screen of its dispatch loop: a complaint if a category was named and
    none was entered, the plan with the number of results, the summary, and the final line.
   */
  lemma SuiteEnds(l: Launch)
    requires |l.world.breaks| == |l.world.scripts| == N && l.Starts()
    ensures var d := DispatchFrom(OnInit(BLANK, l.version), EntriesFor(l.version), l.filter, l.world, 0);
            var c := FinalCounts(d);
            && Suite(l).log == d.log
                 + (if l.filter.category.Some? && !Enters(l.filter, l.world)
                    then [Comment("Unknown category: " + l.filter.category.value)] else [])
                 + [Plan(d.number)]
                 + [Results(c.passed, c.failed, c.known, c.skipped, d.number)]
            && Suite(l).shown
               == d.shown + [Final(c.passed, c.passed + c.failed + c.known, c.failed, c.known, c.skipped)]
            && Suite(l).bailed == d.bailed
  {
    hide DispatchFrom, OnInit, RanAny, EntriesFor, Cat, ShouldRun;
    RanAnyIff(l.filter, l.world, 0);
  }

  lemma FailedEnds(s: State, reason: string)
    requires s.number == 0 && s.global == ZERO
    ensures var t := Failed(s, reason);
            && t.log == s.log + [Plan(0), BailOut(reason), Results(0, 0, 0, 0, 0)]
            && t.shown == s.shown + [BailLine(reason), Final(0, 0, 0, 0, 0)]
            && t.bailed && ExitCode(t) == 20
  {
    hide CategoryScreen;
  }

  lemma Blank(version: Option<string>)
    ensures var s := OnInit(BLANK, version);
            |s.log| == 1 && s.log[0].Comment? && s.shown == [] && s.number == 0 && s.global == ZERO
  {}

  /** A run that does not start writes an empty plan and bails out with the first obstacle, and nothing but comments. */
  lemma FailedStart(l: Launch)
    requires |l.world.breaks| == |l.world.scripts| == N && !l.Starts()
    ensures var reason := if !l.libraryOpens then "bsdsocket.library not available"
                          else if !l.timerOpens then "timer.device not available"
                          else "Could not connect to host helper";
            var log := Suite(l).log;
            && |log| >= 4 && log[|log| - 3..] == [Plan(0), BailOut(reason), Results(0, 0, 0, 0, 0)]
            && (forall i :: 0 <= i < |log| - 3 ==> log[i].Comment?)
            && Suite(l).shown == [BailLine(reason), Final(0, 0, 0, 0, 0)]
            && Suite(l).bailed && ExitCode(Suite(l)) == 20
  {
    hide Failed, OnInit, DispatchFrom, RanAny, EntriesFor, ExitCode;
    Blank(None);
    Blank(l.version);
    FailedEnds(OnInit(BLANK, None), "bsdsocket.library not available");
    FailedEnds(OnInit(BLANK, l.version), "timer.device not available");
    FailedEnds(OnComment(OnInit(BLANK, l.version), "host"), "Could not connect to host helper");
  }

  lemma CountSuffix(log: seq<LogLine>, a: LogLine, b: LogLine, kind: TapLaws.Kind)
    ensures CountOf(log + [a] + [b], kind)
         == CountOf(log, kind) + (if Is(a, kind) then 1 else 0) + (if Is(b, kind) then 1 else 0)
  {
    CountLast(log, a, kind);
    CountLast(log + [a], b, kind);
  }

  lemma {:induction false} CommentsCountNothing(log: seq<LogLine>, kind: TapLaws.Kind)
    requires forall i :: 0 <= i < |log| ==> log[i].Comment?
    ensures CountOf(log, kind) == 0
  {
    if log == [] {
    } else {
      CommentsCountNothing(log[..|log| - 1], kind);
    }
  }

  /**
    Every run writes exactly one plan. If the program starts it is the last line before the summary and counts the
    results of the log; else it is empty, and the bail-out follows it.
   */
  lemma PlanLaw(l: Launch)
    requires Realistic(l.world)
    ensures var log := Suite(l).log;
            && CountOf(log, PlanLine) == 1 && CountOf(log, SummaryLine) == 1 && |log| >= 3
            && log[|log| - 1].Results?
            && (l.Starts() ==> log[|log| - 2] == Plan(CountOf(log, AnyResult)))
            && (!l.Starts() ==> log[|log| - 3] == Plan(0) && log[|log| - 2].BailOut? && CountOf(log, AnyResult) == 0)
  {
    hide Suite, DispatchFrom, OnInit, EntriesFor, CountOf, Enters, FinalCounts, Inv, Balanced;
    var log := Suite(l).log;
    if l.Starts() {
      SuiteEnds(l);
      PlanOfStarted(l);
    } else {
      FailedStart(l);
      var front := log[..|log| - 3];
      assert log == front + log[|log| - 3..];
      assert log == front + [log[|log| - 3]] + [log[|log| - 2]] + [log[|log| - 1]];
      PlanOfFailed(front, log[|log| - 2], log[|log| - 1]);
    }
  }

  lemma PlanOfFailed(front: seq<LogLine>, bail: LogLine, summary: LogLine)
    requires (forall i :: 0 <= i < |front| ==> front[i].Comment?) && bail.BailOut? && summary.Results?
    ensures var log := front + [Plan(0)] + [bail] + [summary];
            CountOf(log, PlanLine) == 1 && CountOf(log, SummaryLine) == 1 && CountOf(log, AnyResult) == 0
  {
    hide CountOf;
    forall k: TapLaws.Kind
      ensures CountOf(front + [Plan(0)] + [bail] + [summary], k)
           == (if Is(Plan(0), k) then 1 else 0) + (if Is(bail, k) then 1 else 0) + (if Is(summary, k) then 1 else 0)
    {
      CommentsCountNothing(front, k);
      CountLast(front, Plan(0), k);
      CountSuffix(front + [Plan(0)], bail, summary, k);
    }
  }

  lemma PlanOfStarted(l: Launch)
    requires Realistic(l.world) && l.Starts()
    ensures var log := Suite(l).log;
            && CountOf(log, PlanLine) == 1 && CountOf(log, SummaryLine) == 1
            && |log| >= 3 && log[|log| - 2] == Plan(CountOf(log, AnyResult))
  {
    hide Suite, DispatchFrom, OnInit, EntriesFor, CountOf, Enters, FinalCounts, Inv, Balanced;
    var s, entries := OnInit(BLANK, l.version), EntriesFor(l.version);
    var d := DispatchFrom(s, entries, l.filter, l.world, 0);
    FreshStart(l.version, entries, l.filter);
    DispatchKeeps(s, entries, l.filter, l.world, 0);
    NumberIsCount(d, entries);
    StartPlain(l.version);
    DispatchPlain(s, entries, l.filter, l.world, 0);
    DispatchExtends(s, entries, l.filter, l.world, 0);
    SomethingLogged(l.version);
    SuiteEnds(l);
    var c := FinalCounts(d);
    var results := Results(c.passed, c.failed, c.known, c.skipped, d.number);
    var complaint := if l.filter.category.Some? && !Enters(l.filter, l.world)
                     then [Comment("Unknown category: " + l.filter.category.value)] else [];
    PlanCounts(d.log, complaint, Plan(d.number), results);
    assert |d.log + complaint| >= 1;
  }

  lemma PlanCounts(log: seq<LogLine>, complaint: seq<LogLine>, plan: LogLine, summary: LogLine)
    requires CountOf(log, PlanLine) == 0 && CountOf(log, SummaryLine) == 0 && plan.Plan? && summary.Results?
    requires |complaint| <= 1 && forall i :: 0 <= i < |complaint| ==> complaint[i].Comment?
    ensures var longer := log + complaint + [plan] + [summary];
            && CountOf(longer, PlanLine) == 1 && CountOf(longer, SummaryLine) == 1
            && CountOf(longer, AnyResult) == CountOf(log, AnyResult)
            && longer[|longer| - 2] == plan && longer[|longer| - 1] == summary
  {
    hide CountOf;
    forall k: TapLaws.Kind ensures CountOf(log + complaint, k) == CountOf(log, k) {
      if complaint == [] {
        assert log + complaint == log;
      } else {
        assert complaint == [complaint[0]];
        CountLast(log, complaint[0], k);
      }
    }
    CountSuffix(log + complaint, plan, summary, PlanLine);
    CountSuffix(log + complaint, plan, summary, SummaryLine);
    CountSuffix(log + complaint, plan, summary, AnyResult);
  }

  lemma NumberIsCount(s: State, entries: seq<Entry>)
    requires Inv(s, entries)
    ensures s.number == CountOf(s.log, AnyResult)
  {}

  lemma SomethingLogged(version: Option<string>)
    ensures |OnInit(BLANK, version).log| == 1
  {}

  /** The final line of the screen shows the figures of the summary in the log. */
  lemma FinishShows(s: State)
    ensures var t := OnFinish(s);
            && t.log != [] && t.log[|t.log| - 1].Results?
            && var r := t.log[|t.log| - 1];
               t.shown == s.shown + [Final(r.passed, r.passed + r.failed + r.known, r.failed, r.known, r.skipped)]
  {}

  lemma SuiteFinishes(l: Launch) returns (s: State)
    requires |l.world.breaks| == |l.world.scripts| == N
    ensures Suite(l) == OnFinish(s) && BailsShown(s) && forall x <- s.shown :: !x.Final?
  {
    hide DispatchFrom, OnInit, RanAny, EntriesFor, OnFinish, Plain, BailsShown;
    StartPlain(None);
    StartPlain(l.version);
    var start := OnInit(BLANK, l.version);
    if !l.libraryOpens {
      s := FailedShows(OnInit(BLANK, None), "bsdsocket.library not available");
    } else if !l.timerOpens {
      s := FailedShows(start, "timer.device not available");
    } else if l.hostGiven && !l.helperConnects {
      PerformPlain(start, [], CallComment("host"));
      s := FailedShows(OnComment(start, "host"), "Could not connect to host helper");
    } else {
      var entries := EntriesFor(l.version);
      DispatchPlain(start, entries, l.filter, l.world, 0);
      s := ConcludedShows(DispatchFrom(start, entries, l.filter, l.world, 0), l.filter, RanAny(l.filter, l.world, 0));
    }
  }

  lemma FailedShows(s: State, reason: string) returns (t: State)
    requires Plain(s)
    ensures Failed(s, reason) == OnFinish(t) && BailsShown(t) && forall x <- t.shown :: !x.Final?
  {
    t := OnBail(OnPlan(s, 0), reason);
  }

  lemma ConcludedShows(s: State, f: Filter, ranAny: bool) returns (t: State)
    requires Plain(s)
    ensures t == Concluded(s, f, ranAny) && BailsShown(t) && forall x <- t.shown :: !x.Final?
  {
    t := Concluded(s, f, ranAny);
  }

  /**
    On every run the screen ends in its only final line: the unexpected failures, the known ones and the skips that the
    log holds; the passes, skips among them after a bail-out; and the tests that ran. It shows every bail-out of the
    log, and no other.
   */
  lemma ScreenLaw(l: Launch)
    requires Realistic(l.world)
    ensures var t := Suite(l);
            && t.shown != [] && t.shown[|t.shown| - 1].Final?
            && (forall i :: 0 <= i < |t.shown| - 1 ==> !t.shown[i].Final?)
            && var last := t.shown[|t.shown| - 1];
               && last.failed == CountOf(t.log, Unexpected)
               && last.known == CountOf(t.log, KnownFailing)
               && last.skipped == CountOf(t.log, Skip)
               && last.passed == CountOf(t.log, if t.bailed then Passing else CleanPass)
               && last.ran == last.passed + last.failed + last.known
    ensures forall r: string :: BailOut(r) in Suite(l).log <==> BailLine(r) in Suite(l).shown
  {
    hide Suite, CountOf, OnFinish, Inv, Numbered, Plain;
    var t := Suite(l);
    SuiteLaws(l);
    var s := SuiteFinishes(l);
    FinishShows(s);
    FinishKeepsBails(s);
    var front, line := t.log[..|t.log| - 1], t.log[|t.log| - 1];
    assert t.log == front + [line];
    AllCountsLast(front, line);
  }

  lemma FinishKeepsBails(s: State)
    requires BailsShown(s)
    ensures BailsShown(OnFinish(s))
  {}
}
