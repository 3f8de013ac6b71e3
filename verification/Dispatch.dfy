/**
  The main program: which categories run, in which order, what a break does, and what is called on the TAP engine. A
  test category is known here by the calls it makes: any script that keeps to its number of tests.
 */
module Dispatch {
  import opened Machine
  import opened KnownFailures
  import opened Pager
  import opened Tap
  import opened TapLaws

  // ---- Categories and filters ----

  datatype Category = Category(name: string, tests: nat, loopback: bool, network: bool, description: string)

  const CATEGORIES: seq<Category> := [
    Category("socket", 23, true, false, "Core socket lifecycle: create, bind, listen, connect, accept, close"),
    Category("sendrecv", 19, true, true, "Data transfer: send, recv, sendto, recvfrom, sendmsg, recvmsg"),
    Category("sockopt", 15, true, false, "Socket options: getsockopt, setsockopt, IoctlSocket"),
    Category("waitselect", 15, true, false, "Async I/O: WaitSelect readiness, timeout, signal integration"),
    Category("signals", 15, true, false, "Signals and events: SetSocketSignals, SocketBaseTags, GetSocketEvents"),
    Category("dns", 17, true, true, "Name resolution: gethostbyname/addr, getservby*, getprotoby*"),
    Category("utility", 10, true, false, "Address utilities: Inet_NtoA, inet_addr, Inet_LnaOf, Inet_NetOf"),
    Category("transfer", 5, true, false, "Descriptor transfer: Dup2Socket, ObtainSocket, ReleaseSocket"),
    Category("errno", 7, true, false, "Error handling: Errno, SetErrnoPtr, SocketBaseTags errno pointers"),
    Category("misc", 5, true, false, "Miscellaneous: getdtablesize, syslog, resource limits"),
    Category("icmp", 5, true, true, "ICMP echo: raw socket ping, RTT measurement"),
    Category("throughput", 6, true, true, "Throughput benchmarks: TCP/UDP loopback and network transfer")
  ]

  const N: nat := 12

  function Cat(k: nat): Category
    requires k < N
  {
    CATEGORIES[k]
  }

  datatype Tier = AnyTier | LoopbackTier | NetworkTier

  datatype Filter = Filter(category: Option<string>, tier: Tier)

  function Lower(s: string): string {
    seq(|s|, i requires 0 <= i < |s| => if 'A' <= s[i] <= 'Z' then s[i] + 32 as char else s[i])
  }

  /** A named category overrides the tier and is compared without regard to case. */
  predicate ShouldRun(c: Category, f: Filter) {
    if f.category.Some? then Lower(c.name) == Lower(f.category.value)
    else
      match f.tier
      case AnyTier => true
      case LoopbackTier => c.loopback
      case NetworkTier => c.network
  }

  predicate SelectsAll(f: Filter) {
    f.category.None? && !f.tier.NetworkTier?
  }

  /** The number, in the documentation's order, of a category's first test. */
  function FirstTest(k: nat): nat
    requires k <= N
  {
    if k == 0 then 1 else FirstTest(k - 1) + Cat(k - 1).tests
  }

  /** How many tests before category k the filter leaves out. */
  function LeftOut(f: Filter, k: nat): nat
    requires k <= N
  {
    if k == 0 then 0
    else LeftOut(f, k - 1) + if ShouldRun(Cat(k - 1), f) then 0 else Cat(k - 1).tests
  }

  // ---- Scripts ----

  datatype Outcome = Finished(passed: bool) | CannotRun(reason: string)

  /**
    What a test category does next. Guarded is a test that asks known_crash for its own fixed number first, and is
    failed without being run if it would crash. Interrupted is a Ctrl-C noticed between tests.
   */
  datatype Action =
    | Check(passed: bool, description: string)
    | Omit(reason: string)
    | Diag(text: string)
    | Note(text: string)
    | Guarded(number: int, description: string, otherwise: Outcome)
    | Interrupted

  predicate Crashes(a: Action, entries: seq<Entry>) {
    a.Guarded? && Lookup(entries, a.number, Some(Crash)).Some?
  }

  function CallsOf(a: Action, entries: seq<Entry>): seq<Call> {
    match a
    case Check(passed, description) => [CallOk(passed, description)]
    case Omit(reason) => [CallSkip(reason)]
    case Diag(text) => [CallComment(text)]
    case Note(text) => [CallNote(text)]
    case Interrupted => [CallBail("Interrupted by Ctrl-C")]
    case Guarded(number, description, otherwise) =>
      if Crashes(a, entries) then [CallOk(false, description), CallComment("not exercised")]
      else
        match otherwise
        case Finished(passed) => [CallOk(passed, description)]
        case CannotRun(reason) => [CallSkip(reason)]
  }

  function Act(s: State, entries: seq<Entry>, a: Action): State {
    PerformAll(s, entries, CallsOf(a, entries))
  }

  function ActAll(s: State, entries: seq<Entry>, script: seq<Action>): State {
    if script == [] then s
    else Act(ActAll(s, entries, script[..|script| - 1]), entries, script[|script| - 1])
  }

  predicate IsTest(a: Action) {
    a.Check? || a.Omit? || a.Guarded?
  }

  /** The line a test leaves in the log under the number n. */
  function ResultLine(a: Action, n: int, entries: seq<Entry>): LogLine
    requires IsTest(a)
  {
    var known := Lookup(entries, n, None);
    match a
    case Check(passed, description) => if passed then Ok(n, description, known) else NotOk(n, description, known)
    case Omit(reason) => Skipped(n, reason)
    case Guarded(_, description, otherwise) =>
      if Crashes(a, entries) then NotOk(n, description, known)
      else
        match otherwise
        case Finished(passed) => if passed then Ok(n, description, known) else NotOk(n, description, known)
        case CannotRun(reason) => Skipped(n, reason)
  }

  function Tests(script: seq<Action>): nat {
    if script == [] then 0 else Tests(script[..|script| - 1]) + if IsTest(script[|script| - 1]) then 1 else 0
  }

  /**
    A category keeps to its fixed list of tests: each guarded test stands at the place its number says, and all
    tests are reported unless an interruption, the last thing to happen, cuts the list short.
   */
  ghost predicate Conforms(script: seq<Action>, first: int, tests: nat) {
    && (forall i :: 0 <= i < |script| && script[i].Guarded? ==> script[i].number == first + Tests(script[..i]))
    && (forall i :: 0 <= i < |script| - 1 ==> !script[i].Interrupted?)
    && (if Cut(script) then Tests(script) <= tests else Tests(script) == tests)
  }

  predicate Cut(script: seq<Action>) {
    script != [] && script[|script| - 1].Interrupted?
  }

  // ---- The run ----

  /** What the categories do, and whether a break is pending as the dispatcher comes to each of them. */
  datatype World = World(breaks: seq<bool>, scripts: seq<seq<Action>>)

  ghost predicate Realistic(w: World) {
    && |w.breaks| == |w.scripts| == N
    && forall k :: 0 <= k < N ==> Conforms(w.scripts[k], FirstTest(k), Cat(k).tests)
  }

  function Entered(s: State, k: nat): State
    requires k < N
  {
    OnComment(OnBegin(s, Cat(k).name), Cat(k).description)
  }

  /** The dispatch loop from category k on. */
  function DispatchFrom(s: State, entries: seq<Entry>, f: Filter, w: World, k: nat): State
    requires |w.breaks| == |w.scripts| == N
    decreases N - k
  {
    if k >= N then s
    else if w.breaks[k] then OnBail(s, "Interrupted by Ctrl-C")
    else if !ShouldRun(Cat(k), f) then DispatchFrom(s, entries, f, w, k + 1)
    else
      var t := ActAll(Entered(s, k), entries, w.scripts[k]);
      if t.bailed then t else DispatchFrom(OnEnd(t), entries, f, w, k + 1)
  }

  lemma PerformOne(s: State, entries: seq<Entry>, c: Call)
    ensures PerformAll(s, entries, [c]) == Perform(s, entries, c)
  {
    assert [c][1..] == [];
  }

  // ---- The page, and breaks at its prompt ----

  /** What a call prints moves the page; single results are printed in verbose mode only. */
  function PageAfter(p: Page, verbose: bool, s: State, c: Call): Page {
    match c
    case CallOk(_, description) =>
      if verbose then Advanced(p, VerboseRows(p.width, s.number + 1, 9, description)) else p
    case CallSkip(reason) => if verbose then Advanced(p, VerboseRows(p.width, s.number + 1, 8, reason)) else p
    case CallEnd => Run(p, CategoryRows(s, p.width)).page
    case CallBail(_) => Advanced(p, 1)
    case _ => p
  }

  function PageAfterAll(p: Page, verbose: bool, s: State, entries: seq<Entry>, calls: seq<Call>): Page
    decreases |calls|
  {
    if calls == [] then p
    else PageAfterAll(PageAfter(p, verbose, s, calls[0]), verbose, Perform(s, entries, calls[0]), entries, calls[1..])
  }

  function PageAfterScript(p: Page, verbose: bool, s: State, entries: seq<Entry>, script: seq<Action>): Page {
    if script == [] then p
    else
      var front := script[..|script| - 1];
      PageAfterAll(PageAfterScript(p, verbose, s, entries, front), verbose, ActAll(s, entries, front), entries,
                   CallsOf(script[|script| - 1], entries))
  }

  /** The page when category k, entered in state s, has been summed up. */
  function PageAfterCategory(p: Page, verbose: bool, s: State, entries: seq<Entry>, k: nat, script: seq<Action>): Page
    requires k < N
  {
    var q := PageAfterScript(p, verbose, Entered(s, k), entries, script);
    PageAfter(q, verbose, ActAll(Entered(s, k), entries, script), CallEnd)
  }

  /**
    What the dispatcher sees as it comes to category k and the later ones: a break is pending when one was signalled
    from outside, as `w.breaks` says, or by Ctrl-C at the prompt of a full page. After a break it looks no more.
   */
  function Polls(s: State, p: Page, verbose: bool, entries: seq<Entry>, f: Filter, w: World, k: nat)
      : (breaks: seq<bool>)
    requires |w.breaks| == |w.scripts| == N && k <= N
    ensures |breaks| == N - k
    decreases N - k
  {
    if k == N then []
    else if w.breaks[k] || p.interrupted then [true] + w.breaks[k + 1..]
    else if !ShouldRun(Cat(k), f) then [false] + Polls(s, p, verbose, entries, f, w, k + 1)
    else
      var t := ActAll(Entered(s, k), entries, w.scripts[k]);
      [false] +
      if t.bailed then w.breaks[k + 1..]
      else Polls(OnEnd(t), PageAfterCategory(p, verbose, s, entries, k, w.scripts[k]), verbose, entries, f, w, k + 1)
  }

  // ---- The whole program ----

  /** The outcome of starting up, and the world in which the categories run. */
  datatype Launch = Launch(
    version: Option<string>, libraryOpens: bool, timerOpens: bool, hostGiven: bool, helperConnects: bool,
    nil: bool, logOpens: bool, filter: Filter, world: World)
  {
    /** Nothing keeps the program from dispatching. */
    predicate Starts() {
      libraryOpens && timerOpens && (hostGiven ==> helperConnects)
    }
  }

  function EntriesFor(version: Option<string>): seq<Entry> {
    var p := Selected(version);
    if p.None? then [] else p.value.entries
  }

  /** A start-up failure: an empty plan and a bail-out. */
  function Failed(s: State, reason: string): State {
    OnFinish(OnBail(OnPlan(s, 0), reason))
  }

  /** Whether the dispatch loop, from category k on, enters any category. */
  predicate RanAny(f: Filter, w: World, k: nat)
    requires |w.breaks| == |w.scripts| == N
    decreases N - k
  {
    k < N && !w.breaks[k] && (ShouldRun(Cat(k), f) || RanAny(f, w, k + 1))
  }

  /** The state after the dispatch loop, the complaint about an unknown category, and the trailing plan. */
  function Concluded(s: State, f: Filter, ranAny: bool): State {
    var t := if !ranAny && f.category.Some? then OnComment(s, "Unknown category: " + f.category.value) else s;
    OnPlan(t, t.number)
  }

  function Suite(l: Launch): State
    requires |l.world.breaks| == |l.world.scripts| == N
  {
    if !l.libraryOpens then Failed(OnInit(BLANK, None), "bsdsocket.library not available")
    else
      var s := OnInit(BLANK, l.version);
      if !l.timerOpens then Failed(s, "timer.device not available")
      else if l.hostGiven && !l.helperConnects then
        Failed(OnComment(s, "host"), "Could not connect to host helper")
      else
        OnFinish(Concluded(DispatchFrom(s, EntriesFor(l.version), l.filter, l.world, 0), l.filter,
                           RanAny(l.filter, l.world, 0)))
  }

  /** The launch with the breaks that the dispatcher sees when the run starts on page p. */
  function Polled(l: Launch, p: Page, verbose: bool): Launch
    requires |l.world.breaks| == |l.world.scripts| == N
  {
    var page := Run(p, HeaderRows(l.nil, l.logOpens)).page;
    l.(world := World(Polls(OnInit(BLANK, l.version), page, verbose, EntriesFor(l.version), l.filter, l.world, 0),
                      l.world.scripts))
  }

  // ---- The code ----

  lemma PageAfterOne(p: Page, verbose: bool, s: State, entries: seq<Entry>, c: Call)
    ensures PageAfterAll(p, verbose, s, entries, [c]) == PageAfter(p, verbose, s, c)
  {
    assert [c][1..] == [];
  }

  /** A result and its comment. */
  lemma TwoCalls(p: Page, verbose: bool, s: State, entries: seq<Entry>, a: Call, b: Call)
    ensures PerformAll(s, entries, [a, b]) == Perform(Perform(s, entries, a), entries, b)
    ensures PageAfterAll(p, verbose, s, entries, [a, b])
         == PageAfter(PageAfter(p, verbose, s, a), verbose, Perform(s, entries, a), b)
  {
    hide Perform, PageAfter;
    assert [a, b][1..] == [b];
    PerformOne(Perform(s, entries, a), entries, b);
    PageAfterOne(PageAfter(p, verbose, s, a), verbose, Perform(s, entries, a), entries, b);
  }

  /** One step of a category, on the engine. */
  method PerformAction(engine: Engine, a: Action)
    requires engine.Valid()
    modifies engine, engine.catFailures, engine.catNotes, engine.pager
    ensures engine.Valid() && engine.verbose == old(engine.verbose)
    ensures engine.Current() == Act(old(engine.Current()), engine.known.Entries(), a)
    ensures engine.pager.State() == PageAfterAll(old(engine.pager.State()), engine.verbose, old(engine.Current()),
                                                 engine.known.Entries(), CallsOf(a, engine.known.Entries()))
  {
    hide PerformAll, PageAfterAll, OnOk, OnSkip, OnNote, OnBail, Lookup, Advanced, VerboseRows;
    if !a.Guarded? {
      OneCall(engine, a);
    } else {
      var cr := engine.known.KnownCrash(a.number);
      if cr.Some? {
        ghost var s, p := engine.Current(), engine.pager.State();
        TwoCalls(p, engine.verbose, s, engine.known.Entries(),
                 CallOk(false, a.description), CallComment("not exercised"));
        engine.TapOk(false, a.description);
        engine.TapDiag("not exercised");
      } else {
        match a.otherwise
        case Finished(passed) => OneCall(engine, Check(passed, a.description));
        case CannotRun(reason) => OneCall(engine, Omit(reason));
      }
    }
  }

  method OneCall(engine: Engine, a: Action)
    requires engine.Valid() && !a.Guarded?
    modifies engine, engine.catFailures, engine.catNotes, engine.pager
    ensures engine.Valid() && engine.verbose == old(engine.verbose)
    ensures engine.Current()
         == PerformAll(old(engine.Current()), engine.known.Entries(), CallsOf(a, engine.known.Entries()))
    ensures engine.pager.State() == PageAfterAll(old(engine.pager.State()), engine.verbose, old(engine.Current()),
                                                 engine.known.Entries(), CallsOf(a, engine.known.Entries()))
  {
    hide PerformAll, PageAfterAll, OnOk, OnSkip, OnNote, OnBail, Lookup, Advanced, VerboseRows;
    ghost var entries := engine.known.Entries();
    PerformOne(engine.Current(), entries, CallsOf(a, entries)[0]);
    PageAfterOne(engine.pager.State(), engine.verbose, engine.Current(), entries, CallsOf(a, entries)[0]);
    match a
    case Check(passed, description) => engine.TapOk(passed, description);
    case Omit(reason) => engine.TapSkip(reason);
    case Diag(text) => engine.TapDiag(text);
    case Note(text) => engine.TapNote(text);
    case Interrupted => engine.TapBail("Interrupted by Ctrl-C");
  }

  method RunScript(engine: Engine, script: seq<Action>)
    requires engine.Valid()
    modifies engine, engine.catFailures, engine.catNotes, engine.pager
    ensures engine.Valid() && engine.verbose == old(engine.verbose)
    ensures engine.Current() == ActAll(old(engine.Current()), engine.known.Entries(), script)
    ensures engine.pager.State() == PageAfterScript(old(engine.pager.State()), engine.verbose, old(engine.Current()),
                                                    engine.known.Entries(), script)
  {
    hide Act, PageAfterAll;
    ghost var s, p, entries := engine.Current(), engine.pager.State(), engine.known.Entries();
    for i := 0 to |script|
      invariant engine.Valid() && engine.known.Entries() == entries && engine.verbose == old(engine.verbose)
      invariant engine.Current() == ActAll(s, entries, script[..i])
      invariant engine.pager.State() == PageAfterScript(p, engine.verbose, s, entries, script[..i])
    {
      assert script[..i + 1][..i] == script[..i];
      PerformAction(engine, script[i]);
    }
    assert script[..|script|] == script;
  }

  method RunCategory(engine: Engine, k: nat, script: seq<Action>)
    requires engine.Valid() && k < N
    modifies engine, engine.catFailures, engine.catNotes, engine.pager
    ensures engine.Valid() && engine.verbose == old(engine.verbose)
    ensures engine.Current() == ActAll(Entered(old(engine.Current()), k), engine.known.Entries(), script)
    ensures engine.pager.State() == PageAfterScript(old(engine.pager.State()), engine.verbose,
                                                    Entered(old(engine.Current()), k), engine.known.Entries(), script)
  {
    hide ActAll, PageAfterScript, Cat;
    engine.TapBeginCategory(Cat(k).name);
    engine.TapDiag(Cat(k).description);
    RunScript(engine, script);
  }

  /** The loop over the category table; w.breaks are the breaks signalled from outside. */
  method DispatchCategories(engine: Engine, f: Filter, w: World) returns (ranAny: bool)
    requires engine.Valid() && |w.breaks| == |w.scripts| == N
    modifies engine, engine.catFailures, engine.catNotes, engine.pager
    ensures engine.Valid()
    ensures var s, entries := old(engine.Current()), engine.known.Entries();
            var seen := World(Polls(s, old(engine.pager.State()), old(engine.verbose), entries, f, w, 0), w.scripts);
            engine.Current() == DispatchFrom(s, entries, f, seen, 0) && ranAny == RanAny(f, seen, 0)
  {
    hide DispatchFrom, Polls, RanAny, ActAll, PageAfterScript, Entered, OnEnd, OnBail, ShouldRun, Cat, Advanced, Run,
         CategoryRows;
    ghost var s, entries := engine.Current(), engine.known.Entries();
    ghost var seen := World(Polls(s, engine.pager.State(), engine.verbose, entries, f, w, 0), w.scripts);
    ranAny := false;
    var k := 0;
    while k < N
      invariant 0 <= k <= N && engine.Valid() && engine.known.Entries() == entries
      invariant seen.breaks[k..] == Polls(engine.Current(), engine.pager.State(), engine.verbose, entries, f, w, k)
      invariant DispatchFrom(engine.Current(), entries, f, seen, k) == DispatchFrom(s, entries, f, seen, 0)
      invariant (ranAny || RanAny(f, seen, k)) == RanAny(f, seen, 0)
    {
      OneRound(engine.Current(), engine.pager.State(), engine.verbose, entries, f, w, seen, k);
      if w.breaks[k] || engine.pager.interrupted {
        engine.TapBail("Interrupted by Ctrl-C");
        break;
      }
      if ShouldRun(Cat(k), f) {
        ranAny := true;
        RunCategory(engine, k, w.scripts[k]);
        if engine.bailedOut {
          break;
        }
        engine.TapEndCategory();
      }
      k := k + 1;
    }
    NoMoreRounds(engine.Current(), entries, f, seen);
  }

  lemma NoMoreRounds(s: State, entries: seq<Entry>, f: Filter, w: World)
    requires |w.breaks| == |w.scripts| == N
    ensures DispatchFrom(s, entries, f, w, N) == s && !RanAny(f, w, N)
  {}

  /** What the dispatcher does with category k and the breaks it sees. */
  lemma OneRound(s: State, p: Page, verbose: bool, entries: seq<Entry>, f: Filter, w: World, seen: World, k: nat)
    requires |w.breaks| == |seen.breaks| == |w.scripts| == N && seen.scripts == w.scripts && k < N
    requires seen.breaks[k..] == Polls(s, p, verbose, entries, f, w, k)
    ensures seen.breaks[k] == (w.breaks[k] || p.interrupted)
    ensures seen.breaks[k] ==>
              DispatchFrom(s, entries, f, seen, k) == OnBail(s, "Interrupted by Ctrl-C") && !RanAny(f, seen, k)
    ensures !seen.breaks[k] && !ShouldRun(Cat(k), f) ==>
              && seen.breaks[k + 1..] == Polls(s, p, verbose, entries, f, w, k + 1)
              && DispatchFrom(s, entries, f, seen, k) == DispatchFrom(s, entries, f, seen, k + 1)
              && RanAny(f, seen, k) == RanAny(f, seen, k + 1)
    ensures !seen.breaks[k] && ShouldRun(Cat(k), f) ==>
              var t := ActAll(Entered(s, k), entries, w.scripts[k]);
              var q := PageAfterCategory(p, verbose, s, entries, k, w.scripts[k]);
              && RanAny(f, seen, k)
              && (if t.bailed then DispatchFrom(s, entries, f, seen, k) == t
                  else && seen.breaks[k + 1..] == Polls(OnEnd(t), q, verbose, entries, f, w, k + 1)
                       && DispatchFrom(s, entries, f, seen, k) == DispatchFrom(OnEnd(t), entries, f, seen, k + 1))
  {
    hide ActAll, Entered, OnEnd, OnBail, ShouldRun, Cat, PageAfterCategory;
    assert seen.breaks[k] == seen.breaks[k..][0] && seen.breaks[k + 1..] == seen.breaks[k..][1..];
  }

  /** A start-up failure ends the run at once. */
  method GiveUp(engine: Engine, reason: string) returns (code: int)
    requires engine.Valid()
    modifies engine, engine.pager
    ensures engine.Valid() && engine.Current() == Failed(old(engine.Current()), reason)
    ensures code == ExitCode(engine.Current())
  {
    hide OnPlan, OnBail, OnFinish;
    engine.TapPlan(0);
    engine.TapBail(reason);
    ExitCodeStays(engine.Current());
    code := engine.TapFinish();
  }

  lemma ExitCodeStays(s: State)
    ensures ExitCode(OnFinish(s)) == ExitCode(s)
  {}

  /** main, from opening the library to the exit code. */
  method RunSuite(engine: Engine, l: Launch) returns (code: int)
    requires engine.Valid() && engine.Current() == BLANK && engine.known.active == None
    requires |l.world.breaks| == |l.world.scripts| == N
    modifies engine, engine.catFailures, engine.catNotes, engine.pager, engine.known
    ensures var seen := Polled(l, old(engine.pager.State()), old(engine.verbose));
            engine.Valid() && engine.Current() == Suite(seen) && code == ExitCode(Suite(seen))
  {
    hide DispatchFrom, Polls, RanAny, Selected, Failed, OnInit, OnFinish, Advanced, CategoryRows, Run;
    if !l.libraryOpens {
      engine.TapInit(None, l.nil, l.logOpens);
      code := GiveUp(engine, "bsdsocket.library not available");
      return;
    }
    engine.TapInit(l.version, l.nil, l.logOpens);
    if !l.timerOpens {
      code := GiveUp(engine, "timer.device not available");
      return;
    }
    engine.known.KnownInit(l.version);
    if l.hostGiven && !l.helperConnects {
      engine.TapDiag("host");
      code := GiveUp(engine, "Could not connect to host helper");
      return;
    }
    var ranAny := DispatchCategories(engine, l.filter, l.world);
    code := Conclude(engine, l.filter, ranAny);
  }

  /** What is left to do after the dispatch loop. */
  method Conclude(engine: Engine, f: Filter, ranAny: bool) returns (code: int)
    requires engine.Valid()
    modifies engine, engine.pager
    ensures engine.Valid() && engine.Current() == OnFinish(Concluded(old(engine.Current()), f, ranAny))
    ensures code == ExitCode(engine.Current())
  {
    hide OnFinish;
    if !ranAny && f.category.Some? {
      engine.TapDiag("Unknown category: " + f.category.value);
    }
    engine.TapPlan(engine.testNumber);
    ExitCodeStays(engine.Current());
    code := engine.TapFinish();
  }
}
