/** run_icmp_tests: which of its five results it reports on which outcomes of the environment. */
module IcmpCategory {
  import opened Machine
  import opened Timer
  import opened Dispatch
  import IcmpPing

  /** Everything the category asks of its environment: the results of icmp_ping, and Ctrl-C as it is polled. */
  datatype IcmpWorld = IcmpWorld(
    rawSockets: bool, helperConnected: bool, breaks: seq<bool>,
    loopback: int, network: int, large: int, multi: seq<int>, unreachable: int)

  const FIRST: int := 132
  const TESTS: nat := 5

  function Positive(rtts: seq<int>): nat {
    if rtts == [] then 0 else Positive(rtts[..|rtts| - 1]) + if rtts[|rtts| - 1] > 0 then 1 else 0
  }

  /** What each of the five tests reports, by the category's rules alone. */
  function Verdict(w: IcmpWorld, j: nat): Action
    requires j < TESTS
  {
    if !w.rawSockets then Omit("SOCK_RAW/ICMP not supported")
    else if 1 <= j <= 3 && !w.helperConnected then Omit("host helper not connected")
    else
      match j
      case 0 => Check(w.loopback > 0, "ICMP echo: loopback 127.0.0.1 [RFC 792]")
      case 1 => Check(w.network > 0, "ICMP echo: network host [RFC 792]")
      case 2 => Check(w.large > 0, "ICMP echo: 1024-byte payload [RFC 792]")
      case 3 => Check(Positive(w.multi) >= 4, "ICMP echo: multiple pings reliability [RFC 792]")
      case _ => Check(w.unreachable <= 0, "ICMP echo: timeout on unreachable host [RFC 792]")
  }

  function Verdicts(w: IcmpWorld, n: nat): seq<Action>
    requires n <= TESTS
  {
    seq(n, j requires 0 <= j < n => Verdict(w, j))
  }

  /** The results among the actions of a script. */
  function OnlyTests(script: seq<Action>): seq<Action> {
    if script == [] then []
    else OnlyTests(script[..|script| - 1]) + if IsTest(script[|script| - 1]) then [script[|script| - 1]] else []
  }

  /** A script under way: it has reported the first n verdicts and was not interrupted. */
  ghost predicate Reported(script: seq<Action>, w: IcmpWorld, n: nat)
    requires n <= TESTS
  {
    && OnlyTests(script) == Verdicts(w, n) && Tests(script) == n
    && forall a <- script :: !a.Interrupted? && !a.Guarded?
  }

  lemma ReportOne(script: seq<Action>, w: IcmpWorld, n: nat)
    requires n < TESTS && Reported(script, w, n)
    ensures Reported(script + [Verdict(w, n)], w, n + 1)
  {
    assert (script + [Verdict(w, n)])[..|script|] == script;
  }

  lemma SayOne(script: seq<Action>, w: IcmpWorld, n: nat, a: Action)
    requires n <= TESTS && Reported(script, w, n) && (a.Diag? || a.Note?)
    ensures Reported(script + [a], w, n)
  {
    assert (script + [a])[..|script|] == script;
  }

  /** A break was seen by CHECK_CTRLC i, and by none before it. */
  predicate FirstBreak(w: IcmpWorld, i: nat) {
    Break(w, i) && forall j :: 0 <= j < i ==> !Break(w, j)
  }

  /** CHECK_CTRLC i sees a break signalled. */
  predicate Break(w: IcmpWorld, i: nat) {
    i < |w.breaks| && w.breaks[i]
  }

  /** The script was interrupted by CHECK_CTRLC i, after i + 1 verdicts or, the fifth time it looks, still four. */
  ghost predicate CutAt(script: seq<Action>, w: IcmpWorld, i: nat) {
    Cut(script) && FirstBreak(w, i) && OnlyTests(script) == Verdicts(w, if i < 4 then i + 1 else 4)
  }

  lemma CutShort(script: seq<Action>, w: IcmpWorld, i: nat, n: nat)
    requires n == (if i < 4 then i + 1 else 4) && Reported(script, w, n) && FirstBreak(w, i)
    ensures Conforms(script + [Interrupted], FIRST, TESTS) && CutAt(script + [Interrupted], w, i)
  {
    var s := script + [Interrupted];
    assert s[..|script|] == script;
    assert forall k :: 0 <= k < |script| ==> s[k] == script[k] && script[k] in script;
  }

  lemma AllReported(script: seq<Action>, w: IcmpWorld)
    requires Reported(script, w, TESTS)
    ensures Conforms(script, FIRST, TESTS) && !Cut(script) && OnlyTests(script) == Verdicts(w, TESTS)
  {
    assert forall i :: 0 <= i < |script| ==> script[i] in script;
  }

  /**
    The five tests, with polls for Ctrl-C between them: five polls if raw sockets can be opened and the helper is not
    connected, else four. The script is interrupted exactly if one of these polls sees a break. The first one that does
    decides how many verdicts have been reported: one more than its number, but four at the fifth poll, which directly
    follows the fourth. Without a break all five verdicts are reported, in order.
   */
  method RunIcmpTests(w: IcmpWorld) returns (script: seq<Action>)
    requires |w.multi| == 5
    ensures Conforms(script, FIRST, TESTS)
    ensures var polls := if w.rawSockets && !w.helperConnected then 5 else 4;
            && (Cut(script) <==> exists i: nat :: i < polls && Break(w, i))
            && (forall i: nat :: i < polls && FirstBreak(w, i) ==>
                  OnlyTests(script) == Verdicts(w, if i < 4 then i + 1 else 4))
            && (!Cut(script) ==> OnlyTests(script) == Verdicts(w, 5))
  {
    hide OnlyTests, Verdict, Verdicts, Tests, Conforms;
    script := [];
    assert Reported(script, w, 0) by { NothingReported(w); }
    if !w.rawSockets {
      for i := 0 to 4
        invariant Reported(script, w, i) && forall j :: 0 <= j < i ==> !Break(w, j)
      {
        ReportOne(script, w, i);
        VerdictIs(w, i);
        script := script + [Omit("SOCK_RAW/ICMP not supported")];
        if Break(w, i) {
          CutShort(script, w, i, i + 1);
          return script + [Interrupted];
        }
      }
      ReportOne(script, w, 4);
      VerdictIs(w, 4);
      script := script + [Omit("SOCK_RAW/ICMP not supported")];
      AllReported(script, w);
      return;
    }
    ReportOne(script, w, 0);
    VerdictIs(w, 0);
    script := script + [Check(w.loopback > 0, "ICMP echo: loopback 127.0.0.1 [RFC 792]")];
    script := Say(script, w, 1, w.loopback > 0);
    if Break(w, 0) {
      CutShort(script, w, 0, 1);
      return script + [Interrupted];
    }
    var cut: bool;
    var polls := 4;
    if !w.helperConnected {
      script, cut := WithoutHelper(script, w);
    } else {
      script, cut := WithHelper(script, w);
      polls := 3;
    }
    if cut {
      return;
    }
    if Break(w, polls) {
      CutShort(script, w, polls, 4);
      return script + [Interrupted];
    }
    ReportOne(script, w, 4);
    VerdictIs(w, 4);
    script := script + [Check(w.unreachable <= 0, "ICMP echo: timeout on unreachable host [RFC 792]")];
    SayOne(script, w, 5, Diag("result"));
    script := script + [Diag("result")];
    AllReported(script, w);
  }

  lemma NothingReported(w: IcmpWorld)
    ensures Reported([], w, 0)
  {}

  /** The verdicts spelled out. */
  lemma VerdictIs(w: IcmpWorld, j: nat)
    requires j < TESTS
    ensures !w.rawSockets ==> Verdict(w, j) == Omit("SOCK_RAW/ICMP not supported")
    ensures w.rawSockets && j == 0 ==> Verdict(w, j) == Check(w.loopback > 0, "ICMP echo: loopback 127.0.0.1 [RFC 792]")
    ensures w.rawSockets && 1 <= j <= 3 && !w.helperConnected ==> Verdict(w, j) == Omit("host helper not connected")
    ensures w.rawSockets && j == 4 ==>
              Verdict(w, j) == Check(w.unreachable <= 0, "ICMP echo: timeout on unreachable host [RFC 792]")
  {}

  /** The diagnostic after a ping, and the note when it succeeded. */
  method Say(script: seq<Action>, w: IcmpWorld, n: nat, noted: bool) returns (longer: seq<Action>)
    requires n <= TESTS && Reported(script, w, n)
    ensures Reported(longer, w, n)
  {
    SayOne(script, w, n, Diag("result"));
    longer := script + [Diag("result")];
    if noted {
      SayOne(longer, w, n, Note("RTT"));
      longer := longer + [Note("RTT")];
    }
  }

  method WithoutHelper(before: seq<Action>, w: IcmpWorld) returns (script: seq<Action>, cut: bool)
    requires w.rawSockets && !w.helperConnected && Reported(before, w, 1) && !Break(w, 0)
    ensures cut <==> Break(w, 1) || Break(w, 2) || Break(w, 3)
    ensures if cut then Conforms(script, FIRST, TESTS) && exists i: nat :: 1 <= i <= 3 && CutAt(script, w, i)
            else Reported(script, w, 4)
  {
    hide OnlyTests, Verdict, Verdicts, Tests, Conforms;
    script := before;
    for i := 1 to 4
      invariant Reported(script, w, i) && forall j :: 0 <= j < i ==> !Break(w, j)
    {
      ReportOne(script, w, i);
      VerdictIs(w, i);
      script := script + [Omit("host helper not connected")];
      if Break(w, i) {
        CutShort(script, w, i, i + 1);
        return script + [Interrupted], true;
      }
    }
    cut := false;
  }

  method WithHelper(before: seq<Action>, w: IcmpWorld) returns (script: seq<Action>, cut: bool)
    requires w.rawSockets && w.helperConnected && |w.multi| == 5 && Reported(before, w, 1) && !Break(w, 0)
    ensures cut <==> Break(w, 1) || Break(w, 2)
    ensures if cut then Conforms(script, FIRST, TESTS) && exists i: nat :: 1 <= i <= 2 && CutAt(script, w, i)
            else Reported(script, w, 4)
  {
    hide OnlyTests, Verdicts, Tests, Conforms, Positive;
    ReportOne(before, w, 1);
    script := before + [Check(w.network > 0, "ICMP echo: network host [RFC 792]")];
    script := Say(script, w, 2, w.network > 0);
    if Break(w, 1) {
      CutShort(script, w, 1, 2);
      return script + [Interrupted], true;
    }
    ReportOne(script, w, 2);
    script := script + [Check(w.large > 0, "ICMP echo: 1024-byte payload [RFC 792]")];
    script := Say(script, w, 3, false);
    if Break(w, 2) {
      CutShort(script, w, 2, 3);
      return script + [Interrupted], true;
    }
    var success := CountReplies(w.multi);
    ReportOne(script, w, 3);
    script := script + [Check(success >= 4, "ICMP echo: multiple pings reliability [RFC 792]")];
    if success > 0 {
      script := Say(script, w, 4, false);
    }
    script := Say(script, w, 4, true);
    cut := false;
  }

  method CountReplies(rtts: seq<int>) returns (success: nat)
    ensures success == Positive(rtts)
  {
    success := 0;
    for i := 0 to |rtts|
      invariant success == Positive(rtts[..i])
    {
      assert rtts[..i + 1][..i] == rtts[..i];
      if rtts[i] > 0 {
        success := success + 1;
      }
    }
    assert rtts[..|rtts|] == rtts;
  }

  /** The category's place in the table. */
  lemma IcmpPlace()
    ensures Cat(10).name == "icmp" && FirstTest(10) == FIRST && Cat(10).tests == TESTS
  {
    assert FirstTest(5) == 88;
  }

  // ---- What the verdicts say about the network ----

  /** One ping as its environment answers it. */
  datatype PingRun = PingRun(socketOk: bool, sendOk: bool, rounds: seq<IcmpPing.Round>, start: Timestamp) {
    function Rtt(seqNo: Word, payloadLen: nat): int {
      IcmpPing.Ping(socketOk, sendOk, rounds, seqNo, payloadLen, start).rtt
    }

    /** Our reply comes in time, and its measured round trip fits a LONG. */
    ghost predicate Answered(seqNo: Word) {
      && socketOk && sendOk
      && exists k: nat :: IcmpPing.Answers(rounds, k, seqNo, start) && ElapsedUs(start, rounds[k].now) < 0x8000_0000
    }
  }

  /** The pings of the five tests; the fourth test has five of them. */
  datatype Pings = Pings(loopback: PingRun, network: PingRun, large: PingRun, multi: seq<PingRun>, unreachable: PingRun)

  /** The results that icmp_ping returns to the category, with the sequence numbers and payloads it asks for. */
  ghost predicate Results(w: IcmpWorld, p: Pings) {
    && w.loopback == p.loopback.Rtt(1, 56)
    && w.network == p.network.Rtt(2, 56)
    && w.large == p.large.Rtt(3, 1024)
    && |p.multi| == |w.multi| == 5 && (forall i :: 0 <= i < 5 ==> w.multi[i] == p.multi[i].Rtt(10 + i, 56))
    && w.unreachable == p.unreachable.Rtt(99, 56)
  }

  /** How many of the first n of several pings are answered. */
  ghost function AnsweredOf(runs: seq<PingRun>, n: nat): nat
    requires n <= |runs| <= 5
  {
    if n == 0 then 0 else AnsweredOf(runs, n - 1) + if runs[n - 1].Answered(10 + n - 1) then 1 else 0
  }

  lemma RttPositiveIff(r: PingRun, seqNo: Word, payloadLen: nat)
    ensures r.Rtt(seqNo, payloadLen) > 0 <==> r.Answered(seqNo)
  {
    IcmpPing.PositiveIffAnswered(r.socketOk, r.sendOk, r.rounds, seqNo, payloadLen, r.start);
  }

  lemma {:induction false} PositiveAnswers(rtts: seq<int>, runs: seq<PingRun>, n: nat)
    requires n <= |rtts| == |runs| == 5 && forall i :: 0 <= i < 5 ==> rtts[i] == runs[i].Rtt(10 + i, 56)
    ensures Positive(rtts[..n]) == AnsweredOf(runs, n)
  {
    if n == 0 {
    } else {
      PositiveAnswers(rtts, runs, n - 1);
      assert rtts[..n][..n - 1] == rtts[..n - 1];
      RttPositiveIff(runs[n - 1], 10 + n - 1, 56);
    }
  }

  /**
    With raw sockets and the helper, tests 132, 133 and 134 pass exactly if their ping is answered, test 135 exactly if
    at least four of its five are, and test 136 exactly if its ping is not. Without the helper tests 133 to 135 are
    skipped, and without raw sockets all five.
   */
  lemma VerdictsMean(w: IcmpWorld, p: Pings)
    requires Results(w, p)
    ensures !w.rawSockets ==> forall j: nat :: j < 5 ==> Verdict(w, j).Omit?
    ensures w.rawSockets ==>
              && Verdict(w, 0) == Check(p.loopback.Answered(1), "ICMP echo: loopback 127.0.0.1 [RFC 792]")
              && Verdict(w, 4) == Check(!p.unreachable.Answered(99), "ICMP echo: timeout on unreachable host [RFC 792]")
    ensures w.rawSockets && !w.helperConnected ==> forall j: nat :: 1 <= j < 4 ==> Verdict(w, j).Omit?
    ensures w.rawSockets && w.helperConnected ==>
              && Verdict(w, 1) == Check(p.network.Answered(2), "ICMP echo: network host [RFC 792]")
              && Verdict(w, 2) == Check(p.large.Answered(3), "ICMP echo: 1024-byte payload [RFC 792]")
              && Verdict(w, 3) == Check(AnsweredOf(p.multi, 5) >= 4, "ICMP echo: multiple pings reliability [RFC 792]")
  {
    hide PingRun.Rtt, PingRun.Answered, Positive;
    RttPositiveIff(p.loopback, 1, 56);
    RttPositiveIff(p.network, 2, 56);
    RttPositiveIff(p.large, 3, 1024);
    RttPositiveIff(p.unreachable, 99, 56);
    PositiveAnswers(w.multi, p.multi, 5);
    assert w.multi[..5] == w.multi;
  }
}
