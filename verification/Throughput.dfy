/**
  The sustained throughput tests: a megabyte is pushed through a TCP connection and the time of every 100 KB of it
  is recorded. The connection delivers bytes in order and loses none; select, send, recv and the clock are inputs.
 */
module Throughput {
  import opened Machine
  import opened Timer

  const BUFSIZE: nat := 8192
  const SEGMENT_SIZE: nat := 102400
  const SUSTAINED: nat := 1048576
  const NUM_SEGMENTS: nat := 10

  /**
    One round of the loop: WaitSelect's result and which ends are ready, what send and recv would return given
    enough room and data, and the time if a checkpoint is due.
   */
  datatype Round = Round(ready: int, writable: bool, readable: bool, sends: int, receives: int, now: Timestamp)

  /** How many segments have been completed by a number of bytes. */
  function Segments(sent: nat): nat {
    if sent / SEGMENT_SIZE < 10 then sent / SEGMENT_SIZE else 10
  }

  /** min(SUSTAINED - sent, BUFSIZE). */
  function Portion(sent: nat): nat
    requires sent <= SUSTAINED
    ensures Portion(sent) <= BUFSIZE && sent + Portion(sent) <= SUSTAINED
  {
    if SUSTAINED - sent > BUFSIZE then BUFSIZE else SUSTAINED - sent
  }

  function AtMost(n: int, limit: nat): int {
    if n > limit then limit else n
  }

  /** A send of at most one buffer completes at most one segment. */
  lemma OneSegmentMore(sent: nat, n: nat)
    requires n <= BUFSIZE
    ensures Segments(sent) <= Segments(sent + n) <= Segments(sent) + 1 && Segments(sent) <= 10
    ensures sent + n == SUSTAINED ==> Segments(sent + n) == 10
  {}

  lemma SegmentReached(sent: nat, segments: nat)
    requires segments <= Segments(sent)
    ensures sent >= (segments + 1) * SEGMENT_SIZE && segments < 10 <==> segments < Segments(sent)
  {}

  lemma NoSegments()
    ensures Segments(0) == 0 && Segments(SUSTAINED) == 10
  {}

  // ---- Checkpoints ----

  /** The recorded segments are the rounded times between successive marks. */
  ghost predicate Recorded(ms: seq<int>, marks: seq<Timestamp>, segments: nat) {
    && |ms| == NUM_SEGMENTS && |marks| == segments + 1 && segments <= NUM_SEGMENTS
    && forall i :: 0 <= i < segments ==> ms[i] == ElapsedMs(marks[i], marks[i + 1])
  }

  /**
    The marks are the start and, for every completed segment, the reading of the round in which the total sent reached
    its end. `sent` are the totals before each round and after the last.
   */
  ghost predicate MarksAreCrossings(marks: seq<Timestamp>, start: Timestamp, sent: seq<nat>, readings: seq<Timestamp>) {
    && marks != [] && marks[0] == start
    && forall i :: 1 <= i < |marks| ==> CrossedAt(marks[i], i, sent, readings)
  }

  ghost predicate CrossedAt(mark: Timestamp, segments: nat, sent: seq<nat>, readings: seq<Timestamp>) {
    exists j :: 0 <= j < |sent| - 1 && j < |readings| && mark == readings[j] && Crosses(sent[j], sent[j + 1], segments)
  }

  predicate Crosses(before: nat, after: nat, segments: nat) {
    before < segments * 102400 <= after
  }

  /** The total grows from the last of `sent` to `next` in the round with the next reading. */
  lemma CrossingsGoOn(marks: seq<Timestamp>, start: Timestamp, sent: seq<nat>, next: nat, readings: seq<Timestamp>)
    requires MarksAreCrossings(marks, start, sent, readings) && 0 < |sent| <= |readings|
    requires |marks| == Segments(sent[|sent| - 1]) + 1
    ensures MarksAreCrossings(marks, start, sent + [next], readings)
    ensures Segments(next) == Segments(sent[|sent| - 1]) + 1 ==>
              MarksAreCrossings(marks + [readings[|sent| - 1]], start, sent + [next], readings)
  {
    hide CrossedAt, Segments;
    var longer, last := sent + [next], |sent| - 1;
    forall i | 1 <= i < |marks| ensures CrossedAt(marks[i], i, longer, readings) {
      CrossedStays(marks[i], i, sent, next, readings);
    }
    if Segments(next) == Segments(sent[last]) + 1 {
      SegmentsMeaning(sent[last]);
      SegmentsMeaning(next);
      CrossedNow(sent, next, readings, |marks|);
    }
  }

  lemma CrossedStays(mark: Timestamp, segments: nat, sent: seq<nat>, next: nat, readings: seq<Timestamp>)
    requires CrossedAt(mark, segments, sent, readings)
    ensures CrossedAt(mark, segments, sent + [next], readings)
  {
    hide Crosses;
    var longer := sent + [next];
    var j :| 0 <= j < |sent| - 1 && j < |readings| && mark == readings[j] && Crosses(sent[j], sent[j + 1], segments);
    assert longer[j] == sent[j] && longer[j + 1] == sent[j + 1];
  }

  lemma CrossedNow(sent: seq<nat>, next: nat, readings: seq<Timestamp>, segments: nat)
    requires 0 < |sent| <= |readings| && Crosses(sent[|sent| - 1], next, segments)
    ensures CrossedAt(readings[|sent| - 1], segments, sent + [next], readings)
  {
    hide Crosses;
    var longer, last := sent + [next], |sent| - 1;
    assert longer[last] == sent[last] && longer[last + 1] == next;
  }

  lemma CrossingsStart(ms: seq<int>, start: Timestamp, readings: seq<Timestamp>)
    requires |ms| == NUM_SEGMENTS
    ensures Recorded(ms, [start], 0) && MarksAreCrossings([start], start, [0], readings)
  {}

  /** The segments completed: as many whole stretches of 102400 bytes as have been sent, up to ten. */
  lemma SegmentsMeaning(sent: nat)
    ensures Segments(sent) <= 10 && Segments(sent) * 102400 <= sent
    ensures Segments(sent) < 10 ==> sent < (Segments(sent) + 1) * 102400
  {}

  /** The inner loop: a send of at most 8192 bytes completes at most one segment. */
  method Checkpoint(totalSent: nat, segMs: array<int>, segments: nat, segStart: Timestamp, now: Timestamp,
                    ghost marks: seq<Timestamp>)
      returns (curSeg: nat, newStart: Timestamp, ghost newMarks: seq<Timestamp>)
    requires segMs.Length == NUM_SEGMENTS && Recorded(segMs[..], marks, segments)
    requires |marks| == segments + 1 && marks[segments] == segStart
    requires segments <= Segments(totalSent) <= segments + 1
    modifies segMs
    ensures curSeg == Segments(totalSent)
    ensures Recorded(segMs[..], newMarks, curSeg) && |newMarks| == curSeg + 1 && newMarks[curSeg] == newStart
    ensures newMarks == if curSeg == segments then marks else marks + [now]
  {
    hide ElapsedMs, Segments;
    SegmentReached(totalSent, segments);
    curSeg, newStart, newMarks := segments, segStart, marks;
    while totalSent >= (curSeg + 1) * SEGMENT_SIZE && curSeg < NUM_SEGMENTS
      invariant totalSent >= (curSeg + 1) * SEGMENT_SIZE && curSeg < 10 <==> curSeg < Segments(totalSent)
      invariant segments <= curSeg <= Segments(totalSent)
      invariant Recorded(segMs[..], newMarks, curSeg) && newMarks[curSeg] == newStart
      invariant newMarks == if curSeg == segments then marks else marks + [now]
    {
      segMs[curSeg] := ElapsedMs(newStart, now);
      newStart, newMarks := now, newMarks + [now];
      curSeg := curSeg + 1;
      SegmentReached(totalSent, curSeg);
    }
  }

  // ---- The loopback test ----

  /** How far the transfer has come, and whether the receiver has found the end of the stream. */
  datatype Flow = Flow(sent: nat, received: nat, ended: bool)

  function Positive(n: int): nat {
    if n > 0 then n else 0
  }

  function Sent(sent: nat, r: Round): nat
    requires sent <= SUSTAINED
  {
    if sent < SUSTAINED && r.writable then sent + Positive(AtMost(r.sends, Portion(sent))) else sent
  }

  /** What one round of the loop makes of it. */
  function Moved(f: Flow, r: Round): Flow
    requires f.received <= f.sent <= SUSTAINED
  {
    var sent := Sent(f.sent, r);
    var n := AtMost(AtMost(r.receives, BUFSIZE), sent - f.received);
    if r.readable then Flow(sent, f.received + Positive(n), n == 0) else Flow(sent, f.received, false)
  }

  /** After the first k rounds. */
  function After(rounds: seq<Round>, k: nat): (f: Flow)
    requires k <= |rounds|
    ensures f.received <= f.sent <= SUSTAINED
  {
    if k == 0 then Flow(0, 0, false) else Moved(After(rounds, k - 1), rounds[k - 1])
  }

  /**
    What every round does: the sender, when it is ready and has something left, sends what send() accepts of the next
    8192 bytes; then the receiver, when it is ready, takes what recv() gives of what has been sent, up to 8192 bytes.
    Without data the receiver changes nothing, or finds the end of the stream.
   */
  lemma EachRound(rounds: seq<Round>, k: nat)
    requires k < |rounds|
    ensures var f, g, r := After(rounds, k), After(rounds, k + 1), rounds[k];
            && (r.writable && r.sends > 0 && f.sent < 1048576 ==>
                  g.sent == Least(f.sent + r.sends, Least(f.sent + 8192, 1048576)))
            && (!r.writable || r.sends <= 0 ==> g.sent == f.sent)
            && (r.readable && r.receives > 0 ==>
                  g.received == Least(f.received + r.receives, Least(f.received + 8192, g.sent)))
            && (!r.readable || r.receives <= 0 ==> g.received == f.received)
            && (g.ended <==> r.readable && (r.receives == 0 || (r.receives > 0 && f.received == g.sent)))
  {}

  function Least(a: int, b: int): int {
    if a < b then a else b
  }

  /** The totals sent, before each of the first k rounds and after them. */
  function Totals(rounds: seq<Round>, k: nat): (sent: seq<nat>)
    requires k <= |rounds|
    ensures |sent| == k + 1 && forall j :: 0 <= j <= k ==> sent[j] == After(rounds, j).sent
  {
    seq(k + 1, j requires 0 <= j <= k => After(rounds, j).sent)
  }

  ghost predicate HadToGoOn(rounds: seq<Round>, k: nat)
    requires k <= |rounds|
  {
    forall j :: 0 <= j < k ==>
      rounds[j].ready > 0 && After(rounds, j).received < 1048576 && !After(rounds, j).ended
  }

  /** The loop ran for k rounds: until then it had a reason to go on, and then one to stop. */
  ghost predicate RanFor(rounds: seq<Round>, k: nat) {
    && k <= |rounds| && HadToGoOn(rounds, k)
    && (|| k == |rounds| || rounds[k].ready <= 0
        || After(rounds, k).received == 1048576 || After(rounds, k).ended)
  }

  /** Both ends ready in every round, with a full buffer each way. */
  ghost predicate GoodRounds(rounds: seq<Round>) {
    forall r <- rounds :: r.ready > 0 && r.writable && r.readable && r.sends >= 8192 && r.receives >= 8192
  }

  lemma {:induction false} GoodProgress(rounds: seq<Round>, k: nat)
    requires GoodRounds(rounds) && k <= |rounds| && k <= 128
    ensures After(rounds, k).sent == After(rounds, k).received == 8192 * k && !After(rounds, k).ended
  {
    if k == 0 {
    } else {
      GoodProgress(rounds, k - 1);
      EachRound(rounds, k - 1);
      assert rounds[k - 1] in rounds;
    }
  }

  /** 128 good rounds are enough for the whole megabyte. */
  lemma GoodRoundsSuffice(rounds: seq<Round>, k: nat)
    requires GoodRounds(rounds) && |rounds| >= 128 && RanFor(rounds, k)
    ensures k == 128 && After(rounds, k).received == 1048576
  {
    GoodProgress(rounds, 128);
    if k < 128 {
      GoodProgress(rounds, k);
      assert false;
    }
  }

  /**
    Test 141. Both ends run in one loop, which stops when everything is received, when the receiver finds the end of
    the stream, when select fails or times out, and for no other reason. The sender is shut down exactly once when
    everything is sent; every segment is timed by the round that completes it; and a passing run has sent everything
    and recorded all ten segments. `k` is the number of rounds.
   */
  method SustainedLoopback(rounds: seq<Round>, start: Timestamp)
      returns (passed: bool, totalSent: nat, totalRecv: nat, segMs: array<int>, curSeg: nat, shutdowns: nat, k: nat,
               ghost marks: seq<Timestamp>)
    ensures RanFor(rounds, k)
    ensures totalSent == After(rounds, k).sent && totalRecv == After(rounds, k).received
    ensures totalRecv <= totalSent <= SUSTAINED
    ensures passed <==> totalRecv == SUSTAINED
    ensures curSeg == Segments(totalSent) && Recorded(segMs[..], marks, curSeg)
    ensures MarksAreCrossings(marks, start, Totals(rounds, k), Readings(rounds))
    ensures shutdowns == if totalSent == SUSTAINED then 1 else 0
    ensures passed ==> totalSent == SUSTAINED && curSeg == NUM_SEGMENTS && shutdowns == 1
    ensures GoodRounds(rounds) && |rounds| >= 128 ==> passed
  {
    hide ElapsedMs, Segments, Recorded, MarksAreCrossings, Readings, Totals, GoodRounds, HadToGoOn, After, Moved;
    NoSegments();
    segMs := new int[NUM_SEGMENTS];
    totalSent, totalRecv, curSeg, shutdowns := 0, 0, 0, 0;
    var sendDone := false;
    var segStart := start;
    marks := [start];
    CrossingsStart(segMs[..], start, Readings(rounds));
    NoRounds(rounds);
    k := 0;
    while totalRecv < SUSTAINED && k < |rounds| && rounds[k].ready > 0
      invariant 0 <= k <= |rounds| && After(rounds, k) == Flow(totalSent, totalRecv, false) && HadToGoOn(rounds, k)
      invariant curSeg == Segments(totalSent) && Recorded(segMs[..], marks, curSeg)
      invariant |marks| == curSeg + 1 && marks[curSeg] == segStart
      invariant MarksAreCrossings(marks, start, Totals(rounds, k), Readings(rounds))
      invariant sendDone == (totalSent == SUSTAINED) && shutdowns == if sendDone then 1 else 0
      decreases |rounds| - k
    {
      var round := rounds[k];
      RoundGoesOn(rounds, k, marks, start);
      NextRound(rounds, k);
      if !sendDone && round.writable {
        totalSent, curSeg, segStart, marks := SendSome(round, totalSent, segMs, curSeg, segStart, marks);
        if totalSent >= SUSTAINED {
          shutdowns := shutdowns + 1;
          sendDone := true;
        }
      }
      k := k + 1;
      if round.readable {
        var n := AtMost(AtMost(round.receives, BUFSIZE), totalSent - totalRecv);
        if n > 0 {
          totalRecv := totalRecv + n;
        } else if n == 0 {
          break;
        }
      }
    }
    passed := totalRecv >= SUSTAINED;
    if GoodRounds(rounds) && |rounds| >= 128 {
      GoodRoundsSuffice(rounds, k);
    }
  }

  /** The sending half of a round, with its checkpoint. */
  method SendSome(round: Round, before: nat, segMs: array<int>, segments: nat, segStart: Timestamp,
                  ghost marks: seq<Timestamp>)
      returns (totalSent: nat, curSeg: nat, newStart: Timestamp, ghost newMarks: seq<Timestamp>)
    requires before < SUSTAINED && round.writable && segments == Segments(before)
    requires segMs.Length == NUM_SEGMENTS && Recorded(segMs[..], marks, segments)
    requires |marks| == segments + 1 && marks[segments] == segStart
    modifies segMs
    ensures totalSent == Sent(before, round) && curSeg == Segments(totalSent)
    ensures Recorded(segMs[..], newMarks, curSeg) && |newMarks| == curSeg + 1 && newMarks[curSeg] == newStart
    ensures curSeg == segments || curSeg == segments + 1
    ensures newMarks == if curSeg == segments then marks else marks + [round.now]
  {
    hide ElapsedMs, Segments, Recorded;
    totalSent, curSeg, newStart, newMarks := before, segments, segStart, marks;
    var n := AtMost(round.sends, Portion(totalSent));
    if n > 0 {
      OneSegmentMore(totalSent, n);
      totalSent := totalSent + n;
      curSeg, newStart, newMarks := Checkpoint(totalSent, segMs, segments, segStart, round.now, marks);
    }
  }

  lemma NoRounds(rounds: seq<Round>)
    ensures Totals(rounds, 0) == [0] && After(rounds, 0) == Flow(0, 0, false) && HadToGoOn(rounds, 0)
  {}

  lemma NextRound(rounds: seq<Round>, k: nat)
    requires k < |rounds| && HadToGoOn(rounds, k)
    requires rounds[k].ready > 0 && After(rounds, k).received < SUSTAINED && !After(rounds, k).ended
    ensures HadToGoOn(rounds, k + 1)
    ensures var f, r, g := After(rounds, k), rounds[k], After(rounds, k + 1);
            && g.sent == Sent(f.sent, r)
            && (var n := AtMost(AtMost(r.receives, BUFSIZE), g.sent - f.received);
                g == if r.readable then Flow(g.sent, f.received + Positive(n), n == 0)
                     else Flow(g.sent, f.received, false))
  {
    hide After, Moved, Sent;
    OneMoreRound(rounds, k);
  }

  lemma OneMoreRound(rounds: seq<Round>, k: nat)
    requires k < |rounds|
    ensures var f, r, g := After(rounds, k), rounds[k], After(rounds, k + 1);
            && g.sent == Sent(f.sent, r)
            && (var n := AtMost(AtMost(r.receives, BUFSIZE), g.sent - f.received);
                g == if r.readable then Flow(g.sent, f.received + Positive(n), n == 0)
                     else Flow(g.sent, f.received, false))
  {
    hide Sent;
  }

  /** Round k adds one total, and its own reading may become a mark. */
  lemma RoundGoesOn(rounds: seq<Round>, k: nat, marks: seq<Timestamp>, start: Timestamp)
    requires k < |rounds| && MarksAreCrossings(marks, start, Totals(rounds, k), Readings(rounds))
    requires |marks| == Segments(After(rounds, k).sent) + 1
    ensures MarksAreCrossings(marks, start, Totals(rounds, k + 1), Readings(rounds))
    ensures Segments(After(rounds, k + 1).sent) == Segments(After(rounds, k).sent) + 1 ==>
              MarksAreCrossings(marks + [rounds[k].now], start, Totals(rounds, k + 1), Readings(rounds))
  {
    hide After, MarksAreCrossings, Segments;
    assert Totals(rounds, k + 1) == Totals(rounds, k) + [After(rounds, k + 1).sent];
    CrossingsGoOn(marks, start, Totals(rounds, k), After(rounds, k + 1).sent, Readings(rounds));
  }

  function Readings(rounds: seq<Round>): seq<Timestamp> {
    seq(|rounds|, i requires 0 <= i < |rounds| => rounds[i].now)
  }

  // ---- The network test ----

  /** The total after k sends. */
  function SentBy(sends: seq<int>, k: nat): (sent: nat)
    requires k <= |sends|
    ensures sent <= SUSTAINED
  {
    if k == 0 then 0
    else SentBy(sends, k - 1) + Positive(AtMost(sends[k - 1], Portion(SentBy(sends, k - 1))))
  }

  lemma EachSend(sends: seq<int>, k: nat)
    requires k < |sends|
    ensures var sent := SentBy(sends, k);
            SentBy(sends, k + 1)
            == if sends[k] > 0 then Least(sent + sends[k], Least(sent + 8192, 1048576)) else sent
  {}

  function SendTotals(sends: seq<int>, k: nat): (sent: seq<nat>)
    requires k <= |sends|
    ensures |sent| == k + 1 && forall j :: 0 <= j <= k ==> sent[j] == SentBy(sends, j)
  {
    seq(k + 1, j requires 0 <= j <= k => SentBy(sends, j))
  }

  ghost predicate HadToSendOn(sends: seq<int>, k: nat)
    requires k <= |sends|
  {
    forall j :: 0 <= j < k ==> sends[j] > 0 && SentBy(sends, j) < 1048576
  }

  /** The sender ran for k sends. */
  ghost predicate SentFor(sends: seq<int>, k: nat) {
    && k <= |sends| && HadToSendOn(sends, k)
    && (k == |sends| || sends[k] <= 0 || SentBy(sends, k) == 1048576)
  }

  lemma {:induction false} FullSendsProgress(sends: seq<int>, k: nat)
    requires (forall n <- sends :: n >= 8192) && k <= |sends| && k <= 128
    ensures SentBy(sends, k) == 8192 * k
  {
    if k == 0 {
    } else {
      FullSendsProgress(sends, k - 1);
      EachSend(sends, k - 1);
      assert sends[k - 1] in sends;
    }
  }

  lemma FullSendsSuffice(sends: seq<int>, k: nat)
    requires (forall n <- sends :: n >= 8192) && |sends| >= 128 && SentFor(sends, k)
    ensures k == 128 && SentBy(sends, k) == 1048576
  {
    forall j | 0 <= j < |sends| ensures sends[j] >= 8192 {
      assert sends[j] in sends;
    }
    FullSendsProgress(sends, 128);
    if k < 128 {
      FullSendsProgress(sends, k);
      assert false;
    }
  }

  /**
    Test 142. Only the sending end; `sends` are what send() returns, and the run ends when everything is sent or a send
    does not advance, and for no other reason. `k` is the number of sends that advanced.
   */
  method SustainedNetwork(sends: seq<int>, times: seq<Timestamp>, start: Timestamp)
      returns (passed: bool, totalSent: nat, segMs: array<int>, curSeg: nat, k: nat, ghost marks: seq<Timestamp>)
    requires |sends| == |times|
    ensures SentFor(sends, k) && totalSent == SentBy(sends, k) <= SUSTAINED
    ensures passed <==> totalSent == SUSTAINED
    ensures curSeg == Segments(totalSent) && Recorded(segMs[..], marks, curSeg)
    ensures MarksAreCrossings(marks, start, SendTotals(sends, k), times)
    ensures passed ==> curSeg == NUM_SEGMENTS
    ensures (forall n <- sends :: n >= 8192) && |sends| >= 128 ==> passed
  {
    hide ElapsedMs, Segments, Recorded, MarksAreCrossings, SendTotals, SentBy, HadToSendOn;
    NoSegments();
    segMs := new int[NUM_SEGMENTS];
    totalSent, curSeg := 0, 0;
    var segStart := start;
    marks := [start];
    SendTotalsGrow(sends, 0);
    CrossingsStart(segMs[..], start, times);
    k := 0;
    while totalSent < SUSTAINED && k < |sends|
      invariant 0 <= k <= |sends| && totalSent == SentBy(sends, k) && HadToSendOn(sends, k)
      invariant curSeg == Segments(totalSent) && Recorded(segMs[..], marks, curSeg)
      invariant |marks| == curSeg + 1 && marks[curSeg] == segStart
      invariant MarksAreCrossings(marks, start, SendTotals(sends, k), times)
    {
      var n := AtMost(sends[k], Portion(totalSent));
      if n <= 0 {
        break;
      }
      NextSend(sends, k);
      OneSegmentMore(totalSent, n);
      SendTotalsGrow(sends, k);
      CrossingsGoOn(marks, start, SendTotals(sends, k), SentBy(sends, k + 1), times);
      totalSent := totalSent + n;
      curSeg, segStart, marks := Checkpoint(totalSent, segMs, curSeg, segStart, times[k], marks);
      k := k + 1;
    }
    passed := totalSent >= SUSTAINED;
    if (forall n <- sends :: n >= 8192) && |sends| >= 128 {
      FullSendsSuffice(sends, k);
    }
  }

  lemma NextSend(sends: seq<int>, k: nat)
    requires k < |sends| && HadToSendOn(sends, k) && sends[k] > 0 && SentBy(sends, k) < SUSTAINED
    ensures HadToSendOn(sends, k + 1)
    ensures SentBy(sends, k + 1) == SentBy(sends, k) + AtMost(sends[k], Portion(SentBy(sends, k)))
  {
    hide SentBy, Portion;
    OneMoreSend(sends, k);
  }

  lemma OneMoreSend(sends: seq<int>, k: nat)
    requires k < |sends| && sends[k] > 0 && SentBy(sends, k) < SUSTAINED
    ensures SentBy(sends, k + 1) == SentBy(sends, k) + AtMost(sends[k], Portion(SentBy(sends, k)))
  {
    PortionIsPositive(SentBy(sends, k));
    hide Portion;
  }

  lemma PortionIsPositive(sent: nat)
    requires sent < SUSTAINED
    ensures Portion(sent) > 0
  {}

  lemma SendTotalsGrow(sends: seq<int>, k: nat)
    requires k <= |sends|
    ensures SendTotals(sends, 0) == [0]
    ensures SentBy(sends, 0) == 0 && HadToSendOn(sends, 0)
    ensures k < |sends| ==> SendTotals(sends, k + 1) == SendTotals(sends, k) + [SentBy(sends, k + 1)]
  {}

  // ---- Rounding ----

  function SumOf(ms: seq<int>): int {
    if ms == [] then 0 else SumOf(ms[..|ms| - 1]) + ms[|ms| - 1]
  }

  /**
    How often the 32-bit microsecond counter wrapped, segment by segment; a clock that is set back counts
    backwards.
   */
  function Wraps(marks: seq<Timestamp>): int {
    if |marks| <= 1 then 0
    else Wraps(marks[..|marks| - 1]) + (marks[|marks| - 1].Micros() - marks[|marks| - 2].Micros()) / 0x1_0000_0000
  }

  /** The clock does not run back from mark to mark, and no segment takes 2^32 microseconds. */
  ghost predicate SteadyMarks(marks: seq<Timestamp>) {
    forall i :: 0 <= i < |marks| - 1 ==> 0 <= marks[i + 1].Micros() - marks[i].Micros() < 0x1_0000_0000
  }

  ghost predicate Within(ms: int, span: int, segments: nat) {
    -500 * segments <= 1000 * ms - span <= 500 * segments
  }

  /** The recorded milliseconds add up to the real span less the wraps, up to half a millisecond a segment. */
  lemma {:induction false} SegmentsAddUpWrapped(ms: seq<int>, marks: seq<Timestamp>, segments: nat)
    requires Recorded(ms, marks, segments)
    ensures Within(SumOf(ms[..segments]), Shown(marks), segments)
  {
    if segments == 0 {
    } else {
      hide Recorded, ElapsedMs, Shown, SumOf, Within;
      var front, one := marks[..segments], Unwrapped(marks[segments - 1], marks[segments]);
      FrontRecorded(ms, marks, segments);
      SegmentsAddUpWrapped(ms, front, segments - 1);
      LastSegment(ms, marks, segments);
      OneSegment(marks[segments - 1], marks[segments]);
      OneMoreWithin(SumOf(ms[..segments - 1]), ms[segments - 1], Shown(front), one, segments - 1);
    }
  }

  /** The real span, less the wraps of the counter. */
  function Shown(marks: seq<Timestamp>): int
    requires marks != []
  {
    marks[|marks| - 1].Micros() - marks[0].Micros() - 0x1_0000_0000 * Wraps(marks)
  }

  lemma FrontRecorded(ms: seq<int>, marks: seq<Timestamp>, segments: nat)
    requires segments > 0 && Recorded(ms, marks, segments)
    ensures |ms| == NUM_SEGMENTS >= segments && |marks| == segments + 1
    ensures Recorded(ms, marks[..segments], segments - 1)
    ensures ms[segments - 1] == ElapsedMs(marks[segments - 1], marks[segments])
  {
    hide ElapsedMs;
  }

  /** The time between two marks as the 32-bit counter shows it. */
  function Unwrapped(a: Timestamp, b: Timestamp): int {
    var d := b.Micros() - a.Micros();
    d - 0x1_0000_0000 * (d / 0x1_0000_0000)
  }

  lemma LastSegment(ms: seq<int>, marks: seq<Timestamp>, segments: nat)
    requires 0 < segments <= |ms| && |marks| == segments + 1
    ensures SumOf(ms[..segments]) == SumOf(ms[..segments - 1]) + ms[segments - 1]
    ensures Shown(marks) == Shown(marks[..segments]) + Unwrapped(marks[segments - 1], marks[segments])
  {
    hide Timestamp.Micros;
    assert ms[..segments][..segments - 1] == ms[..segments - 1];
  }

  lemma OneMoreWithin(sum: int, one: int, span: int, d: int, segments: nat)
    requires Within(sum, span, segments) && -500 <= 1000 * one - d <= 500
    ensures Within(sum + one, span + d, segments + 1)
  {}

  lemma OneSegment(a: Timestamp, b: Timestamp)
    ensures -500 <= 1000 * ElapsedMs(a, b) - Unwrapped(a, b) <= 500
  {
    DivMod(b.Micros() - a.Micros(), 0x1_0000_0000);
  }

  lemma {:induction false} SteadyMarksDoNotWrap(marks: seq<Timestamp>)
    requires SteadyMarks(marks)
    ensures Wraps(marks) == 0
  {
    if |marks| > 1 {
      var front := marks[..|marks| - 1];
      assert forall i :: 0 <= i < |front| ==> front[i] == marks[i];
      SteadyMarksDoNotWrap(front);
    }
  }

  /**
    The recorded milliseconds add up to the real span, up to half a millisecond a segment, exactly if the wraps of the
    counter cancel out; with a steady clock there are none.
   */
  lemma SegmentsAddUp(ms: seq<int>, marks: seq<Timestamp>, segments: nat)
    requires Recorded(ms, marks, segments)
    ensures Within(SumOf(ms[..segments]), marks[segments].Micros() - marks[0].Micros(), segments) <==> Wraps(marks) == 0
    ensures SteadyMarks(marks) ==> Wraps(marks) == 0
  {
    hide Timestamp.Micros, Wraps, SumOf;
    SegmentsAddUpWrapped(ms, marks, segments);
    if SteadyMarks(marks) {
      SteadyMarksDoNotWrap(marks);
    }
  }
}
