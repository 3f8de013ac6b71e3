/**
  icmp_ping: send one echo request (RFC 792, "Echo or Echo Reply Message") and wait for the matching reply with
  a shrinking timeout. The socket library and the clock are inputs; what the code asks of them is recorded.
 */
module IcmpPing {
  import opened Machine
  import opened TestPattern
  import opened Checksum
  import opened Timer

  const ICMP_ID: Word := 0xBD51
  const BUFFER_SIZE: nat := 1500
  const TIMEOUT_MS: int := 3000

  /**
    One round of the receive loop as the world answers it: the result of WaitSelect, the packet recv delivers
    (empty when recv returns 0 or fails), and the time read afterwards.
   */
  datatype Round = Round(ready: int, packet: seq<Byte>, now: Timestamp)

  datatype Call =
    | Open
    | Send(request: seq<Byte>)
    | Select(secs: int, micro: int)
    | Receive(n: nat)
    | Report(offset: nat)
    | Close

  // ---- The request ----

  function Header(id: Word, seqNo: Word): seq<Byte> {
    [8, 0, 0, 0, id / 0x100, id % 0x100, seqNo / 0x100, seqNo % 0x100]
  }

  /** An echo request of anyone's. */
  function EchoMessage(id: Word, seqNo: Word, payloadLen: nat): seq<Byte> {
    Seal(Header(id, seqNo) + Pattern(seqNo, payloadLen))
  }

  function EchoRequest(seqNo: Word, payloadLen: nat): seq<Byte> {
    EchoMessage(ICMP_ID, seqNo, payloadLen)
  }

  /** A well-formed echo message whose checksum the receiver accepts. */
  predicate IsEchoMessage(p: seq<Byte>, id: Word, seqNo: Word, payloadLen: nat) {
    && |p| == 8 + payloadLen
    && p[0] == 8 && p[1] == 0
    && p[4] as int * 0x100 + p[5] == id && p[6] as int * 0x100 + p[7] == seqNo
    && p[8..] == Pattern(seqNo, payloadLen)
    && ChecksumOf(p) == 0
  }

  lemma EchoMessageIsValid(id: Word, seqNo: Word, payloadLen: nat)
    requires 8 + payloadLen <= BUFFER_SIZE
    ensures IsEchoMessage(EchoMessage(id, seqNo, payloadLen), id, seqNo, payloadLen)
  {
    hide ChecksumOf, Pattern;
    var unsealed := Header(id, seqNo) + Pattern(seqNo, payloadLen);
    assert |unsealed| == 8 + payloadLen by { LengthOfPattern(seqNo, payloadLen); }
    SealedPacketChecks(unsealed);
    assert Seal(unsealed)[8..] == unsealed[8..];
  }

  lemma LengthOfPattern(seqNo: Word, payloadLen: nat)
    ensures |Pattern(seqNo, payloadLen)| == payloadLen
  {}

  /** The request has type 8, our id, the sequence number and the pattern as payload, and its checksum is accepted. */
  lemma EchoRequestIsValid(seqNo: Word, payloadLen: nat)
    requires 8 + payloadLen <= BUFFER_SIZE
    ensures var p := EchoRequest(seqNo, payloadLen);
            && |p| == 8 + payloadLen
            && p[0] == 8 && p[1] == 0
            && p[4] == 0xBD && p[5] == 0x51 && p[6] as int * 0x100 + p[7] == seqNo
            && p[8..] == Pattern(seqNo, payloadLen)
            && ChecksumOf(p) == 0
  {
    hide EchoMessage, Pattern, ChecksumOf;
    EchoMessageIsValid(ICMP_ID, seqNo, payloadLen);
  }

  // ---- What a received packet means ----

  /** recv fills at most the whole buffer. */
  function Clip(p: seq<Byte>): seq<Byte> {
    if |p| <= BUFFER_SIZE then p else p[..BUFFER_SIZE]
  }

  /** The IP header length field, in bytes. */
  function HeaderLength(p: seq<Byte>): nat
    requires |p| > 0
  {
    (p[0] as int % 16) * 4
  }

  /** Long enough for its own IP header plus 8 bytes, and an echo reply with our id and sequence number. */
  predicate IsReply(p: seq<Byte>, seqNo: Word) {
    |p| > 0 &&
    var h := HeaderLength(p);
    && |p| >= h + 8
    && p[h] == 0
    && BigEndian(p[h + 4], p[h + 5]) == ICMP_ID
    && BigEndian(p[h + 6], p[h + 7]) == seqNo
  }

  /** The diagnostic for a reply whose payload came back complete but altered. */
  function Reports(p: seq<Byte>, seqNo: Word, payloadLen: nat): seq<Call>
    requires |p| > 0
  {
    var h := HeaderLength(p);
    if |p| < h + 8 + payloadLen then []
    else
      var m := Mismatch(p[h + 8..h + 8 + payloadLen], seqNo);
      if m == 0 then [] else [Report(m)]
  }

  lemma SliceOfPrefix(s: seq<Byte>, n: nat, a: nat, b: nat)
    requires a <= b <= n <= |s|
    ensures s[..n][a..b] == s[a..b]
  {}

  function Remaining(start: Timestamp, now: Timestamp): int {
    TIMEOUT_MS - ToLong(ElapsedMs(start, now))
  }

  /** The cast to LONG makes a round trip of 2^31 microseconds or more negative. */
  function RoundTrip(start: Timestamp, now: Timestamp): int {
    var us := ElapsedUs(start, now);
    ToLong(if us > 0 then us else 1)
  }

  function Timeval(ms: int): Call
    requires ms > 0
  {
    Select(ms / 1000, ms % 1000 * 1000)
  }

  /** How one received packet is answered: by returning a round trip, by giving up, or by waiting again. */
  datatype Reaction = Return(calls: seq<Call>, rtt: int) | Again(calls: seq<Call>, timeoutMs: int)

  function React(packet: seq<Byte>, now: Timestamp, seqNo: Word, payloadLen: nat, start: Timestamp): Reaction {
    var p := Clip(packet);
    if p == [] then Return([Receive(0)], 0)
    else if IsReply(p, seqNo) then
      Return([Receive(|p|)] + Reports(p, seqNo, payloadLen), RoundTrip(start, now))
    else Again([Receive(|p|)], Remaining(start, now))
  }

  /** What the wait for a reply does and returns, from the current timeout on. */
  datatype Outcome = Outcome(calls: seq<Call>, rtt: int)

  function Await(rounds: seq<Round>, seqNo: Word, payloadLen: nat, start: Timestamp, timeoutMs: int): Outcome {
    if timeoutMs <= 0 then Outcome([Close], 0)
    else if rounds == [] || rounds[0].ready <= 0 then Outcome([Timeval(timeoutMs), Close], 0)
    else
      match React(rounds[0].packet, rounds[0].now, seqNo, payloadLen, start)
      case Return(done, rtt) => Outcome([Timeval(timeoutMs)] + done + [Close], rtt)
      case Again(done, left) =>
        var rest := Await(rounds[1..], seqNo, payloadLen, start, left);
        Outcome([Timeval(timeoutMs)] + done + rest.calls, rest.rtt)
  }

  /** The whole ping: socket() and sendto() may fail. */
  function Ping(
      socketOk: bool, sendOk: bool, rounds: seq<Round>, seqNo: Word, payloadLen: nat, start: Timestamp): Outcome
  {
    if !socketOk then Outcome([Open], -1)
    else
      var head := [Open, Send(EchoRequest(seqNo, payloadLen))];
      if !sendOk then Outcome(head + [Close], -1)
      else
        var waited := Await(rounds, seqNo, payloadLen, start, TIMEOUT_MS);
        Outcome(head + waited.calls, waited.rtt)
  }

  // ---- The reply to a request ----

  /** RFC 792: the type becomes 0 and the checksum is computed anew; everything else comes back as sent. */
  function EchoReply(request: seq<Byte>): seq<Byte>
    requires |request| >= 8
  {
    Seal(request[0 := 0])
  }

  lemma EchoReplyFields(id: Word, seqNo: Word, payloadLen: nat)
    requires 8 + payloadLen <= BUFFER_SIZE
    ensures var p := EchoMessage(id, seqNo, payloadLen);
            && |p| == 8 + payloadLen
            && var q := EchoReply(p);
               && |q| == 8 + payloadLen && q[0] == 0
               && BigEndian(q[4], q[5]) == id && BigEndian(q[6], q[7]) == seqNo
               && q[8..] == Pattern(seqNo, payloadLen)
  {
    hide EchoMessage, Pattern, ChecksumOf;
    EchoMessageIsValid(id, seqNo, payloadLen);
    var p := EchoMessage(id, seqNo, payloadLen);
    assert EchoReply(p)[8..] == p[8..];
  }

  /** An IP header whose length field says how long it is, in words of four bytes. */
  predicate IsIpHeader(header: seq<Byte>) {
    header != [] && |header| == 4 * (header[0] as int % 16)
  }

  /** A reply to anyone's request, behind any IP header, matches exactly if it has our id and the sequence number. */
  lemma ReplyMatchesIff(header: seq<Byte>, id: Word, seqNo: Word, other: Word, payloadLen: nat)
    requires IsIpHeader(header) && 8 + payloadLen <= BUFFER_SIZE
    ensures |EchoMessage(id, seqNo, payloadLen)| == 8 + payloadLen
    ensures IsReply(header + EchoReply(EchoMessage(id, seqNo, payloadLen)), other) <==> id == 0xBD51 && other == seqNo
  {
    hide EchoMessage, EchoReply, Pattern, HeaderLength;
    EchoReplyFields(id, seqNo, payloadLen);
    var q := EchoReply(EchoMessage(id, seqNo, payloadLen));
    var p, h := header + q, |header|;
    SameHeaderLength(header, q);
    assert p[h] == q[0] && p[h + 4] == q[4] && p[h + 5] == q[5] && p[h + 6] == q[6] && p[h + 7] == q[7];
  }

  /** A genuine reply behind any IP header is accepted for its own sequence number only, and without complaint. */
  lemma GenuineReplyAccepted(
      header: seq<Byte>, seqNo: Word, other: Word, payloadLen: nat, now: Timestamp, start: Timestamp)
    requires IsIpHeader(header) && |header| + 8 + payloadLen <= BUFFER_SIZE
    ensures |EchoRequest(seqNo, payloadLen)| == 8 + payloadLen
    ensures var p := header + EchoReply(EchoRequest(seqNo, payloadLen));
            && (IsReply(p, other) <==> other == seqNo)
            && React(p, now, seqNo, payloadLen, start) == Return([Receive(|p|)], RoundTrip(start, now))
  {
    hide EchoMessage, EchoReply, Pattern, HeaderLength, RoundTrip, IsReply;
    EchoReplyFields(ICMP_ID, seqNo, payloadLen);
    ReplyMatchesIff(header, ICMP_ID, seqNo, other, payloadLen);
    ReplyMatchesIff(header, ICMP_ID, seqNo, seqNo, payloadLen);
    var q := EchoReply(EchoRequest(seqNo, payloadLen));
    var p, h := header + q, |header|;
    SameHeaderLength(header, q);
    assert p[h + 8..h + 8 + payloadLen] == Pattern(seqNo, payloadLen) by {
      assert p[h + 8..] == q[8..];
      assert p[h + 8..h + 8 + payloadLen] == p[h + 8..];
    }
    ReportIff(p, seqNo, payloadLen);
  }

  lemma SameHeaderLength(header: seq<Byte>, rest: seq<Byte>)
    requires header != []
    ensures HeaderLength(header + rest) == HeaderLength(header) == 4 * (header[0] as int % 16)
  {}

  /** The request itself, which a raw socket may see on its way, is not taken for the reply. */
  lemma OwnRequestIgnored(header: seq<Byte>, seqNo: Word, other: Word, payloadLen: nat)
    requires IsIpHeader(header) && 8 + payloadLen <= BUFFER_SIZE
    ensures !IsReply(header + EchoRequest(seqNo, payloadLen), other)
  {
    hide EchoRequest, Pattern, HeaderLength;
    EchoRequestIsValid(seqNo, payloadLen);
    var q := EchoRequest(seqNo, payloadLen);
    SameHeaderLength(header, q);
    assert (header + q)[|header|] == q[0];
  }

  /** Exactly a complete payload that is not the pattern is reported, with the place of its first wrong byte. */
  lemma ReportIff(p: seq<Byte>, seqNo: Word, payloadLen: nat)
    requires |p| > 0
    ensures var h := 4 * (p[0] as int % 16);
            Reports(p, seqNo, payloadLen) == [] <==>
            |p| < h + 8 + payloadLen || p[h + 8..h + 8 + payloadLen] == Pattern(seqNo, payloadLen)
    ensures var h := 4 * (p[0] as int % 16);
            Reports(p, seqNo, payloadLen) != [] ==>
              |p| >= h + 8 + payloadLen
              && exists m: nat ::
                   FirstWrong(p[h + 8..h + 8 + payloadLen], seqNo, m) && Reports(p, seqNo, payloadLen) == [Report(m)]
  {
    hide Pattern, Mismatch;
    var h := HeaderLength(p);
    if |p| >= h + 8 + payloadLen {
      var part := p[h + 8..h + 8 + payloadLen];
      MismatchIff(part, seqNo);
    }
  }

  /** Byte m, counted from 1, is the first that is not the pattern's. */
  ghost predicate FirstWrong(bs: seq<Byte>, seqNo: Word, m: nat) {
    && 0 < m <= |bs| && bs[m - 1] != PatternByte(seqNo, m - 1)
    && forall i :: 0 <= i < m - 1 ==> bs[i] == PatternByte(seqNo, i)
  }

  lemma MismatchIff(bs: seq<Byte>, seqNo: Word)
    ensures Mismatch(bs, seqNo) == 0 <==> bs == Pattern(seqNo, |bs|)
    ensures Mismatch(bs, seqNo) > 0 ==> FirstWrong(bs, seqNo, Mismatch(bs, seqNo))
  {
    hide PatternByte;
    var pattern := Pattern(seqNo, |bs|);
    assert bs == pattern <==> forall k :: 0 <= k < |bs| ==> bs[k] == pattern[k];
  }

  // ---- The code ----

  class Pinger {
    const sbuf: array<Byte>
    const rbuf: array<Byte>
    ghost var calls: seq<Call>

    ghost predicate Valid() {
      sbuf != rbuf && sbuf.Length == rbuf.Length == BUFFER_SIZE
    }

    constructor ()
      ensures Valid() && fresh(sbuf) && fresh(rbuf) && calls == []
    {
      sbuf := new Byte[BUFFER_SIZE](_ => 0);
      rbuf := new Byte[BUFFER_SIZE](_ => 0);
      calls := [];
    }

    /** Fills the send buffer in place. */
    method BuildRequest(seqNo: Word, payloadLen: nat)
      requires Valid() && 8 + payloadLen <= BUFFER_SIZE
      modifies sbuf
      ensures sbuf[..8 + payloadLen] == EchoRequest(seqNo, payloadLen)
    {
      var len := 8 + payloadLen;
      forall i | 0 <= i < len { sbuf[i] := 0; }
      sbuf[0] := 8;
      sbuf[4], sbuf[5] := ICMP_ID / 0x100, ICMP_ID % 0x100;
      sbuf[6], sbuf[7] := seqNo / 0x100, seqNo % 0x100;
      FillTestPattern(sbuf, 8, payloadLen, seqNo);
      ghost var unsealed := Header(ICMP_ID, seqNo) + Pattern(seqNo, payloadLen);
      assert sbuf[..len] == unsealed;
      assert WithChecksum(unsealed, 0) == unsealed;
      var c := IcmpChecksum(sbuf, len);
      sbuf[2], sbuf[3] := c / 0x100, c % 0x100;
      assert sbuf[..len] == Seal(unsealed);
    }

    /** recv into the receive buffer; the bytes beyond the packet keep their old values. */
    method Receive(packet: seq<Byte>) returns (n: nat)
      requires Valid()
      modifies rbuf, this`calls
      ensures n == (if |packet| <= BUFFER_SIZE then |packet| else BUFFER_SIZE) && rbuf[..n] == packet[..n]
      ensures n == |Clip(packet)| && rbuf[..n] == Clip(packet)
      ensures calls == old(calls) + [Call.Receive(n)]
    {
      n := if |packet| <= BUFFER_SIZE then |packet| else BUFFER_SIZE;
      forall i | 0 <= i < n { rbuf[i] := packet[i]; }
      assert rbuf[..n] == Clip(packet);
      calls := calls + [Call.Receive(n)];
    }

    /** The payload check of a matching reply. */
    method CheckPayload(n: nat, headerLen: nat, seqNo: Word, payloadLen: nat, ghost p: seq<Byte>)
      requires Valid() && 0 < n <= BUFFER_SIZE && p == rbuf[..n] && headerLen == HeaderLength(p)
      modifies this`calls
      ensures calls == old(calls) + Reports(p, seqNo, payloadLen)
    {
      hide HeaderLength, Mismatch, Pattern, PatternByte;
      if n >= headerLen + 8 + payloadLen {
        SliceOfPrefix(rbuf[..], n, headerLen + 8, headerLen + 8 + payloadLen);
        var mm := VerifyTestPattern(rbuf, headerLen + 8, payloadLen, seqNo);
        assert mm == Mismatch(p[headerLen + 8..headerLen + 8 + payloadLen], seqNo);
        if mm != 0 {
          calls := calls + [Report(mm)];
        }
      }
    }

    /** The body of the loop from recv to the shrunken timeout. */
    method HandlePacket(packet: seq<Byte>, now: Timestamp, seqNo: Word, payloadLen: nat, start: Timestamp)
        returns (done: bool, rtt: int, timeoutMs: int)
      requires Valid()
      modifies this`calls, rbuf
      ensures var r := React(packet, now, seqNo, payloadLen, start);
              && calls == old(calls) + r.calls
              && done == r.Return?
              && (if done then rtt == r.rtt else timeoutMs == r.timeoutMs)
    {
      done, rtt, timeoutMs := true, 0, 0;
      var n := Receive(packet);
      if n == 0 {
        return;
      }
      ghost var p := rbuf[..n];
      var headerLen := (rbuf[0] as int % 16) * 4;
      assert headerLen == HeaderLength(p);
      if n >= headerLen + 8 {
        if rbuf[headerLen] == 0 && BigEndian(rbuf[headerLen + 4], rbuf[headerLen + 5]) == ICMP_ID
           && BigEndian(rbuf[headerLen + 6], rbuf[headerLen + 7]) == seqNo {
          assert IsReply(p, seqNo);
          var us := ElapsedUs(start, now);
          CheckPayload(n, headerLen, seqNo, payloadLen, p);
          rtt := ToLong(if us > 0 then us else 1);
          return;
        }
      }
      assert !IsReply(p, seqNo);
      done, timeoutMs := false, TIMEOUT_MS - ToLong(ElapsedMs(start, now));
    }

    method AwaitReply(rounds: seq<Round>, seqNo: Word, payloadLen: nat, start: Timestamp) returns (rtt: int)
      requires Valid()
      modifies this`calls, rbuf
      ensures var o := Await(rounds, seqNo, payloadLen, start, TIMEOUT_MS);
              calls == old(calls) + o.calls && rtt == o.rtt
    {
      hide React;
      rtt := 0;
      var timeoutMs := TIMEOUT_MS;
      var k := 0;
      ghost var o := Await(rounds, seqNo, payloadLen, start, timeoutMs);
      assert rounds[0..] == rounds;
      while timeoutMs > 0
        invariant 0 <= k <= |rounds| && rtt == 0
        invariant old(calls) + o.calls == calls + Await(rounds[k..], seqNo, payloadLen, start, timeoutMs).calls
        invariant o.rtt == Await(rounds[k..], seqNo, payloadLen, start, timeoutMs).rtt
        decreases |rounds| - k
      {
        calls := calls + [Select(timeoutMs / 1000, timeoutMs % 1000 * 1000)];
        if k == |rounds| || rounds[k].ready <= 0 {
          break;
        }
        var done, r, left := HandlePacket(rounds[k].packet, rounds[k].now, seqNo, payloadLen, start);
        if done {
          rtt := r;
          break;
        }
        assert rounds[k..][1..] == rounds[k + 1..];
        timeoutMs := left;
        k := k + 1;
      }
      calls := calls + [Close];
    }

    method IcmpPing(socketOk: bool, sendOk: bool, rounds: seq<Round>, seqNo: Word, payloadLen: nat, start: Timestamp)
        returns (rtt: int)
      requires Valid() && 8 + payloadLen <= BUFFER_SIZE
      modifies this`calls, sbuf, rbuf
      ensures var o := Ping(socketOk, sendOk, rounds, seqNo, payloadLen, start);
              calls == old(calls) + o.calls && rtt == o.rtt
    {
      hide Await, EchoRequest;
      calls := calls + [Open];
      if !socketOk {
        return -1;
      }
      BuildRequest(seqNo, payloadLen);
      calls := calls + [Send(sbuf[..8 + payloadLen])];
      if !sendOk {
        calls := calls + [Close];
        return -1;
      }
      rtt := AwaitReply(rounds, seqNo, payloadLen, start);
    }
  }

  // ---- When a ping succeeds ----

  /** A round that leaves the loop waiting: a packet arrived, it was not our reply, and time is left. */
  predicate Idle(r: Round, seqNo: Word, start: Timestamp) {
    r.ready > 0 && r.packet != [] && !IsReply(Clip(r.packet), seqNo) && Remaining(start, r.now) > 0
  }

  /** Round k brings the reply after only idle rounds. */
  ghost predicate Answers(rounds: seq<Round>, k: nat, seqNo: Word, start: Timestamp) {
    && k < |rounds|
    && (forall j :: 0 <= j < k ==> Idle(rounds[j], seqNo, start))
    && rounds[k].ready > 0 && IsReply(Clip(rounds[k].packet), seqNo)
  }

  lemma {:induction false} AwaitAnswered(
      rounds: seq<Round>, seqNo: Word, payloadLen: nat, start: Timestamp, ms: int, k: nat)
    requires ms > 0 && Answers(rounds, k, seqNo, start)
    ensures Await(rounds, seqNo, payloadLen, start, ms).rtt == RoundTrip(start, rounds[k].now)
  {
    hide RoundTrip, Remaining, Reports;
    if k == 0 {
    } else {
      assert Idle(rounds[0], seqNo, start);
      AwaitAnswered(rounds[1..], seqNo, payloadLen, start, Remaining(start, rounds[0].now), k - 1);
    }
  }

  lemma {:induction false} AwaitUnanswered(rounds: seq<Round>, seqNo: Word, payloadLen: nat, start: Timestamp, ms: int)
    requires ms > 0 ==> forall k: nat :: !Answers(rounds, k, seqNo, start)
    ensures Await(rounds, seqNo, payloadLen, start, ms).rtt == 0
  {
    hide RoundTrip, Remaining, Reports, IsReply;
    if ms > 0 && rounds != [] && rounds[0].ready > 0 && Clip(rounds[0].packet) != [] {
      assert !Answers(rounds, 0, seqNo, start);
      var left := Remaining(start, rounds[0].now);
      forall k: nat | left > 0 ensures !Answers(rounds[1..], k, seqNo, start) {
        assert !Answers(rounds, k + 1, seqNo, start);
      }
      AwaitUnanswered(rounds[1..], seqNo, payloadLen, start, left);
    }
  }

  /**
    The result is positive exactly when some round brings our reply before the time is up and the measured round
    trip fits a LONG; it is then that round trip, at least 1. Without such a round it is 0, and -1 when the socket
    or the send failed.
   */
  lemma PositiveIffAnswered(
      socketOk: bool, sendOk: bool, rounds: seq<Round>, seqNo: Word, payloadLen: nat, start: Timestamp)
    ensures var rtt := Ping(socketOk, sendOk, rounds, seqNo, payloadLen, start).rtt;
            && (rtt > 0 <==> socketOk && sendOk && exists k: nat ::
                  Answers(rounds, k, seqNo, start) && ElapsedUs(start, rounds[k].now) < 0x8000_0000)
            && (rtt == -1 || rtt == 0 || exists k: nat ::
                  Answers(rounds, k, seqNo, start) && rtt == RoundTrip(start, rounds[k].now))
            && (!socketOk || !sendOk ==> rtt == -1)
            && (socketOk && sendOk && (forall k: nat :: !Answers(rounds, k, seqNo, start)) ==> rtt == 0)
  {
    if socketOk && sendOk {
      if k: nat :| Answers(rounds, k, seqNo, start) {
        AwaitAnswered(rounds, seqNo, payloadLen, start, TIMEOUT_MS, k);
        forall k': nat | Answers(rounds, k', seqNo, start) ensures k' == k {
          OneAnswer(rounds, k, k', seqNo, start);
        }
      } else {
        AwaitUnanswered(rounds, seqNo, payloadLen, start, TIMEOUT_MS);
      }
    }
  }

  /** The time from sending to reading the reply, in microseconds. */
  function TrueRoundTrip(start: Timestamp, now: Timestamp): int {
    now.Micros() - start.Micros()
  }

  /** The number for a reply is the true round trip, and positive, exactly if that is from 1 to 2^31 - 1. */
  lemma RoundTripIsTrueIff(start: Timestamp, now: Timestamp)
    ensures RoundTrip(start, now) == TrueRoundTrip(start, now) > 0 <==> 0 < TrueRoundTrip(start, now) < 0x8000_0000
  {
    hide Timestamp.Micros;
    ElapsedUsExact(start, now);
  }

  /** Round k, reached after only idle rounds, fails: WaitSelect reports an error, or recv delivers nothing. */
  ghost predicate Fails(rounds: seq<Round>, k: nat, seqNo: Word, start: Timestamp) {
    && k < |rounds|
    && (forall j :: 0 <= j < k ==> Idle(rounds[j], seqNo, start))
    && (rounds[k].ready < 0 || (rounds[k].ready > 0 && rounds[k].packet == []))
  }

  /** The documented result: the round trip in microseconds, -1 on an error, and 0 when no reply comes in time. */
  ghost predicate AsDocumented(
      socketOk: bool, sendOk: bool, rounds: seq<Round>, seqNo: Word, start: Timestamp, rtt: int)
  {
    if !socketOk || !sendOk then rtt == -1
    else
      && (forall k: nat :: Answers(rounds, k, seqNo, start) ==> rtt == TrueRoundTrip(start, rounds[k].now) > 0)
      && (forall k: nat :: Fails(rounds, k, seqNo, start) ==> rtt == -1)
      && ((forall k: nat :: !Answers(rounds, k, seqNo, start) && !Fails(rounds, k, seqNo, start)) ==> rtt == 0)
  }

  /**
    The documented result is returned exactly if, once the request is sent, no round fails and a reply comes from 1 to
    2^31 - 1 microseconds after the start.
   */
  lemma DocumentedIff(
      socketOk: bool, sendOk: bool, rounds: seq<Round>, seqNo: Word, payloadLen: nat, start: Timestamp)
    ensures AsDocumented(socketOk, sendOk, rounds, seqNo, start,
                         Ping(socketOk, sendOk, rounds, seqNo, payloadLen, start).rtt)
       <==> (socketOk && sendOk ==>
              && (forall k: nat :: !Fails(rounds, k, seqNo, start))
              && (forall k: nat :: Answers(rounds, k, seqNo, start) ==>
                    0 < TrueRoundTrip(start, rounds[k].now) < 0x8000_0000))
  {
    hide Idle, IsReply, Fails, TrueRoundTrip, RoundTrip, Ping;
    PingReturns(socketOk, sendOk, rounds, seqNo, payloadLen, start);
    if k: nat :| Answers(rounds, k, seqNo, start) {
      RoundTripIsTrueIff(start, rounds[k].now);
      forall j: nat ensures !Fails(rounds, j, seqNo, start) && (Answers(rounds, j, seqNo, start) ==> j == k) {
        OneEnd(rounds, k, j, seqNo, start);
      }
    }
  }

  lemma PingReturns(
      socketOk: bool, sendOk: bool, rounds: seq<Round>, seqNo: Word, payloadLen: nat, start: Timestamp)
    ensures var rtt := Ping(socketOk, sendOk, rounds, seqNo, payloadLen, start).rtt;
            if !socketOk || !sendOk then rtt == -1
            else && (forall k: nat :: Answers(rounds, k, seqNo, start) ==> rtt == RoundTrip(start, rounds[k].now))
                 && ((forall k: nat :: !Answers(rounds, k, seqNo, start)) ==> rtt == 0)
  {
    hide Idle, IsReply, RoundTrip, Await, EchoRequest;
    if socketOk && sendOk {
      forall k: nat | Answers(rounds, k, seqNo, start)
        ensures Await(rounds, seqNo, payloadLen, start, TIMEOUT_MS).rtt == RoundTrip(start, rounds[k].now)
      {
        AwaitAnswered(rounds, seqNo, payloadLen, start, TIMEOUT_MS, k);
      }
      if forall k: nat :: !Answers(rounds, k, seqNo, start) {
        AwaitUnanswered(rounds, seqNo, payloadLen, start, TIMEOUT_MS);
      }
    }
  }

  /** A wait ends in one way only. */
  lemma OneEnd(rounds: seq<Round>, k: nat, j: nat, seqNo: Word, start: Timestamp)
    requires Answers(rounds, k, seqNo, start)
    ensures !Fails(rounds, j, seqNo, start) && (Answers(rounds, j, seqNo, start) ==> j == k)
  {
    hide Remaining, HeaderLength;
    assert Clip([]) == [];
  }

  lemma GenuineReplyReturns(header: seq<Byte>, seqNo: Word, payloadLen: nat, start: Timestamp, now: Timestamp)
    requires IsIpHeader(header) && |header| + 8 + payloadLen <= BUFFER_SIZE
    ensures |EchoRequest(seqNo, payloadLen)| == 8 + payloadLen
    ensures var reply := header + EchoReply(EchoRequest(seqNo, payloadLen));
            Ping(true, true, [Round(1, reply, now)], seqNo, payloadLen, start).rtt == RoundTrip(start, now)
  {
    hide EchoRequest, EchoReply, HeaderLength, React, RoundTrip;
    GenuineReplyAccepted(header, seqNo, seqNo, payloadLen, now, start);
  }

  lemma RoundTripValues()
    ensures RoundTrip(Timestamp(10, 0), Timestamp(9, 0)) == -1_000_000
    ensures RoundTrip(Timestamp(10, 0), Timestamp(9, 999_999)) == -1
    ensures RoundTrip(Timestamp(3010, 0), Timestamp(10, 0)) == 1_294_967_296
    ensures RoundTrip(Timestamp(0, 0), Timestamp(4295, 0)) == 32_704
    ensures forall t: Timestamp :: RoundTrip(t, t) == 1
  {}

  /**
    What a genuine reply returns on a clock that is set back while waiting, by a second, by a microsecond and by 3000
    seconds; when it is read 4295 seconds after the start; and when it is read at once.
   */
  lemma WrongRoundTrips(header: seq<Byte>, seqNo: Word, payloadLen: nat, start: Timestamp, now: Timestamp)
    requires IsIpHeader(header) && |header| + 8 + payloadLen <= BUFFER_SIZE
    ensures |EchoRequest(seqNo, payloadLen)| == 8 + payloadLen
    ensures var reply := header + EchoReply(EchoRequest(seqNo, payloadLen));
            var rtt := Ping(true, true, [Round(1, reply, now)], seqNo, payloadLen, start).rtt;
            && (start == Timestamp(10, 0) && now == Timestamp(9, 0) ==> rtt == -1_000_000)
            && (start == Timestamp(10, 0) && now == Timestamp(9, 999_999) ==> rtt == -1)
            && (start == Timestamp(3010, 0) && now == Timestamp(10, 0) ==> rtt == 1_294_967_296)
            && (start == Timestamp(0, 0) && now == Timestamp(4295, 0) ==> rtt == 32_704)
            && (start == now ==> rtt == 1)
  {
    hide EchoMessage, EchoRequest, EchoReply, IsIpHeader, Ping, RoundTrip;
    GenuineReplyReturns(header, seqNo, payloadLen, start, now);
    RoundTripValues();
  }

  /** A WaitSelect that fails is returned as 0, like a timeout. */
  lemma FailedWaitReturnsZero(seqNo: Word, payloadLen: nat, start: Timestamp)
    ensures Ping(true, true, [Round(-1, [], start)], seqNo, payloadLen, start).rtt == 0
  {
    hide EchoRequest;
  }

  lemma OneAnswer(rounds: seq<Round>, j: nat, k: nat, seqNo: Word, start: Timestamp)
    requires Answers(rounds, j, seqNo, start) && Answers(rounds, k, seqNo, start)
    ensures j == k
  {
    hide Remaining, IsReply;
  }

  // ---- What a ping asks of the socket library ----

  predicate NormalTimeout(c: Call) {
    c.Select? ==> 0 <= c.secs && 0 <= c.micro < 1_000_000 && 0 < c.secs * 1_000_000 + c.micro <= TIMEOUT_MS * 1000
  }

  /** Exactly one Close, at the very end. */
  ghost predicate EndsClosed(calls: seq<Call>) {
    && calls != [] && calls[|calls| - 1] == Close
    && forall i :: 0 <= i < |calls| - 1 ==> calls[i] != Close
  }

  lemma ReactCalls(packet: seq<Byte>, now: Timestamp, seqNo: Word, payloadLen: nat, start: Timestamp)
    ensures forall c <- React(packet, now, seqNo, payloadLen, start).calls :: c.Receive? || c.Report?
    ensures var r := React(packet, now, seqNo, payloadLen, start); r.Again? ==> r.timeoutMs == Remaining(start, now)
  {
    hide RoundTrip, Remaining, IsReply;
    var p := Clip(packet);
    if p != [] && IsReply(p, seqNo) {
      var reports := Reports(p, seqNo, payloadLen);
      assert forall c <- reports :: c.Report?;
    }
  }

  lemma EndsClosedAppend(a: seq<Call>, b: seq<Call>)
    requires Close !in a && EndsClosed(b)
    ensures EndsClosed(a + b)
  {}

  lemma {:induction false} AwaitBehaves(rounds: seq<Round>, seqNo: Word, payloadLen: nat, start: Timestamp, ms: int)
    requires ms <= TIMEOUT_MS
    ensures var calls := Await(rounds, seqNo, payloadLen, start, ms).calls;
            EndsClosed(calls) && forall c <- calls :: NormalTimeout(c)
  {
    hide React, Remaining;
    if ms > 0 && rounds != [] && rounds[0].ready > 0 {
      ReactCalls(rounds[0].packet, rounds[0].now, seqNo, payloadLen, start);
      match React(rounds[0].packet, rounds[0].now, seqNo, payloadLen, start)
      case Return(done, rtt) =>
        EndsClosedAppend([Timeval(ms)] + done, [Close]);
      case Again(done, left) =>
        RemainingBound(start, rounds[0].now);
        AwaitBehaves(rounds[1..], seqNo, payloadLen, start, left);
        EndsClosedAppend([Timeval(ms)] + done, Await(rounds[1..], seqNo, payloadLen, start, left).calls);
    }
  }

  lemma RemainingBound(start: Timestamp, now: Timestamp)
    ensures Remaining(start, now) <= TIMEOUT_MS
  {}

  /**
    Every timeout is positive, normalised and at most three seconds, and an opened socket is closed exactly once,
    last.
   */
  lemma SocketDiscipline(
      socketOk: bool, sendOk: bool, rounds: seq<Round>, seqNo: Word, payloadLen: nat, start: Timestamp)
    ensures var calls := Ping(socketOk, sendOk, rounds, seqNo, payloadLen, start).calls;
            && (forall c <- calls :: NormalTimeout(c))
            && calls[0] == Open
            && (if socketOk then EndsClosed(calls) else Close !in calls)
  {
    if socketOk && sendOk {
      hide Await, EchoRequest;
      AwaitBehaves(rounds, seqNo, payloadLen, start, TIMEOUT_MS);
      EndsClosedAppend([Open, Send(EchoRequest(seqNo, payloadLen))],
                       Await(rounds, seqNo, payloadLen, start, TIMEOUT_MS).calls);
    }
  }

  /** Within a wait nothing is opened or sent; a packet is read only when select has returned, and then reported on. */
  ghost predicate WaitsInOrder(calls: seq<Call>) {
    && (forall c <- calls :: !c.Open? && !c.Send?)
    && (forall i :: 0 <= i < |calls| && calls[i].Receive? ==> i > 0 && calls[i - 1].Select?)
    && (forall i :: 0 <= i < |calls| && calls[i].Report? ==> i > 0 && calls[i - 1].Receive?)
  }

  lemma InOrderAppend(a: seq<Call>, b: seq<Call>)
    requires WaitsInOrder(a) && WaitsInOrder(b)
    ensures WaitsInOrder(a + b)
  {
    var c := a + b;
    forall i | 0 <= i < |c| && (c[i].Receive? || c[i].Report?)
      ensures i > 0 && (c[i].Receive? ==> c[i - 1].Select?) && (c[i].Report? ==> c[i - 1].Receive?)
    {
      if i >= |a| {
        assert c[i] == b[i - |a|];
        assert c[i - 1] == b[i - |a| - 1];
      } else {
        assert c[i] == a[i] && c[i - 1] == a[i - 1];
      }
    }
  }

  lemma ReactInOrder(packet: seq<Byte>, now: Timestamp, seqNo: Word, payloadLen: nat, start: Timestamp, ms: int)
    requires ms > 0
    ensures WaitsInOrder([Timeval(ms)] + React(packet, now, seqNo, payloadLen, start).calls)
    ensures WaitsInOrder([Close]) && WaitsInOrder([Timeval(ms), Close])
  {
    hide RoundTrip, Remaining, IsReply, HeaderLength, Mismatch;
    var p := Clip(packet);
    if p != [] && IsReply(p, seqNo) {
      assert |Reports(p, seqNo, payloadLen)| <= 1;
    }
  }

  lemma {:induction false} AwaitInOrder(rounds: seq<Round>, seqNo: Word, payloadLen: nat, start: Timestamp, ms: int)
    ensures WaitsInOrder(Await(rounds, seqNo, payloadLen, start, ms).calls)
  {
    hide React, Timeval, WaitsInOrder;
    if ms <= 0 || rounds == [] || rounds[0].ready <= 0 {
      ReactInOrder([], start, seqNo, payloadLen, start, if ms > 0 then ms else 1);
    } else {
      ReactInOrder(rounds[0].packet, rounds[0].now, seqNo, payloadLen, start, ms);
      match React(rounds[0].packet, rounds[0].now, seqNo, payloadLen, start)
      case Return(done, rtt) =>
        InOrderAppend([Timeval(ms)] + done, [Close]);
      case Again(done, left) =>
        AwaitInOrder(rounds[1..], seqNo, payloadLen, start, left);
        InOrderAppend([Timeval(ms)] + done, Await(rounds[1..], seqNo, payloadLen, start, left).calls);
    }
  }

  /**
    On every run in which the socket opens, exactly one request is sent, right after opening: a valid echo request with
    our id, the sequence number and the pattern. If sending fails only the Close follows, else packets are read in
    order.
   */
  lemma OneRequestSent(
      socketOk: bool, sendOk: bool, rounds: seq<Round>, seqNo: Word, payloadLen: nat, start: Timestamp)
    requires 8 + payloadLen <= BUFFER_SIZE
    ensures var calls := Ping(socketOk, sendOk, rounds, seqNo, payloadLen, start).calls;
            if !socketOk then calls == [Open]
            else
              && |calls| >= 3 && calls[0] == Open && calls[1].Send?
              && WaitsInOrder(calls[2..]) && (!sendOk ==> calls[2..] == [Close])
              && var p := calls[1].request;
                 && |p| == 8 + payloadLen
                 && p[0] == 8 && p[1] == 0
                 && p[4] == 0xBD && p[5] == 0x51 && p[6] as int * 0x100 + p[7] == seqNo
                 && p[8..] == Pattern(seqNo, payloadLen)
                 && ChecksumOf(p) == 0
  {
    hide Await, EchoRequest, WaitsInOrder, Pattern, ChecksumOf;
    if socketOk {
      EchoRequestIsValid(seqNo, payloadLen);
      ReactInOrder([], start, seqNo, payloadLen, start, 1);
      AwaitInOrder(rounds, seqNo, payloadLen, start, TIMEOUT_MS);
      AwaitBehaves(rounds, seqNo, payloadLen, start, TIMEOUT_MS);
      var head := [Open, Send(EchoRequest(seqNo, payloadLen))];
      var rest := if sendOk then Await(rounds, seqNo, payloadLen, start, TIMEOUT_MS).calls else [Close];
      assert (head + rest)[2..] == rest;
    }
  }

  /** The 32-bit microsecond counter, less the longest time after which a ping still waits. */
  const LONGEST_GAP: int := 0x1_0000_0000 - 2_999_499

  /**
    From each reading of the clock that sets a new timeout to the next, the clock advances by less than `gap` and does
    not run back; `last` is the reading before the first of these.
   */
  ghost predicate SteadyClock(rounds: seq<Round>, seqNo: Word, start: Timestamp, last: Timestamp, gap: int) {
    rounds != [] && Waits(rounds[0], seqNo) ==>
      && 0 <= rounds[0].now.Micros() - last.Micros() < gap
      && (Remaining(start, rounds[0].now) > 0 ==> SteadyClock(rounds[1..], seqNo, start, rounds[0].now, gap))
  }

  /** A packet that is not our reply sets a new timeout. */
  predicate Waits(r: Round, seqNo: Word) {
    r.ready > 0 && r.packet != [] && !IsReply(Clip(r.packet), seqNo)
  }

  /** The timeouts of the Select calls, in microseconds. */
  function Timeouts(calls: seq<Call>): seq<int> {
    if calls == [] then []
    else (if calls[0].Select? then [calls[0].secs * 1_000_000 + calls[0].micro] else []) + Timeouts(calls[1..])
  }

  ghost predicate NonIncreasing(s: seq<int>, top: int) {
    && (forall i :: 0 <= i < |s| ==> s[i] <= top)
    && (forall i, j :: 0 <= i < j < |s| ==> s[j] <= s[i])
  }

  lemma NonIncreasingCons(x: int, s: seq<int>, y: int)
    requires NonIncreasing(s, y) && y <= x
    ensures NonIncreasing([x] + s, x)
  {}

  lemma NonIncreasingEmpty(x: int)
    ensures NonIncreasing([], x)
  {}

  lemma {:induction false} TimeoutsSkip(a: seq<Call>, b: seq<Call>)
    requires forall c <- a :: !c.Select?
    ensures Timeouts(a + b) == Timeouts(b)
  {
    if a == [] {
      assert a + b == b;
    } else {
      assert (a + b)[1..] == a[1..] + b;
      TimeoutsSkip(a[1..], b);
    }
  }

  lemma TimeoutsOfSelect(ms: int, done: seq<Call>, rest: seq<Call>)
    requires ms > 0 && forall c <- done :: !c.Select?
    ensures Timeouts([Timeval(ms)] + done + rest) == [ms * 1000] + Timeouts(rest)
  {
    TimeoutsSkip(done, rest);
    assert ([Timeval(ms)] + done + rest)[1..] == done + rest;
    assert ms / 1000 * 1_000_000 + ms % 1000 * 1000 == ms * 1000;
  }

  /** The wait goes on from the reading `last`, which left the timeout ms. */
  ghost predicate Since(start: Timestamp, last: Timestamp, ms: int) {
    ms == Remaining(start, last) && 0 <= last.Micros() - start.Micros() < 0x1_0000_0000
  }

  lemma {:induction false} AwaitShrinks(
      rounds: seq<Round>, seqNo: Word, payloadLen: nat, start: Timestamp, last: Timestamp, gap: int, ms: int)
    requires gap <= LONGEST_GAP && Since(start, last, ms)
    requires ms > 0 ==> SteadyClock(rounds, seqNo, start, last, gap)
    ensures var ts := Timeouts(Await(rounds, seqNo, payloadLen, start, ms).calls);
            NonIncreasing(ts, ms * 1000) && |ts| <= |rounds| + 1
  {
    hide React, Timeval, NonIncreasing, Since, Waits, Timestamp.Micros;
    assert Timeouts([Close]) == [];
    NonIncreasingEmpty(ms * 1000);
    NonIncreasingCons(ms * 1000, [], ms * 1000);
    if ms > 0 {
      if rounds == [] || rounds[0].ready <= 0 {
        assert [Timeval(ms), Close] == [Timeval(ms)] + [] + [Close];
        TimeoutsOfSelect(ms, [], [Close]);
      } else {
        ReactCalls(rounds[0].packet, rounds[0].now, seqNo, payloadLen, start);
        AgainIffWaits(rounds[0], seqNo, payloadLen, start);
        match React(rounds[0].packet, rounds[0].now, seqNo, payloadLen, start)
        case Return(done, rtt) =>
          TimeoutsOfSelect(ms, done, [Close]);
        case Again(done, left) =>
          GoesOn(start, last, rounds[0].now, ms, left);
          AwaitShrinks(rounds[1..], seqNo, payloadLen, start, rounds[0].now, gap, left);
          var rest := Await(rounds[1..], seqNo, payloadLen, start, left).calls;
          TimeoutsOfSelect(ms, done, rest);
          NonIncreasingCons(ms * 1000, Timeouts(rest), left * 1000);
      }
    }
  }

  lemma AgainIffWaits(r: Round, seqNo: Word, payloadLen: nat, start: Timestamp)
    requires r.ready > 0
    ensures React(r.packet, r.now, seqNo, payloadLen, start).Again? <==> Waits(r, seqNo)
  {
    hide IsReply, RoundTrip, Remaining;
  }

  /**
    As long as the ping waits it has waited for less than three seconds, so one more gap does not wrap the
    counter.
   */
  lemma GoesOn(start: Timestamp, last: Timestamp, now: Timestamp, ms: int, left: int)
    requires Since(start, last, ms) && ms > 0 && left == Remaining(start, now)
    requires 0 <= now.Micros() - last.Micros() < LONGEST_GAP
    ensures Since(start, now, left) && left <= ms
  {
    hide Timestamp.Micros;
    ElapsedUsExact(start, last);
    ElapsedUsExact(start, now);
    ElapsedMsMonotone(start, last, start, now);
  }

  /** With a steady clock the timeouts never grow, and there is at most one more of them than packets. */
  lemma TimeoutsShrink(rounds: seq<Round>, seqNo: Word, payloadLen: nat, start: Timestamp)
    requires SteadyClock(rounds, seqNo, start, start, LONGEST_GAP)
    ensures var ts := Timeouts(Ping(true, true, rounds, seqNo, payloadLen, start).calls);
            NonIncreasing(ts, TIMEOUT_MS * 1000) && |ts| <= |rounds| + 1
  {
    TimeoutsShrinkWithin(rounds, seqNo, payloadLen, start, LONGEST_GAP);
  }

  lemma TimeoutsShrinkWithin(rounds: seq<Round>, seqNo: Word, payloadLen: nat, start: Timestamp, gap: int)
    requires SteadyClock(rounds, seqNo, start, start, gap) && gap <= LONGEST_GAP
    ensures var ts := Timeouts(Ping(true, true, rounds, seqNo, payloadLen, start).calls);
            NonIncreasing(ts, TIMEOUT_MS * 1000) && |ts| <= |rounds| + 1
  {
    hide Await, EchoRequest, SteadyClock;
    var head := [Open, Send(EchoRequest(seqNo, payloadLen))];
    ElapsedUsExact(start, start);
    AwaitShrinks(rounds, seqNo, payloadLen, start, start, gap, TIMEOUT_MS);
    TimeoutsSkip(head, Await(rounds, seqNo, payloadLen, start, TIMEOUT_MS).calls);
  }

  /** The timeouts never grow on any run whose clock advances by less than `gap` at a time. */
  ghost predicate ShrinksWithin(seqNo: Word, payloadLen: nat, gap: int) {
    forall rounds: seq<Round>, start: Timestamp :: SteadyClock(rounds, seqNo, start, start, gap) ==>
      NonIncreasing(Timeouts(Ping(true, true, rounds, seqNo, payloadLen, start).calls), TIMEOUT_MS * 1000)
  }

  /** The bound on the gaps, some 71 minutes, is exact. */
  lemma ShrinksIff(seqNo: Word, payloadLen: nat, gap: int)
    ensures ShrinksWithin(seqNo, payloadLen, gap) <==> gap <= LONGEST_GAP
  {
    hide Ping, SteadyClock, Timeouts;
    if gap <= LONGEST_GAP {
      forall rounds: seq<Round>, start: Timestamp | SteadyClock(rounds, seqNo, start, start, gap)
        ensures NonIncreasing(Timeouts(Ping(true, true, rounds, seqNo, payloadLen, start).calls), TIMEOUT_MS * 1000)
      {
        TimeoutsShrinkWithin(rounds, seqNo, payloadLen, start, gap);
      }
    } else {
      LongGapGrows(seqNo, payloadLen);
      LongGapIsSteady(seqNo, gap);
      var ts := Timeouts(Ping(true, true, TwoForeign(Timestamp(2, 999_499), Timestamp(4294, 967_296)),
                              seqNo, payloadLen, Timestamp(0, 0)).calls);
      assert ts[2] > ts[1];
    }
  }

  /** A packet of one byte is nobody's reply. */
  lemma ForeignPacket(rest: seq<Round>, now: Timestamp, seqNo: Word, payloadLen: nat, start: Timestamp, ms: int)
    requires ms > 0
    ensures var rounds := [Round(1, [0], now)] + rest;
            Timeouts(Await(rounds, seqNo, payloadLen, start, ms).calls)
            == [ms * 1000] + Timeouts(Await(rest, seqNo, payloadLen, start, Remaining(start, now)).calls)
  {
    hide Timeouts, Remaining, Timeval;
    var rounds := [Round(1, [0], now)] + rest;
    assert rounds[1..] == rest;
    assert !IsReply([0], seqNo);
    TimeoutsOfSelect(ms, [Receive(1)], Await(rest, seqNo, payloadLen, start, Remaining(start, now)).calls);
  }

  function TwoForeign(a: Timestamp, b: Timestamp): seq<Round> {
    [Round(1, [0], a), Round(1, [0], b)]
  }

  /** The timeouts of a ping that reads two packets which are not for it. */
  lemma TwoForeignPackets(a: Timestamp, b: Timestamp, seqNo: Word, payloadLen: nat, start: Timestamp)
    requires Remaining(start, a) > 0 && Remaining(start, b) > 0
    ensures Timeouts(Ping(true, true, TwoForeign(a, b), seqNo, payloadLen, start).calls)
         == [3_000_000, Remaining(start, a) * 1000, Remaining(start, b) * 1000]
  {
    hide EchoRequest, Await, Timeouts, Remaining;
    var second := [Round(1, [0], b)];
    assert [Round(1, [0], a)] + second == TwoForeign(a, b) && second + [] == second;
    ForeignPacket(second, a, seqNo, payloadLen, start, 3000);
    ForeignPacket([], b, seqNo, payloadLen, start, Remaining(start, a));
    NoMorePackets(seqNo, payloadLen, start, Remaining(start, b));
    TimeoutsSkip([Open, Send(EchoRequest(seqNo, payloadLen))],
                 Await(TwoForeign(a, b), seqNo, payloadLen, start, 3000).calls);
  }

  /** A gap of LONGEST_GAP makes the counter wrap, and a timeout grow from one millisecond back to three seconds. */
  lemma LongGapGrows(seqNo: Word, payloadLen: nat)
    ensures Timeouts(Ping(true, true, TwoForeign(Timestamp(2, 999_499), Timestamp(4294, 967_296)),
                          seqNo, payloadLen, Timestamp(0, 0)).calls)
         == [3_000_000, 1000, 3_000_000]
  {
    var start, a, b := Timestamp(0, 0), Timestamp(2, 999_499), Timestamp(4294, 967_296);
    hide Ping, Timeouts;
    assert Remaining(start, a) == 1 by { assert ElapsedUs(start, a) == 2_999_499; }
    assert Remaining(start, b) == 3000 by { assert ElapsedUs(start, b) == 0; }
    TwoForeignPackets(a, b, seqNo, payloadLen, start);
  }

  lemma LongGapIsSteady(seqNo: Word, gap: int)
    requires gap > LONGEST_GAP
    ensures var start := Timestamp(0, 0);
            SteadyClock(TwoForeign(Timestamp(2, 999_499), Timestamp(4294, 967_296)), seqNo, start, start, gap)
  {
    hide Waits, Remaining;
    var a, b := Timestamp(2, 999_499), Timestamp(4294, 967_296);
    var rounds := TwoForeign(a, b);
    assert rounds[1..] == [Round(1, [0], b)] && rounds[1..][1..] == [];
    assert b.Micros() - a.Micros() == LONGEST_GAP;
    assert SteadyClock([], seqNo, Timestamp(0, 0), b, gap);
    assert SteadyClock(rounds[1..], seqNo, Timestamp(0, 0), a, gap);
  }

  /** So does a clock that is set back by a second while the ping waits. */
  lemma SetBackGrows(seqNo: Word, payloadLen: nat)
    ensures Timeouts(Ping(true, true, TwoForeign(Timestamp(2, 0), Timestamp(1, 0)),
                          seqNo, payloadLen, Timestamp(0, 0)).calls)
         == [3_000_000, 1_000_000, 2_000_000]
  {
    var start, a, b := Timestamp(0, 0), Timestamp(2, 0), Timestamp(1, 0);
    hide Ping, Timeouts;
    assert Remaining(start, a) == 1000 by { assert ElapsedUs(start, a) == 2_000_000; }
    assert Remaining(start, b) == 2000 by { assert ElapsedUs(start, b) == 1_000_000; }
    TwoForeignPackets(a, b, seqNo, payloadLen, start);
  }

  lemma NoMorePackets(seqNo: Word, payloadLen: nat, start: Timestamp, ms: int)
    requires ms > 0
    ensures Timeouts(Await([], seqNo, payloadLen, start, ms).calls) == [ms * 1000]
  {
    hide Timeval;
    assert [Timeval(ms), Close] == [Timeval(ms)] + [] + [Close];
    TimeoutsOfSelect(ms, [], [Close]);
    assert Timeouts([Close]) == [];
  }
}
