/**
  The two ends of the control channel together. Bytes travel in order, are cut arbitrarily, and take arbitrarily
  long; the runs considered are those in which no send or receive fails and nothing is sent on a dead connection.
 */
module HelperSession {
  import opened Machine
  import opened Decimal
  import HelperServer
  import opened HelperClient

  type Ctrl = HelperServer.Ctrl
  type Address = HelperServer.Address

  /** Where the client is: between calls without or with a connection, or inside recv_line. */
  datatype Phase = Offline | Greeting | Ready | Asking(port: int)

  /**
    up holds what the client has sent on the current connection and the helper has not received. read counts what
    the client has taken of what the helper sent on it. A new connection waits in the backlog until it is
    accepted; until then the helper may still be receiving the end of the previous one.
   */
  datatype Session = Session(
    phase: Phase, link: nat, backlog: bool, up: string, read: nat,
    helper: Ctrl, asked: seq<int>, answers: seq<bool>)

  datatype Step =
    | Dial
    | Accept(ip: Address)
    | HelperReceives(n: nat)
    | HelperSeesEnd
    | ClientGreeted
    | Ask(port: int)
    | ClientAnswered
    | Leave

  const ROOM: nat := LINE_SIZE - 1

  /** What the client has not read yet of the bytes sent on the current connection. */
  function Down(s: Session): string {
    if s.backlog || s.read > |s.helper.sent| then "" else s.helper.sent[s.read..]
  }

  /** The connection whose bytes the helper is receiving: the previous one while a new one is in the backlog. */
  function HelperLink(s: Session): nat {
    if s.backlog && s.link > 0 then s.link - 1 else s.link
  }

  predicate Enabled(s: Session, step: Step) {
    match step
    case Dial => s.phase.Offline? && s.helper.alive
    case Accept(_) => s.backlog && s.helper.alive
    case HelperReceives(n) => s.helper.conn == Some(HelperLink(s)) && 0 < n <= |s.up| && n <= 1024
    case HelperSeesEnd => s.helper.conn == Some(HelperLink(s)) && (s.backlog || s.phase.Offline?) && s.up == ""
    case ClientGreeted => s.phase.Greeting? && TakeLine(Down(s), ROOM).ended == Newline
    case Ask(port) => s.phase.Ready? && s.helper.conn == Some(s.link) && -0x8000_0000 <= port < 0x8000_0000
    case ClientAnswered => s.phase.Asking? && TakeLine(Down(s), ROOM).ended == Newline
    case Leave => s.phase.Ready? && s.helper.conn == Some(s.link)
  }

  function Apply(s: Session, step: Step): Session
    requires Enabled(s, step)
  {
    match step
    case Dial => s.(phase := Greeting, link := s.link + 1, backlog := true, read := 0)
    case Accept(ip) =>
      s.(backlog := false, up := "", helper := HelperServer.Accepted(s.helper, s.link, ip, true))
    case HelperReceives(n) => s.(up := s.up[n..], helper := HelperServer.Feed(s.helper, s.up[..n]))
    case HelperSeesEnd => s.(helper := HelperServer.Closed(s.helper))
    case ClientGreeted =>
      var l := TakeLine(Down(s), ROOM);
      s.(phase := if IsCString(Written(l), "OK") then Ready else Offline, read := s.read + l.consumed)
    case Ask(port) =>
      s.(phase := Asking(port), up := s.up + ConnectCommand(port), asked := s.asked + [port])
    case ClientAnswered =>
      var l := TakeLine(Down(s), ROOM);
      s.(phase := Ready, read := s.read + l.consumed, answers := s.answers + [IsCString(Written(l), "GO")])
    case Leave => s.(phase := Offline, up := s.up + "QUIT\n")
  }

  const START: Session :=
    Session(Offline, 0, false, "", 0, HelperServer.Ctrl(None, None, "", "", [], true), [], [])

  /** The states a run from `s` passes through all its steps to reach `t`. */
  ghost predicate Runs(s: Session, steps: seq<Step>, t: Session)
    decreases |steps|
  {
    if steps == [] then t == s
    else Enabled(s, steps[0]) && Runs(Apply(s, steps[0]), steps[1..], t)
  }

  // ---- The two commands, as the helper reads them ----

  /** The port the helper parses is the number the client printed. */
  lemma CommandRoundTrip(port: int)
    ensures HelperServer.ParseCommand("CONNECT " + PrintInt(port)) == HelperServer.Connect(Some(port))
  {
    var w := PrintInt(port);
    assert forall c <- w :: c == '-' || IsDigit(c);
    assert "" + w + "" == w && "CONNECT " + "" + w + "" == "CONNECT " + w;
    assert HelperServer.NoTextSpace(w) by {
      assert forall i :: 0 <= i < |w| ==> w[i] in w;
    }
    HelperServer.ConnectTakesSecondWord("", w, "");
    ParsePrintInt(port);
  }

  lemma QuitParses()
    ensures HelperServer.ParseCommand("QUIT") == HelperServer.Quit
  {
    HelperServer.QuitIsQuit("", "");
    assert "" + "QUIT" + "" == "QUIT";
  }

  /** A request sent to an idle helper is answered GO, and ends the helper exactly if the port is out of range. */
  lemma RequestEndsHelperIff(c: Ctrl, port: int)
    requires c.Valid() && c.conn.Some? && c.buf == ""
    ensures var d := HelperServer.Feed(c, ConnectCommand(port));
            d.sent == c.sent + "GO\n" && (d.alive <==> 0 <= port <= 65535)
  {
    hide HelperServer.ParseCommand;
    var line := "CONNECT " + PrintInt(port);
    NoNewlineInCommand(port);
    CommandRoundTrip(port);
    assert ConnectCommand(port) == line + ['\n'] + "";
    HelperServer.FirstLine(c, line, "");
  }

  /** One port too high. */
  lemma Port65536EndsHelper(c: Ctrl)
    requires c.Valid() && c.conn.Some? && c.buf == ""
    ensures ConnectCommand(65536) == "CONNECT 65536\n" && !HelperServer.Feed(c, "CONNECT 65536\n").alive
  {
    assert PrintInt(65536) == "65536" by {
      assert PrintNat(65) == "65" && PrintNat(655) == "655" && PrintNat(6553) == "6553";
    }
    RequestEndsHelperIff(c, 65536);
  }

  // ---- Receiving one command in pieces ----

  /** Part of a line only fills the buffer; its last part makes the helper obey it. */
  lemma Deliver(c: Ctrl, line: string, up: string, n: nat)
    requires c.Valid() && c.conn.Some? && '\n' !in line && c.buf + up == line + "\n" && 0 < n <= |up|
    ensures var d := HelperServer.Feed(c, up[..n]);
            if n < |up| then d == c.(buf := c.buf + up[..n]) && '\n' !in d.buf
            else d == HelperServer.Obeyed(c.(buf := ""), HelperServer.ParseCommand(line))
  {
    hide HelperServer.ParseCommand, HelperServer.Obeyed;
    var k := |c.buf|;
    assert line + "\n" == line + ['\n'];
    assert forall i :: 0 <= i < |line| ==> (c.buf + up)[i] == line[i];
    assert c.buf == line[..k];
    if n < |up| {
      assert up[..n] == line[k..k + n];
      assert c.buf + up[..n] == line[..k + n];
      HelperServer.FeedPlain(c, up[..n]);
    } else {
      assert up == (c.buf + up)[k..] == line[k..] + ['\n'];
      HelperServer.FeedAppend(c, line[k..], ['\n'] + "");
      assert line[k..] + (['\n'] + "") == up[..n];
      HelperServer.FeedPlain(c, line[k..]);
      assert c.buf + line[k..] == line;
      assert (['\n'] + "")[1..] == "";
      assert HelperServer.Feed(c.(buf := line), ['\n'] + "")
          == HelperServer.Feed(HelperServer.Byte(c.(buf := line), '\n'), "");
    }
  }

  // ---- The invariant ----

  function Ports(dials: seq<(Address, int)>): seq<int> {
    seq(|dials|, i requires 0 <= i < |dials| => dials[i].1)
  }

  predicate InRange(port: int) {
    0 <= port <= 65535
  }

  /** The requests that the helper has received and answered. */
  function Obeyed(s: Session): seq<int> {
    if s.phase.Asking? && Down(s) == "" && s.asked != [] then s.asked[..|s.asked| - 1] else s.asked
  }

  /** The previous connection is over, or only the end of its farewell is still on the way. */
  ghost predicate Leaving(s: Session) {
    && s.helper.alive
    && (|| (s.helper.conn.None? && s.up == "")
        || (s.helper.conn == Some(HelperLink(s)) && s.helper.buf + s.up == "QUIT\n" && s.up != ""))
  }

  /** The connection is up with nothing under way towards the helper, or the last port asked for ended the helper. */
  ghost predicate Quiet(s: Session) {
    && !s.backlog && s.up == "" && s.helper.buf == ""
    && (if s.helper.alive then s.helper.conn == Some(s.link) else s.helper.conn.None?)
  }

  ghost predicate InPhase(s: Session) {
    match s.phase
    case Offline => !s.backlog && Down(s) == "" && Leaving(s)
    case Greeting =>
      if s.backlog then s.read == 0 && Leaving(s) else Quiet(s) && s.helper.alive && Down(s) == "OK\n"
    case Ready => Quiet(s) && Down(s) == ""
    case Asking(port) =>
      && s.asked != [] && s.asked[|s.asked| - 1] == port && !s.backlog
      && (if Down(s) == "" then
            && s.helper.conn == Some(s.link) && s.up != ""
            && s.helper.buf + s.up == ConnectCommand(port)
          else Quiet(s) && Down(s) == "GO\n")
  }

  ghost predicate Inv(s: Session) {
    && s.helper.Valid() && '\n' !in s.helper.buf
    && (!s.backlog ==> s.read <= |s.helper.sent|)
    && InPhase(s)
    && |s.answers| == |s.asked| - (if s.phase.Asking? then 1 else 0)
    && (forall a <- s.answers :: a)
    && Ports(s.helper.dials) == Obeyed(s)
    && (s.helper.alive <==> forall p <- Obeyed(s) :: InRange(p))
  }

  lemma NoNewlineInCommand(port: int)
    ensures '\n' !in "CONNECT " + PrintInt(port)
  {
    assert forall c <- PrintInt(port) :: c == '-' || IsDigit(c);
  }

  lemma TakeReply(reply: string)
    requires reply == "OK\n" || reply == "GO\n"
    ensures TakeLine(reply, ROOM) == Line(reply[..2], 3, Newline)
  {
    WithoutCrIsIdentity(reply[..2]);
    ShortLine(reply[..2], "", ROOM);
    assert reply == reply[..2] + ['\n'] + "";
  }

  lemma StepReceives(s: Session, n: nat)
    requires Inv(s) && Enabled(s, HelperReceives(n))
    ensures Inv(Apply(s, HelperReceives(n)))
  {
    if s.phase.Asking? {
      ReceivesRequest(s, n);
    } else {
      ReceivesFarewell(s, n);
    }
  }

  lemma ReceivesRequest(s: Session, n: nat)
    requires Inv(s) && Enabled(s, HelperReceives(n)) && s.phase.Asking?
    ensures Inv(Apply(s, HelperReceives(n)))
  {
    hide HelperServer.ParseCommand, HelperServer.Obeyed, HelperServer.Feed, TakeLine, Ports, InRange, PrintInt;
    var t, port := Apply(s, HelperReceives(n)), s.phase.port;
    NoNewlineInCommand(port);
    CommandRoundTrip(port);
    Deliver(s.helper, "CONNECT " + PrintInt(port), s.up, n);
    if n == |s.up| {
      AnswersGo(s, t, port);
    } else {
      assert s.helper.buf + s.up == t.helper.buf + t.up;
    }
  }

  lemma ReceivesFarewell(s: Session, n: nat)
    requires Inv(s) && Enabled(s, HelperReceives(n)) && !s.phase.Asking?
    ensures Inv(Apply(s, HelperReceives(n)))
  {
    hide HelperServer.ParseCommand, HelperServer.Feed, TakeLine, Ports, InRange;
    var t := Apply(s, HelperReceives(n));
    QuitParses();
    assert "QUIT\n" == "QUIT" + "\n";
    Deliver(s.helper, "QUIT", s.up, n);
    assert n < |s.up| ==> s.helper.buf + s.up == t.helper.buf + t.up;
  }

  lemma PortsAppend(dials: seq<(Address, int)>, ip: Address, port: int)
    ensures Ports(dials + [(ip, port)]) == Ports(dials) + [port]
  {}

  lemma AllAppend(before: seq<int>, port: int)
    ensures (forall p <- before + [port] :: InRange(p)) <==> (forall p <- before :: InRange(p)) && InRange(port)
  {
    hide InRange;
    assert port in before + [port];
    assert forall p <- before :: p in before + [port];
  }

  /** The last byte of a request has arrived: GO is under way, and a port outside the range ends the helper. */
  lemma AnswersGo(s: Session, t: Session, port: int)
    requires Inv(s) && s.phase == Asking(port) && Down(s) == ""
    requires t == s.(up := "", helper := HelperServer.Obeyed(s.helper.(buf := ""), HelperServer.Connect(Some(port))))
    ensures Inv(t)
  {
    hide Ports, InRange, HelperServer.Obeyed, HelperServer.Fatal;
    ObeyedRequest(s.helper, port);
    assert Down(t) == "GO\n";
    var before := s.asked[..|s.asked| - 1];
    assert s.asked == before + [port];
    PortsAppend(s.helper.dials, s.helper.ip.value, port);
    AllAppend(before, port);
  }

  lemma ObeyedRequest(c: Ctrl, port: int)
    requires c.Valid() && c.conn.Some?
    ensures var d := HelperServer.Obeyed(c.(buf := ""), HelperServer.Connect(Some(port)));
            && d.Valid() && d.buf == "" && d.sent == c.sent + "GO\n" && d.dials == c.dials + [(c.ip.value, port)]
            && d.conn == (if InRange(port) then c.conn else None)
            && (d.alive <==> c.alive && InRange(port))
  {}

  lemma StepClientReads(s: Session, step: Step)
    requires Inv(s) && Enabled(s, step) && (step.ClientGreeted? || step.ClientAnswered?)
    ensures Down(s) == if step.ClientGreeted? then "OK\n" else "GO\n"
    ensures Inv(Apply(s, step))
  {
    hide TakeLine, ConnectCommand, Ports, InRange, Leaving;
    assert TakeLine("", ROOM).ended == Exhausted by { NothingToTake(ROOM); }
    TakeReply(Down(s));
  }

  lemma NothingToTake(room: nat)
    requires room > 0
    ensures TakeLine("", room).ended == Exhausted
  {}

  lemma StepAsks(s: Session, port: int)
    requires Inv(s) && Enabled(s, Ask(port))
    ensures Inv(Apply(s, Ask(port)))
  {
    hide Ports, InRange, TakeLine, PrintInt;
    var t := Apply(s, Ask(port));
    assert t.asked[..|t.asked| - 1] == s.asked;
    assert t.helper.buf + t.up == ConnectCommand(port);
  }

  lemma StepComesOrGoes(s: Session, step: Step)
    requires Inv(s) && Enabled(s, step)
    requires step.Dial? || step.Accept? || step.HelperSeesEnd? || step.Leave?
    ensures Inv(Apply(s, step))
  {
    hide Ports, InRange, TakeLine, ConnectCommand;
    if step.Leave? {
      assert s.helper.buf + (s.up + "QUIT\n") == "QUIT\n";
    }
  }

  // ---- Over all runs ----

  lemma StepKeepsInv(s: Session, step: Step)
    requires Inv(s) && Enabled(s, step)
    ensures Inv(Apply(s, step))
  {
    match step
    case HelperReceives(n) => StepReceives(s, n);
    case Ask(port) => StepAsks(s, port);
    case ClientGreeted => StepClientReads(s, step);
    case ClientAnswered => StepClientReads(s, step);
    case _ => StepComesOrGoes(s, step);
  }

  lemma {:induction false} RunKeepsInv(s: Session, steps: seq<Step>, t: Session)
    requires Inv(s) && Runs(s, steps, t)
    ensures Inv(t)
    decreases |steps|
  {
    hide Inv, Enabled, Apply;
    if steps == [] {
    } else {
      StepKeepsInv(s, steps[0]);
      RunKeepsInv(Apply(s, steps[0]), steps[1..], t);
    }
  }

  /**
    On every run: no reply is left unread between calls; every request so far was answered GO; the helper dialled
    exactly the ports that were asked for, in order, each parsed back to the number the client printed; a request
    still waiting is the only one not yet answered; and the helper is alive exactly if every port it received was
    in 0..65535.
   */
  lemma RequestsAndRepliesPair(steps: seq<Step>, t: Session)
    requires Runs(START, steps, t)
    ensures t.read <= |t.helper.sent|
    ensures t.phase.Offline? || t.phase.Ready? ==> Down(t) == ""
    ensures forall a <- t.answers :: a
    ensures |t.answers| == if t.phase.Asking? then |t.asked| - 1 else |t.asked|
    ensures t.phase.Ready? || t.phase.Offline? ==> Ports(t.helper.dials) == t.asked
    ensures t.phase.Asking? ==> Ports(t.helper.dials) == (if Down(t) == "" then t.asked[..|t.asked| - 1] else t.asked)
    ensures t.phase.Asking? ==> Down(t) == "" || Down(t) == "GO\n"
    ensures t.helper.alive <==> forall p <- Ports(t.helper.dials) :: InRange(p)
  {
    assert Inv(START) by {
      assert Ports([]) == [];
    }
    RunKeepsInv(START, steps, t);
  }

  /** An open control connection has a peer address on every run, so a well-formed CONNECT is never refused. */
  lemma OpenConnectionHasAddress(steps: seq<Step>, t: Session)
    requires Runs(START, steps, t)
    ensures t.helper.conn.Some? <==> t.helper.ip.Some?
    ensures t.helper.conn.Some? ==> t.helper.alive && '\n' !in t.helper.buf
  {
    assert Inv(START) by {
      assert Ports([]) == [];
    }
    RunKeepsInv(START, steps, t);
  }
}
