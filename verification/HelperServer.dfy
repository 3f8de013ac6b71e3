/**
  The control channel of the host helper: a line protocol over a byte stream that arrives in arbitrary chunks.
  A byte is modelled as the character with its code.
 */
module HelperServer {
  import opened Machine
  import opened Decimal

  /** A peer address as accept() reports it. */
  type Address = s: string | s != "" witness "127.0.0.1"

  // ---- Commands ----

  /** The whitespace that bytes.strip() removes. */
  predicate ByteSpace(c: char) {
    c as int == 32 || 9 <= c as int <= 13
  }

  /** The whitespace at which str.split() separates words. */
  predicate TextSpace(c: char) {
    ByteSpace(c) || 28 <= c as int <= 31
  }

  function StripLeft(s: string): string {
    if s != "" && ByteSpace(s[0]) then StripLeft(s[1..]) else s
  }

  function StripRight(s: string): string {
    if s != "" && ByteSpace(s[|s| - 1]) then StripRight(s[..|s| - 1]) else s
  }

  function Strip(s: string): string {
    StripRight(StripLeft(s))
  }

  /** decode("ascii", errors="replace"). */
  function Decode(s: string): string {
    seq(|s|, i requires 0 <= i < |s| => if s[i] as int < 128 then s[i] else '\U{FFFD}')
  }

  function WordLength(s: string): (n: nat)
    ensures n <= |s|
  {
    if s == "" || TextSpace(s[0]) then 0 else 1 + WordLength(s[1..])
  }

  /** str.split() without arguments. */
  function Split(s: string): seq<string> {
    if s == "" then []
    else if TextSpace(s[0]) then Split(s[1..])
    else [s[..WordLength(s)]] + Split(s[WordLength(s)..])
  }

  datatype Command = Connect(port: Option<int>) | Quit | Unknown

  /** What a line, without its newline, asks for; a port that is missing or not a number is None. */
  function ParseCommand(line: string): Command {
    var text := Decode(Strip(line));
    if "CONNECT " <= text then
      var words := Split(text);
      if |words| < 2 then Connect(None) else Connect(ParseInt(words[1]))
    else if text == "QUIT" then Quit
    else Unknown
  }

  /** connect() raises OverflowError, which nobody catches, for a port outside 0..65535. */
  predicate Fatal(c: Command) {
    c.Connect? && c.port.Some? && !(0 <= c.port.value <= 65535)
  }

  // ---- The state of the channel ----

  /**
    ctrl_conn, amiga_ip and ctrl_buf, with the bytes sent on the control connection since it was accepted, the
    connections attempted to the Amiga, and whether the process still runs.
   */
  datatype Ctrl = Ctrl(
    conn: Option<nat>, ip: Option<Address>, buf: string,
    sent: string, dials: seq<(Address, int)>, alive: bool)
  {
    /** amiga_ip is set exactly while a control connection is open, and only then can bytes be buffered. */
    predicate Valid() {
      && (conn.Some? <==> ip.Some?)
      && (conn.None? ==> buf == "")
      && (conn.Some? ==> alive)
    }
  }

  function Closed(s: Ctrl): Ctrl {
    if s.conn.Some? then s.(conn := None, ip := None, buf := "") else s
  }

  function Accepted(s: Ctrl, conn: nat, ip: Address, okSent: bool): Ctrl {
    var open := Closed(s).(conn := Some(conn), ip := Some(ip), buf := "", sent := if okSent then "OK\n" else "");
    if okSent then open else Closed(open)
  }

  function Sent(s: Ctrl, msg: string): Ctrl {
    if s.conn.Some? then s.(sent := s.sent + msg) else s
  }

  function Obeyed(s: Ctrl, c: Command): Ctrl {
    match c
    case Unknown => Sent(s, "FAIL unknown command\n")
    case Quit => Closed(s)
    case Connect(None) => Sent(s, "FAIL bad port\n")
    case Connect(Some(port)) =>
      if s.ip.None? then Sent(s, "FAIL no Amiga IP\n")
      else
        var dialled := Sent(s, "GO\n").(dials := s.dials + [(s.ip.value, port)]);
        if Fatal(c) then Closed(dialled).(alive := false) else dialled
  }

  /** One byte at a time: the meaning of the stream with no chunks in sight. */
  function Byte(s: Ctrl, c: char): Ctrl {
    if s.conn.None? then s
    else if c == '\n' then Obeyed(s.(buf := ""), ParseCommand(s.buf))
    else s.(buf := s.buf + [c])
  }

  function Feed(s: Ctrl, data: string): Ctrl
    decreases |data|
  {
    if data == "" then s else Feed(Byte(s, data[0]), data[1..])
  }

  // ---- The code ----

  class Helper {
    var ctrlConn: Option<nat>
    var amigaIp: Option<Address>
    var ctrlBuf: string
    ghost var sent: string
    ghost var dials: seq<(Address, int)>
    var alive: bool

    ghost function State(): Ctrl
      reads this
    {
      Ctrl(ctrlConn, amigaIp, ctrlBuf, sent, dials, alive)
    }

    ghost predicate Valid()
      reads this
    {
      State().Valid() && '\n' !in ctrlBuf
    }

    constructor ()
      ensures Valid() && State() == Ctrl(None, None, "", "", [], true)
    {
      ctrlConn, amigaIp, ctrlBuf, alive := None, None, "", true;
      sent, dials := "", [];
    }

    method CloseCtrl()
      modifies this
      ensures State() == Closed(old(State()))
    {
      if ctrlConn.Some? {
        ctrlConn, amigaIp, ctrlBuf := None, None, "";
      }
    }

    method CtrlSend(msg: string)
      modifies this
      ensures State() == Sent(old(State()), msg)
    {
      if ctrlConn.Some? {
        sent := sent + msg;
      }
    }

    /** A new connection replaces the previous one; okSent tells whether the greeting could be sent. */
    method AcceptCtrl(conn: nat, ip: Address, okSent: bool)
      requires Valid() && alive
      modifies this
      ensures Valid() && State() == Accepted(old(State()), conn, ip, okSent)
    {
      if ctrlConn.Some? {
        CloseCtrl();
      }
      amigaIp, ctrlConn, ctrlBuf := Some(ip), Some(conn), "";
      sent := if okSent then "OK\n" else "";
      if !okSent {
        CloseCtrl();
      }
    }

    /** Answers GO before dialling; raised tells that connect() threw something other than an OSError. */
    method HandleConnect(port: int) returns (raised: bool)
      requires State().Valid()
      modifies this
      ensures raised == (old(amigaIp).Some? && !(0 <= port <= 65535)) && ctrlBuf == old(ctrlBuf)
      ensures raised ==> Closed(State()).(alive := false) == Obeyed(old(State()), Connect(Some(port)))
      ensures !raised ==> State() == Obeyed(old(State()), Connect(Some(port)))
    {
      if amigaIp.None? {
        CtrlSend("FAIL no Amiga IP\n");
        return false;
      }
      CtrlSend("GO\n");
      dials := dials + [(amigaIp.value, port)];
      return !(0 <= port <= 65535);
    }

    method ProcessCtrlCommand(line: string) returns (raised: bool)
      requires State().Valid()
      modifies this
      ensures ctrlBuf == "" || ctrlBuf == old(ctrlBuf)
      ensures raised ==> Closed(State()).(alive := false) == Obeyed(old(State()), ParseCommand(line))
      ensures !raised ==> State() == Obeyed(old(State()), ParseCommand(line))
    {
      raised := false;
      var text := Decode(Strip(line));
      if "CONNECT " <= text {
        var words := Split(text);
        var port := if |words| < 2 then None else ParseInt(words[1]);
        if port.None? {
          CtrlSend("FAIL bad port\n");
        } else {
          raised := HandleConnect(port.value);
        }
      } else if text == "QUIT" {
        CloseCtrl();
      } else {
        CtrlSend("FAIL unknown command\n");
      }
    }

    /**
      An event on a control connection: data is what recv returned, empty at end of stream or on error. A connection
      that is not the current one has been closed, so recv fails on it. An exception that escapes ends the process,
      which closes the control connection on the way out.
     */
    method HandleCtrl(sock: nat, data: string)
      requires Valid() && (data != "" ==> ctrlConn == Some(sock))
      modifies this
      ensures Valid()
      ensures State() == if data == "" then Closed(old(State())) else Feed(old(State()), data)
    {
      if data == "" {
        CloseCtrl();
        return;
      }
      hide Feed, Obeyed, Pending, Closed;
      ghost var target := Feed(State(), data);
      BufferedInput(State(), data);
      ctrlBuf := ctrlBuf + data;
      while '\n' in ctrlBuf
        invariant State().Valid()
        invariant Pending(State()) == target
        decreases |ctrlBuf|
      {
        var at := IndexOf(ctrlBuf, '\n');
        var line, rest := ctrlBuf[..at], ctrlBuf[at + 1..];
        OneLine(State(), line, rest);
        ctrlBuf := rest;
        var raised := ProcessCtrlCommand(line);
        if raised {
          CloseCtrl();
          alive := false;
          return;
        }
      }
      NothingPending(State());
    }

    /** The event loop as far as one control connection goes: its readable events in order, until it is closed. */
    method Serve(chunks: seq<string>)
      requires Valid() && ctrlConn.Some? && "" !in chunks
      modifies this
      ensures Valid() && State() == Feed(old(State()), Flatten(chunks))
    {
      hide Feed;
      FeedPlain(State(), "");
      for i := 0 to |chunks|
        invariant Valid() && State() == Feed(old(State()), Flatten(chunks[..i]))
      {
        FlattenLast(chunks[..i + 1]);
        assert chunks[..i + 1][..i] == chunks[..i];
        FeedAppend(old(State()), Flatten(chunks[..i]), chunks[i]);
        if ctrlConn.None? {
          FeedClosed(State(), chunks[i]);
        } else {
          HandleCtrl(ctrlConn.value, chunks[i]);
        }
      }
      assert chunks[..|chunks|] == chunks;
    }
  }

  /** The stream that a list of chunks was cut from. */
  function Flatten(chunks: seq<string>): string {
    if chunks == [] then "" else Flatten(chunks[..|chunks| - 1]) + chunks[|chunks| - 1]
  }

  lemma FlattenLast(chunks: seq<string>)
    requires chunks != []
    ensures Flatten(chunks) == Flatten(chunks[..|chunks| - 1]) + chunks[|chunks| - 1]
  {}

  function IndexOf(s: string, c: char): (i: nat)
    requires c in s
    ensures i < |s| && s[i] == c && c !in s[..i]
  {
    if s[0] == c then 0 else 1 + IndexOf(s[1..], c)
  }

  // ---- Chunks do not matter ----

  lemma {:induction false} FeedAppend(s: Ctrl, a: string, b: string)
    ensures Feed(s, a + b) == Feed(Feed(s, a), b)
    decreases |a|
  {
    hide Byte;
    if a == "" {
      assert a + b == b;
    } else {
      assert (a + b)[1..] == a[1..] + b;
      FeedAppend(Byte(s, a[0]), a[1..], b);
    }
  }

  lemma {:induction false} FeedClosed(s: Ctrl, data: string)
    requires s.conn.None?
    ensures Feed(s, data) == s
  {
    if data == "" {
    } else {
      FeedClosed(s, data[1..]);
    }
  }

  /** Bytes without a newline only collect in the buffer. */
  lemma {:induction false} FeedPlain(s: Ctrl, data: string)
    requires s.Valid() && '\n' !in data
    ensures Feed(s, data) == if s.conn.None? then s else s.(buf := s.buf + data)
    decreases |data|
  {
    if s.conn.None? {
      FeedClosed(s, data);
    } else if data == "" {
      assert s.buf + data == s.buf;
    } else {
      FeedPlain(Byte(s, data[0]), data[1..]);
      assert s.buf + data == (s.buf + [data[0]]) + data[1..];
    }
  }

  /** What becomes of the buffered bytes once they are all processed. */
  function Pending(s: Ctrl): Ctrl {
    Feed(s.(buf := ""), s.buf)
  }

  lemma NothingPending(s: Ctrl)
    requires s.Valid() && '\n' !in s.buf
    ensures Pending(s) == s
  {
    FeedPlain(s.(buf := ""), s.buf);
    assert "" + s.buf == s.buf;
  }

  lemma BufferedInput(s: Ctrl, data: string)
    requires s.Valid() && '\n' !in s.buf && s.conn.Some?
    ensures Pending(s.(buf := s.buf + data)) == Feed(s, data)
  {
    FeedAppend(s.(buf := ""), s.buf, data);
    NothingPending(s);
  }

  lemma ObeyedIgnoresBuffer(s: Ctrl, c: Command, buf: string)
    requires s.Valid() && s.conn.Some?
    ensures var a, b := Obeyed(s.(buf := ""), c), Obeyed(s.(buf := buf), c);
            && b.Valid()
            && (a.conn.Some? ==> b == a.(buf := buf) && a.buf == "")
            && (a.conn.None? && s.conn.Some? ==> b == a)
  {}

  /** Taking the first line out of the buffer and obeying it leaves the same work pending. */
  lemma OneLine(s: Ctrl, line: string, rest: string)
    requires s.Valid() && s.buf == line + ['\n'] + rest && '\n' !in line
    ensures var next := Obeyed(s.(buf := rest), ParseCommand(line));
            && next.Valid()
            && Pending(next) == Pending(s)
            && (next.conn.None? ==> Pending(next) == next)
  {
    hide ParseCommand, Obeyed;
    var c := ParseCommand(line);
    var empty := s.(buf := "");
    assert s.conn.Some?;
    assert s.buf == line + (['\n'] + rest);
    FeedAppend(empty, line, ['\n'] + rest);
    FeedPlain(empty, line);
    assert "" + line == line;
    assert (['\n'] + rest)[1..] == rest;
    assert Pending(s) == Feed(Obeyed(empty, c), rest);
    ObeyedIgnoresBuffer(s, c, rest);
    if Obeyed(empty, c).conn.None? {
      FeedClosed(Obeyed(empty, c), rest);
      FeedClosed(Obeyed(empty, c), Obeyed(empty, c).buf);
    }
  }

  // ---- What a connection amounts to: lines, replies and connections made ----

  /** The newline-terminated lines of a stream, without their newlines. */
  function Lines(s: string): seq<string> {
    if '\n' !in s then [] else
      var i := IndexOf(s, '\n');
      [s[..i]] + Lines(s[i + 1..])
  }

  /** What follows the last newline. */
  function Tail(s: string): string {
    if '\n' !in s then s else Tail(s[IndexOf(s, '\n') + 1..])
  }

  /** The commands that end a connection. */
  predicate Terminal(line: string) {
    var c := ParseCommand(line);
    c.Quit? || Fatal(c)
  }

  /** The lines up to and including the first that ends the connection. */
  function Processed(lines: seq<string>): seq<string> {
    if lines == [] then []
    else if Terminal(lines[0]) then [lines[0]]
    else [lines[0]] + Processed(lines[1..])
  }

  /** A well-formed CONNECT is always answered GO on an open connection. */
  function ReplyTo(line: string): string {
    match ParseCommand(line)
    case Quit => ""
    case Unknown => "FAIL unknown command\n"
    case Connect(None) => "FAIL bad port\n"
    case Connect(Some(_)) => "GO\n"
  }

  function Replies(lines: seq<string>): string {
    if lines == [] then "" else ReplyTo(lines[0]) + Replies(lines[1..])
  }

  function Dials(ip: Address, lines: seq<string>): seq<(Address, int)> {
    if lines == [] then []
    else
      var c := ParseCommand(lines[0]);
      (if c.Connect? && c.port.Some? then [(ip, c.port.value)] else []) + Dials(ip, lines[1..])
  }

  predicate Stops(lines: seq<string>) {
    lines != [] && Terminal(lines[|lines| - 1])
  }

  /** What has to hold after an open connection, its buffer empty, has taken in the whole input. */
  ghost predicate Served(s: Ctrl, input: string, t: Ctrl)
    requires s.ip.Some?
  {
    var done := Processed(Lines(input));
    && t.sent == s.sent + Replies(done)
    && t.dials == s.dials + Dials(s.ip.value, done)
    && (!Stops(done) ==> t.conn == s.conn && t.ip == s.ip && t.buf == Tail(input) && t.alive)
    && (Stops(done) ==> t.conn.None? && t.ip.None? && t.buf == "" &&
                        (t.alive <==> ParseCommand(done[|done| - 1]).Quit?))
  }

  /** The first line alone. */
  lemma ServeOne(s: Ctrl, line: string)
    requires s.Valid() && s.conn.Some? && s.buf == ""
    ensures var t := Obeyed(s, ParseCommand(line));
            && t.Valid()
            && t.sent == s.sent + ReplyTo(line)
            && t.dials == s.dials + Dials(s.ip.value, [line])
            && (if Terminal(line) then t.conn.None? && t.ip.None? && (t.alive <==> ParseCommand(line).Quit?)
                else t.conn == s.conn && t.ip == s.ip && t.buf == "")
  {
    hide ParseCommand;
    assert [line][1..] == [];
    assert Dials(s.ip.value, [line][1..]) == [];
  }

  lemma {:induction false} ServeAll(s: Ctrl, input: string)
    requires s.Valid() && s.conn.Some? && s.buf == ""
    ensures Served(s, input, Feed(s, input))
    decreases |input|
  {
    hide ParseCommand, Obeyed, Feed, Served, Terminal;
    if '\n' !in input {
      FeedPlain(s, input);
      ServedNothing(s, input);
    } else {
      var i := IndexOf(input, '\n');
      var line, rest := input[..i], input[i + 1..];
      var t := Obeyed(s, ParseCommand(line));
      assert input == line + ['\n'] + rest;
      FirstLine(s, line, rest);
      ServeOne(s, line);
      if Terminal(line) {
        FeedClosed(t, rest);
        ServedLast(s, line, rest, t);
      } else {
        ServeAll(t, rest);
        ServedCons(s, line, rest, t, Feed(t, rest));
      }
    }
  }

  lemma ServedNothing(s: Ctrl, input: string)
    requires s.Valid() && s.conn.Some? && s.buf == "" && '\n' !in input
    ensures Served(s, input, s.(buf := s.buf + input))
  {
    assert "" + input == input;
    assert s.sent + "" == s.sent && s.dials + [] == s.dials;
  }

  lemma LinesCons(line: string, rest: string)
    requires '\n' !in line
    ensures Lines(line + ['\n'] + rest) == [line] + Lines(rest)
    ensures Tail(line + ['\n'] + rest) == Tail(rest)
  {
    var s := line + ['\n'] + rest;
    IndexAfter(line, rest);
    assert s[..|line|] == line;
    assert s[|line| + 1..] == rest;
  }

  lemma {:induction false} IndexAfter(line: string, rest: string)
    requires '\n' !in line
    ensures '\n' in line + ['\n'] + rest
    ensures IndexOf(line + ['\n'] + rest, '\n') == |line|
  {
    var s := line + ['\n'] + rest;
    assert s[|line|] == '\n';
    if line == "" {
    } else {
      IndexAfter(line[1..], rest);
      assert s[1..] == line[1..] + ['\n'] + rest;
    }
  }

  lemma ServedLast(s: Ctrl, line: string, rest: string, t: Ctrl)
    requires s.ip.Some? && '\n' !in line && Terminal(line) && t.Valid()
    requires t.sent == s.sent + ReplyTo(line) && t.dials == s.dials + Dials(s.ip.value, [line])
    requires t.conn.None? && t.ip.None? && (t.alive <==> ParseCommand(line).Quit?)
    ensures Served(s, line + ['\n'] + rest, t)
  {
    hide ParseCommand, Terminal, ReplyTo, Lines, Dials;
    LinesCons(line, rest);
    assert Processed([line] + Lines(rest)) == [line];
    assert [line][1..] == [];
    assert Replies([line]) == ReplyTo(line) + "";
  }

  lemma ServedCons(s: Ctrl, line: string, rest: string, t: Ctrl, u: Ctrl)
    requires s.ip.Some? && '\n' !in line && !Terminal(line)
    requires t.sent == s.sent + ReplyTo(line) && t.dials == s.dials + Dials(s.ip.value, [line])
    requires t.conn == s.conn && t.ip == s.ip && Served(t, rest, u)
    ensures Served(s, line + ['\n'] + rest, u)
  {
    hide ParseCommand, Terminal, ReplyTo, Lines, Dials, Tail;
    LinesCons(line, rest);
    var done := Processed(Lines(rest));
    assert ([line] + Lines(rest))[1..] == Lines(rest);
    assert Processed([line] + Lines(rest)) == [line] + done;
    DialsCons(s.ip.value, line, done);
    RepliesCons(line, done);
    assert Stops([line] + done) == Stops(done);
  }

  lemma DialsCons(ip: Address, line: string, rest: seq<string>)
    ensures Dials(ip, [line] + rest) == Dials(ip, [line]) + Dials(ip, rest)
  {
    hide ParseCommand;
    assert [line][1..] == [] && Dials(ip, [line][1..]) == [];
    assert ([line] + rest)[1..] == rest;
  }

  lemma RepliesCons(line: string, rest: seq<string>)
    ensures Replies([line] + rest) == ReplyTo(line) + Replies(rest)
  {
    hide ParseCommand, ReplyTo;
    assert ([line] + rest)[1..] == rest;
  }

  lemma FirstLine(s: Ctrl, line: string, rest: string)
    requires s.Valid() && s.conn.Some? && s.buf == "" && '\n' !in line
    ensures Feed(s, line + ['\n'] + rest) == Feed(Obeyed(s, ParseCommand(line)), rest)
  {
    hide ParseCommand, Obeyed;
    assert line + ['\n'] + rest == line + (['\n'] + rest);
    FeedAppend(s, line, ['\n'] + rest);
    FeedPlain(s, line);
    assert "" + line == line;
    assert (['\n'] + rest)[1..] == rest;
    assert s.(buf := line).(buf := "") == s;
  }

  /**
    However the stream is cut, an open connection obeys exactly the newline-terminated lines up to and including
    the first QUIT (or the first CONNECT to a port outside 0..65535, which ends the process), answers each of them
    but QUIT, and otherwise holds exactly the tail after the last newline.
   */
  lemma HelperServesLines(s: Ctrl, chunks: seq<string>)
    requires s.Valid() && s.conn.Some? && '\n' !in s.buf
    ensures Served(s, s.buf + Flatten(chunks), Feed(s, Flatten(chunks)))
  {
    hide Feed, Flatten;
    var data := Flatten(chunks);
    var empty := s.(buf := "");
    BufferedInput(s, data);
    ServeAll(empty, s.buf + data);
  }

  lemma {:induction false} ProcessedIsPrefix(lines: seq<string>)
    ensures var done := Processed(lines);
            && done <= lines
            && (forall i :: 0 <= i < |done| - 1 ==> !Terminal(done[i]))
            && (!Stops(done) ==> done == lines)
  {
    hide Terminal;
    if lines != [] && !Terminal(lines[0]) {
      ProcessedIsPrefix(lines[1..]);
    }
  }

  /** How many newlines, and so how many replies, a byte string contains. */
  function Newlines(s: string): nat {
    if s == "" then 0 else (if s[0] == '\n' then 1 else 0) + Newlines(s[1..])
  }

  lemma {:induction false} NewlinesAppend(a: string, b: string)
    ensures Newlines(a + b) == Newlines(a) + Newlines(b)
  {
    if a == "" {
      assert a + b == b;
    } else {
      assert (a + b)[1..] == a[1..] + b;
      NewlinesAppend(a[1..], b);
    }
  }

  lemma {:induction false} NoNewlines(s: string)
    requires '\n' !in s
    ensures Newlines(s) == 0
  {
    if s == "" {
    } else {
      NoNewlines(s[1..]);
    }
  }

  lemma OneNewline(body: string)
    requires '\n' !in body
    ensures Newlines(body + ['\n']) == 1
  {
    NewlinesAppend(body, ['\n']);
    NoNewlines(body);
    assert ['\n'][1..] == "";
  }

  lemma FixedReplies()
    ensures Newlines("FAIL unknown command\n") == Newlines("FAIL bad port\n") == Newlines("GO\n") == 1
    ensures Newlines("") == 0
  {
    hide Newlines;
    OneNewline("FAIL unknown command");
    OneNewline("FAIL bad port");
    OneNewline("GO");
    NoNewlines("");
    assert "FAIL unknown command" + ['\n'] == "FAIL unknown command\n";
    assert "FAIL bad port" + ['\n'] == "FAIL bad port\n";
    assert "GO" + ['\n'] == "GO\n";
  }

  lemma ReplyIsOneLine(line: string)
    ensures Newlines(ReplyTo(line)) == if ParseCommand(line).Quit? then 0 else 1
  {
    hide ParseCommand, Newlines;
    FixedReplies();
  }

  /** One reply for every line processed except QUIT. */
  lemma {:induction false} OneReplyPerLine(lines: seq<string>)
    ensures var done := Processed(lines);
            Newlines(Replies(done)) ==
            |done| - if Stops(done) && ParseCommand(done[|done| - 1]).Quit? then 1 else 0
  {
    hide ParseCommand, ReplyTo, Newlines, Replies, Terminal;
    NoNewlines("");
    assert Replies([]) == "" by { ReplyToNothing(); }
    if lines == [] {
    } else {
      var line := lines[0];
      ReplyIsOneLine(line);
      if Terminal(line) {
        RepliesCons(line, []);
        assert [line] + [] == [line];
        NewlinesAppend(ReplyTo(line), "");
        QuitIsTerminal(line);
      } else {
        OneReplyPerLine(lines[1..]);
        var rest := Processed(lines[1..]);
        RepliesCons(line, rest);
        NewlinesAppend(ReplyTo(line), Replies(rest));
        QuitIsTerminal(line);
      }
    }
  }

  lemma ReplyToNothing()
    ensures Replies([]) == ""
  {}

  lemma QuitIsTerminal(line: string)
    ensures ParseCommand(line).Quit? ==> Terminal(line)
  {
    hide ParseCommand;
  }

  /** The process survives a stream exactly when no line it processes names a port outside 0..65535. */
  lemma SurvivesIff(s: Ctrl, data: string)
    requires s.Valid() && s.conn.Some? && '\n' !in s.buf
    ensures Feed(s, data).alive <==> forall l <- Processed(Lines(s.buf + data)) :: !Fatal(ParseCommand(l))
  {
    hide Feed, ParseCommand, Processed;
    BufferedInput(s, data);
    ServeAll(s.(buf := ""), s.buf + data);
    var done := Processed(Lines(s.buf + data));
    ProcessedIsPrefix(Lines(s.buf + data));
    forall l | l in done && Fatal(ParseCommand(l)) ensures Stops(done) && l == done[|done| - 1] {
      assert Terminal(l);
    }
    if Stops(done) {
      assert done[|done| - 1] in done;
    }
  }

  // ---- What a line means ----

  predicate AllSpace(s: string) {
    forall i :: 0 <= i < |s| ==> ByteSpace(s[i])
  }

  /** A text that neither starts nor ends with whitespace. */
  predicate Trimmed(s: string) {
    s == "" || (!ByteSpace(s[0]) && !ByteSpace(s[|s| - 1]))
  }

  lemma {:induction false} StripLeftAll(a: string, s: string)
    requires AllSpace(a) && (s == "" || !ByteSpace(s[0]))
    ensures StripLeft(a + s) == s
  {
    if a == "" {
      assert a + s == s;
    } else {
      assert (a + s)[1..] == a[1..] + s;
      StripLeftAll(a[1..], s);
    }
  }

  lemma {:induction false} StripRightAll(s: string, b: string)
    requires AllSpace(b) && (s == "" || !ByteSpace(s[|s| - 1]))
    ensures StripRight(s + b) == s
  {
    if b == "" {
      assert s + b == s;
    } else {
      assert (s + b)[..|s + b| - 1] == s + b[..|b| - 1];
      StripRightAll(s, b[..|b| - 1]);
    }
  }

  /** Stripping takes away the whitespace around a text, and nothing else. */
  lemma StripIs(a: string, s: string, b: string)
    requires AllSpace(a) && AllSpace(b) && Trimmed(s)
    ensures Strip(a + s + b) == s
  {
    if s == "" {
      StripLeftAll(a + b, "");
      assert a + s + b == (a + b) + "";
    } else {
      assert a + s + b == a + (s + b);
      StripLeftAll(a, s + b);
      StripRightAll(s, b);
    }
  }

  lemma DecodeKeepsAscii(s: string)
    requires forall c <- s :: c as int < 128
    ensures Decode(s) == s
  {
    forall i | 0 <= i < |s| ensures Decode(s)[i] == s[i] {
      assert s[i] in s;
    }
  }

  /** QUIT is recognised with any whitespace around it, as when the line ends in a carriage return. */
  lemma QuitIsQuit(a: string, b: string)
    requires AllSpace(a) && AllSpace(b)
    ensures ParseCommand(a + "QUIT" + b) == Quit
  {
    hide Strip, Decode;
    StripIs(a, "QUIT", b);
    DecodeKeepsAscii("QUIT");
  }

  /** A line is unknown exactly if, stripped, it is neither QUIT nor begins with CONNECT and a blank. */
  lemma UnknownIff(a: string, s: string, b: string)
    requires AllSpace(a) && AllSpace(b) && Trimmed(s)
    ensures ParseCommand(a + s + b) == Unknown <==> s != "QUIT" && !("CONNECT " <= s)
    ensures ParseCommand(a + s + b) == Quit <==> s == "QUIT"
  {
    hide Strip;
    StripIs(a, s, b);
    DecodeFixes(s);
  }

  /** Decoding changes no ASCII character into another, and none that is not ASCII into an ASCII one. */
  lemma DecodeFixes(s: string)
    ensures Decode(s) == "QUIT" <==> s == "QUIT"
    ensures "CONNECT " <= Decode(s) <==> "CONNECT " <= s
  {
    var d := Decode(s);
    assert forall i :: 0 <= i < |s| ==> (d[i] as int < 128 ==> d[i] == s[i]) && (s[i] as int < 128 ==> d[i] == s[i]);
    DecodePrefix(s, "QUIT");
    DecodePrefix(s, "CONNECT ");
    assert d == "QUIT" <==> |d| == 4 && "QUIT" <= d;
    assert s == "QUIT" <==> |s| == 4 && "QUIT" <= s;
  }

  lemma DecodePrefix(s: string, word: string)
    requires forall i :: 0 <= i < |word| ==> word[i] as int < 128
    ensures word <= Decode(s) <==> word <= s
  {
    var d := Decode(s);
    assert word <= d <==> |word| <= |s| && forall i :: 0 <= i < |word| ==> word[i] == d[i];
    assert word <= s <==> |word| <= |s| && forall i :: 0 <= i < |word| ==> word[i] == s[i];
    assert forall i :: 0 <= i < |s| ==> d[i] == if s[i] as int < 128 then s[i] else '\U{FFFD}';
  }

  predicate AllTextSpace(s: string) {
    forall i :: 0 <= i < |s| ==> TextSpace(s[i])
  }

  predicate NoTextSpace(s: string) {
    forall i :: 0 <= i < |s| ==> !TextSpace(s[i])
  }

  lemma {:induction false} WordLengthIs(w: string, rest: string)
    requires NoTextSpace(w) && (rest == "" || TextSpace(rest[0]))
    ensures WordLength(w + rest) == |w|
  {
    if w == "" {
      assert w + rest == rest;
    } else {
      assert (w + rest)[1..] == w[1..] + rest;
      WordLengthIs(w[1..], rest);
    }
  }

  lemma {:induction false} SplitSkips(a: string, s: string)
    requires AllTextSpace(a)
    ensures Split(a + s) == Split(s)
  {
    hide WordLength;
    if a == "" {
      assert a + s == s;
    } else {
      assert (a + s)[1..] == a[1..] + s;
      SplitSkips(a[1..], s);
    }
  }

  lemma SplitTakes(w: string, rest: string)
    requires w != "" && NoTextSpace(w) && (rest == "" || TextSpace(rest[0]))
    ensures Split(w + rest) == [w] + Split(rest)
  {
    hide WordLength;
    WordLengthIs(w, rest);
    assert (w + rest)[0] == w[0];
    assert (w + rest)[..|w|] == w && (w + rest)[|w|..] == rest;
  }

  /** The port of a CONNECT is its second word; what follows that word is not looked at. */
  lemma ConnectTakesSecondWord(gap: string, w: string, rest: string)
    requires AllTextSpace(gap) && w != "" && NoTextSpace(w)
    requires rest == "" || (TextSpace(rest[0]) && !ByteSpace(rest[|rest| - 1]))
    requires forall c <- gap + w + rest :: c as int < 128
    ensures ParseCommand("CONNECT " + gap + w + rest) == Connect(ParseInt(w))
  {
    hide Strip, Decode, Split, ParseInt;
    var line := "CONNECT " + gap + w + rest;
    ConnectIsTrimmed(gap, w, rest);
    ConnectIsAscii(gap + w + rest);
    assert line == "CONNECT " + (gap + w + rest);
    DecodeKeepsAscii(line);
    ConnectWords(gap, w, rest);
    assert "CONNECT " <= line;
  }

  lemma ConnectIsTrimmed(gap: string, w: string, rest: string)
    requires w != "" && NoTextSpace(w) && (rest == "" || !ByteSpace(rest[|rest| - 1]))
    ensures var line := "CONNECT " + gap + w + rest;
            Strip(line) == line
  {
    hide Strip;
    var line := "CONNECT " + gap + w + rest;
    assert line[|line| - 1] == if rest == "" then w[|w| - 1] else rest[|rest| - 1];
    assert !TextSpace(w[|w| - 1]);
    assert "" + line + "" == line;
    StripIs("", line, "");
  }

  lemma ConnectWords(gap: string, w: string, rest: string)
    requires AllTextSpace(gap) && w != "" && NoTextSpace(w) && (rest == "" || TextSpace(rest[0]))
    ensures Split("CONNECT " + gap + w + rest) == ["CONNECT", w] + Split(rest)
  {
    hide Split;
    var behind := [' '] + gap + (w + rest);
    assert "CONNECT " + gap + w + rest == "CONNECT" + behind;
    SplitTakes("CONNECT", behind);
    SplitSkips([' '] + gap, w + rest);
    SplitTakes(w, rest);
    assert ["CONNECT"] + ([w] + Split(rest)) == ["CONNECT", w] + Split(rest);
  }

  lemma ConnectIsAscii(s: string)
    requires forall c <- s :: c as int < 128
    ensures forall c <- "CONNECT " + s :: c as int < 128
  {
    PlainConnect();
  }

  lemma PlainConnect()
    ensures forall c <- "CONNECT " :: c as int < 128
  {}

  /** CONNECT with nothing but blanks behind it is not known, since the line is stripped first. */
  lemma LoneConnectIsUnknown(b: string)
    requires AllSpace(b)
    ensures ParseCommand("CONNECT" + b) == Unknown
  {
    assert "" + "CONNECT" + b == "CONNECT" + b;
    UnknownIff("", "CONNECT", b);
  }

  /** The answers to a line that is not obeyed, in their own words. */
  lemma Refusals(s: Ctrl, line: string)
    requires s.Valid() && s.conn.Some? && s.buf == "" && '\n' !in line
    ensures ParseCommand(line) == Unknown ==>
              Feed(s, line + ['\n']) == s.(sent := s.sent + "FAIL unknown command\n")
    ensures ParseCommand(line) == Connect(None) ==>
              Feed(s, line + ['\n']) == s.(sent := s.sent + "FAIL bad port\n")
  {
    hide ParseCommand;
    assert line + ['\n'] == line + ['\n'] + "";
    FirstLine(s, line, "");
  }

  /** Whoever connected last is dialled, on the port that was asked for. */
  lemma DialsThePeer(s: Ctrl, conn: nat, ip: Address, line: string, port: int)
    requires s.Valid() && s.alive && '\n' !in line && ParseCommand(line) == Connect(Some(port))
    ensures var t := Feed(Accepted(s, conn, ip, true), line + ['\n']);
            t.sent == "OK\nGO\n" && t.dials == s.dials + [(ip, port)]
  {
    hide ParseCommand;
    assert line + ['\n'] == line + ['\n'] + "";
    var u := Accepted(s, conn, ip, true);
    FirstLine(u, line, "");
  }

  // ---- Batches of events ----

  /** A connection to accept, with its peer and whether the greeting can be sent; or a readable connection. */
  datatype Event =
    | Accept(conn: nat, ip: Address, okSent: bool)
    | Readable(sock: nat, data: string)

  /** What one event does. A connection that is not the current one is closed, so recv on it fails. */
  function Handled(s: Ctrl, e: Event): Ctrl {
    if !s.alive then s
    else
      match e
      case Accept(conn, ip, okSent) => Accepted(s, conn, ip, okSent)
      case Readable(sock, data) => if s.conn == Some(sock) && data != "" then Feed(s, data) else Closed(s)
  }

  function HandledAll(s: Ctrl, events: seq<Event>): Ctrl
    decreases |events|
  {
    if events == [] then s else HandledAll(Handled(s, events[0]), events[1..])
  }

  lemma {:induction false} HandledAppend(s: Ctrl, a: seq<Event>, b: seq<Event>)
    ensures HandledAll(s, a + b) == HandledAll(HandledAll(s, a), b)
    decreases |a|
  {
    hide Handled;
    if a == [] {
      assert a + b == b;
    } else {
      assert (a + b)[1..] == a[1..] + b;
      HandledAppend(Handled(s, a[0]), a[1..], b);
    }
  }

  /** Bytes for the connection, and nothing else. */
  predicate Delivers(e: Event, conn: nat) {
    e.Readable? && e.sock == conn && e.data != ""
  }

  function Stream(events: seq<Event>): string {
    if events == [] then ""
    else (if events[0].Readable? then events[0].data else "") + Stream(events[1..])
  }

  ghost predicate Sound(s: Ctrl) {
    s.Valid() && '\n' !in s.buf
  }

  lemma {:induction false} FeedSound(s: Ctrl, data: string)
    requires Sound(s)
    ensures Sound(Feed(s, data)) && (s.conn.None? ==> Feed(s, data) == s)
    ensures Feed(s, data).conn.None? || Feed(s, data).conn == s.conn
    decreases |data|
  {
    hide ParseCommand;
    if s.conn.None? {
      FeedClosed(s, data);
    } else if data != "" {
      FeedSound(Byte(s, data[0]), data[1..]);
    }
  }

  /** Without a new connection a closed channel stays closed. */
  lemma {:induction false} ClosedStays(s: Ctrl, events: seq<Event>)
    requires s.conn.None? && forall e <- events :: e.Readable?
    ensures HandledAll(s, events).conn.None?
    decreases |events|
  {
    hide Feed;
    if events == [] {
    } else {
      assert events[0] in events;
      ClosedStays(Handled(s, events[0]), events[1..]);
    }
  }

  /** As long as only bytes for it arrive, the connection sees one stream. */
  lemma {:induction false} DeliveredIsFed(s: Ctrl, conn: nat, events: seq<Event>)
    requires Sound(s) && s.alive && s.conn == Some(conn) && forall e <- events :: Delivers(e, conn)
    ensures HandledAll(s, events).conn == Feed(s, Stream(events)).conn
    decreases |events|
  {
    hide Feed;
    if events == [] {
      FeedPlain(s, "");
      assert s.buf + "" == s.buf;
    } else {
      assert Delivers(events[0], conn) by { assert events[0] in events; }
      var data, rest := events[0].data, events[1..];
      var t := Feed(s, data);
      FeedSound(s, data);
      FeedAppend(s, data, Stream(rest));
      if t.conn.None? {
        assert forall e <- rest :: e in events && Delivers(e, conn);
        ClosedStays(t, rest);
        FeedClosed(t, Stream(rest));
      } else {
        DeliveredIsFed(t, conn, rest);
      }
    }
  }

  /** Any other event on the way closes the connection. */
  lemma {:induction false} OtherEventCloses(s: Ctrl, conn: nat, events: seq<Event>)
    requires Sound(s) && s.alive && s.conn == Some(conn) && forall e <- events :: e.Readable?
    requires exists e <- events :: !Delivers(e, conn)
    ensures HandledAll(s, events).conn.None?
    decreases |events|
  {
    hide Feed;
    var t, rest := Handled(s, events[0]), events[1..];
    assert events[0] in events;
    if Delivers(events[0], conn) {
      FeedSound(s, events[0].data);
      assert forall e <- events :: e == events[0] || e in rest;
      if t.conn.Some? {
        OtherEventCloses(t, conn, rest);
      } else {
        ClosedStays(t, rest);
      }
    } else {
      ClosedStays(t, rest);
    }
  }

  /**
    After any batch of events, the connection accepted last is open if and only if it was accepted by a living process
    and greeted, everything after that was bytes for it, and no line of these bytes ends the connection. An end of
    stream, or an event for a connection that is no longer current, closes it.
   */
  lemma NewestStaysOpenIff(s: Ctrl, before: seq<Event>, conn: nat, ip: Address, okSent: bool, later: seq<Event>)
    requires Sound(s) && forall e <- later :: e.Readable?
    ensures var t := HandledAll(s, before + [Accept(conn, ip, okSent)] + later);
            HandledAll(s, before).alive ==>
              (t.conn == Some(conn) <==>
                && okSent && (forall e <- later :: Delivers(e, conn)) && !Stops(Processed(Lines(Stream(later)))))
    ensures !HandledAll(s, before).alive ==>
              HandledAll(s, before + [Accept(conn, ip, okSent)] + later) == HandledAll(s, before)
  {
    hide Feed, Stops, Processed, Lines, Stream, Delivers;
    var accept := Accept(conn, ip, okSent);
    var u := HandledAll(s, before);
    HandledAppend(s, before + [accept], later);
    HandledAppend(s, before, [accept]);
    var v := HandledAll(u, [accept]);
    assert v == Handled(u, accept) by { HandledOne(u, accept); }
    if !u.alive {
      DeadStays(u, later);
    } else if !okSent {
      ClosedStays(v, later);
    } else if forall e <- later :: Delivers(e, conn) {
      DeliveredIsFed(v, conn, later);
      ServeAll(v, Stream(later));
    } else {
      OtherEventCloses(v, conn, later);
    }
  }

  lemma HandledOne(s: Ctrl, e: Event)
    ensures HandledAll(s, [e]) == Handled(s, e)
  {
    assert [e][1..] == [];
  }

  lemma {:induction false} DeadStays(s: Ctrl, events: seq<Event>)
    requires !s.alive
    ensures HandledAll(s, events) == s
    decreases |events|
  {
    if events == [] {
    } else {
      DeadStays(s, events[1..]);
    }
  }

  /**
    So in one batch, accepting a new connection before handling the end of the previous one closes the new one. In the
    other order the new one stays.
   */
  lemma StaleEventClosesNewer(s: Ctrl, previous: nat, conn: nat, ip: Address)
    requires Sound(s) && s.conn == Some(previous) && previous != conn
    ensures HandledAll(s, [Accept(conn, ip, true), Readable(previous, "")]).conn == None
    ensures HandledAll(s, [Readable(previous, ""), Accept(conn, ip, true)]).conn == Some(conn)
  {
    var accept, end := Accept(conn, ip, true), Readable(previous, "");
    assert [accept, end][1..] == [end] && [end, accept][1..] == [accept];
    HandledOne(Handled(s, accept), end);
    HandledOne(Handled(s, end), accept);
  }
}
