/** The Amiga side of the control channel: reading a line byte by byte, and the three requests built on it. */
module HelperClient {
  import opened Machine
  import opened Decimal

  const LINE_SIZE: nat := 64
  const COMMAND_SIZE: nat := 32

  // ---- Reading a line ----

  datatype Ending = Newline | Full | Exhausted

  /** What one recv_line takes from a stream: the text it keeps, how many bytes it reads, and why it stops. */
  datatype Line = Line(text: string, consumed: nat, ended: Ending)

  function TakeLine(s: string, room: nat): (l: Line)
    ensures l.consumed <= |s| && |l.text| <= room
    ensures l.ended == Full <==> |l.text| == room
    decreases |s|
  {
    if room == 0 then Line("", 0, Full)
    else if s == "" then Line("", 0, Exhausted)
    else if s[0] == '\n' then Line("", 1, Newline)
    else if s[0] == '\r' then
      var rest := TakeLine(s[1..], room);
      Line(rest.text, rest.consumed + 1, rest.ended)
    else
      var rest := TakeLine(s[1..], room - 1);
      Line([s[0]] + rest.text, rest.consumed + 1, rest.ended)
  }

  /** Every carriage return is dropped, wherever it stands. */
  function WithoutCr(s: string): string {
    if s == "" then "" else (if s[0] == '\r' then "" else [s[0]]) + WithoutCr(s[1..])
  }

  /** A TCP connection: the bytes still to come and what recv returns after the last of them. */
  class Connection {
    var incoming: string
    ghost var outgoing: string
    var open: bool
    const atEnd: int

    constructor (incoming: string, atEnd: int)
      requires atEnd <= 0
      ensures this.incoming == incoming && this.atEnd == atEnd && outgoing == "" && open
    {
      this.incoming, this.atEnd, outgoing, open := incoming, atEnd, "", true;
    }

    method RecvByte() returns (n: int, ch: char)
      modifies this`incoming
      ensures old(incoming) == "" ==> n == atEnd && incoming == ""
      ensures old(incoming) != "" ==> n == 1 && ch == old(incoming)[0] && incoming == old(incoming)[1..]
    {
      if incoming == "" {
        return atEnd, '\0';
      }
      n, ch := 1, incoming[0];
      incoming := incoming[1..];
    }

    /** The network accepts the first n bytes of a message. */
    method Send(msg: string, n: nat)
      requires n <= |msg|
      modifies this`outgoing
      ensures outgoing == old(outgoing) + msg[..n]
    {
      outgoing := outgoing + msg[..n];
    }

    method Close()
      modifies this`open
      ensures !open
    {
      open := false;
    }
  }

  /** The buffer after a line: a newline or a full buffer adds a NUL, the end of the stream does not. */
  function Stored(before: string, l: Line): string
    requires |l.text| < |before|
  {
    if l.ended == Exhausted then l.text + before[|l.text|..]
    else l.text + ['\0'] + before[|l.text| + 1..]
  }

  /** The length, except that an error, or the end of the stream before any character, is passed on. */
  function ReturnCode(l: Line, atEnd: int): int {
    if l.ended == Exhausted && (atEnd != 0 || l.text == "") then atEnd else |l.text|
  }

  /**
    The text stands at the front of the buffer. A NUL follows it unless the stream has ended, and everything else in
    the buffer is as before. The count is the length of the text, but an error, or the end of the stream before any
    text, is passed on.
   */
  lemma WhatIsStored(before: string, l: Line, atEnd: int)
    requires |l.text| < |before|
    ensures var after := Stored(before, l);
            && |after| == |before| && after[..|l.text|] == l.text
            && (l.ended == Exhausted ==> after[|l.text|..] == before[|l.text|..])
            && (l.ended != Exhausted ==> after[|l.text|] == '\0' && after[|l.text| + 1..] == before[|l.text| + 1..])
    ensures l.ended != Exhausted ==> ReturnCode(l, atEnd) == |l.text|
    ensures l.ended == Exhausted && atEnd == 0 ==> ReturnCode(l, atEnd) == |l.text|
    ensures l.ended == Exhausted && atEnd != 0 ==> ReturnCode(l, atEnd) == atEnd
  {}

  /** recv_line: at most buflen - 1 data bytes are stored, and the rest of the stream stays unread. */
  method RecvLine(fd: Connection, buf: array<char>, buflen: int) returns (rc: int)
    requires 1 <= buflen <= buf.Length && fd.atEnd <= 0
    modifies fd`incoming, buf
    ensures var l := TakeLine(old(fd.incoming), buflen - 1);
            && fd.incoming == old(fd.incoming)[l.consumed..]
            && buf[..] == Stored(old(buf[..]), l)
            && rc == ReturnCode(l, fd.atEnd)
  {
    hide TakeLine, Stored, ReturnCode, Behind;
    var pos := 0;
    ghost var s, before := fd.incoming, buf[..];
    ghost var whole := TakeLine(s, buflen - 1);
    ghost var kept, read := "", 0;
    BehindNothing(whole);
    assert s[0..] == s && before[0..] == before;
    while pos < buflen - 1
      invariant 0 <= pos == |kept| <= buflen - 1 && read <= |s| && fd.incoming == s[read..]
      invariant buf[..] == kept + before[pos..]
      invariant whole == Behind(kept, read, TakeLine(fd.incoming, buflen - 1 - pos))
      decreases |fd.incoming|
    {
      TakeOne(fd.incoming, buflen - 1 - pos, kept, read);
      DropOneMore(s, read);
      var n, ch := fd.RecvByte();
      if n <= 0 {
        StoredLine(kept, before, read, Exhausted, fd.atEnd);
        return if n == 0 && pos > 0 then pos else n;
      }
      read := read + 1;
      if ch == '\n' {
        StoredLine(kept, before, read, Newline, fd.atEnd);
        Store(buf, pos, '\0');
        return pos;
      }
      if ch != '\r' {
        StoreAt(kept, before, ch);
        Store(buf, pos, ch);
        pos, kept := pos + 1, kept + [ch];
      }
    }
    TakeNone(fd.incoming, kept, read);
    StoredLine(kept, before, read, Full, fd.atEnd);
    Store(buf, pos, '\0');
    return pos;
  }

  lemma DropOneMore(s: string, read: nat)
    requires read <= |s|
    ensures read < |s| ==> s[read..][1..] == s[read + 1..]
  {}

  method Store(buf: array<char>, i: nat, ch: char)
    requires i < buf.Length
    modifies buf
    ensures buf[..] == old(buf[..])[i := ch]
  {
    buf[i] := ch;
  }

  lemma StoredLine(kept: string, before: string, read: nat, ended: Ending, atEnd: int)
    requires |kept| < |before|
    ensures var l := Line(kept, read, ended);
            && Stored(before, l) == (if ended == Exhausted then kept + before[|kept|..]
                                     else (kept + before[|kept|..])[|kept| := '\0'])
            && ReturnCode(l, atEnd) == if ended == Exhausted && (atEnd != 0 || |kept| == 0) then atEnd else |kept|
  {
    StoreAt(kept, before, '\0');
  }

  /** A line of which the first part has been read already. */
  function Behind(kept: string, read: nat, l: Line): Line {
    Line(kept + l.text, read + l.consumed, l.ended)
  }

  lemma BehindNothing(l: Line)
    ensures Behind("", 0, l) == l
  {
    assert "" + l.text == l.text;
  }

  /** How one byte moves from the stream to the line. */
  lemma TakeOne(s: string, room: nat, kept: string, read: nat)
    requires room > 0
    ensures var l := Behind(kept, read, TakeLine(s, room));
            if s == "" then l == Line(kept, read, Exhausted)
            else if s[0] == '\n' then l == Line(kept, read + 1, Newline)
            else if s[0] == '\r' then l == Behind(kept, read + 1, TakeLine(s[1..], room))
            else l == Behind(kept + [s[0]], read + 1, TakeLine(s[1..], room - 1))
  {
    assert kept + "" == kept;
    if s != "" && s[0] != '\n' && s[0] != '\r' {
      var rest := TakeLine(s[1..], room - 1).text;
      assert kept + ([s[0]] + rest) == (kept + [s[0]]) + rest;
    }
  }

  lemma TakeNone(s: string, kept: string, read: nat)
    ensures Behind(kept, read, TakeLine(s, 0)) == Line(kept, read, Full)
  {
    assert kept + "" == kept;
  }

  lemma StoreAt(kept: string, before: string, ch: char)
    requires |kept| < |before|
    ensures (kept + before[|kept|..])[|kept| := ch] == kept + [ch] + before[|kept| + 1..]
  {}

  /** The three ways a line can end, each with what was kept and what was left unread. */
  ghost predicate Means(s: string, l: Line)
    requires l.consumed <= |s|
  {
    var before := s[..l.consumed];
    match l.ended
    case Newline =>
      && l.consumed > 0 && before[l.consumed - 1] == '\n' && '\n' !in s[..l.consumed - 1]
      && l.text == WithoutCr(s[..l.consumed - 1])
    case Full =>
      && '\n' !in before && l.text == WithoutCr(before)
      && (l.consumed > 0 ==> before[l.consumed - 1] != '\r')
    case Exhausted =>
      && '\n' !in s && l.consumed == |s| && l.text == WithoutCr(s)
  }

  lemma {:induction false} TakeLineMeaning(s: string, room: nat)
    ensures Means(s, TakeLine(s, room))
    decreases |s|
  {
    hide Means;
    if room == 0 || s == "" || s[0] == '\n' {
      MeansAtOnce(s, TakeLine(s, room));
    } else {
      var room' := if s[0] == '\r' then room else room - 1;
      TakeLineMeaning(s[1..], room');
      MeansStep(s, TakeLine(s[1..], room'), TakeLine(s, room));
    }
  }

  lemma MeansAtOnce(s: string, l: Line)
    requires if l.ended == Newline then s != "" && s[0] == '\n' && l == Line("", 1, Newline)
             else l == Line("", 0, l.ended) && (l.ended == Exhausted ==> s == "")
    ensures Means(s, l)
  {}

  lemma MeansStep(s: string, l': Line, l: Line)
    requires s != "" && s[0] != '\n' && l'.consumed < |s| && Means(s[1..], l')
    requires l == Line((if s[0] == '\r' then "" else [s[0]]) + l'.text, l'.consumed + 1, l'.ended)
    requires l'.ended == Full && l'.consumed == 0 ==> s[0] != '\r'
    ensures Means(s, l)
  {
    PrefixCons(s, l'.consumed);
    if l'.consumed > 0 {
      PrefixCons(s, l'.consumed - 1);
    }
  }

  lemma PrefixCons(s: string, k: nat)
    requires k < |s|
    ensures s[..k + 1] == [s[0]] + s[1..][..k]
    ensures WithoutCr(s[..k + 1]) == (if s[0] == '\r' then "" else [s[0]]) + WithoutCr(s[1..][..k])
  {
    assert s[..k + 1][1..] == s[1..][..k];
  }

  /** What a line consists of before its newline, as far as it is read. */
  function Raw(s: string, l: Line): string
    requires l.consumed <= |s|
  {
    if l.ended == Newline && l.consumed > 0 then s[..l.consumed - 1] else s[..l.consumed]
  }

  /** A line without the carriage returns at its end. */
  function TrimCr(s: string): string {
    if s != "" && s[|s| - 1] == '\r' then TrimCr(s[..|s| - 1]) else s
  }

  /** No carriage return stands before another character. */
  predicate CrOnlyAtEnd(s: string) {
    forall i, j :: 0 <= i < j < |s| && s[i] == '\r' ==> s[j] == '\r'
  }

  lemma {:induction false} WithoutCrAppend(a: string, b: string)
    ensures WithoutCr(a + b) == WithoutCr(a) + WithoutCr(b)
  {
    if a == "" {
      assert a + b == b;
    } else {
      assert (a + b)[1..] == a[1..] + b;
      WithoutCrAppend(a[1..], b);
    }
  }

  lemma {:induction false} WithoutCrShortens(s: string)
    ensures |WithoutCr(s)| <= |s|
    ensures |WithoutCr(s)| == |s| <==> '\r' !in s
  {
    if s == "" {
    } else {
      WithoutCrShortens(s[1..]);
    }
  }

  /** A line that does not end in a carriage return. */
  lemma NoneAtEnd(s: string)
    requires s == "" || s[|s| - 1] != '\r'
    ensures WithoutCr(s) == s <==> CrOnlyAtEnd(s)
  {
    hide WithoutCr;
    WithoutCrShortens(s);
    if '\r' !in s {
      WithoutCrIsIdentity(s);
      assert CrOnlyAtEnd(s) by { NoCr(s); }
    } else {
      var i :| 0 <= i < |s| && s[i] == '\r';
      assert i < |s| - 1 && !CrOnlyAtEnd(s);
    }
  }

  lemma NoCr(s: string)
    requires '\r' !in s
    ensures CrOnlyAtEnd(s)
  {}

  /** One more carriage return at the end. */
  lemma OneMoreAtEnd(front: string)
    ensures WithoutCr(front + "\r") == WithoutCr(front)
    ensures CrOnlyAtEnd(front + "\r") <==> CrOnlyAtEnd(front)
  {
    hide WithoutCr;
    WithoutCrAppend(front, "\r");
    assert WithoutCr("\r") == "" by { LoneCr(); }
    var s := front + "\r";
    assert forall i :: 0 <= i < |front| ==> s[i] == front[i];
  }

  lemma LoneCr()
    ensures WithoutCr("\r") == ""
  {
    assert "\r"[1..] == "";
  }

  /** Dropping every carriage return is trimming exactly when they all stand at the end. */
  lemma {:induction false} DropIsTrimIff(s: string)
    ensures WithoutCr(s) == TrimCr(s) <==> CrOnlyAtEnd(s)
  {
    hide WithoutCr, CrOnlyAtEnd;
    if s != "" && s[|s| - 1] == '\r' {
      var front := s[..|s| - 1];
      assert s == front + "\r";
      DropIsTrimIff(front);
      OneMoreAtEnd(front);
    } else {
      NoneAtEnd(s);
    }
  }

  /**
    The documented "strips trailing carriage returns" is what happens to a line that fits, exactly when no carriage
    return stands before another character.
   */
  lemma StripsTrailingIff(body: string, rest: string, room: nat)
    requires '\n' !in body && |WithoutCr(body)| < room
    ensures TakeLine(body + ['\n'] + rest, room).text == TrimCr(body) <==> CrOnlyAtEnd(body)
  {
    hide TakeLine, WithoutCr;
    ShortLine(body, rest, room);
    DropIsTrimIff(body);
  }

  /** The same of whatever is read, when the line does not fit or the stream ends. */
  lemma TrimsWhatIsReadIff(s: string, room: nat)
    ensures var l := TakeLine(s, room);
            l.text == TrimCr(Raw(s, l)) <==> CrOnlyAtEnd(Raw(s, l))
  {
    hide TakeLine;
    TakeLineMeaning(s, room);
    assert s[..|s|] == s;
    DropIsTrimIff(Raw(s, TakeLine(s, room)));
  }

  /** A carriage return in the middle of a line is lost as well. */
  lemma InnerCrIsLost()
    ensures TakeLine("A\rB\n", LINE_SIZE - 1) == Line("AB", 4, Newline)
    ensures TrimCr(Raw("A\rB\n", TakeLine("A\rB\n", LINE_SIZE - 1))) == "A\rB"
  {
    var s := "A\rB\n";
    assert s[1..] == "\rB\n" && s[1..][1..] == "B\n" && s[1..][1..][1..] == "\n";
    assert TakeLine("\n", LINE_SIZE - 3) == Line("", 1, Newline);
    assert TakeLine("B\n", LINE_SIZE - 2) == Line("B", 2, Newline);
    assert TakeLine("\rB\n", LINE_SIZE - 2) == Line("B", 3, Newline);
    assert s[..3] == "A\rB";
  }

  /** A line with fewer than `room` characters besides carriage returns is taken whole, through its newline. */
  lemma {:induction false} ShortLine(body: string, rest: string, room: nat)
    requires '\n' !in body
    ensures TakeLine(body + ['\n'] + rest, room) == Line(WithoutCr(body), |body| + 1, Newline)
       <==> |WithoutCr(body)| < room
    decreases |body|
  {
    var s := body + ['\n'] + rest;
    if body == "" {
      assert s[0] == '\n';
    } else if room > 0 {
      assert s[1..] == body[1..] + ['\n'] + rest;
      ShortLine(body[1..], rest, if body[0] == '\r' then room else room - 1);
    }
  }

  /** A line of exactly `room` characters leaves its newline behind, which the next call takes for an empty line. */
  lemma ExactlyFullLine(body: string, rest: string, room: nat)
    requires '\n' !in body && '\r' !in body && |body| == room > 0
    ensures TakeLine(body + ['\n'] + rest, room) == Line(body, room, Full)
    ensures TakeLine(['\n'] + rest, room) == Line("", 1, Newline)
  {
    FullPrefix(body, ['\n'] + rest);
    assert body + (['\n'] + rest) == body + ['\n'] + rest;
  }

  lemma {:induction false} FullPrefix(body: string, rest: string)
    requires '\n' !in body && '\r' !in body
    ensures TakeLine(body + rest, |body|) == Line(body, |body|, Full)
  {
    if body == "" {
    } else {
      assert (body + rest)[1..] == body[1..] + rest;
      FullPrefix(body[1..], rest);
    }
  }

  // ---- Reading many lines ----

  function Joined(lines: seq<string>): string {
    if lines == [] then "" else lines[0] + ['\n'] + Joined(lines[1..])
  }

  /** n successive reads: the lines they return, and what is left; a read that returns no positive count ends them. */
  function TakeLines(s: string, room: nat, n: nat): (seq<string>, string) {
    if n == 0 then ([], s)
    else
      var l := TakeLine(s, room);
      if l.text == "" || l.ended == Exhausted then ([], s[l.consumed..])
      else
        var (lines, rest) := TakeLines(s[l.consumed..], room, n - 1);
        ([l.text] + lines, rest)
  }

  predicate ShortAndPlain(line: string, room: nat) {
    0 < |line| < room && '\n' !in line && '\r' !in line
  }

  lemma {:induction false} WithoutCrIsIdentity(s: string)
    requires '\r' !in s
    ensures WithoutCr(s) == s
  {
    if s == "" {
    } else {
      WithoutCrIsIdentity(s[1..]);
    }
  }

  /** Repeated reads recover any list of short, non-empty lines, and leave what follows them. */
  lemma {:induction false} ReadsRecoverLines(lines: seq<string>, rest: string, room: nat)
    requires forall l <- lines :: ShortAndPlain(l, room)
    ensures TakeLines(Joined(lines) + rest, room, |lines|) == (lines, rest)
  {
    if lines == [] {
      assert Joined(lines) + rest == rest;
    } else {
      hide TakeLines, Joined, ShortAndPlain;
      assert ShortAndPlain(lines[0], room);
      ReadsRecoverLines(lines[1..], rest, room);
      OneMoreLine(lines, rest, room);
    }
  }

  lemma OneMoreLine(lines: seq<string>, rest: string, room: nat)
    requires lines != [] && ShortAndPlain(lines[0], room)
    requires TakeLines(Joined(lines[1..]) + rest, room, |lines| - 1) == (lines[1..], rest)
    ensures TakeLines(Joined(lines) + rest, room, |lines|) == (lines, rest)
  {
    hide TakeLine;
    var line, more := lines[0], Joined(lines[1..]) + rest;
    assert Joined(lines) + rest == line + ['\n'] + more by {
      hide TakeLines;
    }
    FirstLineTaken(line, more, room);
    hide Joined;
    assert [line] + lines[1..] == lines;
  }

  lemma FirstLineTaken(line: string, more: string, room: nat)
    requires ShortAndPlain(line, room)
    ensures var s := line + ['\n'] + more;
            TakeLine(s, room) == Line(line, |line| + 1, Newline) && s[|line| + 1..] == more
  {
    hide TakeLine, WithoutCr;
    WithoutCrIsIdentity(line);
    ShortLine(line, more, room);
  }

  // ---- The requests ----

  /** strcmp(buf, word) == 0. */
  predicate IsCString(buf: seq<char>, word: string) {
    word + ['\0'] <= buf
  }

  /** What follows the terminator does not matter to strcmp. */
  lemma TerminatorDecides(text: string, junk: string, word: string)
    requires '\0' !in word
    ensures IsCString(text + ['\0'] + junk, word) <==> IsCString(text + ['\0'], word)
    ensures word != "" && text == "" ==> !IsCString(text + ['\0'], word)
  {
    var buf := text + ['\0'] + junk;
    assert buf[|text|] == '\0';
    assert IsCString(buf, word) ==> forall i :: 0 <= i < |word| ==> buf[i] == word[i];
  }

  /** What the callers test: a positive count, and the word up to a NUL in a buffer that held `junk` before. */
  predicate Accepts(l: Line, atEnd: int, junk: seq<char>, word: string)
    requires |l.text| < |junk|
  {
    ReturnCode(l, atEnd) > 0 && IsCString(Stored(junk, l), word)
  }

  /** The stream ends before a newline exactly if there is none and the buffer does not fill up first. */
  lemma {:induction false} ExhaustedIff(s: string, room: nat)
    ensures TakeLine(s, room).ended == Exhausted <==> '\n' !in s && |WithoutCr(s)| < room
    decreases |s|
  {
    if room > 0 && s != "" && s[0] != '\n' {
      ExhaustedIff(s[1..], if s[0] == '\r' then room else room - 1);
      assert s == [s[0]] + s[1..];
    }
  }

  /** The documented "0 at the end of the stream" is returned exactly if only carriage returns came before it. */
  lemma EndReturnsZeroIff(s: string, room: nat)
    requires '\n' !in s && |WithoutCr(s)| < room
    ensures ReturnCode(TakeLine(s, room), 0) == 0 <==> WithoutCr(s) == ""
  {
    hide TakeLine;
    ExhaustedIff(s, room);
    TakeLineMeaning(s, room);
  }

  /** The beginning of a line, cut off by the end of the stream, is returned as a line. */
  lemma CutLineIsReturned()
    ensures ReturnCode(TakeLine("GO", LINE_SIZE - 1), 0) == 2
  {
    ExhaustedIff("GO", LINE_SIZE - 1);
    TakeLineMeaning("GO", LINE_SIZE - 1);
    WithoutCrIsIdentity("GO");
    assert "GO"[..2] == "GO";
  }

  /** A stream that ends in good order with the beginning of the word, and no newline: the NUL is missing. */
  predicate Undecided(s: string, atEnd: int, word: string) {
    atEnd == 0 && '\n' !in s && |WithoutCr(s)| < LINE_SIZE - 1 && WithoutCr(s) != "" && WithoutCr(s) <= word
  }

  ghost predicate StaleBytesDecide(l: Line, atEnd: int, word: string)
    requires |l.text| < LINE_SIZE
  {
    exists a: seq<char>, b: seq<char> ::
      |a| == |b| == LINE_SIZE && Accepts(l, atEnd, a, word) && !Accepts(l, atEnd, b, word)
  }

  /** The buffer that completes a text to the word, and one that does not. */
  lemma JunkDecides(text: string, consumed: nat, word: string)
    requires 0 < |word| < LINE_SIZE && '\0' !in word && text != "" && text <= word
    ensures StaleBytesDecide(Line(text, consumed, Exhausted), 0, word)
  {
    var l := Line(text, consumed, Exhausted);
    var a := word + seq(LINE_SIZE - |word|, _ => '\0');
    var b := seq(LINE_SIZE, _ => if text == word then 'x' else '\0');
    assert Stored(a, l) == a && Accepts(l, 0, a, word);
    assert Stored(b, l)[|text|] == b[|text|];
    assert (word + ['\0'])[|text|] != b[|text|];
  }

  /** What a call writes into the buffer. */
  function Written(l: Line): string {
    if l.ended == Exhausted then l.text else l.text + ['\0']
  }

  /**
    What the buffer held before the call decides the answer if and only if the stream ends in good order, without a
    newline, after a non-empty beginning of the word. Otherwise the answer is yes exactly when the count is positive
    and the call itself writes the word and its NUL.
   */
  lemma StaleBytesDecideIff(s: string, atEnd: int, word: string, junk: seq<char>)
    requires 0 < |word| < LINE_SIZE && '\0' !in word && atEnd <= 0 && |junk| == LINE_SIZE
    ensures var l := TakeLine(s, LINE_SIZE - 1);
            && (StaleBytesDecide(l, atEnd, word) <==> Undecided(s, atEnd, word))
            && (!Undecided(s, atEnd, word) ==>
                  (Accepts(l, atEnd, junk, word) <==> ReturnCode(l, atEnd) > 0 && IsCString(Written(l), word)))
  {
    hide TakeLine, IsCString;
    var l := TakeLine(s, LINE_SIZE - 1);
    TakeLineMeaning(s, LINE_SIZE - 1);
    ExhaustedIff(s, LINE_SIZE - 1);
    forall j: seq<char> | |j| == LINE_SIZE && !Undecided(s, atEnd, word)
      ensures Accepts(l, atEnd, j, word) <==> ReturnCode(l, atEnd) > 0 && IsCString(Written(l), word)
    {
      Decided(l, atEnd, j, word);
    }
    if Undecided(s, atEnd, word) {
      JunkDecides(l.text, l.consumed, word);
    }
  }

  lemma Decided(l: Line, atEnd: int, junk: seq<char>, word: string)
    requires |l.text| < |junk| && word != "" && '\0' !in word && atEnd <= 0
    requires l.ended == Exhausted && atEnd == 0 && l.text != "" ==> !(l.text <= word)
    ensures Accepts(l, atEnd, junk, word) <==> ReturnCode(l, atEnd) > 0 && IsCString(Written(l), word)
  {
    var buf := Stored(junk, l);
    assert Written(l) <= buf;
    if Accepts(l, atEnd, junk, word) {
      PrefixesCompare(Written(l), word, '\0', buf);
      assert l.ended != Exhausted ==> '\0' in Written(l);
      NotPrefix(Written(l), word, '\0');
    }
  }

  lemma NotPrefix(a: string, word: string, c: char)
    requires c !in word
    ensures c in a ==> !(a <= word)
  {}

  /** Of two beginnings of one text, one is a beginning of the other. */
  lemma PrefixesCompare(a: string, word: string, last: char, buf: string)
    requires a <= buf && word + [last] <= buf
    ensures a <= word || word + [last] <= a
  {
    var ended := word + [last];
    assert forall i :: 0 <= i < |a| && i < |ended| ==> a[i] == buf[i] && ended[i] == buf[i];
  }

  /** A line that fits and holds no NUL is accepted exactly if, without its carriage returns, it is the word. */
  lemma LineAccepted(body: string, rest: string, atEnd: int, junk: seq<char>, word: string)
    requires '\n' !in body && '\0' !in body && |WithoutCr(body)| < LINE_SIZE - 1 && |junk| == LINE_SIZE
    requires word != "" && '\0' !in word
    ensures Accepts(TakeLine(body + ['\n'] + rest, LINE_SIZE - 1), atEnd, junk, word) <==> WithoutCr(body) == word
  {
    hide TakeLine, WithoutCr;
    var text := WithoutCr(body);
    ShortLine(body, rest, LINE_SIZE - 1);
    WithoutCrAddsNothing(body, '\0');
    var stored := Stored(junk, Line(text, |body| + 1, Newline));
    assert stored[|text|] == '\0' && stored[..|text|] == text;
    assert forall i :: 0 <= i < |text| ==> stored[i] == text[i] && text[i] in text;
    assert forall i :: 0 <= i < |word| ==> word[i] in word;
    if word + ['\0'] <= stored {
      assert forall i :: 0 <= i < |word| ==> stored[i] == word[i];
      assert stored[|word|] == '\0';
      assert |word| == |text|;
      assert word == text;
    }
    if word == text {
      assert word + ['\0'] == stored[..|word| + 1];
    }
  }

  lemma {:induction false} WithoutCrAddsNothing(s: string, c: char)
    requires c !in s
    ensures c !in WithoutCr(s)
  {
    if s == "" {
    } else {
      WithoutCrAddsNothing(s[1..], c);
    }
  }

  /** A reply "GO" cut off by the end of the stream is taken for GO or not, as the stack happens to hold. */
  lemma CutReplyIsUndecided()
    ensures Undecided("GO", 0, "GO")
    ensures StaleBytesDecide(TakeLine("GO", LINE_SIZE - 1), 0, "GO")
  {
    assert WithoutCr("GO") == "GO" by { WithoutCrIsIdentity("GO"); }
    StaleBytesDecideIff("GO", 0, "GO", seq(LINE_SIZE, _ => '\0'));
  }

  function ConnectCommand(port: int): string {
    "CONNECT " + PrintInt(port) + "\n"
  }

  class Client {
    var ctrl: Connection?
    var connected: bool
    var resolved: ULong

    ghost predicate Valid()
      reads this
    {
      connected ==> ctrl != null && ctrl.atEnd <= 0
    }

    constructor ()
      ensures Valid() && !connected
    {
      ctrl, connected, resolved := null, false, 0;
    }

    /** Fire and forget: n is how much of the farewell the network takes. */
    method HelperQuit(n: nat)
      requires Valid() && n <= 5
      modifies this, ctrl
      ensures Valid() && !connected && ctrl == null && resolved == old(resolved)
      ensures old(connected) ==> !old(ctrl).open && old(ctrl).outgoing == old(ctrl.outgoing) + "QUIT\n"[..n]
      ensures !old(connected) && old(ctrl) != null ==> unchanged(old(ctrl))
    {
      if connected {
        ctrl.Send("QUIT\n", n);
        ctrl.Close();
      }
      ctrl, connected := null, false;
    }

    /**
      Resolve, connect, and wait for the greeting. A failed resolution is ip == None, a failed socket() is a null
      connection. `junk` is what the line buffer on the stack happens to hold.
     */
    method HelperConnect(ip: Option<ULong>, fd: Connection?, connects: bool, farewell: nat)
        returns (ok: bool, ghost junk: seq<char>)
      requires Valid() && farewell <= 5 && (fd != null ==> fd.atEnd <= 0 && fd != ctrl)
      modifies this, ctrl, fd
      ensures Valid() && ok == connected && (ok ==> ctrl == fd) && (!ok ==> ctrl == null)
      ensures resolved == if ip.Some? then ip.value else old(resolved)
      ensures old(connected) ==> !old(ctrl).open && old(ctrl).outgoing == old(ctrl.outgoing) + "QUIT\n"[..farewell]
      ensures fd != null ==> if ip.None? then unchanged(fd) else fd.open == (ok && old(fd.open))
      ensures ok ==> ip.Some? && fd != null && connects
      ensures ip.Some? && fd != null && connects ==>
                var l := TakeLine(old(fd.incoming), LINE_SIZE - 1);
                && fd.incoming == old(fd.incoming)[l.consumed..]
                && |junk| == LINE_SIZE && (ok <==> Accepts(l, fd.atEnd, junk, "OK"))
    {
      hide TakeLine, IsCString, ReturnCode, Stored;
      ok, junk := false, [];
      if connected {
        HelperQuit(farewell);
      }
      ctrl := null;
      if ip.None? {
        return;
      }
      resolved := ip.value;
      if fd == null {
        return;
      }
      if !connects {
        fd.Close();
        return;
      }
      var line := new char[LINE_SIZE];
      junk := line[..];
      var rc := RecvLine(fd, line, LINE_SIZE);
      if rc <= 0 || !IsCString(line[..], "OK") {
        fd.Close();
        return;
      }
      ctrl, connected, ok := fd, true, true;
    }

    /** n is how much of the command the network takes, `junk` what the line buffer on the stack happens to hold. */
    method HelperRequestConnect(port: int, n: nat) returns (ok: bool, ghost junk: seq<char>)
      requires Valid() && -0x8000_0000 <= port < 0x8000_0000 && n <= |ConnectCommand(port)|
      modifies ctrl
      ensures ok ==> connected && n == |ConnectCommand(port)|
      ensures ctrl != null ==> ctrl.open == old(ctrl.open)
      ensures !connected && ctrl != null ==> unchanged(ctrl)
      ensures connected ==> ctrl.outgoing == old(ctrl.outgoing) + ConnectCommand(port)[..n]
      ensures connected && n == |ConnectCommand(port)| ==>
                var l := TakeLine(old(ctrl.incoming), LINE_SIZE - 1);
                && ctrl.incoming == old(ctrl.incoming)[l.consumed..]
                && |junk| == LINE_SIZE && (ok <==> Accepts(l, ctrl.atEnd, junk, "GO"))
      ensures connected && n < |ConnectCommand(port)| ==> ctrl.incoming == old(ctrl.incoming)
    {
      hide TakeLine, IsCString, ReturnCode, Stored;
      ok, junk := false, [];
      if !connected {
        return;
      }
      var cmd := ConnectCommand(port);
      PrintIntLength(port);
      assert |cmd| + 1 <= COMMAND_SIZE;
      ctrl.Send(cmd, n);
      if n != |cmd| {
        return;
      }
      var line := new char[LINE_SIZE];
      junk := line[..];
      var rc := RecvLine(ctrl, line, LINE_SIZE);
      if rc <= 0 {
        return;
      }
      ok := IsCString(line[..], "GO");
    }
  }
}
