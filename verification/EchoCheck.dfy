/**
  The network echo tests of the sendrecv category: pattern chunks go out, come back in pieces of any size, and are
  verified chunk by chunk in a single buffer.
 */
module EchoCheck {
  import opened Machine
  import opened TestPattern

  const CHUNK: nat := 8192

  function Block(): seq<Byte> {
    Pattern(0, CHUNK)
  }

  /** The pattern chunk, n times over. */
  function Blocks(n: nat): seq<Byte> {
    if n == 0 then [] else Block() + Blocks(n - 1)
  }

  // ---- What the verification computes ----

  /** Bytes verified in a stream, whatever way it arrived: whole matching chunks, and a matching rest. */
  function Verified(stream: seq<Byte>): nat {
    if |stream| < CHUNK then (if stream == Pattern(0, |stream|) then |stream| else 0)
    else (if stream[..CHUNK] == Block() then CHUNK else 0) + Verified(stream[CHUNK..])
  }

  lemma {:induction false} VerifiedAppend(a: seq<Byte>, b: seq<Byte>)
    requires |a| % CHUNK == 0
    ensures Verified(a + b) == Verified(a) + Verified(b)
  {
    hide Pattern;
    if a == [] {
      assert a + b == b;
      assert Verified(a) == 0;
    } else {
      assert |a| >= CHUNK;
      assert (a + b)[..CHUNK] == a[..CHUNK];
      assert (a + b)[CHUNK..] == a[CHUNK..] + b;
      VerifiedAppend(a[CHUNK..], b);
    }
  }

  lemma VerifiedChunk(chunk: seq<Byte>)
    requires |chunk| == CHUNK
    ensures Verified(chunk) == if chunk == Block() then CHUNK else 0
  {
    hide Pattern;
    assert chunk[..CHUNK] == chunk && chunk[CHUNK..] == [];
    assert Verified([]) == 0;
  }

  /** All of a stream of whole chunks is verified exactly when it is the repeated pattern chunk. */
  lemma {:induction false} FullyVerifiedIff(stream: seq<Byte>, n: nat)
    requires |stream| == n * CHUNK
    ensures Verified(stream) <= |stream|
    ensures Verified(stream) == |stream| <==> stream == Blocks(n)
  {
    hide Pattern;
    if n == 0 {
      assert stream == [];
    } else {
      var rest := stream[CHUNK..];
      FullyVerifiedIff(rest, n - 1);
      assert stream == stream[..CHUNK] + rest;
      assert |Block()| == CHUNK by { PatternLength(CHUNK); }
      assert Blocks(n)[..CHUNK] == Block() && Blocks(n)[CHUNK..] == Blocks(n - 1);
    }
  }

  /** A chunk, or the part of one that ends a stream, counts in full if it is the beginning of the pattern, else not. */
  lemma OneChunk(chunk: seq<Byte>)
    requires |chunk| <= 8192
    ensures Verified(chunk) == if forall i :: 0 <= i < |chunk| ==> chunk[i] == PatternByte(0, i) then |chunk| else 0
  {
    hide PatternByte;
    PatternIs(chunk);
    if |chunk| == CHUNK {
      VerifiedChunk(chunk);
    }
  }

  lemma PatternIs(chunk: seq<Byte>)
    ensures chunk == Pattern(0, |chunk|) <==> forall i :: 0 <= i < |chunk| ==> chunk[i] == PatternByte(0, i)
  {
    hide PatternByte;
    var p := Pattern(0, |chunk|);
    assert chunk == p <==> forall i :: 0 <= i < |chunk| ==> chunk[i] == p[i];
  }

  /** All of a stream of any length is verified exactly when it repeats the first 8192 bytes of the pattern. */
  lemma {:induction false} AllVerified(stream: seq<Byte>)
    ensures Verified(stream) == |stream| <==> forall i :: 0 <= i < |stream| ==> stream[i] == PatternByte(0, i % 8192)
  {
    hide PatternByte, Verified;
    if |stream| < 8192 {
      OneChunk(stream);
      assert forall i :: 0 <= i < |stream| ==> i % 8192 == i;
    } else {
      var chunk, rest := stream[..8192], stream[8192..];
      assert stream == chunk + rest;
      VerifiedAppend(chunk, rest);
      OneChunk(chunk);
      VerifiedAtMost(rest);
      AllVerified(rest);
      Periodic(stream);
    }
  }

  lemma Periodic(stream: seq<Byte>)
    requires |stream| >= 8192
    ensures (forall i :: 0 <= i < |stream| ==> stream[i] == PatternByte(0, i % 8192))
       <==> && (forall i :: 0 <= i < |stream[..8192]| ==> stream[..8192][i] == PatternByte(0, i))
            && (forall i :: 0 <= i < |stream[8192..]| ==> stream[8192..][i] == PatternByte(0, i % 8192))
  {
    hide PatternByte;
    forall i | 0 <= i < |stream|
      ensures i < 8192 ==> i % 8192 == i && stream[..8192][i] == stream[i]
      ensures i >= 8192 ==> i % 8192 == (i - 8192) % 8192 && stream[8192..][i - 8192] == stream[i]
    {}
    assert forall i :: 0 <= i < |stream[8192..]| ==>
      stream[8192..][i] == stream[i + 8192] && i % 8192 == (i + 8192) % 8192;
    assert forall i :: 0 <= i < 8192 ==> stream[..8192][i] == stream[i];
  }

  lemma PatternLength(n: nat)
    ensures |Pattern(0, n)| == n
  {}

  lemma {:induction false} VerifiedAtMost(stream: seq<Byte>)
    ensures Verified(stream) <= |stream|
  {
    hide Pattern;
    if |stream| >= CHUNK {
      VerifiedAtMost(stream[CHUNK..]);
    }
  }

  // ---- The code ----

  /**
    A recv of at most `room` bytes: the network hands over as many as it likes of the bytes that are there, and
    nothing (end of stream, error or timeout) when there are none.
   */
  function Delivered(room: nat, available: nat, likes: nat): nat {
    var n := if likes < room then likes else room;
    if n < available then n else available
  }

  function Min(a: nat, b: nat): nat {
    if a < b then a else b
  }

  /**
    The receive loop of tests 39 and 42, with limits of 65536 and 262144. `stream` is everything that may arrive and
    `likes` how much each recv would like to hand over; a zero, or the end of the list, is a failing recv. The
    verified bytes depend on the bytes received alone, and all of them are verified exactly when the limit was
    received and is the repeated pattern.
   */
  method ReceiveAndVerify(stream: seq<Byte>, limit: nat, likes: seq<nat>)
      returns (verified: nat, total: nat, ghost k: nat)
    requires limit % CHUNK == 0
    ensures verified <= total <= Min(limit, |stream|)
    ensures verified == Verified(stream[..total])
    ensures verified >= limit <==> total == limit && stream[..limit] == Blocks(limit / CHUNK)
    ensures 0 !in likes && |likes| >= |stream| ==> total == Min(limit, |stream|)
    ensures StoppedAfter(likes, k, limit, |stream|) && total == TotalAfter(likes, k, |stream|)
  {
    hide Verified, Pattern, Blocks, Aligned, InChunk, TotalAfter, WentOn;
    NoRecvs(likes, limit, |stream|);
    AlignedAt(0, 0);
    AlignedLimit(limit);
    var rbuf := new Byte[CHUNK](_ => 0);
    total, verified := 0, 0;
    var offset, i := 0, 0;
    ghost var done: nat := 0;
    NothingVerified(stream[..0]);
    while total < limit
      invariant Progress(rbuf[..], stream, done, offset, total, verified) && total <= Min(limit, |stream|)
      invariant i <= |likes| && (0 !in likes ==> i <= total)
      invariant total == TotalAfter(likes, i, |stream|) && WentOn(likes, i, limit, |stream|)
      decreases |stream| - total
    {
      if i == |likes| {
        break;
      }
      WithinLimit(done, limit);
      NextRecv(likes, i, limit, |stream|, offset);
      var n;
      n, offset, verified, done := ReceivePiece(rbuf, offset, stream, total, likes[i], verified, done);
      if n == 0 {
        assert likes[i] in likes;
        break;
      }
      i, total := i + 1, total + n;
    }
    k := i;
    if offset > 0 {
      verified := VerifyPart(rbuf, offset, verified, stream, done);
    }
    AllVerifiedIff(stream, total, limit);
  }

  /** The bytes received by k recvs: each takes what it likes of what is there, up to the end of the chunk. */
  function TotalAfter(likes: seq<nat>, k: nat, available: nat): (total: nat)
    requires k <= |likes|
    ensures total <= available
  {
    if k == 0 then 0
    else
      var before := TotalAfter(likes, k - 1, available);
      before + Delivered(CHUNK - before % CHUNK, available - before, likes[k - 1])
  }

  lemma EachRecv(likes: seq<nat>, k: nat, available: nat)
    requires k < |likes|
    ensures var before := TotalAfter(likes, k, available);
            TotalAfter(likes, k + 1, available)
            == Min(before + likes[k], Min(before + (8192 - before % 8192), available))
  {}

  ghost predicate WentOn(likes: seq<nat>, k: nat, limit: nat, available: nat)
    requires k <= |likes|
  {
    forall j :: 0 <= j < k ==> likes[j] > 0 && TotalAfter(likes, j, available) < Min(limit, available)
  }

  /** The loop took k recvs that delivered something, and stopped for want of more or because the limit was reached. */
  ghost predicate StoppedAfter(likes: seq<nat>, k: nat, limit: nat, available: nat) {
    && k <= |likes| && WentOn(likes, k, limit, available)
    && (TotalAfter(likes, k, available) >= Min(limit, available) || k == |likes| || likes[k] == 0)
  }

  lemma NoRecvs(likes: seq<nat>, limit: nat, available: nat)
    ensures TotalAfter(likes, 0, available) == 0 && WentOn(likes, 0, limit, available)
  {}

  lemma NextRecv(likes: seq<nat>, k: nat, limit: nat, available: nat, offset: nat)
    requires k < |likes| && WentOn(likes, k, limit, available) && offset < CHUNK
    requires TotalAfter(likes, k, available) < limit && offset == InChunk(TotalAfter(likes, k, available))
    ensures var before := TotalAfter(likes, k, available);
            var n := Delivered(CHUNK - offset, available - before, likes[k]);
            && TotalAfter(likes, k + 1, available) == before + n
            && (n > 0 ==> WentOn(likes, k + 1, limit, available))
            && (n == 0 ==> likes[k] == 0 || before >= available)
  {
    hide TotalAfter;
    OneRecv(likes, k, available);
  }

  lemma OneRecv(likes: seq<nat>, k: nat, available: nat)
    requires k < |likes|
    ensures var before := TotalAfter(likes, k, available);
            TotalAfter(likes, k + 1, available)
            == before + Delivered(CHUNK - InChunk(before), available - before, likes[k])
  {}

  /**
    Where the loop stands: `done` bytes in whole chunks are judged, the rest of `total` is at the front of the
    buffer.
   */
  ghost predicate Progress(buf: seq<Byte>, stream: seq<Byte>, done: nat, offset: nat, total: nat, verified: nat) {
    && |buf| == CHUNK && Aligned(done) && offset < CHUNK && total == done + offset <= |stream|
    && offset == InChunk(total)
    && buf[..offset] == stream[done..total]
    && verified == Verified(stream[..done])
  }

  /** One round: a recv, and the verification of the chunk when it is complete. */
  method ReceivePiece(
      rbuf: array<Byte>, at: nat, stream: seq<Byte>, total: nat, likes: nat, before: nat, ghost judged: nat)
      returns (n: nat, offset: nat, verified: nat, ghost done: nat)
    requires rbuf.Length == CHUNK && Progress(rbuf[..], stream, judged, at, total, before)
    modifies rbuf
    ensures n == Delivered(CHUNK - at, |stream| - total, likes)
    ensures Progress(rbuf[..], stream, done, offset, total + n, verified)
  {
    hide Verified, Aligned, InChunk;
    n := Recv(rbuf, at, stream, total, likes);
    offset, verified, done := at + n, before, judged;
    SlicesJoin(stream, judged, total, total + n);
    AlignedAt(judged, offset);
    if offset >= CHUNK {
      verified := VerifyPart(rbuf, CHUNK, before, stream, judged);
      offset, done := 0, total + n;
    }
  }

  /** What the number of verified bytes says about the bytes received. */
  lemma AllVerifiedIff(stream: seq<Byte>, total: nat, limit: nat)
    requires limit % CHUNK == 0 && total <= Min(limit, |stream|)
    ensures var verified := Verified(stream[..total]);
            && verified <= total
            && (verified >= limit <==> total == limit && stream[..limit] == Blocks(limit / CHUNK))
  {
    hide Verified, Blocks;
    VerifiedAtMost(stream[..total]);
    if total == limit {
      FullyVerifiedIff(stream[..total], limit / CHUNK);
    }
  }

  /** At the start of a chunk. */
  predicate Aligned(n: nat) {
    n % CHUNK == 0
  }

  /** How far into its chunk a byte is. */
  function InChunk(n: nat): nat {
    n % CHUNK
  }

  lemma AlignedAt(done: nat, offset: nat)
    requires done == 0 || Aligned(done)
    ensures Aligned(0) && (offset < CHUNK ==> InChunk(done + offset) == offset)
    ensures offset == CHUNK ==> Aligned(done + offset) && InChunk(done + offset) == 0
  {
    if offset < CHUNK {
      ModUnique(done + offset, CHUNK, done / CHUNK, offset);
    } else if offset == CHUNK {
      ModUnique(done + offset, CHUNK, done / CHUNK + 1, 0);
    }
  }

  lemma AlignedLimit(limit: nat)
    requires limit % CHUNK == 0
    ensures Aligned(limit)
  {}

  /** A chunk that starts below the limit ends within it. */
  lemma WithinLimit(done: nat, limit: nat)
    requires Aligned(done) && Aligned(limit) && done < limit
    ensures done + CHUNK <= limit
  {
    var q, r := done / CHUNK, limit / CHUNK;
    if q >= r {
      MulMonotone(r, q, CHUNK);
    } else {
      MulMonotone(q + 1, r, CHUNK);
    }
  }

  lemma SlicesJoin(stream: seq<Byte>, a: nat, b: nat, c: nat)
    requires a <= b <= c <= |stream|
    ensures stream[a..b] + stream[b..c] == stream[a..c]
  {}

  /** recv(fd, rbuf + offset, 8192 - offset, 0). */
  method Recv(rbuf: array<Byte>, offset: nat, stream: seq<Byte>, total: nat, likes: nat) returns (n: nat)
    requires offset < CHUNK == rbuf.Length && total <= |stream|
    modifies rbuf
    ensures n == Delivered(CHUNK - offset, |stream| - total, likes)
    ensures rbuf[..offset + n] == old(rbuf[..offset]) + stream[total..total + n]
  {
    n := Delivered(CHUNK - offset, |stream| - total, likes);
    forall k | 0 <= k < n { rbuf[offset + k] := stream[total + k]; }
    assert rbuf[..offset + n] == old(rbuf[..offset]) + stream[total..total + n];
  }

  lemma NothingVerified(s: seq<Byte>)
    requires s == []
    ensures Verified(s) == 0
  {}

  /** One call of verify_test_pattern on the front of the buffer. */
  method VerifyPart(rbuf: array<Byte>, len: nat, before: nat, ghost stream: seq<Byte>, ghost done: nat)
      returns (verified: nat)
    requires 0 < len <= CHUNK == rbuf.Length && Aligned(done) && done + len <= |stream|
    requires rbuf[..len] == stream[done..done + len] && before == Verified(stream[..done])
    ensures verified == Verified(stream[..done + len])
  {
    hide Pattern;
    var mm := VerifyTestPattern(rbuf, 0, len, 0);
    var part := stream[done..done + len];
    assert rbuf[0..len] == part;
    assert stream[..done + len] == stream[..done] + part;
    VerifiedAppend(stream[..done], part);
    if len == CHUNK {
      VerifiedChunk(part);
    }
    verified := if mm == 0 then before + len else before;
  }

  // ---- The echo ----

  /** What has been sent when send() accepted n bytes of the chunk, time after time: always its beginning. */
  function SentStream(accepted: seq<nat>): seq<Byte> {
    if accepted == [] then [] else SentStream(accepted[..|accepted| - 1]) + Pattern(0, accepted[|accepted| - 1])
  }

  /** How many sends succeed before one fails. */
  function Sends(results: seq<int>, count: nat): (n: nat)
    requires count <= |results|
    ensures n <= count && (forall k :: 0 <= k < n ==> results[k] > 0) && (n < count ==> results[n] <= 0)
  {
    if count == 0 then 0
    else
      var n := Sends(results, count - 1);
      if n == count - 1 && results[n] > 0 then count else n
  }

  /** The send loop: `count` chunks unless a send fails; `results` are what send() returns. */
  method SendChunks(count: nat, results: seq<int>) returns (total: nat)
    requires |results| >= count
    ensures total == |SentStream(results[..Sends(results, count)])|
  {
    hide Pattern;
    total := 0;
    for i := 0 to count
      invariant forall k :: 0 <= k < i ==> results[k] > 0
      invariant total == |SentStream(results[..i])|
    {
      var n := results[i];
      if n <= 0 {
        return;
      }
      PatternLength(n);
      assert results[..i + 1][..i] == results[..i];
      total := total + n;
    }
  }

  /** Bytes on the way to the helper, on the way back, and received. */
  datatype Wire = Wire(up: seq<Byte>, down: seq<Byte>, got: seq<Byte>)

  /** The helper echoes what one recv(8192) gives it; the client takes some of what has come back. */
  datatype Move = Echo(n: nat) | Take(n: nat)

  predicate Possible(w: Wire, m: Move) {
    match m
    case Echo(n) => 0 < n <= 8192 && n <= |w.up|
    case Take(n) => 0 < n <= |w.down|
  }

  function Moved(w: Wire, m: Move): Wire
    requires Possible(w, m)
  {
    match m
    case Echo(n) => w.(up := w.up[n..], down := w.down + w.up[..n])
    case Take(n) => w.(down := w.down[n..], got := w.got + w.down[..n])
  }

  ghost predicate Reaches(w: Wire, moves: seq<Move>, v: Wire)
    decreases |moves|
  {
    if moves == [] then v == w
    else Possible(w, moves[0]) && Reaches(Moved(w, moves[0]), moves[1..], v)
  }

  lemma MoveConserves(w: Wire, m: Move)
    requires Possible(w, m)
    ensures var u := Moved(w, m); u.got + u.down + u.up == w.got + w.down + w.up
  {
    match m
    case Echo(n) => assert w.up == w.up[..n] + w.up[n..];
    case Take(n) => assert w.down == w.down[..n] + w.down[n..];
  }

  /** Nothing is lost, added or reordered on the way through the helper. */
  lemma {:induction false} EchoConserves(w: Wire, moves: seq<Move>, v: Wire)
    requires Reaches(w, moves, v)
    ensures v.got + v.down + v.up == w.got + w.down + w.up
    decreases |moves|
  {
    if moves == [] {
    } else {
      var u := Moved(w, moves[0]);
      MoveConserves(w, moves[0]);
      EchoConserves(u, moves[1..], v);
    }
  }

  lemma {:induction false} SentLength(accepted: seq<nat>)
    requires forall n <- accepted :: 0 < n <= CHUNK
    ensures |SentStream(accepted)| <= |accepted| * CHUNK
    ensures |SentStream(accepted)| == |accepted| * CHUNK <==> forall n <- accepted :: n == CHUNK
  {
    hide Pattern;
    if accepted == [] {
    } else {
      var front, last := accepted[..|accepted| - 1], accepted[|accepted| - 1];
      assert last in accepted && forall n <- front :: n in accepted;
      SentLength(front);
      PatternLength(last);
      assert (forall n <- accepted :: n == CHUNK) <==> (forall n <- front :: n == CHUNK) && last == CHUNK by {
        assert forall n <- accepted :: n in front || n == last;
      }
    }
  }

  lemma {:induction false} BlocksAppend(n: nat)
    ensures Blocks(n) + Block() == Blocks(n + 1)
  {
    hide Pattern;
    if n > 0 {
      BlocksAppend(n - 1);
      assert Block() + Blocks(n - 1) + Block() == Block() + (Blocks(n - 1) + Block());
    } else {
      assert [] + Block() == Block() + [];
    }
  }

  lemma {:induction false} FullSends(accepted: seq<nat>)
    requires forall n <- accepted :: n == CHUNK
    ensures SentStream(accepted) == Blocks(|accepted|)
  {
    hide Pattern;
    if accepted == [] {
    } else {
      var front := accepted[..|accepted| - 1];
      assert accepted[|accepted| - 1] in accepted && forall n <- front :: n in accepted;
      FullSends(front);
      BlocksAppend(|front|);
    }
  }

  /**
    A run in which everything sent is echoed and received passes exactly when every send was complete: `count` of
    them, each of the whole chunk. The way the echo cuts the stream plays no part.
   */
  lemma EchoedRunPassesIff(accepted: seq<nat>, count: nat, moves: seq<Move>, v: Wire)
    requires |accepted| <= count && forall n <- accepted :: 0 < n <= CHUNK
    requires Reaches(Wire(SentStream(accepted), [], []), moves, v) && v.up == [] && v.down == []
    ensures v.got == SentStream(accepted)
    ensures Verified(v.got) >= count * CHUNK <==> |accepted| == count && forall n <- accepted :: n == CHUNK
  {
    hide Pattern, Verified;
    var s := SentStream(accepted);
    EchoConserves(Wire(s, [], []), moves, v);
    assert v.got == v.got + v.down + v.up == [] + [] + s == s;
    VerifiedAtMost(s);
    SentLength(accepted);
    if |accepted| == count && forall n <- accepted :: n == CHUNK {
      FullSends(accepted);
      FullyVerifiedIff(s, count);
    }
  }
}
