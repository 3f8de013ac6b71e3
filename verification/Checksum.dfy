/**
  The ICMP checksum: a sum of big-endian words in a 32-bit accumulator whose carries are folded in at the end.
  It is compared with the one's-complement sum of RFC 1071, section 1, which adds word by word and carries at
  once.
 */
module Checksum {
  import opened Machine

  /** The longest packet whose words cannot overflow the accumulator. */
  const MAX_EXACT: nat := 131074

  function BigEndian(hi: Byte, lo: Byte): Word {
    hi as int * 0x100 + lo
  }

  /** The packet as big-endian words; a trailing odd byte is the high half of a last word. */
  function Words(bs: seq<Byte>): (ws: seq<Word>)
    ensures |ws| == (|bs| + 1) / 2
  {
    if |bs| == 0 then []
    else if |bs| == 1 then [BigEndian(bs[0], 0)]
    else [BigEndian(bs[0], bs[1])] + Words(bs[2..])
  }

  function Sum(ws: seq<Word>): nat {
    if ws == [] then 0 else ws[0] + Sum(ws[1..])
  }

  /** while (sum >> 16) sum = (sum & 0xffff) + (sum >> 16); */
  function Fold(sum: nat): (r: Word)
    ensures r == Canonical(sum)
  {
    if sum < 0x1_0000 then sum
    else
      FoldStep(sum);
      Fold(sum % 0x1_0000 + sum / 0x1_0000)
  }

  /** The representative modulo 65535 in 0..65535 that is zero only for zero. */
  function Canonical(sum: nat): Word {
    if sum == 0 then 0 else (sum - 1) % 0xFFFF + 1
  }

  lemma FoldStep(sum: nat)
    requires sum >= 0x1_0000
    ensures Canonical(sum % 0x1_0000 + sum / 0x1_0000) == Canonical(sum)
  {
    var s := sum % 0x1_0000 + sum / 0x1_0000;
    assert sum - 1 == (s - 1) + (sum / 0x1_0000) * 0xFFFF;
    ModAddMultiple(s - 1, sum / 0x1_0000, 0xFFFF);
  }

  /** What icmp_checksum returns for a packet, with the accumulator's wrap-around. */
  function ChecksumOf(bs: seq<Byte>): Word {
    0xFFFF - Fold(ToULong(Sum(Words(bs))))
  }

  // ---- The code ----

  method IcmpChecksum(data: array<Byte>, len: nat) returns (r: Word)
    requires len <= data.Length
    ensures r == ChecksumOf(data[..len])
  {
    hide Words, Sum, Canonical, BigEndian;
    NoWords();
    var sum: ULong := 0;
    var at, left := 0, len;
    ghost var bs := data[..len];
    while left > 1
      invariant at + left == len && at % 2 == 0
      invariant sum == ToULong(Sum(Words(bs[..at])))
    {
      AppendWord(bs, at, sum);
      sum := ToULong(sum + BigEndian(data[at], data[at + 1]));
      at, left := at + 2, left - 2;
    }
    if left != 0 {
      AppendTail(bs, at, sum);
      sum := ToULong(sum + BigEndian(data[at], 0));
    }
    assert bs[..len] == bs;
    ghost var total := sum;
    while sum >= 0x1_0000
      invariant Fold(sum) == Fold(total)
    {
      sum := sum % 0x1_0000 + sum / 0x1_0000;
    }
    r := 0xFFFF - sum;
  }

  // ---- Sums of words ----

  lemma {:induction false} SumAppend(xs: seq<Word>, ys: seq<Word>)
    ensures Sum(xs + ys) == Sum(xs) + Sum(ys)
  {
    if xs == [] {
      assert xs + ys == ys;
    } else {
      SumAppend(xs[1..], ys);
      assert (xs + ys)[1..] == xs[1..] + ys;
    }
  }

  /** Splitting a packet at an even offset splits its words. */
  lemma {:induction false} WordsAppend(xs: seq<Byte>, ys: seq<Byte>)
    requires |xs| % 2 == 0
    ensures Words(xs + ys) == Words(xs) + Words(ys)
  {
    if xs == [] {
      assert xs + ys == ys;
    } else {
      WordsAppend(xs[2..], ys);
      assert (xs + ys)[2..] == xs[2..] + ys;
    }
  }

  lemma AddThenWrap(sum: nat, w: nat)
    ensures ToULong(ToULong(sum) + w) == ToULong(sum + w)
  {
    ModAddMultiple(ToULong(sum) + w, sum / 0x1_0000_0000, 0x1_0000_0000);
  }

  lemma NoWords()
    ensures Sum(Words([])) == 0
  {}

  lemma OneWord(hi: Byte, lo: Byte)
    ensures Sum(Words([hi, lo])) == BigEndian(hi, lo)
    ensures Sum(Words([hi])) == BigEndian(hi, 0)
  {
    assert [hi, lo][2..] == [];
    assert Words([hi, lo]) == [BigEndian(hi, lo)];
  }

  /** The words of a part of even length come before the words of the rest. */
  lemma SumSplit(front: seq<Byte>, rest: seq<Byte>, sum: ULong)
    requires |front| % 2 == 0 && sum == ToULong(Sum(Words(front)))
    ensures ToULong(sum + Sum(Words(rest))) == ToULong(Sum(Words(front + rest)))
  {
    hide Words, Sum, ToULong;
    WordsAppend(front, rest);
    SumAppend(Words(front), Words(rest));
    AddThenWrap(Sum(Words(front)), Sum(Words(rest)));
  }

  lemma AppendWord(bs: seq<Byte>, at: nat, sum: ULong)
    requires at + 2 <= |bs| && at % 2 == 0
    requires sum == ToULong(Sum(Words(bs[..at])))
    ensures ToULong(sum + BigEndian(bs[at], bs[at + 1])) == ToULong(Sum(Words(bs[..at + 2])))
  {
    hide Words, Sum, ToULong, BigEndian;
    var last := [bs[at], bs[at + 1]];
    assert bs[..at + 2] == bs[..at] + last;
    OneWord(bs[at], bs[at + 1]);
    SumSplit(bs[..at], last, sum);
  }

  lemma AppendTail(bs: seq<Byte>, at: nat, sum: ULong)
    requires at + 1 == |bs| && at % 2 == 0
    requires sum == ToULong(Sum(Words(bs[..at])))
    ensures ToULong(sum + BigEndian(bs[at], 0)) == ToULong(Sum(Words(bs)))
  {
    hide Words, Sum, ToULong, BigEndian;
    assert bs == bs[..at] + [bs[at]];
    OneWord(bs[at], 0);
    SumSplit(bs[..at], [bs[at]], sum);
  }

  lemma {:induction false} SumBound(ws: seq<Word>)
    ensures Sum(ws) <= |ws| * 0xFFFF
  {
    if ws == [] {
    } else {
      SumBound(ws[1..]);
    }
  }

  // ---- Refinement of one's-complement addition ----

  /** 16-bit addition with end-around carry. */
  function OnesAdd(a: Word, b: Word): Word {
    if a + b < 0x1_0000 then a + b else a + b - 0xFFFF
  }

  /** RFC 1071: add the words one by one. */
  function OnesSum(ws: seq<Word>): Word {
    if ws == [] then 0 else OnesAdd(ws[0], OnesSum(ws[1..]))
  }

  lemma {:induction false} OnesSumIsCanonical(ws: seq<Word>)
    ensures OnesSum(ws) == Canonical(Sum(ws))
  {
    if ws == [] {
    } else {
      OnesSumIsCanonical(ws[1..]);
      OnesAddIsCanonical(ws[0], Sum(ws[1..]));
    }
  }

  lemma OnesAddIsCanonical(a: Word, n: nat)
    ensures OnesAdd(a, Canonical(n)) == Canonical(a + n)
  {
    if n > 0 {
      var q, r := (n - 1) / 0xFFFF, (n - 1) % 0xFFFF;
      if a + r < 0xFFFF {
        ModUnique(a + n - 1, 0xFFFF, q, a + r);
      } else {
        ModUnique(a + n - 1, 0xFFFF, q + 1, a + r - 0xFFFF);
      }
    }
  }

  /** Up to 131074 bytes the accumulator never wraps and the result is the complement of the one's-complement sum. */
  lemma ChecksumIsOnesComplement(bs: seq<Byte>)
    requires |bs| <= MAX_EXACT
    ensures Sum(Words(bs)) < 0x1_0000_0000
    ensures ChecksumOf(bs) == 0xFFFF - OnesSum(Words(bs))
  {
    SumFits(bs);
    OnesSumIsCanonical(Words(bs));
    UnwrappedFold(Sum(Words(bs)));
  }

  lemma SumFits(bs: seq<Byte>)
    requires |bs| <= MAX_EXACT
    ensures Sum(Words(bs)) < 0x1_0000_0000
  {
    assert |Words(bs)| <= 65537;
    SumBound(Words(bs));
  }

  lemma UnwrappedFold(s: nat)
    requires s < 0x1_0000_0000
    ensures Fold(ToULong(s)) == Canonical(s)
  {
    assert ToULong(s) == s;
  }

  function Repeat(b: Byte, n: nat): seq<Byte> {
    seq(n, _ => b)
  }

  lemma {:induction false} SumOfRepeat(m: nat)
    ensures Sum(Words(Repeat(0xFF, 2 * m))) == m * 0xFFFF
    ensures Sum(Words(Repeat(0, 2 * m))) == 0 && Sum(Words(Repeat(0, 2 * m + 1))) == 0
  {
    if m == 0 {
    } else {
      SumOfRepeat(m - 1);
      assert Repeat(0xFF, 2 * m)[2..] == Repeat(0xFF, 2 * (m - 1));
      assert Repeat(0, 2 * m)[2..] == Repeat(0, 2 * (m - 1));
      assert Repeat(0, 2 * m + 1)[2..] == Repeat(0, 2 * (m - 1) + 1);
    }
  }

  /** A packet of the given length whose words overflow the accumulator once. */
  function Overflowing(n: nat): seq<Byte>
    requires n > MAX_EXACT
  {
    Repeat(0xFF, MAX_EXACT) + ([0xFF] + (if n == MAX_EXACT + 1 then [] else [0xFF] + Repeat(0, n - MAX_EXACT - 2)))
  }

  /** What stands behind the 131074 bytes of ones. */
  lemma TailSum(zeros: nat)
    ensures Sum(Words([0xFF])) == 0xFF00
    ensures Sum(Words([0xFF] + ([0xFF] + Repeat(0, zeros)))) == 0xFFFF
  {
    hide Repeat;
    var tail := [0xFF] + ([0xFF] + Repeat(0, zeros));
    assert tail[2..] == Repeat(0, zeros);
    SumOfRepeat(zeros / 2);
    OneWord(0xFF, 0);
  }

  lemma OverflowingSum(n: nat)
    requires n > MAX_EXACT
    ensures |Overflowing(n)| == n
    ensures 0x1_0000_0000 < Sum(Words(Overflowing(n))) < 0x1_0000_0000 + 0xFFFF
  {
    hide Words, Sum;
    var tail := [0xFF] + (if n == MAX_EXACT + 1 then [] else [0xFF] + Repeat(0, n - MAX_EXACT - 2));
    assert n == MAX_EXACT + 1 ==> tail == [0xFF];
    SumOfRepeat(MAX_EXACT / 2);
    WordsAppend(Repeat(0xFF, MAX_EXACT), tail);
    SumAppend(Words(Repeat(0xFF, MAX_EXACT)), Words(tail));
    TailSum(if n == MAX_EXACT + 1 then 0 else n - MAX_EXACT - 2);
  }

  /** The bound is exact: for every greater length some packet gets a different checksum. */
  lemma ExactUpTo131074(n: nat)
    ensures n <= MAX_EXACT <==>
            forall bs: seq<Byte> :: |bs| == n ==> ChecksumOf(bs) == 0xFFFF - OnesSum(Words(bs))
  {
    if n <= MAX_EXACT {
      forall bs: seq<Byte> | |bs| == n ensures ChecksumOf(bs) == 0xFFFF - OnesSum(Words(bs)) {
        ChecksumIsOnesComplement(bs);
      }
    } else {
      var bs := Overflowing(n);
      OverflowingSum(n);
      var s := Sum(Words(bs));
      OnesSumIsCanonical(Words(bs));
      assert ToULong(s) == s - 0x1_0000_0000;
      assert Canonical(s - 0x1_0000_0000) != Canonical(s);
    }
  }

  // ---- What does not matter ----

  /** An odd packet has the checksum of the packet padded with a zero byte. */
  lemma {:induction false} OddLengthIsZeroPadding(bs: seq<Byte>)
    requires |bs| % 2 == 1
    ensures Words(bs + [0]) == Words(bs) && ChecksumOf(bs + [0]) == ChecksumOf(bs)
  {
    if |bs| > 1 {
      OddLengthIsZeroPadding(bs[2..]);
      assert (bs + [0])[2..] == bs[2..] + [0];
    }
  }

  /** The order of the words does not matter, at any length. */
  lemma WordOrderDoesNotMatter(a: seq<Byte>, b: seq<Byte>)
    requires multiset(Words(a)) == multiset(Words(b))
    ensures ChecksumOf(a) == ChecksumOf(b)
  {
    SumOfPermutation(Words(a), Words(b));
  }

  lemma {:induction false} SumOfPermutation(xs: seq<Word>, ys: seq<Word>)
    requires multiset(xs) == multiset(ys)
    ensures Sum(xs) == Sum(ys)
  {
    if xs == [] {
      assert |ys| == |multiset(ys)| == 0;
    } else {
      assert xs == [xs[0]] + xs[1..];
      assert xs[0] in multiset(ys);
      var i :| 0 <= i < |ys| && ys[i] == xs[0];
      var rest := RemoveAt(ys, i);
      SumOfPermutation(xs[1..], rest);
    }
  }

  lemma RemoveAt(ys: seq<Word>, i: nat) returns (rest: seq<Word>)
    requires i < |ys|
    ensures multiset(rest) == multiset(ys) - multiset{ys[i]}
    ensures Sum(ys) == ys[i] + Sum(rest)
  {
    var tail := [ys[i]] + ys[i + 1..];
    rest := ys[..i] + ys[i + 1..];
    assert ys == ys[..i] + tail;
    SumAppend(ys[..i], tail);
    SumAppend(ys[..i], ys[i + 1..]);
  }

  // ---- Sealing a packet and detecting changes ----

  /** Bytes 2 and 3, the checksum field, set to a big-endian word. */
  function WithChecksum(p: seq<Byte>, c: Word): seq<Byte>
    requires |p| >= 4
  {
    p[2 := c / 0x100][3 := c % 0x100]
  }

  /** The packet with its checksum computed over a zeroed field, as the sender stores it. */
  function Seal(p: seq<Byte>): seq<Byte>
    requires |p| >= 4
  {
    WithChecksum(p, ChecksumOf(WithChecksum(p, 0)))
  }

  lemma SumWithChecksum(p: seq<Byte>, c: Word)
    requires |p| >= 4
    ensures Sum(Words(WithChecksum(p, c))) == BigEndian(p[0], p[1]) + c + Sum(Words(p[4..]))
  {
    var q := WithChecksum(p, c);
    assert q[2..][2..] == p[4..];
    assert Words(q) == [BigEndian(q[0], q[1])] + Words(q[2..]);
    assert Words(q[2..]) == [BigEndian(q[2], q[3])] + Words(p[4..]);
  }

  /** The receiver's check: a sealed packet has checksum zero, and a sum that is a positive multiple of 65535. */
  lemma SealedPacketChecks(p: seq<Byte>)
    requires 4 <= |p| <= MAX_EXACT
    ensures ChecksumOf(Seal(p)) == 0
    ensures Sum(Words(Seal(p))) > 0 && Sum(Words(Seal(p))) % 0xFFFF == 0
  {
    var zeroed := WithChecksum(p, 0);
    var s := Sum(Words(zeroed));
    var c := ChecksumOf(zeroed);
    SumWithChecksum(p, 0);
    SumWithChecksum(p, c);
    SumFits(zeroed);
    UnwrappedFold(s);
    ComplementCompletes(s);
    ChecksIff(WithChecksum(p, c));
  }

  lemma ComplementCompletes(s: nat)
    ensures (s + (0xFFFF - Canonical(s))) % 0xFFFF == 0 && s + (0xFFFF - Canonical(s)) > 0
  {
    if s > 0 {
      ModUnique(s + (0xFFFF - Canonical(s)), 0xFFFF, (s - 1) / 0xFFFF + 1, 0);
    }
  }

  /** The folded sum is all ones exactly for the positive multiples of 65535. */
  lemma AllOnesIff(s: nat)
    ensures Canonical(s) == 0xFFFF <==> s > 0 && s % 0xFFFF == 0
  {
    if s > 0 {
      var d, r := (s - 1) / 0xFFFF, (s - 1) % 0xFFFF;
      if r == 0xFFFE {
        ModUnique(s, 0xFFFF, d + 1, 0);
      } else {
        ModUnique(s, 0xFFFF, d, r + 1);
      }
    }
  }

  /** A packet passes the check exactly when its words sum to a positive multiple of 65535. */
  lemma ChecksIff(q: seq<Byte>)
    requires |q| <= MAX_EXACT
    ensures ChecksumOf(q) == 0 <==> Sum(Words(q)) > 0 && Sum(Words(q)) % 0xFFFF == 0
  {
    SumFits(q);
    UnwrappedFold(Sum(Words(q)));
    AllOnesIff(Sum(Words(q)));
  }

  lemma {:induction false} SumUpdate(ws: seq<Word>, k: nat, w: Word)
    requires k < |ws|
    ensures Sum(ws[k := w]) == Sum(ws) - ws[k] + w
  {
    if k > 0 {
      SumUpdate(ws[1..], k - 1, w);
      assert ws[k := w][1..] == ws[1..][k - 1 := w];
    } else {
      assert ws[k := w][1..] == ws[1..];
    }
  }

  lemma SameResidueIff(s: int, s': int, v: int, w: int)
    requires s % 0xFFFF == 0 && s' == s - v + w
    ensures s' % 0xFFFF == 0 <==> w % 0xFFFF == v % 0xFFFF
  {
    if w % 0xFFFF == v % 0xFFFF {
      ModUnique(s', 0xFFFF, s / 0xFFFF + w / 0xFFFF - v / 0xFFFF, 0);
    } else if s' % 0xFFFF == 0 {
      ModAddMultiple(v, s' / 0xFFFF - s / 0xFFFF, 0xFFFF);
    }
  }

  /** Replacing one word of a packet that passes goes unnoticed exactly when old and new agree modulo 65535 and
      the packet does not become all zero. */
  lemma OneWordChangeDetected(p: seq<Byte>, q: seq<Byte>, k: nat, w: Word)
    requires |q| == |p| <= MAX_EXACT && ChecksumOf(p) == 0
    requires k < |Words(p)| && Words(q) == Words(p)[k := w]
    ensures ChecksumOf(q) == 0 <==> (w % 0xFFFF == Words(p)[k] % 0xFFFF && Sum(Words(q)) > 0)
  {
    ChecksIff(p);
    ChecksIff(q);
    SumUpdate(Words(p), k, w);
    SameResidueIff(Sum(Words(p)), Sum(Words(q)), Words(p)[k], w);
  }

  lemma {:induction false} WordAt(bs: seq<Byte>, i: nat)
    requires i < |bs|
    ensures Words(bs)[i / 2] == if i % 2 == 1 then BigEndian(bs[i - 1], bs[i])
                                else BigEndian(bs[i], if i + 1 < |bs| then bs[i + 1] else 0)
  {
    if i >= 2 {
      WordAt(bs[2..], i - 2);
    }
  }

  lemma {:induction false} ByteUpdate(bs: seq<Byte>, i: nat, b: Byte)
    requires i < |bs|
    ensures Words(bs[i := b]) == Words(bs)[i / 2 := Words(bs[i := b])[i / 2]]
  {
    if i >= 2 {
      ByteUpdate(bs[2..], i - 2, b);
      assert bs[i := b][2..] == bs[2..][i - 2 := b];
    } else if |bs| >= 2 {
      assert bs[i := b][2..] == bs[2..];
    }
  }

  lemma CloseWordsNotCongruent(v: Word, w: Word)
    requires v != w && -0xFFFF < v - w < 0xFFFF
    ensures v % 0xFFFF != w % 0xFFFF
  {}

  /** Every change of a single byte of a packet that passes is noticed. */
  lemma OneByteChangeDetected(p: seq<Byte>, i: nat, b: Byte)
    requires |p| <= MAX_EXACT && ChecksumOf(p) == 0
    requires i < |p| && b != p[i]
    ensures ChecksumOf(p[i := b]) != 0
  {
    var q := p[i := b];
    var w := Words(q)[i / 2];
    ByteUpdate(p, i, b);
    WordAt(p, i);
    WordAt(q, i);
    CloseWordsNotCongruent(Words(p)[i / 2], w);
    OneWordChangeDetected(p, q, i / 2, w);
  }
}
