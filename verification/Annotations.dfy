/**
  Which filters keep the annotations of which stack: under a filter a test is looked up under its number less those
  left out, and that can add, lose or change its annotation.
 */
module Annotations {
  import opened Machine
  import opened KnownFailures
  import opened Tap
  import opened TapLaws
  import opened Dispatch
  import opened DispatchLaws

  /** Test n belongs to category k. */
  predicate Own(k: nat, n: int)
    requires k < N
  {
    FirstTest(k) <= n < FirstTest(k) + Cat(k).tests
  }

  predicate Knows(entries: seq<Entry>, n: int) {
    exists e :: e in entries && e.number == n
  }

  /** Test n, of category k, is annotated as its own number would be. */
  predicate Kept(entries: seq<Entry>, f: Filter, k: nat, n: int)
    requires k < N
  {
    Lookup(entries, n - LeftOut(f, k), None) == Lookup(entries, n, None)
  }

  /** Test n is not moved by the filter, or neither its own number nor the one it is given is known. */
  predicate Unaffected(entries: seq<Entry>, f: Filter, k: nat, n: int)
    requires k < N
  {
    LeftOut(f, k) > 0 ==> !Knows(entries, n) && !Knows(entries, n - LeftOut(f, k))
  }

  ghost predicate AnnotationsKept(entries: seq<Entry>, f: Filter) {
    forall k: nat, n: int :: k < N && ShouldRun(Cat(k), f) && Own(k, n) ==> Kept(entries, f, k, n)
  }

  /** The table knows no number that a test moved by the filter has, or is given. */
  ghost predicate NoneMoved(entries: seq<Entry>, f: Filter) {
    forall k: nat, n: int :: k < N && ShouldRun(Cat(k), f) && Own(k, n) ==> Unaffected(entries, f, k, n)
  }

  lemma KnownIff(entries: seq<Entry>, n: int)
    ensures Lookup(entries, n, None).Some? <==> Knows(entries, n)
  {
    if Knows(entries, n) {
      KnownFound(entries, n);
    } else {
      LookupMisses(entries, n, None);
    }
  }

  lemma {:induction false} KnownFound(entries: seq<Entry>, n: int)
    requires Knows(entries, n)
    ensures Lookup(entries, n, None).Some?
  {
    if entries[0].number == n {
    } else {
      KnownFound(entries[1..], n);
    }
  }

  // ---- How far a filter moves the tests ----

  lemma FirstTests()
    ensures FirstTest(0) == 1 && FirstTest(1) == 24 && FirstTest(2) == 43 && FirstTest(3) == 58
    ensures FirstTest(4) == 73 && FirstTest(5) == 88 && FirstTest(6) == 105 && FirstTest(7) == 115
    ensures FirstTest(8) == 120 && FirstTest(9) == 127 && FirstTest(10) == 132 && FirstTest(11) == 137
  {
    hide Cat;
    TestCounts();
    assert FirstTest(4) == 73;
    assert FirstTest(8) == 120;
  }

  lemma TestCounts()
    ensures Cat(0).tests == 23 && Cat(1).tests == 19 && Cat(2).tests == 15 && Cat(3).tests == 15
    ensures Cat(4).tests == 15 && Cat(5).tests == 17 && Cat(6).tests == 10 && Cat(7).tests == 5
    ensures Cat(8).tests == 7 && Cat(9).tests == 5 && Cat(10).tests == 5 && Cat(11).tests == 6
  {}

  /** The length of a category's name, and its first two letters, tell it from the others. */
  function Key(k: nat): (int, char, char)
    requires k < N
    ensures |Cat(k).name| >= 2
  {
    var name := Cat(k).name;
    (|name|, name[0], name[1])
  }

  lemma Keys()
    ensures Key(0) == (6, 's', 'o') && Key(1) == (8, 's', 'e') && Key(2) == (7, 's', 'o') && Key(3) == (10, 'w', 'a')
    ensures Key(4) == (7, 's', 'i') && Key(5) == (3, 'd', 'n') && Key(6) == (7, 'u', 't') && Key(7) == (8, 't', 'r')
    ensures Key(8) == (5, 'e', 'r') && Key(9) == (4, 'm', 'i') && Key(10) == (4, 'i', 'c') && Key(11) == (10, 't', 'h')
  {
    hide Cat;
    Names();
  }

  lemma Names()
    ensures Cat(0).name == "socket" && Cat(1).name == "sendrecv" && Cat(2).name == "sockopt"
    ensures Cat(3).name == "waitselect" && Cat(4).name == "signals" && Cat(5).name == "dns"
    ensures Cat(6).name == "utility" && Cat(7).name == "transfer" && Cat(8).name == "errno"
    ensures Cat(9).name == "misc" && Cat(10).name == "icmp" && Cat(11).name == "throughput"
  {}

  lemma LowerKey(k: nat)
    requires k < N
    ensures var low := Lower(Cat(k).name);
            |low| == Key(k).0 && low[0] == Key(k).1 && low[1] == Key(k).2
  {
    hide Cat, Key;
    LowerCaseKey(k);
  }

  lemma LowerCaseKey(k: nat)
    requires k < N
    ensures var (n, a, b) := Key(k);
            |Cat(k).name| == n && Cat(k).name[0] == a && Cat(k).name[1] == b && 'a' <= a <= 'z' && 'a' <= b <= 'z'
  {
    Keys();
  }

  /** A category filter selects at most one category. */
  lemma OneSelected(f: Filter, j: nat, k: nat)
    requires j < N && k < N && f.category.Some? && ShouldRun(Cat(j), f) && ShouldRun(Cat(k), f)
    ensures j == k
  {
    hide Cat, Key;
    LowerKey(j);
    LowerKey(k);
    Keys();
  }

  lemma {:induction false} AllBeforeLeftOut(f: Filter, j: nat, k: nat)
    requires j <= k < N && f.category.Some? && ShouldRun(Cat(k), f)
    ensures LeftOut(f, j) == FirstTest(j) - 1
  {
    hide Cat, ShouldRun;
    if j == 0 {
    } else {
      AllBeforeLeftOut(f, j - 1, k);
      if ShouldRun(Cat(j - 1), f) {
        OneSelected(f, j - 1, k);
      }
    }
  }

  lemma NetworkSelects(f: Filter)
    requires f.category.None? && f.tier.NetworkTier?
    ensures forall k: nat :: k < N ==> (ShouldRun(Cat(k), f) <==> k == 1 || k == 5 || k == 10 || k == 11)
  {}

  lemma NetworkLeavesOut(f: Filter)
    requires f.category.None? && f.tier.NetworkTier?
    ensures LeftOut(f, 1) == 23 && LeftOut(f, 5) == 68 && LeftOut(f, 10) == LeftOut(f, 11) == 95
  {
    hide Cat, ShouldRun;
    NetworkSelects(f);
    TestCounts();
    assert LeftOut(f, 3) == 38;
    assert LeftOut(f, 7) == 78;
  }

  /** How far a filter moves the tests of category k, which it selects, if at all. */
  predicate Moves(k: nat, d: int)
    requires k < N
  {
    || (k > 0 && d == FirstTest(k) - 1)
    || (k == 5 && d == 68)
    || (k >= 10 && d == 95)
  }

  lemma MovedBy(f: Filter, k: nat)
    requires k < N && ShouldRun(Cat(k), f) && LeftOut(f, k) > 0
    ensures Moves(k, LeftOut(f, k))
  {
    hide Cat, ShouldRun, LeftOut, FirstTest;
    FirstTests();
    if f.category.Some? {
      AllBeforeLeftOut(f, k, k);
    } else if f.tier.NetworkTier? {
      NetworkSelects(f);
      NetworkLeavesOut(f);
    } else {
      NothingLeftOut(f, k);
    }
  }

  // ---- Moves from one known number to another ----

  /** A test of category k and the number it is given are both known. */
  ghost predicate FromKnownToKnown(entries: seq<Entry>, k: nat, d: int, n: int)
    requires k < N
  {
    Moves(k, d) && Own(k, n) && Knows(entries, n) && Knows(entries, n - d)
  }

  lemma RoadshowKnows(n: int)
    requires Knows(ROADSHOW, n)
    ensures n in {27, 35, 76, 77}
  {}

  lemma NumbersKnow(entries: seq<Entry>, n: int)
    requires Knows(entries, n)
    ensures n in Numbers(entries)
  {
    var e :| e in entries && e.number == n;
    var i :| 0 <= i < |entries| && entries[i] == e;
    assert Numbers(entries)[i] == n;
  }

  /** On Roadshow and WinUAE no test moves from one known number to another. */
  lemma RoadshowNever(k: nat, d: int, n: int)
    requires k < N
    ensures !FromKnownToKnown(ROADSHOW, k, d, n)
  {
    hide Cat, FirstTest, Knows, ROADSHOW;
    FirstTests();
    TestCounts();
    if FromKnownToKnown(ROADSHOW, k, d, n) {
      RoadshowKnows(n);
      RoadshowKnows(n - d);
      assert false;
    }
  }

  lemma WinuaeNever(k: nat, d: int, n: int)
    requires k < N
    ensures !FromKnownToKnown(WINUAE, k, d, n)
  {
    hide Cat, FirstTest, Knows, WINUAE, Numbers;
    FirstTests();
    TestCounts();
    if FromKnownToKnown(WINUAE, k, d, n) {
      NumbersKnow(WINUAE, n);
      NumbersKnow(WINUAE, n - d);
      WinuaeAllNumbers();
      assert false;
    }
  }

  /** Amiberry's numbers where moves start or end. */
  lemma AmiberryKnows(n: int)
    requires Knows(AMIBERRY_711, n)
    ensures 1 <= n <= 19 ==> n == 12 || n == 15
    ensures 20 <= n <= 128 && n !in {31, 32, 33, 35, 49, 50, 52, 55, 63, 70, 78, 79, 80, 81, 82, 83, 84, 85, 87} ==>
              n in {93, 94, 98, 111, 112, 113, 116, 125, 126, 128}
    ensures 1 <= n <= 128
  {
    hide Knows, AMIBERRY_711, Numbers;
    NumbersKnow(AMIBERRY_711, n);
    AmiberryNumbers();
  }

  /** On Amiberry 7.1.1 three tests do. */
  lemma AmiberryPairs(k: nat, d: int, n: int)
    requires k < N && FromKnownToKnown(AMIBERRY_711, k, d, n)
    ensures (n == 35 && n - d == 12) || (n == 84 && n - d == 12) || (n == 87 && n - d == 15)
  {
    hide Cat, FirstTest, Knows, AMIBERRY_711;
    FirstTests();
    TestCounts();
    AmiberryKnows(n);
    AmiberryKnows(n - d);
    if k > 0 && d == FirstTest(k) - 1 {
      assert 1 <= n - d <= 19;
    }
  }

  lemma ReasonOf(i: nat)
    requires i < |AMIBERRY_711|
    ensures Lookup(AMIBERRY_711, AMIBERRY_711[i].number, None) == Some(AMIBERRY_711[i].reason)
  {
    hide AMIBERRY_711;
    AmiberryDistinct();
    LookupFinds(AMIBERRY_711, AMIBERRY_711[i].number, None, AMIBERRY_711[i]);
  }

  /** The reasons of those tests are different. */
  lemma AmiberryReasons()
    ensures Lookup(AMIBERRY_711, 35, None) != Lookup(AMIBERRY_711, 12, None)
    ensures Lookup(AMIBERRY_711, 84, None) != Lookup(AMIBERRY_711, 12, None)
    ensures Lookup(AMIBERRY_711, 87, None) != Lookup(AMIBERRY_711, 15, None)
  {
    hide Lookup, AMIBERRY_711, Ending;
    AmiberryRows();
    AmiberryEndings();
    ReasonOf(6);
    ReasonOf(8);
    ReasonOf(25);
    ReasonOf(26);
    ReasonOf(28);
  }

  function Ending(s: string): char {
    if s == "" then '\0' else s[|s| - 1]
  }

  lemma AmiberryEndings()
    ensures Ending("GetSocketEvents consumed test crashes emulator") == 'r'
    ensures Ending("WaitSelect + signals stress test crashes emulator") == 'r'
    ensures Ending("connect() stale errno causes ECONNREFUSED") == 'D'
    ensures Ending("accept() stale errno causes EWOULDBLOCK") == 'K'
    ensures Ending("send() after peer close gets wrong errno") == 'o'
  {}

  lemma AmiberryRows()
    ensures |AMIBERRY_711| == 31
    ensures AMIBERRY_711[6] == Entry(84, Crash, "GetSocketEvents consumed test crashes emulator")
    ensures AMIBERRY_711[8] == Entry(87, Crash, "WaitSelect + signals stress test crashes emulator")
    ensures AMIBERRY_711[25] == Entry(12, Failure, "connect() stale errno causes ECONNREFUSED")
    ensures AMIBERRY_711[26] == Entry(15, Failure, "accept() stale errno causes EWOULDBLOCK")
    ensures AMIBERRY_711[28] == Entry(35, Failure, "send() after peer close gets wrong errno")
  {
    assert AMIBERRY_711[6] == AMIBERRY_CRASHES[6] && AMIBERRY_711[8] == AMIBERRY_CRASHES[8];
    assert AMIBERRY_711[25] == AMIBERRY_STALE_ERRNO[0] && AMIBERRY_711[26] == AMIBERRY_STALE_ERRNO[1];
    assert AMIBERRY_711[28] == AMIBERRY_STALE_ERRNO[3];
  }

  lemma TablesOf(version: Option<string>)
    ensures EntriesFor(version) in {[], ROADSHOW, AMIBERRY_711, WINUAE}
  {
    hide ROADSHOW, AMIBERRY_711, WINUAE, Selected;
    if version.Some? {
      FirstMatch(version.value, 0);
    } else {
      assert Selected(version) == None by { NoVersion(version); }
    }
  }

  lemma NoVersion(version: Option<string>)
    requires version.None?
    ensures Selected(version) == None
  {}

  /** Even when both numbers are known, the annotation changes. */
  lemma KnownMoveShows(version: Option<string>, k: nat, d: int, n: int)
    requires k < N && FromKnownToKnown(EntriesFor(version), k, d, n)
    ensures Lookup(EntriesFor(version), n - d, None) != Lookup(EntriesFor(version), n, None)
  {
    hide ROADSHOW, AMIBERRY_711, WINUAE, EntriesFor, Moves, Own, Lookup;
    TablesOf(version);
    RoadshowNever(k, d, n);
    WinuaeNever(k, d, n);
    if EntriesFor(version) == AMIBERRY_711 {
      AmiberryPairs(k, d, n);
      AmiberryReasons();
    }
  }

  /**
    For every version string and every filter: all tests that can run are annotated as their own numbers, if and only
    if the stack's table knows no number that a moved test has or is given.
   */
  lemma AnnotationsKeptIff(version: Option<string>, f: Filter)
    ensures AnnotationsKept(EntriesFor(version), f) <==> NoneMoved(EntriesFor(version), f)
  {
    hide Cat, ShouldRun, Own, EntriesFor, Kept, Unaffected;
    forall k: nat, n: int | k < N && ShouldRun(Cat(k), f) && Own(k, n)
      ensures Kept(EntriesFor(version), f, k, n) <==> Unaffected(EntriesFor(version), f, k, n)
    {
      OneTest(version, f, k, n);
    }
  }

  lemma OneTest(version: Option<string>, f: Filter, k: nat, n: int)
    requires k < N && ShouldRun(Cat(k), f) && Own(k, n)
    ensures Kept(EntriesFor(version), f, k, n) <==> Unaffected(EntriesFor(version), f, k, n)
  {
    hide Cat, ShouldRun, LeftOut, Own, EntriesFor, Lookup, Knows, Moves;
    var entries := EntriesFor(version);
    var d: int := LeftOut(f, k);
    KnownIff(entries, n);
    KnownIff(entries, n - d);
    if d > 0 && Knows(entries, n) && Knows(entries, n - d) {
      MovedBy(f, k);
      KnownMoveShows(version, k, d, n);
    }
  }
}
