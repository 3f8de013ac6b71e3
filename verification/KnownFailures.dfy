/** Known failures and crashes per TCP/IP stack, chosen by the version string the stack reports. */
module KnownFailures {
  import opened Machine

  datatype Kind = Failure | Crash

  datatype Entry = Entry(number: int, kind: Kind, reason: string)

  datatype Profile = Profile(version: string, stack: string, entries: seq<Entry>)

  const ROADSHOW: seq<Entry> := [
    Entry(27, Failure, "recv(MSG_OOB) returns EINVAL"),
    Entry(35, Failure, "loopback does not generate RST for closed peer"),
    Entry(76, Failure, "SBTC_ERRNOLONGPTR GET not supported (SET-only)"),
    Entry(77, Failure, "SBTC_HERRNOLONGPTR GET not supported (SET-only)")
  ]

  const AMIBERRY_CRASHES: seq<Entry> := [
    Entry(70, Crash, "WaitSelect >64 fds causes out-of-bounds access"),
    Entry(79, Crash, "SO_EVENTMASK FD_READ crashes emulator"),
    Entry(80, Crash, "SO_EVENTMASK FD_CONNECT crashes emulator"),
    Entry(81, Crash, "SO_EVENTMASK spurious event test crashes emulator"),
    Entry(82, Crash, "SO_EVENTMASK FD_ACCEPT crashes emulator"),
    Entry(83, Crash, "SO_EVENTMASK FD_CLOSE crashes emulator"),
    Entry(84, Crash, "GetSocketEvents consumed test crashes emulator"),
    Entry(85, Crash, "GetSocketEvents round-robin test crashes emulator"),
    Entry(87, Crash, "WaitSelect + signals stress test crashes emulator")
  ]

  const AMIBERRY_FAILURES: seq<Entry> := [
    Entry(31, Failure, "sendmsg() data corruption (sends from address 0)"),
    Entry(32, Failure, "recvmsg() off-by-one in MSG_TRUNC detection"),
    Entry(49, Failure, "SO_RCVTIMEO getsockopt fails (optlen mismatch)"),
    Entry(50, Failure, "SO_SNDTIMEO getsockopt fails (optlen mismatch)"),
    Entry(63, Failure, "WaitSelect NULL fdsets returns immediately"),
    Entry(78, Failure, "SBTC_DTABLESIZE GET returns 0"),
    Entry(93, Failure, "getservbyname() returns stale pointer"),
    Entry(94, Failure, "getservbyport() byte order bug"),
    Entry(98, Failure, "gethostname() logic reversed, returns empty")
  ]

  const AMIBERRY_MORE_FAILURES: seq<Entry> := [
    Entry(111, Failure, "Inet_LnaOf() stub returns 0"),
    Entry(112, Failure, "Inet_NetOf() stub returns 0"),
    Entry(113, Failure, "Inet_MakeAddr() returns 0 (LnaOf/NetOf broken)"),
    Entry(116, Failure, "Dup2Socket() returns 0 instead of target fd"),
    Entry(125, Failure, "stale errno not replaced by ECONNREFUSED"),
    Entry(126, Failure, "stale errno causes connect() EBADF"),
    Entry(128, Failure, "DTABLESIZE GET returns 0, can't test SET")
  ]

  const AMIBERRY_STALE_ERRNO: seq<Entry> := [
    Entry(12, Failure, "connect() stale errno causes ECONNREFUSED"),
    Entry(15, Failure, "accept() stale errno causes EWOULDBLOCK"),
    Entry(33, Failure, "recv() stale errno causes EWOULDBLOCK"),
    Entry(35, Failure, "send() after peer close gets wrong errno"),
    Entry(52, Failure, "SO_ERROR not set after failed connect (stale errno)"),
    Entry(55, Failure, "IoctlSocket(FIONBIO) errno not set (stale errno)")
  ]

  const AMIBERRY_711: seq<Entry> :=
    AMIBERRY_CRASHES + AMIBERRY_FAILURES + AMIBERRY_MORE_FAILURES + AMIBERRY_STALE_ERRNO

  const WINUAE_HANGS: seq<Entry> := [
    Entry(79, Crash, "SO_EVENTMASK hangs (signal never delivered)"),
    Entry(80, Crash, "SO_EVENTMASK hangs (signal never delivered)"),
    Entry(81, Crash, "SO_EVENTMASK hangs (signal never delivered)"),
    Entry(82, Crash, "SO_EVENTMASK hangs (signal never delivered)"),
    Entry(83, Crash, "SO_EVENTMASK hangs (signal never delivered)"),
    Entry(84, Crash, "SO_EVENTMASK hangs (signal never delivered)"),
    Entry(85, Crash, "SO_EVENTMASK hangs (signal never delivered)"),
    Entry(87, Crash, "SO_EVENTMASK hangs (signal never delivered)")
  ]

  const WINUAE_FAILURES: seq<Entry> := [
    Entry(35, Failure, "send after peer close returns wrong errno"),
    Entry(48, Failure, "SO_LINGER set/get roundtrip fails"),
    Entry(52, Failure, "SO_ERROR not set after failed connect"),
    Entry(63, Failure, "WaitSelect NULL fdsets returns immediately"),
    Entry(69, Failure, "WaitSelect nfds not enforced"),
    Entry(78, Failure, "SBTC_DTABLESIZE GET returns 0"),
    Entry(98, Failure, "gethostname() returns empty string"),
    Entry(111, Failure, "Inet_LnaOf() returns 0"),
    Entry(112, Failure, "Inet_NetOf() returns 0"),
    Entry(113, Failure, "Inet_MakeAddr() returns 0 (LnaOf/NetOf broken)"),
    Entry(116, Failure, "Dup2Socket() to specific slot not implemented"),
    Entry(128, Failure, "SBTC_DTABLESIZE GET returns 0")
  ]

  const WINUAE: seq<Entry> := WINUAE_HANGS + WINUAE_FAILURES

  const PROFILES: seq<Profile> := [
    Profile("Roadshow", "Roadshow", ROADSHOW),
    Profile("UAE 7.1.1", "Amiberry 7.1.1", AMIBERRY_711),
    Profile("UAE 8.0.0", "Amiberry", []),
    Profile("UAE 6.0.2", "WinUAE", WINUAE)
  ]

  // ---- Choosing a profile ----

  /** strncmp(version, match, strlen(match)) == 0: the profile's version is a prefix. */
  predicate Matches(version: string, i: nat) {
    i < |PROFILES| && PROFILES[i].version <= version
  }

  /** The profile a version string selects, if any; the first in the table. */
  function Selected(version: Option<string>, from: nat := 0): Option<Profile>
    decreases |PROFILES| - from
  {
    if version.None? || from >= |PROFILES| then None
    else if Matches(version.value, from) then Some(PROFILES[from])
    else Selected(version, from + 1)
  }

  /**
    No profile's version is a prefix of another's, so at most one profile matches and the table's order is
    irrelevant.
   */
  lemma AtMostOneProfile(version: string, i: nat, j: nat)
    requires Matches(version, i) && Matches(version, j)
    ensures i == j
  {
    hide ROADSHOW, AMIBERRY_711, WINUAE;
    assert forall k :: 0 <= k < |PROFILES[i].version| ==> version[k] == PROFILES[i].version[k];
    assert forall k :: 0 <= k < |PROFILES[j].version| ==> version[k] == PROFILES[j].version[k];
    assert PROFILES[0].version[0] == 'R' && PROFILES[1].version[4] == '7';
    assert PROFILES[2].version[4] == '8' && PROFILES[3].version[4] == '6';
    assert forall k :: 1 <= k < 4 ==> PROFILES[k].version[0] == 'U';
  }

  /** The selected profile is the one that matches, wherever it stands. */
  lemma SelectedIff(version: string, i: nat)
    requires i < |PROFILES|
    ensures Selected(Some(version)) == Some(PROFILES[i]) <==> Matches(version, i)
    ensures Selected(Some(version)) == None <==> forall k: nat :: !Matches(version, k)
  {
    hide ROADSHOW, AMIBERRY_711, WINUAE;
    forall j: nat, k: nat | Matches(version, j) && Matches(version, k) ensures j == k {
      AtMostOneProfile(version, j, k);
    }
    FirstMatch(version, 0);
    if k: nat :| k < |PROFILES| && Matches(version, k) {
      assert Selected(Some(version)) == Some(PROFILES[k]);
      assert forall a: nat, b: nat :: a < b < |PROFILES| ==> PROFILES[a].version != PROFILES[b].version;
    }
  }

  /** Text added at the end of a version string does not change its profile: the match is by prefix, not exact. */
  lemma LongerVersionKeepsProfile(version: string, suffix: string, i: nat)
    requires i < |PROFILES| && Selected(Some(version)) == Some(PROFILES[i])
    ensures Selected(Some(version + suffix)) == Some(PROFILES[i])
  {
    hide ROADSHOW, AMIBERRY_711, WINUAE;
    SelectedIff(version, i);
    SelectedIff(version + suffix, i);
  }

  /** A profile's version and more. */
  predicate Extends(version: string, i: nat) {
    i < |PROFILES| && PROFILES[i].version < version
  }

  /**
    The documentation promises that the selected profile is the one whose version is the whole string. So it is,
    exactly for the strings that do not extend the version of a profile.
   */
  lemma ExactMatchIff(version: string)
    ensures (forall i: nat :: i < |PROFILES| ==>
               (Selected(Some(version)) == Some(PROFILES[i]) <==> PROFILES[i].version == version))
       <==> forall i: nat :: !Extends(version, i)
  {
    hide PROFILES, Selected;
    forall i: nat | i < |PROFILES|
      ensures Selected(Some(version)) == Some(PROFILES[i]) <==> PROFILES[i].version <= version
      ensures PROFILES[i].version <= version <==> PROFILES[i].version == version || Extends(version, i)
      ensures Extends(version, i) ==> PROFILES[i].version != version
    {
      SelectedIff(version, i);
    }
  }

  /** The release string of a Roadshow in use selects the Roadshow profile without being its version. */
  lemma LongerVersionIsSelected()
    ensures PROFILES[0].version == "Roadshow" && Extends("Roadshow 4.364", 0)
    ensures Selected(Some("Roadshow 4.364")) == Some(PROFILES[0])
  {
    hide ROADSHOW, AMIBERRY_711, WINUAE;
    SelectedIff("Roadshow 4.364", 0);
  }

  lemma {:induction false} FirstMatch(version: string, from: nat)
    requires from <= |PROFILES|
    ensures match Selected(Some(version), from)
            case Some(p) => exists k: nat :: from <= k < |PROFILES| && Matches(version, k) && p == PROFILES[k]
            case None => forall k: nat :: from <= k ==> !Matches(version, k)
    decreases |PROFILES| - from
  {
    hide ROADSHOW, AMIBERRY_711, WINUAE;
    if from < |PROFILES| && !Matches(version, from) {
      FirstMatch(version, from + 1);
    }
  }

  // ---- Looking up a test ----

  function Lookup(entries: seq<Entry>, number: int, filter: Option<Kind>): Option<string> {
    if entries == [] then None
    else if entries[0].number == number && (filter.None? || entries[0].kind == filter.value) then
      Some(entries[0].reason)
    else Lookup(entries[1..], number, filter)
  }

  ghost predicate DistinctNumbers(entries: seq<Entry>) {
    forall i, j :: 0 <= i < j < |entries| ==> entries[i].number != entries[j].number
  }

  /** With distinct numbers the answer is the reason of the one fitting entry. */
  lemma {:induction false} LookupFinds(entries: seq<Entry>, number: int, filter: Option<Kind>, e: Entry)
    requires DistinctNumbers(entries) && e in entries && e.number == number
    ensures Lookup(entries, number, filter)
         == if filter.None? || filter.value == e.kind then Some(e.reason) else None
  {
    if entries[0] != e {
      LookupFinds(entries[1..], number, filter, e);
    } else {
      LookupMisses(entries[1..], number, filter);
    }
  }

  lemma {:induction false} LookupMisses(entries: seq<Entry>, number: int, filter: Option<Kind>)
    requires forall e <- entries :: e.number != number
    ensures Lookup(entries, number, filter) == None
  {
    if entries == [] {
    } else {
      LookupMisses(entries[1..], number, filter);
    }
  }

  /** The order of the entries does not matter. */
  lemma LookupIgnoresOrder(a: seq<Entry>, b: seq<Entry>, number: int, filter: Option<Kind>)
    requires DistinctNumbers(a) && DistinctNumbers(b) && multiset(a) == multiset(b)
    ensures Lookup(a, number, filter) == Lookup(b, number, filter)
  {
    assert forall e :: e in a <==> e in multiset(a);
    assert forall e :: e in b <==> e in multiset(b);
    if e :| e in a && e.number == number {
      LookupFinds(a, number, filter, e);
      LookupFinds(b, number, filter, e);
    } else {
      LookupMisses(a, number, filter);
      LookupMisses(b, number, filter);
    }
  }

  /** Whatever would crash the stack is also a known issue, in any table. */
  lemma {:induction false} CrashIsKnown(entries: seq<Entry>, number: int)
    ensures Lookup(entries, number, Some(Crash)).Some? ==> Lookup(entries, number, None).Some?
  {
    if entries == [] {
    } else {
      CrashIsKnown(entries[1..], number);
    }
  }

  /** The tables have distinct numbers. */
  lemma TablesAreDistinct(i: nat)
    requires i < |PROFILES|
    ensures DistinctNumbers(PROFILES[i].entries)
  {
    RoadshowDistinct();
    AmiberryDistinct();
    WinuaeDistinct();
  }

  function Numbers(entries: seq<Entry>): seq<int> {
    seq(|entries|, i requires 0 <= i < |entries| => entries[i].number)
  }

  ghost predicate Distinct(ns: seq<int>) {
    forall i, j :: 0 <= i < j < |ns| ==> ns[i] != ns[j]
  }

  lemma DistinctByNumbers(entries: seq<Entry>)
    requires Distinct(Numbers(entries))
    ensures DistinctNumbers(entries)
  {
    assert forall i :: 0 <= i < |entries| ==> entries[i].number == Numbers(entries)[i];
  }

  lemma NumbersAppend(a: seq<Entry>, b: seq<Entry>)
    ensures Numbers(a + b) == Numbers(a) + Numbers(b)
  {}

  lemma RoadshowDistinct()
    ensures DistinctNumbers(ROADSHOW)
  {}

  lemma CrashNumbers()
    ensures Numbers(AMIBERRY_CRASHES) == [70, 79, 80, 81, 82, 83, 84, 85, 87]
  {}

  lemma FailureNumbers()
    ensures Numbers(AMIBERRY_FAILURES) == [31, 32, 49, 50, 63, 78, 93, 94, 98]
  {}

  lemma MoreFailureNumbers()
    ensures Numbers(AMIBERRY_MORE_FAILURES) == [111, 112, 113, 116, 125, 126, 128]
  {}

  lemma StaleErrnoNumbers()
    ensures Numbers(AMIBERRY_STALE_ERRNO) == [12, 15, 33, 35, 52, 55]
  {}

  lemma AmiberryNumbers()
    ensures Numbers(AMIBERRY_711) == [70, 79, 80, 81, 82, 83, 84, 85, 87] + [31, 32, 49, 50, 63, 78, 93, 94, 98]
                                     + [111, 112, 113, 116, 125, 126, 128] + [12, 15, 33, 35, 52, 55]
  {
    hide AMIBERRY_CRASHES, AMIBERRY_FAILURES, AMIBERRY_MORE_FAILURES, AMIBERRY_STALE_ERRNO, Numbers;
    NumbersAppend(AMIBERRY_CRASHES, AMIBERRY_FAILURES);
    NumbersAppend(AMIBERRY_CRASHES + AMIBERRY_FAILURES, AMIBERRY_MORE_FAILURES);
    NumbersAppend(AMIBERRY_CRASHES + AMIBERRY_FAILURES + AMIBERRY_MORE_FAILURES, AMIBERRY_STALE_ERRNO);
    CrashNumbers();
    FailureNumbers();
    MoreFailureNumbers();
    StaleErrnoNumbers();
  }

  lemma DistinctAppend(a: seq<int>, b: seq<int>)
    requires Distinct(a) && Distinct(b) && forall n <- a :: n !in b
    ensures Distinct(a + b)
  {
    forall i, j | 0 <= i < j < |a + b| ensures (a + b)[i] != (a + b)[j] {
      assert j < |a| || i >= |a| || (a[i] in a && b[j - |a|] in b);
    }
  }

  lemma AmiberryDistinct()
    ensures DistinctNumbers(AMIBERRY_711)
  {
    hide AMIBERRY_711, AMIBERRY_CRASHES, AMIBERRY_FAILURES, AMIBERRY_MORE_FAILURES, AMIBERRY_STALE_ERRNO, Numbers;
    AmiberryNumbers();
    DistinctAppend([70, 79, 80, 81, 82, 83, 84, 85, 87], [31, 32, 49, 50, 63, 78, 93, 94, 98]);
    DistinctAppend([111, 112, 113, 116, 125, 126, 128], [12, 15, 33, 35, 52, 55]);
    var a, b := [70, 79, 80, 81, 82, 83, 84, 85, 87] + [31, 32, 49, 50, 63, 78, 93, 94, 98],
             [111, 112, 113, 116, 125, 126, 128] + [12, 15, 33, 35, 52, 55];
    assert Numbers(AMIBERRY_711) == a + b;
    DistinctAppend(a, b);
    DistinctByNumbers(AMIBERRY_711);
  }

  lemma HangNumbers()
    ensures Numbers(WINUAE_HANGS) == [79, 80, 81, 82, 83, 84, 85, 87]
  {}

  lemma WinuaeFailureNumbers()
    ensures Numbers(WINUAE_FAILURES) == [35, 48, 52, 63, 69, 78, 98, 111, 112, 113, 116, 128]
  {}

  lemma WinuaeAllNumbers()
    ensures Numbers(WINUAE) == [79, 80, 81, 82, 83, 84, 85, 87] + [35, 48, 52, 63, 69, 78, 98, 111, 112, 113, 116, 128]
  {
    hide WINUAE_HANGS, WINUAE_FAILURES, Numbers;
    HangNumbers();
    WinuaeFailureNumbers();
    NumbersAppend(WINUAE_HANGS, WINUAE_FAILURES);
  }

  lemma WinuaeDistinct()
    ensures DistinctNumbers(WINUAE)
  {
    hide WINUAE, Numbers;
    WinuaeAllNumbers();
    DistinctAppend([79, 80, 81, 82, 83, 84, 85, 87], [35, 48, 52, 63, 69, 78, 98, 111, 112, 113, 116, 128]);
    DistinctByNumbers(WINUAE);
  }

  // ---- The code ----

  class KnownTable {
    var active: Option<Profile>

    constructor ()
      ensures active == None
    {
      active := None;
    }

    function Entries(): seq<Entry>
      reads this
    {
      if active.None? then [] else active.value.entries
    }

    method KnownInit(version: Option<string>)
      modifies this
      ensures active == Selected(version)
    {
      active := None;
      if version.None? {
        return;
      }
      var i := 0;
      while i < |PROFILES|
        invariant 0 <= i <= |PROFILES| && active == None
        invariant Selected(version) == Selected(version, i)
      {
        if PROFILES[i].version <= version.value {
          active := Some(PROFILES[i]);
          return;
        }
        i := i + 1;
      }
    }

    method LookupEntry(number: int, filter: Option<Kind>) returns (reason: Option<string>)
      ensures reason == Lookup(Entries(), number, filter)
    {
      if active.None? {
        return None;
      }
      var entries := active.value.entries;
      var i := 0;
      while i < |entries|
        invariant 0 <= i <= |entries|
        invariant Lookup(entries, number, filter) == Lookup(entries[i..], number, filter)
      {
        if entries[i].number == number && (filter.None? || entries[i].kind == filter.value) {
          return Some(entries[i].reason);
        }
        i := i + 1;
      }
      return None;
    }

    method KnownCheck(number: int) returns (reason: Option<string>)
      ensures reason == Lookup(Entries(), number, None)
    {
      reason := LookupEntry(number, None);
    }

    method KnownCrash(number: int) returns (reason: Option<string>)
      ensures reason == Lookup(Entries(), number, Some(Crash))
    {
      reason := LookupEntry(number, Some(Crash));
    }
  }
}
