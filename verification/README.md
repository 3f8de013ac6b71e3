# bsdsocktest verification

bsdsocktest is an Amiga test suite for `bsdsocket.library` stacks, with a Python helper on the host. The socket calls
it makes go into libraries that are not part of it; what it computes around them is modelled and proved here in Dafny:
the test pattern, the clock arithmetic and the ICMP checksum and ping; the control protocol, both ends and the two
together; the TAP engine with its counters, its pages, its table of known failures and the dispatcher; the chunked echo
verification and the sustained transfers; and the icon writer.

`dafny verify dfyconfig.toml` checks everything. There is one module per file:

| module | what it holds |
|---|---|
| `Machine` | 32-bit conversions and the shared arithmetic facts |
| `TestPattern`, `Timer`, `Checksum` | the arithmetic kernels |
| `IcmpPing`, `IcmpCategory` | one ping as a conversation with the socket library; the five ICMP tests |
| `Decimal`, `HelperServer`, `HelperClient`, `HelperSession` | the control protocol: numbers, the helper, the Amiga side, both as steps |
| `KnownFailures`, `Pager`, `Tap`, `TapLaws`, `Dispatch`, `DispatchLaws`, `Annotations`, `RunLaws` | results, from the known-failures table to the exit code |
| `EchoCheck`, `Throughput` | the transfer loops of tests 39 and 42, and of tests 141 and 142 |
| `MkIcon`, `ToolTypes` | the icon's bitplanes and Tool Types |

Code that updates state is a class or a method with loops, proved equal to a function of the old state; the laws are
lemmas about those functions. The network, the clock, the console's keys and Ctrl-C are inputs, and the lemmas hold for
whatever they do, unless a precondition says otherwise. Integers are unbounded and every 32-bit wrap-around, cast and
truncation is written out.

## Where the code and its documentation disagree

The model follows the code.

- `recv_line` is said to strip trailing carriage returns (src/helper_proto.c:24). It drops every carriage return of the
  line: "A\rB" becomes "AB" (`HelperClient.InnerCrIsLost`). The two agree exactly when no carriage return stands before
  another character (`HelperClient.StripsTrailingIff`).
- `recv_line` is said to return 0 at the end of the stream (src/helper_proto.c:25). After some text it returns the length
  (`HelperClient.CutLineIsReturned`); it returns 0 exactly if nothing but carriage returns came
  (`HelperClient.EndReturnsZeroIff`).
- `helper_request_connect` is said to return 1 if the helper acknowledged with GO (src/helper_proto.h:40-42). When the
  stream ends cleanly without a newline, `recv_line` leaves no NUL and the comparison reads what the stack held before:
  after "GO" the answer may be either (`HelperClient.CutReplyIsUndecided`). `HelperClient.StaleBytesDecideIff` says for
  which streams the answer is open, and what it is for all others; the greeting is compared in the same way.
- Profiles are said to match the version exactly (src/known_failures.h:15, docs/COMPATIBILITY.md:9). They match by
  prefix: "Roadshow 4.364" selects Roadshow (`KnownFailures.LongerVersionIsSelected`). That is the exact match exactly
  for the strings that do not extend a profile's version (`KnownFailures.ExactMatchIff`).
- Test numbers are said to be fixed (docs/TESTS.md:35-37). Under a filter the run-time number falls behind by the tests
  left out, and known issues are looked up under the wrong number: on WinUAE, `CATEGORY signals` reports test 79, which
  it does not run, as unexpected failure 7 and ends with a warning (`DispatchLaws.FilteredCrashTestIsUnexpected`). The
  filters that keep all numbers are stated by `DispatchLaws.NumbersKeptIff`, and those that keep the annotations of a
  given stack by `Annotations.AnnotationsKeptIff`.
- A port outside 0..65535 is answered GO and then ends the helper, since `connect` raises an exception that is not an
  `OSError` (host/bsdsocktest_helper.py:185-198, `HelperSession.Port65536EndsHelper`, `HelperServer.SurvivesIff`).
- A ping is said to return the round trip in microseconds, 0 on timeout and -1 on error (src/test_icmp.c:57-59). A clock
  set back while it waits gives a negative or a plausible positive number, a reply after 2^32 microseconds or more gives
  what is left of them, one read at once gives 1 (`IcmpPing.WrongRoundTrips`), and a failing wait gives 0
  (`IcmpPing.FailedWaitReturnsZero`). The promise is kept exactly if no wait fails and the true round trip is from 1 to
  2^31 - 1 microseconds (`IcmpPing.DocumentedIff`).
- The timeout of a ping is said to shrink (src/test_icmp.c:97). It grows when the clock is set back, and when the
  counter wraps (`IcmpPing.SetBackGrows`, `IcmpPing.LongGapGrows`). Without a set-back it never grows exactly if the gaps
  between readings stay below 2^32 - 2999499 microseconds, some 71 minutes (`IcmpPing.ShrinksIff`).

## Model

| member | source | states |
|---|---|---|
| `TestPattern.FillTestPattern` | src/testutil.c:335-343 | exactly `len` bytes of the buffer become the pattern of the seed, the rest is untouched; a negative length writes nothing |
| `TestPattern.VerifyTestPattern` | src/testutil.c:345-358 | the result is 0 exactly if the bytes are the pattern, else the 1-based place of the first mismatch |
| `TestPattern.Mismatch` | src/testutil.c:350-355 | the meaning of the returned offset: everything before it agrees, the byte at it does not |
| `TestPattern.FirstBytes` | src/testutil.c:340-341 | the first three states and bytes of the pattern of seed 0, which the transfer tests exchange |
| `TestPattern.FillTestPatternPython` | host/bsdsocktest_helper.py:39-47 | the Python generator gives, for every integer seed and length, what the C one gives for the seed modulo 2^32 |
| `TestPattern.StepIsBijective` | src/testutil.c:340 | the step is one-to-one and onto on the 32-bit states |
| `TestPattern.PowerOfTwoShift` | src/testutil.c:340 | 2^k steps move every state by exactly 2^k modulo 2^(k+1) |
| `TestPattern.LowBitsDecide` | src/testutil.c:340-341 | seeds that agree modulo 2^24 emit the same bytes for ever |
| `TestPattern.HalfPeriodFlipsTopBit` | src/testutil.c:340-341 | byte n + 2^23 is byte n with only its top bit flipped |
| `TestPattern.PeriodsAreMultiplesOf2To24` | src/testutil.c:335-343 | from any point on and for every seed, p is a period of the byte stream if and only if 2^24 divides p |
| `TestPattern.SameStreamIffLowBits` | src/testutil.c:335-343 | two seeds give the same stream if and only if they agree modulo 2^24 |
| `Timer.ElapsedUs` | src/testutil.c:308-323 | for all pairs of 32-bit readings, both branches give the true difference modulo 2^32 |
| `Timer.ElapsedUsExact` | src/testutil.c:308-323 | the result is the true difference if and only if that lies in 0..2^32-1 |
| `Timer.ElapsedMs` | src/testutil.c:325-331 | the milliseconds are within half a millisecond of the microseconds, halves upwards, and fit a LONG |
| `Timer.ElapsedMsMonotone` | src/testutil.c:325-331 | more microseconds never give fewer milliseconds |
| `Checksum.IcmpChecksum` | src/test_icmp.c:41-55 | the loops, with their 32-bit wrap-around, compute the complement of the folded word sum |
| `Checksum.Fold` | src/test_icmp.c:52-53 | folding terminates and keeps the value modulo 65535, giving zero only for zero |
| `Checksum.ChecksumIsOnesComplement` | src/test_icmp.c:41-55 | up to 131074 bytes the sum never wraps and the result is the complement of RFC 1071's word-by-word sum |
| `Checksum.ExactUpTo131074` | src/test_icmp.c:43-48 | the result is right for all packets of a length if and only if the length is at most 131074 |
| `Checksum.OddLengthIsZeroPadding` | src/test_icmp.c:50-51 | an odd packet has the checksum of the packet padded with a zero byte |
| `Checksum.WordOrderDoesNotMatter` | src/test_icmp.c:45-49 | packets with the same multiset of words have the same checksum, at any length |
| `Checksum.SealedPacketChecks` | src/test_icmp.c:87-88 | storing the checksum taken over a zeroed field makes the checksum of the whole packet 0 |
| `Checksum.ChecksIff` | src/test_icmp.c:41-55 | a packet's checksum is 0 if and only if its words sum to a positive multiple of 65535 |
| `Checksum.OneWordChangeDetected` | src/test_icmp.c:41-55 | replacing one word goes unnoticed if and only if old and new agree modulo 65535 and the packet is not all zero |
| `Checksum.OneByteChangeDetected` | src/test_icmp.c:41-55 | every change of one byte of a packet that passes is noticed |
| `IcmpPing.EchoRequestIsValid` | src/test_icmp.c:78-88 | the request has type 8, our id, the sequence number, the pattern as payload, and a checksum that checks |
| `IcmpPing.GenuineReplyAccepted` | src/test_icmp.c:117-139 | an echo reply (RFC 792) to our request, behind any IP header, is accepted for its own sequence number only, without a payload complaint |
| `IcmpPing.OwnRequestIgnored` | src/test_icmp.c:122-124 | the request itself is never taken for its reply |
| `IcmpPing.ReplyMatchesIff` | src/test_icmp.c:117-124 | a reply to anyone's request, behind any IP header, matches if and only if its id is 0xBD51 and its sequence number ours |
| `IcmpPing.OneRequestSent` | src/test_icmp.c:73-112 | if the socket opens, exactly one request is sent, right after: the valid echo request; packets are read only after a select, and reported on only after a read |
| `IcmpPing.ReportIff` | src/test_icmp.c:130-135 | a payload is reported exactly when it is complete and not the pattern, with the place of its first wrong byte |
| `IcmpPing.Pinger.BuildRequest` | src/test_icmp.c:77-88 | the send buffer, filled in place, holds the sealed echo request |
| `IcmpPing.Pinger.Receive` | src/test_icmp.c:112-114 | the receive buffer takes at most 1500 bytes of the packet |
| `IcmpPing.Pinger.CheckPayload` | src/test_icmp.c:130-135 | the report on a payload depends on the received bytes alone, not on stale bytes behind them |
| `IcmpPing.Pinger.HandlePacket` | src/test_icmp.c:112-145 | one packet leads to the return value, or to the shrunken timeout, that the received bytes and the clock determine |
| `IcmpPing.Pinger.AwaitReply` | src/test_icmp.c:99-149 | the loop terminates on any finite supply of packets with the specified calls and result |
| `IcmpPing.Pinger.IcmpPing` | src/test_icmp.c:60-150 | the calls made to the socket library and the result, for every behaviour of library and clock |
| `IcmpPing.PositiveIffAnswered` | src/test_icmp.c:57-150 | the result is positive if and only if our reply comes after only foreign packets with time left, and its round trip fits a LONG; it is 0 if socket and send succeed and no reply comes, and -1 if one of them fails |
| `IcmpPing.RoundTripIsTrueIff` | src/test_icmp.c:128-138 | the number for a reply is the true round trip, and positive, if and only if that is from 1 to 2^31 - 1 microseconds |
| `IcmpPing.DocumentedIff` | src/test_icmp.c:57-59 | the documented result comes out of the whole ping if and only if no wait fails and a reply, if any, has a true round trip from 1 to 2^31 - 1 |
| `IcmpPing.WrongRoundTrips` | src/test_icmp.c:128-138 | the numbers a genuine reply gives on a clock set back by a second, a microsecond and 3000 seconds, after 4295 seconds, and at once |
| `IcmpPing.FailedWaitReturnsZero` | src/test_icmp.c:108-114 | a WaitSelect that fails is returned as 0 |
| `IcmpPing.SocketDiscipline` | src/test_icmp.c:73-149 | every timeout is positive, normalised and at most 3 s, and an opened socket is closed exactly once, as the last call |
| `IcmpPing.TimeoutsShrink` | src/test_icmp.c:97-146 | if the clock does not run back and advances by less than 2^32 - 2999499 microseconds between the readings that set timeouts, the timeouts never grow, and there is at most one more of them than packets |
| `IcmpPing.ShrinksIff` | src/test_icmp.c:97-146 | the timeouts never grow on any run whose gaps are in 0..g-1, if and only if g is at most 2^32 - 2999499 |
| `IcmpPing.SetBackGrows` | src/test_icmp.c:143-145 | a clock set back while waiting lets a timeout grow |
| `IcmpPing.LongGapGrows` | src/test_icmp.c:143-145 | a gap of 2^32 - 2999499 microseconds lets a timeout grow from one millisecond to three seconds |
| `IcmpCategory.RunIcmpTests` | src/test_icmp.c:155-269 | interrupted if and only if one of the polls made sees a break; the first that does fixes how many of the five verdicts were reported, in order; else all five are |
| `IcmpCategory.WithoutHelper` | src/test_icmp.c:194-201 | three skips, or an interruption by the first of polls 1 to 3 that sees a break |
| `IcmpCategory.WithHelper` | src/test_icmp.c:202-250 | the three network verdicts, or an interruption by the first of polls 1 and 2 that sees a break |
| `IcmpCategory.VerdictsMean` | src/test_icmp.c:179-268 | tests 132 to 134 pass if and only if their ping is answered, 135 if at least four of five are, 136 if its ping is not; which tests are skipped without raw sockets or helper |
| `IcmpCategory.IcmpPlace` | docs/TESTS.md:52 | by the table of categories, ICMP has tests 132 to 136 |
| `Decimal.ParsePrintInt` | src/helper_proto.c:162 | reading back a printed number gives the number |
| `Decimal.PrintIntLength` | src/helper_proto.c:155-162 | a 32-bit number prints in at most 11 characters, so the command fits its buffer |
| `Decimal.DigitAt` | src/helper_proto.c:162 | each printed digit is that of its power of ten, and only 0 begins with 0 |
| `Decimal.SignBefore` | src/helper_proto.c:162 | a negative number is printed as a minus sign and its digits |
| `Decimal.ParsesIff` | host/bsdsocktest_helper.py:164 | a word without sign is a number if and only if it has digits, with single underscores between digits at most |
| `Decimal.OneDigitMore` | host/bsdsocktest_helper.py:164 | one more digit, with or without an underscore, makes ten times the number and the digit |
| `Decimal.SignsRead` | host/bsdsocktest_helper.py:164 | one sign is read, and only a minus counts |
| `HelperServer.Helper.AcceptCtrl` | host/bsdsocktest_helper.py:118-140 | a new connection replaces the old one with an empty buffer, and is greeted or closed |
| `HelperServer.Helper.HandleCtrl` | host/bsdsocktest_helper.py:142-157 | one received chunk changes the state as its bytes one by one would; an end of stream, or an event on any closed connection, closes the current one |
| `HelperServer.Helper.ProcessCtrlCommand` | host/bsdsocktest_helper.py:159-176 | a line is obeyed as parsed, or the exception that ends the process is raised |
| `HelperServer.Helper.HandleConnect` | host/bsdsocktest_helper.py:178-199 | GO comes before the connection attempt, and an exception escapes exactly for ports outside 0..65535 |
| `HelperServer.Helper.CtrlSend` | host/bsdsocktest_helper.py:201-206 | a reply goes out only while a connection is open |
| `HelperServer.Helper.CloseCtrl` | host/bsdsocktest_helper.py:208-220 | connection, peer address and buffer are given up together |
| `HelperServer.Helper.Serve` | host/bsdsocktest_helper.py:84-91 | serving any list of chunks has the effect of the stream they were cut from |
| `HelperServer.FeedAppend` | host/bsdsocktest_helper.py:153-157 | the effect of a stream is independent of where it is cut |
| `HelperServer.HelperServesLines` | host/bsdsocktest_helper.py:142-176 | for every cutting, exactly the lines through the first QUIT or fatal port are obeyed and answered, else the buffer is the tail after the last newline |
| `HelperServer.ProcessedIsPrefix` | host/bsdsocktest_helper.py:154-157 | the lines obeyed are a prefix, complete unless its last one ends the connection |
| `HelperServer.OneReplyPerLine` | host/bsdsocktest_helper.py:159-176 | one reply line for every line obeyed except QUIT |
| `HelperServer.StripIs` | host/bsdsocktest_helper.py:156 | stripping takes away the whitespace around a text and nothing else |
| `HelperServer.QuitIsQuit` | host/bsdsocktest_helper.py:170 | QUIT is recognised with any whitespace around it |
| `HelperServer.UnknownIff` | host/bsdsocktest_helper.py:162-176 | a stripped line is unknown if and only if it is not QUIT and does not begin with CONNECT and a blank |
| `HelperServer.ConnectTakesSecondWord` | host/bsdsocktest_helper.py:162-164 | the port is the second word of the line, whatever follows it |
| `HelperServer.LoneConnectIsUnknown` | host/bsdsocktest_helper.py:156-176 | CONNECT with nothing but blanks behind it is unknown |
| `HelperServer.Refusals` | host/bsdsocktest_helper.py:166-176 | the answers to an unknown line and to a bad port, and that nothing else changes |
| `HelperServer.DialsThePeer` | host/bsdsocktest_helper.py:127-193 | the peer that connected last is greeted, answered and dialled on the port it asked for |
| `HelperServer.SurvivesIff` | host/bsdsocktest_helper.py:178-199 | whatever is already buffered, the process survives if and only if no line it obeys names a port outside 0..65535 (a port being what int() reads without a limit on digits) |
| `HelperServer.NewestStaysOpenIff` | host/bsdsocktest_helper.py:88-91 | after any batch of accepts, chunks and ends, the connection accepted last is open if and only if it was greeted, only bytes for it followed, and no line of them ends the connection |
| `HelperServer.StaleEventClosesNewer` | host/bsdsocktest_helper.py:88-91 | handled after a new connection was accepted in the same batch, the end of the old one closes the new one; handled before, it does not |
| `HelperClient.RecvLine` | src/helper_proto.c:26-43 | buffer contents, unread rest and return code for every stream, buffer and way the stream ends |
| `HelperClient.WhatIsStored` | src/helper_proto.c:34-42 | the text, then a NUL unless the stream has ended, then what was there before; and the count returned in each case |
| `HelperClient.TakeLineMeaning` | src/helper_proto.c:26-43 | what is kept is what was read with every carriage return removed, and why reading stopped |
| `HelperClient.ExhaustedIff` | src/helper_proto.c:33-35 | the stream ends the line if and only if it has no newline and fewer than buflen - 1 other characters than carriage returns |
| `HelperClient.StripsTrailingIff` | src/helper_proto.c:23-25 | a line that fits is returned without its trailing carriage returns only, if and only if no carriage return in it stands before another character |
| `HelperClient.TrimsWhatIsReadIff` | src/helper_proto.c:23-25 | the same of whatever is read, when the line does not fit or the stream ends |
| `HelperClient.InnerCrIsLost` | src/helper_proto.c:38-39 | "A\rB" is returned as "AB" |
| `HelperClient.EndReturnsZeroIff` | src/helper_proto.c:25-35 | at the end of the stream 0 is returned if and only if only carriage returns came |
| `HelperClient.CutLineIsReturned` | src/helper_proto.c:25-35 | "GO" and the end of the stream return 2 |
| `HelperClient.ShortLine` | src/helper_proto.c:32-42 | a line is taken whole through its newline if and only if it has fewer than buflen - 1 characters besides carriage returns |
| `HelperClient.ExactlyFullLine` | src/helper_proto.c:32-42 | a line of exactly buflen - 1 characters leaves its newline, which the next call takes for an empty line |
| `HelperClient.ReadsRecoverLines` | src/helper_proto.c:26-43 | repeated reads recover any list of short, non-empty, plain lines and leave what follows |
| `HelperClient.TerminatorDecides` | src/helper_proto.c:106 | the comparison sees the text up to the NUL only, whatever the buffer held before |
| `HelperClient.LineAccepted` | src/helper_proto.c:105-170 | a line that fits is accepted if and only if, without its carriage returns, it is the word |
| `HelperClient.StaleBytesDecideIff` | src/helper_proto.c:166-170 | what the buffer held before decides the answer if and only if the stream ends cleanly, without a newline, after a non-empty beginning of the word; else the answer is yes exactly when the call writes the word and its NUL |
| `HelperClient.CutReplyIsUndecided` | src/helper_proto.c:166-170 | after "GO" and the end of the stream either answer can come |
| `HelperClient.Client.HelperConnect` | src/helper_proto.c:45-116 | connected exactly if the count is positive and the buffer, stale bytes included, holds OK; every failure closes the new socket, and a previous connection is quit first |
| `HelperClient.Client.HelperRequestConnect` | src/helper_proto.c:153-171 | the whole command goes out, one line is read, and the answer is yes exactly if the count is positive and the buffer, stale bytes included, holds GO |
| `HelperClient.Client.HelperQuit` | src/helper_proto.c:173-182 | QUIT is sent and the socket closed if there was one, and the client is disconnected |
| `HelperSession.CommandRoundTrip` | src/helper_proto.c:162 | the port the helper parses from the command is the number the client printed |
| `HelperSession.QuitParses` | src/helper_proto.c:177 | the helper takes the client's farewell for QUIT |
| `HelperSession.RequestEndsHelperIff` | host/bsdsocktest_helper.py:178-199 | a request is answered GO, and ends the helper if and only if its port is outside 0..65535 |
| `HelperSession.Port65536EndsHelper` | host/bsdsocktest_helper.py:190-198 | "CONNECT 65536" ends the helper |
| `HelperSession.Deliver` | host/bsdsocktest_helper.py:153-157 | a command cut anywhere is only buffered until its last byte, which makes the helper obey it |
| `HelperSession.StepKeepsInv` | src/helper_proto.c:45-182 | every step of either end keeps the invariant on what is under way in both directions |
| `HelperSession.RunKeepsInv` | src/helper_proto.c:45-182 | so does every run |
| `HelperSession.RequestsAndRepliesPair` | src/helper_proto.c:153-171 | on every run no reply is unread between calls, every request is answered GO by the answer to itself, and the helper dials exactly the ports asked for, in order |
| `HelperSession.OpenConnectionHasAddress` | host/bsdsocktest_helper.py:180-182 | on every run the peer address is known exactly while a connection is open |
| `KnownFailures.AtMostOneProfile` | src/known_failures.c:129-154 | for every version string at most one profile matches |
| `KnownFailures.SelectedIff` | src/known_failures.c:162-178 | a profile is selected if and only if it matches, wherever it stands, and none if and only if none does |
| `KnownFailures.LongerVersionKeepsProfile` | src/known_failures.c:172-173 | text added to a version string does not change its profile |
| `KnownFailures.ExactMatchIff` | src/known_failures.h:15 | selection is exact match if and only if the string does not extend the version of a profile |
| `KnownFailures.LongerVersionIsSelected` | src/known_failures.h:14-15 | "Roadshow 4.364" selects the profile of "Roadshow" |
| `KnownFailures.LookupFinds` | src/known_failures.c:182-198 | with distinct numbers the answer is the reason of the one fitting entry |
| `KnownFailures.LookupIgnoresOrder` | src/known_failures.c:189-196 | the order of the entries does not matter |
| `KnownFailures.CrashIsKnown` | src/known_failures.c:200-208 | whatever known_crash finds known_check finds too |
| `KnownFailures.TablesAreDistinct` | src/known_failures.c:44-125 | no table names a test twice |
| `KnownFailures.KnownTable.KnownInit` | src/known_failures.c:162-178 | the search loop activates the selected profile or none |
| `KnownFailures.KnownTable.LookupEntry` | src/known_failures.c:182-198 | the loop returns the first entry that fits number and kind |
| `KnownFailures.KnownTable.KnownCheck` | src/known_failures.c:200-203 | looks for entries of either kind |
| `KnownFailures.KnownTable.KnownCrash` | src/known_failures.c:205-208 | looks for crashes only |
| `Pager.WrapRows` | src/tap.c:186-191 | the least number of rows that hold the line, at least 1 |
| `Tap.VerboseText` | src/tap.c:368-412 | the rows of a verbose line are those of its text, for each of the four kinds |
| `Tap.RowsMatchLines` | src/tap.c:513-539 | the rows counted for a category are those of the lines shown, one by one |
| `Pager.ScreenPager.PageAdvance` | src/tap.c:195-234 | the new page state for every number of rows and every key or end of file |
| `Pager.ScreenPager.SetPage` | src/tap.c:616-631 | paging is on only for an interactive console of known height |
| `Pager.PagingAccounts` | src/tap.c:195-234 | over every run, on a screen of any height, the screen never overfills while paging, rows printed are rows closed off plus rows counted, and every prompt closes off at least height - 1 rows |
| `Pager.PagingEndsIff` | src/tap.c:215-227 | paging is on after a run if and only if every prompt found a key other than Q and Ctrl-C; a break is signalled exactly by Ctrl-C |
| `Pager.PagingStaysOff` | src/tap.c:200-201 | once off, paging stays off and nothing is counted or read |
| `Tap.Engine.TapInit` | src/tap.c:244-306 | counters, log and screen start afresh, and the header takes two or three rows of the page |
| `Tap.Engine.TapPlan` | src/tap.c:308-311 | the plan line is logged |
| `Tap.Engine.TapOk` | src/tap.c:313-379 | the next number, one counter in each layer, the log line with its annotation, and the rows of the verbose line |
| `Tap.Engine.CountOk` | src/tap.c:318-364 | the counting and logging of a result, with the first sixteen failures kept |
| `Tap.Engine.RecordFailure` | src/tap.c:355-362 | a failure is kept, its description cut to 127 characters, while there is room |
| `Tap.Engine.TapSkip` | src/tap.c:393-415 | a skip is passed and skipped globally, but only skipped in its category |
| `Tap.Engine.TapDiag` | src/tap.c:417-420 | a diagnostic is logged and changes no counter |
| `Tap.Engine.TapNote` | src/tap.c:434-445 | a note is logged, and kept for the screen while there is room |
| `Tap.Engine.TapBeginCategory` | src/tap.c:459-482 | the category's counters, failures and notes start afresh |
| `Tap.Engine.TapEndCategory` | src/tap.c:484-543 | the category is added to the screen's counters, its summary shown, and every row of it counted for paging |
| `Tap.Engine.PrintCategory` | src/tap.c:494-539 | the summary line, the failures kept, the number of hidden ones and the notes, in this order |
| `Tap.Engine.TapBail` | src/tap.c:545-551 | the bail-out is recorded, shown and logged |
| `Tap.Engine.TapFinish` | src/tap.c:558-609 | the summary from the right layer of counters, its two rows on the page, and the exit code |
| `TapLaws.PerformKeepsInv` | src/tap.c:313-551 | every call keeps all counters equal to counts over the log |
| `TapLaws.ResultsSplit` | src/tap.c:313-415 | in any log, results are passes, unexpected and known failures; passes are clean passes and skips |
| `TapLaws.CountersMatchLog` | src/tap.c:313-415 | after any sequence of calls results are numbered 1, 2, 3, ... and every global counter is the count of its log lines |
| `TapLaws.CategorySummaryAccounts` | src/tap.c:484-534 | the summary counts the category's log lines, and lists its first sixteen unexpected failures and the number of the others |
| `TapLaws.NotesShown` | src/tap.c:434-539 | the screen ends a category with its first eight notes, each cut to 127 characters, and shows no other |
| `DispatchLaws.ActCounts` | src/tap.c:313-415 | each test is one result, and only an interruption bails |
| `DispatchLaws.ScriptCounts` | src/main.c:314-317 | a category's script adds exactly its tests and bails exactly if cut |
| `DispatchLaws.PerformBalanced` | src/tap.c:484-491 | screen counters plus the open category's make up the global ones after every call |
| `DispatchLaws.NothingLeftOut` | src/main.c:134-144 | with no filter, or LOOPBACK, every category is selected |
| `DispatchLaws.OneCategory` | src/main.c:303-319 | a category that keeps to its tests leads to the next one with all invariants, or to a bail-out |
| `DispatchLaws.ReachedIsBetween` | src/main.c:300-320 | a category is reached with as many results as the selected categories before it have tests |
| `DispatchLaws.ReachedIff` | src/main.c:300-318 | a category is reached if and only if no break was pending before it and no selected category before it was cut short |
| `DispatchLaws.ReachedContinues` | src/main.c:300-320 | the run is what the dispatch loop does from any category it reaches, and has bailed out if it does not reach one |
| `DispatchLaws.DispatchExtends` | src/main.c:300-320 | nothing is ever taken out of the log |
| `DispatchLaws.DispatchKeeps` | src/main.c:300-320 | the three layers of counters and the log agree at the end of every dispatch loop |
| `DispatchLaws.EveryTestLogged` | docs/TESTS.md:35-37 | in the final log of every run, each test of a selected category that is reached has its result under its own number less the tests left out, annotated as that number is |
| `RunLaws.TestLines` | src/tap.c:313-415 | the line itself: passed or not, skipped with its reason, guarded and not crashing |
| `RunLaws.CategoryMarked` | src/main.c:310-312 | a selected category that is reached is marked in the log with its description |
| `RunLaws.TableInForce` | src/known_failures.c:162-178 | the table in force is that of the profile the version string begins with, or empty |
| `RunLaws.NameSelects` | src/main.c:137-138 | a name selects the category it spells, in small or capital letters, whatever the tier |
| `DispatchLaws.NumbersKeptIff` | src/main.c:134-144 | every test that runs keeps its own number if and only if the filter is none, LOOPBACK, the first category or an unknown one |
| `Annotations.AnnotationsKeptIff` | src/tap.c:324 | for every version string and filter, all tests that can run are annotated as their own numbers would be, if and only if the stack's table knows no number that a moved test has or is given |
| `Annotations.MovedBy` | src/main.c:134-144 | a filter moves the tests of a selected category by its first number less one, or under NETWORK by 68 or 95 |
| `Annotations.AmiberryPairs` | src/known_failures.c:53-93 | only three tests can move from one known number to another, all on Amiberry 7.1.1 |
| `DispatchLaws.CrashTestsLogged` | src/test_signals.c:161-165 | in the final log of every run, a crash test n that is reached stands as failed under n less the tests left out, KNOWN exactly if that number is; under a filter that keeps the numbers always KNOWN under its own |
| `DispatchLaws.PromptBreakStops` | src/tap.c:218-221 | Ctrl-C at the prompt while a category is summed up makes the dispatcher bail out before the next one |
| `DispatchLaws.PolledIsRealistic` | src/main.c:301-305 | breaks at the prompt lead to worlds that all the laws of runs speak about |
| `DispatchLaws.FilteredCrashTestIsUnexpected` | docs/TESTS.md:35-37 | the promise fails under CATEGORY signals: on UAE 6.0.2 the whole run logs test 79 as unexpected failure 7 and exits with 5 |
| `DispatchLaws.SuiteLaws` | src/tap.c:558-608 | on every run the summary counts the log, with the sum law of a bailed or of a complete run; exit code 20 if and only if a bail-out was logged, else 5 if and only if an unannotated failure was |
| `RunLaws.PlanLaw` | src/main.c:257-330 | every run writes exactly one plan: if it starts, last before the summary and counting the results of the log; else empty and followed by the bail-out |
| `RunLaws.ScreenLaw` | src/tap.c:558-591 | every run's screen ends in its only final line, whose figures count the lines of the log; it shows every bail-out of the log and no other |
| `RunLaws.FailedStart` | src/main.c:254-297 | a run that does not start bails out for its first obstacle, reports nothing, and exits with 20 |
| `RunLaws.SuiteEnds` | src/main.c:322-332 | what follows the dispatch loop in log and screen; an unknown category is complained of if and only if one was named and none entered |
| `DispatchLaws.CompleteRunHasAllTests` | docs/TESTS.md:40-53 | a complete run reports 142 tests less those left out, and 142 with no filter or LOOPBACK |
| `Dispatch.PerformAction` | src/test_waitselect.c:419-426 | a test, guarded or not, makes the specified calls on the engine and moves the page as they do |
| `Dispatch.RunScript` | src/main.c:314 | a category's actions, one after the other |
| `Dispatch.RunCategory` | src/main.c:310-314 | a category is begun, described and run |
| `Dispatch.DispatchCategories` | src/main.c:300-320 | the loop over the table has the specified effect, with the breaks signalled from outside or at the prompt, and tells whether any category ran |
| `Dispatch.OneRound` | src/main.c:300-320 | what one round does for each of: a break pending, a category not selected, a category that bails, a category that ends |
| `Dispatch.GiveUp` | src/main.c:257-259 | a failure to start is an empty plan, a bail-out and exit code 20 |
| `Dispatch.Conclude` | src/main.c:322-332 | the complaint about an unknown category, the trailing plan and the summary |
| `Dispatch.RunSuite` | src/main.c:246-339 | the program from opening the library to the exit code, with its three ways of failing to start, for every log path |
| `EchoCheck.ReceiveAndVerify` | src/test_sendrecv.c:609-630 | however the stream is fragmented, the verified bytes depend on the received ones alone, the test passes if and only if all were received and are the repeated pattern chunk, and the loop stops for no other reason than the limit or a failing recv |
| `EchoCheck.EachRecv` | src/test_sendrecv.c:614-618 | each recv adds what is there, up to the end of the 8192-byte chunk |
| `EchoCheck.OneChunk` | src/test_sendrecv.c:619-628 | a chunk, or the part that ends a stream, counts in full or not at all |
| `EchoCheck.AllVerified` | src/test_sendrecv.c:609-628 | a stream of any length is verified in full if and only if every byte is that of the pattern at its place modulo 8192 |
| `EchoCheck.ReceivePiece` | src/test_sendrecv.c:614-623 | each recv keeps the offset equal to the bytes received modulo 8192, the buffer equal to the unjudged rest, and judges a chunk when it is complete |
| `EchoCheck.FullyVerifiedIff` | src/test_sendrecv.c:613-628 | whole chunks are all verified if and only if they are the repeated pattern chunk |
| `EchoCheck.VerifiedAppend` | src/test_sendrecv.c:619-623 | verification is additive at chunk boundaries |
| `EchoCheck.SendChunks` | src/test_sendrecv.c:601-607 | the total is the length of the accepted beginnings of the chunk, up to the first send that fails |
| `EchoCheck.EchoConserves` | host/bsdsocktest_helper.py:231-247 | on every run of the echo, received, returning and outgoing bytes make up the sent ones in order |
| `EchoCheck.EchoedRunPassesIff` | src/test_sendrecv.c:601-630 | a fully echoed run passes if and only if all sends were complete |
| `Throughput.Checkpoint` | src/test_throughput.c:321-328 | all segments completed are recorded, none outside the array |
| `Throughput.SustainedLoopback` | src/test_throughput.c:289-345 | the loop goes on until everything is received, the stream ends or select fails, and for no other reason; received <= sent <= 1 MB, one shutdown exactly when all is sent, min(10, sent / 102400) segments each timed by the round that completes it, all ten when the test passes, which it does given 128 good rounds |
| `Throughput.EachRound` | src/test_throughput.c:314-339 | what every round sends and receives, and when the receiver finds the end |
| `Throughput.GoodRoundsSuffice` | src/test_throughput.c:300-340 | 128 rounds with both ends ready for a full buffer move the whole megabyte |
| `Throughput.SustainedNetwork` | src/test_throughput.c:393-420 | the same for the sending end alone |
| `Throughput.EachSend` | src/test_throughput.c:400-404 | what every send adds |
| `Throughput.SegmentsMeaning` | src/test_throughput.c:321-322 | the segments completed are the whole stretches of 102400 bytes sent, up to ten |
| `Throughput.OneSegmentMore` | src/test_throughput.c:315-322 | a send of at most a buffer completes at most one segment |
| `Throughput.SegmentsAddUpWrapped` | src/test_throughput.c:323-326 | for every clock, the recorded milliseconds differ by at most half a millisecond a segment from the real span less the wraps of the 32-bit counter |
| `Throughput.SegmentsAddUp` | src/test_throughput.c:323-326 | they differ so from the real span itself if and only if the wraps cancel out, as with a steady clock |
| `MkIcon.PackRow` | tools/mkicon.py:115-119 | a row has one bit per pixel, most significant first, and zero padding |
| `MkIcon.PixelsToPlanes` | tools/mkicon.py:104-122 | for every width, height and depth the output has depth x height x stride bytes, and each bit is the pixel's bit of that plane, or zero in the padding |
| `MkIcon.PlanesDecode` | tools/mkicon.py:104-122 | decoding any such output gives back each pixel modulo 2^depth |
| `MkIcon.LayoutOf` | tools/mkicon.py:110-120 | the byte and the bit in which each pixel of each plane stands, in numbers |
| `MkIcon.StrideCovers` | tools/mkicon.py:110 | the stride is even and the least that covers the width in whole words |
| `ToolTypes.SerializeTooltypes` | tools/mkicon.py:131-137 | the loop writes the list or reports its first error |
| `ToolTypes.DecodeUndoesSerialize` | tools/mkicon.py:125-137 | behind any trailing bytes the decoder recovers the list and exactly those bytes, and the length is 4 plus 5 and the length of each string |
| `ToolTypes.StringLayout` | tools/mkicon.py:125-128 | a string is its length with the NUL in four bytes, most significant first, its characters and the NUL |
| `ToolTypes.ListLayout` | tools/mkicon.py:131-137 | the list begins with four times the number of strings and one |
| `ToolTypes.SerializeIsPrefixFree` | tools/mkicon.py:125-137 | no serialised list is the beginning of another |
| `ToolTypes.SerializesIff` | tools/mkicon.py:127-134 | writing succeeds if and only if all strings are ASCII and all sizes fit 32 bits |

## Left out

- The bodies of the eleven categories other than ICMP: a category is any script that reports its fixed number of tests
  unless a break cuts it short, with each guarded crash test at its own number (`Dispatch.Conforms`).
- `bsdsocket.library` itself and the functions docs/AMITCP_API.md describes: calls into them are inputs.
- Amiga system calls, argument parsing, Workbench start-up, usage and category lists.
- The text of diagnostics and notes (RTT, KB/s, errno), bold type, dot padding and the layout of the summary line: a
  line is known by its kind and its figures, and most diagnostics stand under a fixed text.
- The header lines of the log other than the library's version, the warning when the log cannot be opened, and a log
  that is not written: the log in the model is what a writable log holds.
- tap_okf, tap_diagf and tap_notef: the same calls behind a formatting step.
- The C counters are 32-bit and wrap; the model's do not. A run has 142 results. The groups of four counters of the
  global, category and screen layers are kept as one record each.
- The helper's sink, source and UDP services, its event selection, logging and half-second sleep, and what it sends
  over the connections it makes.
- Breaks noticed inside a category are part of its script; one at the prompt that the script does not notice is noticed
  by the dispatcher.
- HelperServer.SurvivesIff: counts a port of more than 4300 digits as fatal; current versions of Python refuse to read it,
  so it is answered as a bad port and the process survives.
- HelperServer.Helper.CtrlSend: a reply that cannot be sent, which the code ignores, is not modelled.
- Decimal.ParseInt: the limit of current versions of Python on the number of digits, 4300, is not modelled.
- HelperSession: runs without timeouts and lost connections, by design; HelperClient covers those for each call.
- Bytes of the control channel are characters with the same code.
- Test 137: the loop of test 141 without checkpoints.
- The minimum, maximum and average over segments and pings, and which pings are noted on the screen.
- IcmpCategory.RunIcmpTests: writes the repeated skip-and-poll pairs as loops.
- The preview, the pixels and the fixed header of the icon.
