# Verified model of the service port scanner

A Dafny model of the scanner's core and proofs about it:

- the adaptive token-bucket rate limiter: bucket, waiters and clock, the RFC 6298 filter, the
  loss-driven rate, first called by one thread and then by many with every atomic access interleaved;
- the run protocol between the UI thread and the scan worker, and the per-port pipeline against an
  arbitrary environment;
- the parsers and printers: TLS ServerHello and JA4S, the CSV report, port specifications, IPv4 and
  CIDR lookup, the EPSS index.

`dafny verify dfyconfig.toml` checks everything. Doubles are reals. Atomics interleave sequentially
consistently, one access per step. A run is any finite sequence of actions by any threads in any
order; an action that is not enabled changes nothing. Library behaviour that cannot be seen (timers,
sockets, the hash, number reading and printing) is a parameter over which every theorem quantifies.

Three groups of modules build on each other: `RateControl`, `Convergence`, `HeaderComments`,
`Reporting`, `LossDrift` (statistics and rate), `TokenBucket`, `PunctualBucket`, `RateLimiter`,
`LimiterSystem`, `BucketLevel`, `RacingBucket` (tokens and time); `ScanController`, `ScanPipeline`, `ScanLoad`;
`ServerHello`, `Ja4s`, `CsvReport`, `PortSpec`, `CdnLookup`, `Epss` over `Decimal`, `Text`, `Bits`,
`Prelude`.

What the proofs found:

- Only the dispatch at the start of `acquire` is bound to the strand; the wait for the timer is not, and a
  coroutine resumed on its own executor runs its next pass beside those of others. The bound on the
  grants of a window (`WindowGrants`) is proved for passes that are all serialised. Without that, a run of
  n acquirers on a full bucket can break it exactly when n exceeds the capacity, rounded down, by two or
  more: two that see the same token both take it (`BoundedIffFew`, with the unguarded accesses, a data
  race in C++, interleaved one by one).
- A change of rate is retroactive: the next attempt credits the whole time since the last one at the new
  rate (`RateIsRetroactive`). A rate judged from old counters overwrites whatever others stored meanwhile
  (`RateFromLoads`).
- The slow-down branch has a fixed floor of 1 per second, so with a cap below 1 a slow-down lifts the
  rate above its cap; with a cap below 0.1 the limiter even starts above it. With anyone reporting and no
  rate set from outside, the cap is respected in every run exactly when it is at least 1 (`CapHoldsIff`,
  for uninterrupted calls `CapRespectedIff`); `set_rate` is not limited by it (`SetRateIgnoresCap`). The
  command line and the settings dialog only let rates from 1 up through; the case needs a stored setting
  edited by hand, which `load_settings` (`settings_dialog.cpp:99-102`) does not check, or a direct call.
- Losses on record can exceed samples by one for every reporting thread but one
  (`LossesCanExceedSamples`); they never do exactly when at most one thread reports
  (`ConsistentIffOneReporter`). `loss_ratio` loads the two counters one after the other: if a reporter may
  move in between it can exceed 1 as soon as anyone reports at all, and even when read after all calls
  have returned it can exceed 1 exactly when more than one thread reports (`RatioIff`).
- A cancellation does not stop the future the worker already holds: its result can still be queued
  afterwards, and no other result can (`HeldResultFollowsCancel`, `ResultMayFollowIff`).
- The finished event is queued before the running flag is cleared, so a start issued while handling it
  can be refused (`RestartOnFinishedCanFail`). A start succeeds exactly when no worker is left and no
  earlier start threw after winning the flag (`AtMostOneScan`); one that threw, because the thread could
  not be created, blocks every later one (`ThrownStartIsFinal`).
- A ServerHello without an extension block, legal in TLS 1.2, is parsed as empty
  (`ExtensionlessHelloIsLost`), and the empty result does not always mean a malformed message
  (`ParseOfArbitraryBytes`).
- Three comments in `rate_limiter.hpp` do not describe the code, which the model follows. A negative
  round-trip time is no loss by itself (line 40; `NegativeRttIff`, `NegativeRttSpeedsUp`). The "sliding"
  window of line 7 tumbles: it is a sliding one exactly up to the first reset and at every later one,
  and in between the decision can be reversed (`SlidingIff`, `SlidingReversesDecision`). A rate below
  0.1 is not ignored (line 43) but lowers the rate to 0.1 (`Limiter.SetRate`).

## Model

| member | source | states |
|---|---|---|
| RateControl.ReportInFull | src/net/rate_limiter.cpp:63-110 | one call in plain arithmetic: every 100th sample multiplies the rate by 0.7 (at least 1) on more than one loss in twenty and by 1.05 (at most the cap) on fewer than one in a hundred, every 1000th empties the counters, and the filter takes the means of sections 2.2 and 2.3 of RFC 6298 |
| RateControl.ReportsMatchHistory | src/net/rate_limiter.cpp:83-109 | in every sequential run the counters hold exactly the current tumbling window of 1000 responses, and the rate is the one computed from the whole response history by whole-number thresholds |
| Convergence.AdjustMovesIff | src/net/rate_limiter.cpp:90-100 | inside the band an adjustment lowers the rate iff more than 1 in 20 samples was lost and the floor is not reached, raises it iff fewer than 1 in 100 was lost and the cap is not reached |
| Convergence.BandIsKept | src/net/rate_limiter.cpp:94-109 | every sequential run keeps the rate in [1, cap], fewer than 1000 samples, and no more losses than samples |
| Convergence.CapRespectedIff | src/net/rate_limiter.cpp:30-103 | for all constructor arguments, the rate stays at most the cap in every sequential run iff the cap is at least 1 |
| Convergence.UniformRun | src/net/rate_limiter.cpp:83-109 | exact rate after any number of only clean or only lost responses from the start of a window: clamped powers of 1.05 or 0.7, one factor per hundred |
| Convergence.CleanRunReachesCap | src/net/rate_limiter.cpp:83-109 | from every state of the band, 1000 + 100m clean responses bring the rate to exactly the cap and keep it there once 1.05^m covers the cap |
| Convergence.CleanRunReachesCapLinear | src/net/rate_limiter.cpp:83-109 | the same with m at least 20 (cap - 1) |
| Convergence.LossRunReachesFloor | src/net/rate_limiter.cpp:83-109 | 1000 + 100m lost responses bring the rate to exactly 1 once 0.7^m times the cap is at most 1 |
| Convergence.EqualSamples | src/net/rate_limiter.cpp:67-81 | after n equal samples SRTT has closed all but (7/8)^n of its distance, and RTTVAR has the closed form of a filter fed the SRTT from before each sample (section 2.3 of RFC 6298) |
| Reporting.UndisturbedCall | src/net/rate_limiter.cpp:63-110 | the sequence of separate atomic accesses, run without interference, is the sequential call |
| Reporting.UndisturbedCalls | src/net/rate_limiter.cpp:63-110 | and so a sequence of calls without interference is a sequential run |
| Reporting.RateFromLoads | src/net/rate_limiter.cpp:90-103 | under every interleaving a thread stores the rate judged from the losses and the rate as it loaded them, overwriting what others stored between |
| Reporting.FilterFromLoads | src/net/rate_limiter.cpp:68-80 | in the same way SRTT and RTTVAR are updated from the values loaded, RTTVAR from the SRTT before the update |
| Reporting.CapHoldsIff | src/net/rate_limiter.cpp:30-103 | for all constructor arguments and under every interleaving without rates set from outside, the rate stays at most the cap iff the cap is at least 1, or nobody reports and it is at least 0.1 |
| Reporting.SetRateIgnoresCap | src/net/rate_limiter.cpp:52-54 | a rate set from outside is in force whatever the cap, at least 0.1 |
| Reporting.RateNeverLeavesBand | src/net/rate_limiter.cpp:94-103 | under every interleaving the read-compute-store of the rate, and every value in flight, stays in [1, cap] |
| Reporting.FilterNeverLeavesSamples | src/net/rate_limiter.cpp:67-81 | under every interleaving SRTT is -1 or between two accepted samples, and RTTVAR between 0 and an accepted sample |
| Reporting.CountersNeverDrift | src/net/rate_limiter.cpp:83-109 | with T threads, whenever none is between the two reset stores, losses exceed samples by at most T - 1; samples never reach 1000 + 100 T |
| LossDrift.LossesCanExceedSamples | src/net/rate_limiter.cpp:83-109 | for any number T of threads, a run that reaches the bound: T - 1 losses on record, no sample, nobody inside the call |
| LossDrift.ConsistentIffOneReporter | src/net/rate_limiter.cpp:83-109 | in every run with nobody between the two reset stores losses stay within samples, iff at most one thread reports |
| LossDrift.RatioIff | src/net/rate_limiter.cpp:56-61 | with its two loads apart, `loss_ratio` is at most 1 in every run iff nobody reports; read while no reporter moves, or after all calls have returned, iff at most one thread reports |
| HeaderComments.NegativeRttIff | src/net/rate_limiter.hpp:40-41 | code and comment treat a response alike in every state iff it is flagged as a loss or its time is not negative |
| HeaderComments.NegativeRttSpeedsUp | src/net/rate_limiter.hpp:40-41 | a hundred unflagged responses with negative times raise the rate, where the comment's reading lowers it |
| HeaderComments.SlidingIff | src/net/rate_limiter.hpp:7-7 | the loss ratio of the code's window at response n is that of the last thousand responses, whatever the history, iff n is at most 1000 or a multiple of 1000 |
| HeaderComments.SlidingReversesDecision | src/net/rate_limiter.hpp:7-9 | a history on which the code speeds up and a sliding window would slow down |
| TokenBucket.BoundedMove | src/net/rate_limiter.cpp:44-50 | every move of bucket, waiters or clock keeps: any stretch of grants fits the capacity plus the refill of its duration |
| TokenBucket.WindowBound | src/net/rate_limiter.cpp:117-133 | so the grants of any closed window are at most capacity plus top rate times its length |
| BucketLevel.LevelAfterEachGrant | src/net/rate_limiter.cpp:44-50 | in every fixed-rate run the level after each grant is the fold of min(capacity, level + rate * gap) - 1 over the grant times |
| BucketLevel.GrantedIffLevel | src/net/rate_limiter.cpp:117-125 | an attempt takes a token iff the grants so far leave one by then, and otherwise waits for exactly what is missing |
| BucketLevel.BurstAfterIdling | src/net/rate_limiter.cpp:112-121 | however long a full bucket was idle, it serves capacity, rounded down, ready acquirers at one instant, in any order, and no further one |
| BucketLevel.RateIsRetroactive | src/net/rate_limiter.cpp:44-50 | whatever happened since the last attempt, the next one credits the whole time since then at the rate in force when it is made |
| LimiterSystem.WindowGrants | src/net/rate_limiter.cpp:112-134 | in every run of acquirers, reporters, rate changes and ticks, the grants of any window are at most capacity + top * length, top being the largest rate in force |
| LimiterSystem.CliWindowGrants | src/cli/args.cpp:79-139 | exactly rates from 1 to 100000 are accepted, and then, with no rate changes from outside, top is the larger of the two rates in adaptive mode and the given rate in fixed mode |
| LimiterSystem.GuiWindowGrants | src/gui/views/scan_controller.cpp:90-92 | with the graphical program's limiter (adaptive, cap ten times the rate r > 0), the grants of any window are at most max(1, r) + max(1, 10 r) times its length |
| LimiterSystem.GuiCapIsReached | src/gui/views/scan_controller.cpp:90-92 | and enough clean responses take its rate to exactly ten times the one set |
| PunctualBucket.SleepersAreNeverLate | src/net/rate_limiter.cpp:123-131 | at a fixed rate with exact timers no sleeper's deadline lies beyond the instant the bucket reaches a token, so the level never exceeds 1 while anyone sleeps |
| PunctualBucket.GrantsAreExact | src/net/rate_limiter.cpp:112-134 | acquirers starting together on a full bucket get grant k exactly at max(0, (k - capacity) / rate), and time never passes that instant before it is given |
| PunctualBucket.NextMove | src/net/rate_limiter.cpp:117-133 | while anyone waits some punctual move is possible that is a grant or brings the next one nearer: no deadlock, no livelock |
| PunctualBucket.EveryoneIsServed | src/net/rate_limiter.cpp:112-134 | every punctual run, whoever arrived when, can be continued until all who wait have a token, one grant each |
| PunctualBucket.AllGrantsComeWhenDue | src/net/rate_limiter.cpp:112-134 | so n acquirers starting together can always be served completely, and then each grant came at its due time |
| LimiterSystem.RateStaysPositive | src/net/rate_limiter.cpp:52-103 | with a positive cap no report and no setting ever makes the rate zero |
| LimiterSystem.EveryoneCanBeServed | src/net/rate_limiter.cpp:112-134 | every run of the whole system with truncated waits and a positive rate in force can be continued, by acquirers and clock alone, until all who wait have a token, one grant each |
| RacingBucket.StaysSerial | src/net/rate_limiter.cpp:112-134 | with the strand on first passes only and every access a step of its own, at most capacity rounded down plus one acquirers never run two passes at once |
| RacingBucket.PassIsAttempt | src/net/rate_limiter.cpp:117-130 | a pass that nobody disturbs, access by access, is the atomic attempt |
| RacingBucket.BoundedIffFew | src/net/rate_limiter.cpp:112-134 | then every window of every run respects the bound iff there are at most capacity rounded down plus one acquirers |
| ScanLoad.AttemptsPerToken | src/scan/scan_pipeline.cpp:29-80 | however many calls interleave, the connection attempts made so far are at most two plus the hinted probes for each token taken |
| ScanLoad.AttemptsOverTime | src/scan/scan_pipeline.cpp:29-80 | and so at most that many times the capacity plus top rate times the time since the start |
| RateLimiter.Limiter.constructor | src/net/rate_limiter.cpp:30-42 | a full bucket of at least one token, a rate of at least 0.1, empty statistics |
| RateLimiter.LevelInFull | src/net/rate_limiter.cpp:44-126 | clock, wait and level in plain arithmetic: nanoseconds, rounded down, a product and a minimum |
| RateLimiter.Limiter.Refill | src/net/rate_limiter.cpp:44-50 | the new level is the old one plus the inflow since the last refill, cut at the capacity |
| RateLimiter.Limiter.SetRate | src/net/rate_limiter.cpp:52-54 | a rate of at least 0.1 is taken as given, a smaller one sets the rate to 0.1 instead of being ignored |
| RateLimiter.Limiter.LossRatio | src/net/rate_limiter.cpp:56-61 | 0 without samples, otherwise the quotient, within [0, 1] while losses do not exceed samples |
| RateLimiter.Limiter.OnResponse | src/net/rate_limiter.cpp:63-110 | in adaptive mode the whole new state is that of `Report`, in fixed mode nothing changes |
| RateLimiter.Limiter.Acquire | src/net/rate_limiter.cpp:112-134 | a lone acquirer at a fixed rate sleeps at most twice although the wait is truncated to nanoseconds; none iff a token is there; the bucket ends as after one refill at the grant; with punctual timers the grant is at most 1 ns late |
| ScanController.AtMostOneScan | src/gui/views/scan_controller.cpp:55-77 | in every interleaving at most one worker has not exited, a start wins iff none is left and no earlier start threw, none is left after destruction |
| ScanController.ThrownStartIsFinal | src/gui/views/scan_controller.cpp:55-77 | a start that throws after winning the flag leaves it set: every later start is refused, no worker runs, nothing is queued |
| ScanController.RestartOnFinishedCanFail | src/gui/views/scan_controller.cpp:72-76 | a run in which the finished event was handled and the next start is refused |
| ScanController.TraceShape | src/gui/views/scan_controller.cpp:84-138 | in every interleaving the bridge queue is one block (result? progress)* finished per ended scan plus the part of the running one; progress counts 1, 2, ... up to at most a constant total bounded by the requested ports; the results are those of the futures that had one; a scan not itself cancelled or disturbed before its end has collected all its ports, whatever became of earlier scans |
| ScanController.FlagProtocol | src/gui/views/scan_controller.cpp:36-82 | a worker is always spawned with the cancel flag down and for the ports of its start; cancelling and closing put the flag up |
| ScanController.CancelIsPrompt | src/gui/views/scan_controller.cpp:79-131 | after a cancellation and until the next start, what is queued is a prefix of one of the worker's endings at that moment: the result if there is one and the progress of a future it holds, the progress alone if the result is already queued, then the finished event |
| ScanController.CancelStopsSpawning | src/gui/views/scan_controller.cpp:95-106 | after a cancellation and until the next start no further future is started |
| ScanController.EveryEndingHappens | src/gui/views/scan_controller.cpp:110-138 | and each of these endings is queued exactly so in some continuation |
| ScanController.ResultMayFollowIff | src/gui/views/scan_controller.cpp:110-131 | a result can follow a cancellation iff the worker holds a future at that moment |
| ScanController.HeldResultFollowsCancel | src/gui/views/scan_controller.cpp:111-122 | a run in which a result is queued after the cancellation |
| ScanPipeline.ScanOne | src/scan/scan_pipeline.cpp:29-87 | the step-by-step pipeline does and returns what `Scan` says, in every environment |
| ScanPipeline.OneTokenOneReport | src/scan/scan_pipeline.cpp:29-38 | one token first, then one connect scan, then exactly one report, a loss iff filtered, none if connecting threw |
| ScanPipeline.ResultInFull | src/scan/scan_pipeline.cpp:33-87 | an exception iff connecting or a reached probe threw; otherwise state and time of the connect scan, an all-empty service unless a reached probe matched, and the database's answer exactly for a service with name and version |
| ScanPipeline.ActionsFollow | src/scan/scan_pipeline.cpp:29-87 | actions come in the order of the protocol, every reconnect after a close, and probing that ends without an exception ends with a close |
| ScanPipeline.ServiceIsFirstMatch | src/scan/scan_pipeline.cpp:56-80 | exactly the probes up to the first match, exception or failed reconnect are tried; the service is that of the first match and there is none otherwise |
| ScanPipeline.EachProbeHasItsConnection | src/scan/scan_pipeline.cpp:51-80 | every probe comes right after a successful connect of its own |
| ScanPipeline.AttemptsAreBounded | src/scan/scan_pipeline.cpp:33-80 | at most two connection attempts plus one per hinted probe |
| ScanPipeline.CvesNeedVersionedService | src/scan/scan_pipeline.cpp:83-86 | reported vulnerabilities imply an open port, a service name and a version, and are the database's answer for them |
| ServerHello.GreaseValues | src/fp/ja4_server.cpp:54-58 | the test holds for exactly the 16 values of section 2 of RFC 8701 |
| ServerHello.ExtensionsArePrefix | src/fp/ja4_server.cpp:110-127 | on arbitrary bytes, what is read are complete extensions in order, up to a rest that starts with none |
| ServerHello.ExtensionsAreUnique | src/fp/ja4_server.cpp:110-127 | no other split of the block does that |
| ServerHello.ParseInvertsEncode | src/fp/ja4_server.cpp:74-130 | round trip for every session id, extension list and trailing bytes |
| ServerHello.NegotiatedVersion | src/fp/ja4_server.cpp:119-123 | the negotiated version is the two-byte body of the last extension of type 0x002b with such a body, in network order, 0 without one |
| ServerHello.TypesInOrder | src/fp/ja4_server.cpp:115-117 | the types are those of the extensions outside the 16 reserved values, each at its place |
| ServerHello.MinimalHello | src/fp/ja4_server.cpp:74-130 | a TLS 1.3 message read byte for byte |
| ServerHello.ParseOfArbitraryBytes | src/fp/ja4_server.cpp:77-129 | a fixed part and block are there iff a frame encodes to the bytes; the result is the reading of the one frame that does, all-empty iff there is none or it holds only zeros and GREASE |
| ServerHello.ExtensionlessHelloIsLost | src/fp/ja4_server.cpp:105-107 | a message that ends after the compression method is parsed as all-empty |
| ServerHello.ParseServerHello | src/fp/ja4_server.cpp:74-130 | the parser over its buffer reads only inside it, terminates, and returns `Parsed` |
| ServerHello.ReadExtensions | src/fp/ja4_server.cpp:109-127 | its loop collects the non-GREASE types in order and the last two-byte supported version |
| Ja4s.VersionTagDistinguishes | src/fp/ja4_server.cpp:35-44 | the tag tells the five known versions apart and lumps the others |
| Ja4s.TwoDigitsRoundTrip | src/fp/ja4_server.cpp:60-64 | the two digits read back as the count, capped at 99 |
| Ja4s.FourHexRoundTrip | src/fp/ja4_server.cpp:66-70 | four hex digits read back as the value |
| Ja4s.JoinedRoundTrip | src/fp/ja4_server.cpp:143-147 | the string before hashing determines the extension list |
| Ja4s.JoinedForm | src/fp/ja4_server.cpp:143-147 | four lower-case hex digits per type, in order, a comma between each two |
| Ja4s.FingerprintForm | src/fp/ja4_server.cpp:132-153 | every character: protocol, version tag by table (negotiated before legacy), capped count, ALPN tag, cipher, twelve characters of the hash or zeros, underscores; length 25 once the hash has 12 |
| Ja4s.SampleFingerprint | src/fp/ja4_server.cpp:132-153 | a whole fingerprint for given input |
| Ja4s.SameFingerprintIff | src/fp/ja4_server.cpp:132-153 | fingerprints are equal iff protocol, version tag, capped extension count, ALPN tag, cipher and hash part are |
| Ja4s.SameExtensions | src/fp/ja4_server.cpp:132-153 | and then the extension lists are equal too, unless both are non-empty and the hash prefixes collide |
| Ja4s.ComputeJa4s | src/fp/ja4_server.cpp:132-153 | the appending loop builds `Fingerprint` |
| CsvReport.EscapeCsvField | src/report/writers.cpp:42-54 | the loop builds the escaped field |
| CsvReport.EscapedForm | src/report/writers.cpp:42-54 | quotes are put around a field iff it holds a comma, a quote or a line break, one more for each quote in it |
| CsvReport.ReadEscaped | src/report/writers.cpp:42-54 | a reader for section 2 of RFC 4180 gets any string back from its escaped form |
| CsvReport.TopCve | src/report/writers.cpp:96-100 | the loop ends with `Top` |
| CsvReport.TopIsFirstMaximum | src/report/writers.cpp:96-100 | which is the first entry attaining the maximum score if that is positive, and none otherwise |
| CsvReport.PutRow | src/report/writers.cpp:95-107 | one result appends one row, numbers and state unescaped |
| CsvReport.ToCsv | src/report/writers.cpp:92-110 | the report is the header line and one row per result in order |
| CsvReport.CsvRoundTrip | src/report/writers.cpp:92-110 | the reader gets back the header and, per result, the seven original fields, whatever characters they hold |
| CsvReport.ReportReadsBack | src/report/writers.cpp:13-110 | field by field in plain terms: host, numeral of the port, name of the state, service, version, id and score of the first CVE with the maximum positive score, or none and 0 |
| CsvReport.ReportEndsLine | src/report/writers.cpp:92-108 | without results the header line alone, and always a line feed at the end |
| PortSpec.PortsAreNumerals | src/cli/args.cpp:15-22 | a port is a non-empty digit string with a value in 1..65535, despite the reader's sign and overflow cases |
| PortSpec.Flush | src/cli/args.cpp:36-53 | a piece is accepted iff it denotes ports, which are then all inserted |
| PortSpec.ExpandPortSpec | src/cli/args.cpp:33-64 | the scanning loop computes `Expanded` |
| PortSpec.ExpandedMeansUnion | src/cli/args.cpp:33-64 | strictly ascending, exactly the union of the tokens' ports, empty if any token is invalid |
| PortSpec.ExpandedInPlainTerms | src/cli/args.cpp:33-64 | a port is listed iff every non-empty token is a port or two ports around a dash, in either order, and some token names it |
| PortSpec.OrderDoesNotMatter | src/cli/args.cpp:33-64 | reordering or repeating tokens changes nothing |
| PortSpec.ExpandInvertsCompress | src/cli/args.cpp:33-64 | expanding the run-compressed form of any set of ports gives that set |
| CdnLookup.ParseIpv4 | src/fp/cdn_lookup.cpp:80-104 | the nested loops accept exactly four octets between dots and return `Ipv4` |
| CdnLookup.Ipv4InPlainTerms | src/fp/cdn_lookup.cpp:80-104 | a string is an address iff it is four groups of one to three digits up to 255 between dots, and its value is theirs in base 256 |
| CdnLookup.Ipv4Value | src/fp/cdn_lookup.cpp:94-102 | the value is a * 2^24 + b * 2^16 + c * 2^8 + d |
| CdnLookup.DottedRoundTrip | src/fp/cdn_lookup.cpp:80-104 | parsing undoes the canonical form of every 32-bit value |
| CdnLookup.ParseCidr | src/fp/cdn_lookup.cpp:106-122 | accepts exactly an address, a slash and one or two digits up to 32, and returns masked base and mask |
| CdnLookup.CidrInPlainTerms | src/fp/cdn_lookup.cpp:106-117 | a string is a range iff it is an address, a slash, and one or two digits of value at most 32 |
| CdnLookup.CidrRoundTrip | src/fp/cdn_lookup.cpp:106-122 | reading undoes the canonical form of every address and prefix length |
| CdnLookup.MaskedIsNetwork | src/fp/cdn_lookup.cpp:118-120 | the shifted mask clears exactly the low 32 - prefix bits |
| CdnLookup.ParsedRange | src/fp/cdn_lookup.cpp:106-122 | every parsed range has an aligned base and contains its own address |
| CdnLookup.ContainsIsInterval | src/fp/cdn_lookup.cpp:163-163 | the mask test holds iff the address is one of the 2^(32 - prefix) from the base (section 3.1 of RFC 4632) |
| CdnLookup.NestedOrDisjoint | src/fp/cdn_lookup.cpp:159-168 | ranges that share an address are nested |
| CdnLookup.LoadRanges | src/fp/cdn_lookup.cpp:135-143 | malformed entries are skipped, the others kept in order |
| CdnLookup.Lookup | src/fp/cdn_lookup.cpp:159-168 | nothing for a malformed address, otherwise `Find` |
| CdnLookup.FindIsFirst | src/fp/cdn_lookup.cpp:162-167 | the provider of the first containing range |
| CdnLookup.FindIsFirstCovering | src/fp/cdn_lookup.cpp:135-168 | loading and masking agree with a mask-free scan for the first entry whose block covers the address |
| CdnLookup.LookupInPlainTerms | src/fp/cdn_lookup.cpp:135-168 | the answer is the provider of the first entry whose leading bits the address shares, nothing if there is none |
| CdnLookup.OrderIndependentIff | src/fp/cdn_lookup.cpp:162-167 | the answers for 32-bit addresses do not depend on the order of the list iff ranges that share an address name the same provider |
| Epss.Trim | src/fp/epss_lookup.cpp:20-30 | the two loops compute `Trimmed` |
| Epss.TrimmedOfPadded | src/fp/epss_lookup.cpp:20-30 | which removes padding and nothing else |
| Epss.ValidLineForm | src/fp/epss_lookup.cpp:65-84 | a line with an entry is an id and two more fields between commas |
| Epss.LineRoundTrip | src/fp/epss_lookup.cpp:62-85 | and every such line, however padded, is read so: score second, percentile third, an unreadable percentile counting as 0, an unreadable score spoiling the line |
| Epss.AddLine | src/fp/epss_lookup.cpp:65-85 | one line adds its entry unless the id is already there |
| Epss.UpperFolds | src/fp/epss_lookup.cpp:13-18 | ids are folded together iff they differ in the case of ASCII letters only |
| Epss.Parse | src/fp/epss_lookup.cpp:54-88 | the loop builds `Parsed` |
| Epss.LookupIsScan | src/fp/epss_lookup.cpp:98-102 | a lookup is a plain scan for the first valid line whose id matches ignoring case, zero if there is none |
| Epss.ParsedOfConcat | src/fp/epss_lookup.cpp:54-88 | parsing two texts joined by a line feed merges their indexes, the first winning |

## Left out

- RateLimiter.Limiter.Refill: requires a rate of at least 0; a negative one is possible only when both constructor rates are negative, which neither program does.
- LimiterSystem.WindowGrants: takes every pass of the loop of `acquire`, retries included, to run on the strand; which executor resumes a coroutine is Asio's business, and `RacingBucket` covers the other case.
- RateLimiter.Limiter.Acquire: one acquirer at a fixed rate, because with rivals or a changing rate the code promises no bound on the number of sleeps; the clock is taken to advance at least 1 ns per sleep.
- PunctualBucket.GrantsAreExact: exact timers and immediate scheduling; the truncated timers are covered by the window bound and, for one acquirer, by `Acquire`.
- Reporting.CountersNeverDrift: the 64-bit width of the counters is not modelled; the bound on the samples shows that theirs is never reached with fewer than 2^57 threads.
- ScanController.TraceShape: exceptions other than `std::exception`, and running out of memory inside the bridge's posts, are not modelled.
- Boost.Asio sockets, resolver, coroutines and thread pool: only their outcomes appear.
- IEEE rounding, infinities and relaxed memory ordering.
- SHA-256, `strtod` and number printing are arbitrary functions; JSON and file loading are not part of this model.
- Probe engine, TLS probe, X.509 and JA4 client fingerprints, CVE database matching: oracles or absent.
- Qt views, the JSON and HTML writers, scope guard, port table and severity thresholds: one branch or one character map each.
