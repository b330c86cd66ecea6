# goping: the probe loop, modelled in Dafny

goping is a command-line ICMP ping tool written in Go. It sends numbered
ICMP Echo Requests to one IPv4 address, one fresh raw socket per probe.
Before each probe a pacing rule decides whether to stop and whether to
sleep first. Each probe's outcome is logged on one line: the reply size,
the peer and the round-trip time for an Echo Reply, an error line for a
failed write or read or an unexpected message type. A reply that cannot be
parsed ends the process.

This project models the core of `main.go`:

- the constants `ProtocolICMP` and `EchoMessage`;
- `newMsg`, the request built for each probe;
- `shouldStop`, the termination and pacing rule;
- `start`, the probe loop, as an imperative method.

The network, the clock and the reply parser are an oracle, the `Env`: a
process identifier, one `Outcome` per probe, and a parser function from
the bytes read to an ICMP message type. The loop records what it does as
a trace of events: sleeps, socket opens, writes, one report per probe
(success, error or fatal), and socket closes. It also counts the sockets
it has opened and not closed.

Modules, in dependency order:

- `Wrappers` (wrappers.dfy): `Option`.
- `Icmp` (icmp.dfy): the Echo message, the identifier and the payload (`newMsg`).
- `Pacing` (pacing.dfy): `shouldStop`.
- `ProbeTrace` (probe_trace.dfy): events, outcomes, and the trace specification `Run` of the loop.
- `ProbeLoop` (probe_loop.dfy): the loop as methods.
  - `Start` is the loop as written.
  - `StartReleasing` is the corrected loop (see Findings).
  - Both are proved to produce `Run`.
- `TraceViews` (trace_views.dfy): projections of a trace (requests written, reports, timeline, closes) and the socket peak.
- `ProbeLemmas` (probe_lemmas.dfy): an independent description of a run as `Iterations` blocks. It holds the lemmas on iteration count, requests sent, report order, pacing and sockets.

The main design choice: both the trace specification and the corrected
loop take a `ClosePolicy` parameter. `AsWritten` follows the source.
`CloseOnEveryPath` also closes the socket on the write-error and
read-error paths.

Every probe's session is meant to end with its socket closed. The code closes it
only at the end of the loop body, which the two `continue` statements
skip. The model follows the code, and the difference is recorded under
Findings.

## Model

| member | source | states |
|---|---|---|
| Icmp.NewMsg | main.go:25-36 | Builds the request of probe `sequence`. Its contract gives an Echo Request (type 8, code 0) with that sequence number and a 16-bit identifier; NewMsgIsEchoRequest and EchoPayloadIsMessage pin down the identifier and the data. |
| Icmp.NewMsgIsEchoRequest | main.go:25-36 | The request of probe `sequence` is an Echo Request: type 8, code 0, that sequence number, a 16-bit identifier equal to the process identifier's low 16 bits, and the message bytes as data. |
| Icmp.Identifier | main.go:31 | `pid & 0xffff` always lies in 0..65535. |
| Icmp.IdentifierOfSmallPid | main.go:31 | A process identifier that fits in 16 bits passes through the mask unchanged. |
| Icmp.IdentifierPeriodic | main.go:31 | Process identifiers 65536 apart get the same request identifier. |
| Icmp.NewMsgDistinguishesProbes | main.go:25-36 | Two requests of one process are equal exactly when their sequence numbers are. |
| Icmp.AsciiBytes | main.go:32 | `[]byte(s)` of an ASCII string has one byte per character. |
| Icmp.BytesText | main.go:32 | Reading bytes back as characters keeps the length. |
| Icmp.AsciiRoundTrip | main.go:32 | Reading back the bytes of an ASCII string gives the string. |
| Icmp.EchoPayloadIsMessage | main.go:17 | The request data is exactly the 17 bytes of "hello-from-goping" and reads back as that text. |
| Pacing.ShouldStop | main.go:93-112 | A limit of 0 never stops. Any other limit stops exactly when `counter >= max`. The rule sleeps exactly when `counter != 0` and it does not stop, and then for exactly `interval`. |
| Pacing.Budget | main.go:99-107 | A limit of 0 admits any number of probes. A negative limit admits none. A positive limit admits `max` probes. |
| Pacing.StopsWhenBudgetSpent | main.go:99-107 | The rule stops at a counter exactly when there is a budget and the counter has reached it. |
| Pacing.StopIsFinal | main.go:93-112 | Once the rule stops, it stops (without sleeping) for every larger counter. |
| ProbeTrace.Parsed | main.go:76 | Defines the parser's verdict on `readBuff[:n]` with protocol number 1; its uses are characterised by Report and IsFatal. |
| ProbeTrace.IsFatal | main.go:48-79 | Defines the two outcomes that reach `log.Fatal`: no socket, or a reply that does not parse. Report, RunFromFatal and FatalProbeIsLast carry its consequences. |
| ProbeTrace.ReplyLength | main.go:64-76 | The bytes handed to the parser are the datagram cut to the 1500-byte buffer, so at most 1500. |
| ProbeTrace.Report | main.go:48-88 | One report per probe, carrying the probe's number. It is fatal exactly when the socket could not be opened or the reply did not parse. It is a success exactly when the reply parsed as an Echo Reply, and then carries the byte count, the peer and the round-trip time. Any other parsed type is an error naming that type. A failed listen, write or read is reported with its own reason, and a parse failure as a parse error. |
| ProbeTrace.Closes | main.go:57-89 | Defines which probes reach `c.Close()`: as written, exactly those whose reply parsed; closing on every path, also those whose write or read failed. AsWrittenLeaks, ReleasingLeaks and ClosedOfProbe carry its properties. |
| ProbeTrace.Probe | main.go:48-89 | The events of one loop body. Its contract: it starts by opening its socket (or fails fatally to do so), opens no other, never sleeps, and writes `NewMsg(sequence, pid)` to the target address and zone right after opening, and ends with its `Close` exactly when it reaches the close. WritesOfProbe, ReportsOfProbe, ProbeOpenAfter and ClosedOfProbe give the rest. |
| ProbeTrace.RunFrom | main.go:46-91 | The events of the loop from `done` completed probes on. Its contract: nothing once the oracle is exhausted, and every pause lasts exactly the interval. RunFromIsBlocks relates it to the independent block description. |
| ProbeTrace.Run | main.go:46-91 | The whole trace of `start`. Its contract: it begins with probe 1 opening its socket (or failing fatally to), with no pause first; every pause lasts the interval; a negative count or no outcome at all gives an empty trace. RunIsBlocks, RunReports, RunTimeline and RunSockets give the rest. |
| ProbeTrace.PauseBefore | main.go:93-112 | The pause before a probe opens no socket. |
| ProbeTrace.RunFromStop | main.go:47 | When the rule stops, the run ends. |
| ProbeTrace.RunFromFatal | main.go:76-79 | After a fatal probe the run ends. |
| ProbeTrace.RunFromNext | main.go:47-90 | After a non-fatal probe the loop asks the rule again with the counter one higher. |
| ProbeTrace.ProbeOpenAfter | main.go:48-89 | A probe leaves one socket open exactly when it opened one and did not reach a close, and none otherwise. |
| ProbeLoop.ReadFrom | main.go:64-66 | The read copies the datagram into the buffer, cut to the buffer's length, and returns the number of bytes copied. The rest of the buffer is unchanged. |
| ProbeLoop.ProbeOnce | main.go:48-89 | One loop body produces exactly the specified probe events. It reports whether its socket is left open and whether the process ends. |
| ProbeLoop.Pace | main.go:93-112 | The pacing step adds exactly the pause the rule takes, opens no socket, and reports whether the rule says stop. |
| ProbeLoop.Turn | main.go:47-90 | One turn of the loop (the rule, then the body) extends the trace towards the specified run. It keeps the open-socket count equal to the one the trace implies. |
| ProbeLoop.RunLoop | main.go:46-91 | The loop produces exactly the specified run, and its open-socket count is the one the trace implies. |
| ProbeLoop.Start | main.go:46-91 | `start` as written produces the run specified with the `AsWritten` policy. |
| ProbeLoop.StartReleasing | main.go:46-91 | The corrected loop produces the run specified with the `CloseOnEveryPath` policy. |
| ProbeLemmas.Admitted | main.go:99-107 | How many probes the limit allows: all for 0, none for a negative limit, `min(count, available)` otherwise. |
| ProbeLemmas.FirstFatal | main.go:76-79 | The first fatal outcome: none before it, and it is fatal. |
| ProbeLemmas.Iterations | main.go:47 | A run never has more probes than the oracle has outcomes. |
| ProbeLemmas.RunFromIsBlocks | main.go:46-91 | From any point up to the last probe, the rest of the run is the remaining blocks. Each block is a pause (except before the first probe) and then one probe. |
| ProbeLemmas.RunFromAtLast | main.go:47 | Once all the probes a run makes are done, the rule stops and nothing follows. |
| ProbeLemmas.RunFromAtFatal | main.go:76-79 | A fatal probe is the last block of the run. |
| ProbeLemmas.RunFromAtNext | main.go:47-90 | A probe that is not the last is one block followed by the rest of the run. |
| ProbeLemmas.RunIsBlocks | main.go:46-91 | A run is exactly `Iterations` blocks, probes 1 to k in order. |
| ProbeLemmas.UnboundedCount | main.go:99-104 | With a limit of 0, probing goes on until the run is interrupted or a probe is fatal. |
| ProbeLemmas.ExactCount | main.go:105-107 | A positive limit `k` with no fatal probe gives exactly `k` probes. |
| ProbeLemmas.NegativeCountProbesNothing | main.go:105-107 | A negative limit gives no probe and an empty trace. |
| ProbeLemmas.FatalProbeIsLast | main.go:76-79 | A fatal probe within the limit is the last one. |
| ProbeLemmas.WritesOfProbe | main.go:54-57 | A probe that got a socket writes exactly one request, the Echo Request with its own sequence number, to the target address and zone; one without a socket writes nothing. |
| ProbeLemmas.WritesOfBlock | main.go:47-57 | A block writes what its probe writes; its pause writes nothing. |
| ProbeLemmas.Requests | main.go:54-57 | The expected requests of probes i+1 to k: at most one per probe. |
| ProbeLemmas.RequestsAt | main.go:54-57 | Up to the first failed listen, entry j-i of that list is the request with sequence number j+1. |
| ProbeLemmas.WritesOfBlocks | main.go:47-57 | The requests written by blocks i to k are exactly the expected requests of probes i+1 to k, in order. |
| ProbeLemmas.RunWrites | main.go:47-57 | The requests a run writes are the expected requests of probes 1 to k: probe j+1 sends the Echo Request with sequence number j+1 to the target, so the numbers sent are 1, 2, ... in order. |
| ProbeLemmas.ReportsOfProbe | main.go:57-88 | A probe reports exactly once. |
| ProbeLemmas.ReportsOfBlock | main.go:54-88 | A block reports exactly once, for probe i+1, classified by its outcome; its pause reports nothing. |
| ProbeLemmas.Classified | main.go:57-88 | The expected reports of probes i+1 to k: one per probe. |
| ProbeLemmas.ClassifiedAt | main.go:57-88 | The report of probe j+1 in that list is the classification of outcome j. |
| ProbeLemmas.ReportsOfBlocks | main.go:47-88 | The reports of blocks i to k are exactly the expected reports of probes i+1 to k, in order. |
| ProbeLemmas.RunReports | main.go:47-88 | The reports of a run are the expected reports of probes 1 to k. So a run of k probes reports k times, and the j-th report is that of probe j+1, classified by its outcome. |
| ProbeLemmas.TransportErrorContinues | main.go:57-72 | A failed write or read is reported as an error for that probe. When the limit allows, the next probe follows with the next sequence number. |
| ProbeLemmas.TimelineOfProbe | main.go:48-54 | A probe starts exactly once and does not pause. |
| ProbeLemmas.TimelineOfBlock | main.go:93-112 | A block other than the first is a pause of the interval followed by the start of its probe. |
| ProbeLemmas.Paced | main.go:108-110 | Probes i+1 to k, each after a pause: two marks per probe. |
| ProbeLemmas.PacedAt | main.go:108-110 | In that timeline, even positions are pauses of the interval, and odd positions are probe starts in increasing order. |
| ProbeLemmas.TimelineOfBlocks | main.go:93-112 | The timeline of blocks i to k (i >= 1) is exactly that paced timeline. |
| ProbeLemmas.TimelineOfRun | main.go:94-110 | A run that probes at all starts probe 1 with no pause, followed by the paced timeline of probes 2 to k. |
| ProbeLemmas.FirstThenPaced | main.go:93-112 | Probe 1 followed by the paced probes 2 to k has 2k-1 marks: probe starts at even positions, in order, and pauses of the interval at odd ones. |
| ProbeLemmas.RunTimeline | main.go:93-112 | Probe 1 starts with no pause before it. Every later probe starts right after one pause of exactly the interval. After the last probe there is no pause. So a run of k probes pauses k-1 times. |
| ProbeLemmas.LeakCount | main.go:57-89 | At most one leaked socket per probe. |
| ProbeLemmas.AsWrittenLeaks | main.go:57-89 | As written, a probe keeps its socket open exactly when its write or its read fails, or its reply does not parse. |
| ProbeLemmas.ReleasingLeaks | main.go:76-89 | Closing on every path, only a probe whose reply does not parse keeps its socket open. |
| ProbeLemmas.ClosedOfProbe | main.go:89 | A probe closes its own socket, once, exactly when it reaches a close. |
| ProbeLemmas.ClosedOfBlock | main.go:89 | The same for a block: its pause closes nothing. |
| ProbeLemmas.OpenAfterBlock | main.go:48-89 | A block leaves one socket open exactly when its probe leaks one; its pause opens none. |
| ProbeLemmas.SocketsOfBlocks | main.go:48-89 | Over blocks i to k, the open sockets are the leaking probes. The closes are those of the closing probes, in order. |
| ProbeLemmas.RunSockets | main.go:48-89 | At the end of a run, the open sockets are exactly the leaking probes. The `Close` events are exactly the closing probes, in probe order. |
| ProbeLemmas.PeakOfProbe | main.go:48-89 | Within one probe at most one socket is open. |
| ProbeLemmas.PeakOfBlock | main.go:47-89 | Within one block at most one socket is open. |
| ProbeLemmas.ReleasingPeakOfBlocks | main.go:48-89 | Closing on every path, blocks up to the first fatal probe never hold two sockets. |
| ProbeLemmas.ReleasingLeakCount | main.go:76-89 | Closing on every path, at most one probe leaks, and only a last probe whose reply did not parse. |
| ProbeLemmas.ReleasingHoldsOneSocket | main.go:46-91 | Closing on every path, at no point of a run are two sockets open. One is open at the end only when the last probe's reply did not parse. |
| ProbeLemmas.AsWrittenLeaksPerError | main.go:57-72 | As written, k failed writes or reads in a row leave k sockets open. |
| ProbeLemmas.AsWrittenHoldsTwoSockets | main.go:57-89 | Two failed writes with a count of 2 end with two sockets open. The corrected loop ends with none. |

## Left out

- Socket I/O (`icmp.ListenPacket`, `SetDeadline`, `WriteTo`, `ReadFrom`) is not modelled. Its results come from the oracle, one `Outcome` per probe. The 10-second deadline is one cause of `ReadFail`.
- The wire encoding of the request (`marshalMsg`, `Marshal`) and its checksum are not modelled. The write carries the `Message` value. The `log.Fatal` on a marshal error is left out, since marshalling an Echo message cannot fail here.
- `icmp.ParseMessage` is the oracle's parser function. It returns the message type, or nothing when the bytes do not parse. The error line's dump of the message is reduced to its type.
- The clock is not modelled. `time.Now` readings are the outcome's `sent` and `arrived`. The round-trip time is their difference, with no guarantee that it is positive. `time.Sleep` is the `Sleep` event.
- `os.Getpid` is the `pid` parameter of the environment.
- Colouring, the `log` text format, flag parsing, `usage` and `main` (with its default interface "en0") are not modelled.
- `log.Fatal`, which ends the process, is a `Fatal` event after which the run ends.
- The process being interrupted from outside is modelled as the oracle running out of outcomes, which can only happen between probes. A run interrupted during its pause before a probe, or while a probe is running (for example while blocked in `ReadFrom` until the 10-second deadline set at main.go:52), is not modelled.
- Go's `int` is modelled as unbounded, so neither the counter's overflow after 2^63 probes nor the library's truncation of the sequence number to 16 bits on the wire is modelled.
- Icmp.Identifier: the identifier is stated as the remainder modulo 65536. This equals the bit mask on two's-complement integers. No bit-vector lemma connects the two.
- Socket close is tracked as an event and a count. Closing a socket twice, the operating system's limit on open sockets, and the Go runtime closing a lost socket when the garbage collector finalizes it are not modelled: an unclosed socket counts as open until the end of the run.

## Findings

| source | as written | input that shows it | evidently intended | confidence | as-written member | corrected member |
|---|---|---|---|---|---|---|
| main.go:57-89 | The write-error and read-error paths `continue` past `c.Close()`, so each failed write or read leaks its socket. | count 2 and two probes whose writes fail: both sockets stay open (until garbage-collected, at best), so two are open when probe 2 runs. | Every probe closes its socket before the next one opens, so at most one is open at a time. | medium, not executed | ProbeLemmas.AsWrittenHoldsTwoSockets | ProbeLemmas.ReleasingHoldsOneSocket |
