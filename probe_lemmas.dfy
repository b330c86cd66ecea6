/**
 * What a run of the probe loop amounts to. An independent description
 * comes first: the number of probes a run makes (from the count limit,
 * the oracle and the first fatal outcome) and the run as that many
 * blocks, each an optional pause followed by one probe. The trace
 * specification is proved equal to it, and the properties of the loop
 * are read off the blocks.
 */
module ProbeLemmas {
  import opened Wrappers
  import opened Icmp
  import opened Pacing
  import opened ProbeTrace
  import opened TraceViews

  /** How many of `available` probes the count limit admits. */
  function Admitted(count: int, available: nat): (n: nat)
    ensures n <= available
    ensures count == 0 ==> n == available
    ensures count < 0 ==> n == 0
    ensures count > 0 ==> n == Min(count, available)
  {
    match Budget(count)
    case None => available
    case Some(b) => Min(b, available)
  }

  /** The index of the first fatal outcome, or the number of outcomes when there is none. */
  function FirstFatal(outcomes: seq<Outcome>, parse: Parser): (f: nat)
    ensures f <= |outcomes|
    ensures forall j :: 0 <= j < f ==> !IsFatal(outcomes[j], parse)
    ensures f < |outcomes| ==> IsFatal(outcomes[f], parse)
  {
    if outcomes == [] then 0
    else if IsFatal(outcomes[0], parse) then 0
    else 1 + FirstFatal(outcomes[1..], parse)
  }

  /** The number of probes a run makes: those admitted, cut after the first fatal one. */
  function Iterations(cfg: Config, env: Env): (k: nat)
    ensures k <= |env.outcomes|
  {
    Min(Admitted(cfg.count, |env.outcomes|), FirstFatal(env.outcomes, env.parse) + 1)
  }

  /** Probe `i + 1`, preceded by a pause of the interval unless it is the first. */
  function Block(p: ClosePolicy, i: nat, cfg: Config, env: Env): seq<Event>
    requires i < |env.outcomes|
  {
    (if i == 0 then [] else [Sleep(cfg.interval)]) + Probe(p, i + 1, env.outcomes[i], cfg, env)
  }

  /** Blocks `i` up to (not including) `k`. */
  function Blocks(p: ClosePolicy, i: nat, k: nat, cfg: Config, env: Env): seq<Event>
    requires k <= |env.outcomes|
    decreases k - i
  {
    if i >= k then [] else Block(p, i, cfg, env) + Blocks(p, i + 1, k, cfg, env)
  }

  /** From `i` completed probes on, the trace specification is the remaining blocks. */
  lemma {:induction false} RunFromIsBlocks(p: ClosePolicy, i: nat, cfg: Config, env: Env)
    requires i <= Iterations(cfg, env) && i <= FirstFatal(env.outcomes, env.parse)
    ensures RunFrom(p, i, cfg, env) == Blocks(p, i, Iterations(cfg, env), cfg, env)
    decreases |env.outcomes| - i
  {
    var k := Iterations(cfg, env);
    if i == k {
      RunFromAtLast(p, i, cfg, env);
    } else if IsFatal(env.outcomes[i], env.parse) {
      RunFromAtFatal(p, i, cfg, env);
    } else {
      RunFromIsBlocks(p, i + 1, cfg, env);
      RunFromAtNext(p, i, cfg, env);
    }
  }

  /** Once all the probes a run makes are done, nothing follows. */
  lemma RunFromAtLast(p: ClosePolicy, i: nat, cfg: Config, env: Env)
    requires i == Iterations(cfg, env) && i <= FirstFatal(env.outcomes, env.parse)
    ensures RunFrom(p, i, cfg, env) == [] == Blocks(p, i, Iterations(cfg, env), cfg, env)
  {
    if i < |env.outcomes| {
      StopsWhenBudgetSpent(i, cfg.count, cfg.interval);
      RunFromStop(p, i, cfg, env);
    }
  }

  /** The probe that is fatal is the last block. */
  lemma RunFromAtFatal(p: ClosePolicy, i: nat, cfg: Config, env: Env)
    requires i < Iterations(cfg, env) && i <= FirstFatal(env.outcomes, env.parse)
    requires IsFatal(env.outcomes[i], env.parse)
    ensures RunFrom(p, i, cfg, env) == Blocks(p, i, Iterations(cfg, env), cfg, env)
  {
    var k := Iterations(cfg, env);
    StopsWhenBudgetSpent(i, cfg.count, cfg.interval);
    assert k == i + 1;
    RunFromFatal(p, i, cfg, env);
    assert Blocks(p, i + 1, k, cfg, env) == [];
    assert Blocks(p, i, k, cfg, env) == Block(p, i, cfg, env) + [];
  }

  /** A probe that is not the last is one block, followed by the rest of the run. */
  lemma RunFromAtNext(p: ClosePolicy, i: nat, cfg: Config, env: Env)
    requires i < Iterations(cfg, env) && i <= FirstFatal(env.outcomes, env.parse)
    requires !IsFatal(env.outcomes[i], env.parse)
    requires RunFrom(p, i + 1, cfg, env) == Blocks(p, i + 1, Iterations(cfg, env), cfg, env)
    ensures RunFrom(p, i, cfg, env) == Blocks(p, i, Iterations(cfg, env), cfg, env)
  {
    StopsWhenBudgetSpent(i, cfg.count, cfg.interval);
    RunFromNext(p, i, cfg, env);
  }

  /** A whole run is `Iterations` blocks: probes 1 to k, with a pause before each but the first. */
  lemma RunIsBlocks(p: ClosePolicy, cfg: Config, env: Env)
    ensures Run(p, cfg, env) == Blocks(p, 0, Iterations(cfg, env), cfg, env)
  {
    RunFromIsBlocks(p, 0, cfg, env);
  }

  // ---------------------------------------------------------------------
  // How many probes a run makes

  /** With no limit the loop probes until it is interrupted or a probe is fatal. */
  lemma UnboundedCount(cfg: Config, env: Env)
    requires cfg.count == 0
    ensures Iterations(cfg, env) == Min(|env.outcomes|, FirstFatal(env.outcomes, env.parse) + 1)
  {
  }

  /** With a positive limit and no fatal probe the loop makes exactly `count` probes. */
  lemma ExactCount(cfg: Config, env: Env)
    requires 0 < cfg.count <= |env.outcomes|
    requires forall j :: 0 <= j < cfg.count ==> !IsFatal(env.outcomes[j], env.parse)
    ensures Iterations(cfg, env) == cfg.count
  {
  }

  /** A negative limit gives no probe at all, and an empty trace. */
  lemma NegativeCountProbesNothing(p: ClosePolicy, cfg: Config, env: Env)
    requires cfg.count < 0
    ensures Iterations(cfg, env) == 0
    ensures Run(p, cfg, env) == []
  {
    RunIsBlocks(p, cfg, env);
  }

  /** A fatal probe within the limit is the last probe. */
  lemma FatalProbeIsLast(cfg: Config, env: Env, j: nat)
    requires j < Admitted(cfg.count, |env.outcomes|)
    requires IsFatal(env.outcomes[j], env.parse)
    requires forall i :: 0 <= i < j ==> !IsFatal(env.outcomes[i], env.parse)
    ensures Iterations(cfg, env) == j + 1
  {
  }


  // ---------------------------------------------------------------------
  // Projections of one probe and of one block

  /** What a projection keeps of one probe, event by event. */
  lemma ProjectProbe<T>(p: ClosePolicy, sequence: int, o: Outcome, cfg: Config, env: Env, f: Event -> Option<T>)
    ensures Project(Probe(p, sequence, o, cfg, env), f) ==
      (if o.ListenFail? then [] else Pick(f, Open(sequence)) + Pick(f, Write(NewMsg(sequence, env.pid), cfg.ip, cfg.iface)))
      + Pick(f, Report(sequence, o, env.parse))
      + (if Closes(p, o, env.parse) then Pick(f, Close(sequence)) else [])
  {
    var write := Write(NewMsg(sequence, env.pid), cfg.ip, cfg.iface);
    var head: seq<Event> := if o.ListenFail? then [] else [Open(sequence), write];
    var tail: seq<Event> := if Closes(p, o, env.parse) then [Close(sequence)] else [];
    var report := Report(sequence, o, env.parse);
    assert Project(head, f) == if o.ListenFail? then [] else Pick(f, Open(sequence)) + Pick(f, write) by {
      if !o.ListenFail? {
        assert head == [Open(sequence)] + [write];
        ProjectCons(Open(sequence), [write], f);
        ProjectSingle(write, f);
      }
    }
    assert Project(tail, f) == if Closes(p, o, env.parse) then Pick(f, Close(sequence)) else [] by {
      if tail != [] {
        ProjectSingle(Close(sequence), f);
      }
    }
    ProjectSingle(report, f);
    ProjectConcat(head, [report], f);
    ProjectConcat(head + [report], tail, f);
  }

  /** What a projection keeps of one block: of its pause, then of its probe. */
  lemma ProjectBlock<T>(p: ClosePolicy, i: nat, cfg: Config, env: Env, f: Event -> Option<T>)
    requires i < |env.outcomes|
    ensures Project(Block(p, i, cfg, env), f) ==
      (if i == 0 then [] else Pick(f, Sleep(cfg.interval))) + Project(Probe(p, i + 1, env.outcomes[i], cfg, env), f)
  {
    var pause: seq<Event> := if i == 0 then [] else [Sleep(cfg.interval)];
    if pause != [] {
      ProjectSingle(Sleep(cfg.interval), f);
    }
    ProjectConcat(pause, Probe(p, i + 1, env.outcomes[i], cfg, env), f);
  }

  // ---------------------------------------------------------------------
  // Requests: probe j writes the Echo Request with sequence number j

  /** A probe writes one request, `NewMsg(sequence, pid)` to the target, unless it has no socket. */
  lemma WritesOfProbe(p: ClosePolicy, sequence: int, o: Outcome, cfg: Config, env: Env)
    ensures Writes(Probe(p, sequence, o, cfg, env))
      == if o.ListenFail? then [] else [Write(NewMsg(sequence, env.pid), cfg.ip, cfg.iface)]
  {
    ProjectProbe(p, sequence, o, cfg, env, AsWrite);
  }

  lemma WritesOfBlock(p: ClosePolicy, i: nat, cfg: Config, env: Env)
    requires i < |env.outcomes|
    ensures Writes(Block(p, i, cfg, env)) == Request(i, cfg, env)
  {
    var probe := Probe(p, i + 1, env.outcomes[i], cfg, env);
    assert Writes(Block(p, i, cfg, env)) == Writes(probe) by {
      ProjectBlock(p, i, cfg, env, AsWrite);
    }
    assert Writes(probe) == Request(i, cfg, env) by {
      WritesOfProbe(p, i + 1, env.outcomes[i], cfg, env);
    }
  }

  /** The request probe `i + 1` writes: none when it has no socket. */
  function Request(i: nat, cfg: Config, env: Env): seq<Event>
    requires i < |env.outcomes|
  {
    if env.outcomes[i].ListenFail? then [] else [Write(NewMsg(i + 1, env.pid), cfg.ip, cfg.iface)]
  }

  /** The requests of probes `i + 1` to `k`: each one that got a socket sends its own sequence number. */
  function Requests(i: nat, k: nat, cfg: Config, env: Env): (r: seq<Event>)
    requires k <= |env.outcomes|
    ensures i <= k ==> |r| <= k - i
    decreases k - i
  {
    if i >= k then [] else Request(i, cfg, env) + Requests(i + 1, k, cfg, env)
  }

  /** Up to the first failed listen, request j - i of the list is that of probe j + 1. */
  lemma {:induction false} RequestsAt(i: nat, k: nat, cfg: Config, env: Env, j: nat)
    requires i <= j < k <= |env.outcomes|
    requires forall l :: i <= l <= j ==> !env.outcomes[l].ListenFail?
    ensures j - i < |Requests(i, k, cfg, env)|
    ensures Requests(i, k, cfg, env)[j - i] == Write(NewMsg(j + 1, env.pid), cfg.ip, cfg.iface)
    decreases j - i
  {
    if i < j {
      RequestsAt(i + 1, k, cfg, env, j);
      assert Requests(i, k, cfg, env)[j - i] == Requests(i + 1, k, cfg, env)[j - i - 1];
    }
  }

  lemma {:induction false} WritesOfBlocks(p: ClosePolicy, i: nat, k: nat, cfg: Config, env: Env)
    requires i <= k <= |env.outcomes|
    ensures Writes(Blocks(p, i, k, cfg, env)) == Requests(i, k, cfg, env)
    decreases k - i
  {
    if i < k {
      WritesOfBlock(p, i, cfg, env);
      ProjectConcat(Block(p, i, cfg, env), Blocks(p, i + 1, k, cfg, env), AsWrite);
      WritesOfBlocks(p, i + 1, k, cfg, env);
    }
  }

  /**
   * The requests a run writes: probe j + 1 writes the Echo Request with
   * sequence number j + 1 to the target address and zone, for every probe
   * that got a socket, so the numbers sent are 1, 2, ... in order.
   */
  lemma RunWrites(p: ClosePolicy, cfg: Config, env: Env)
    ensures Writes(Run(p, cfg, env)) == Requests(0, Iterations(cfg, env), cfg, env)
    ensures forall j :: 0 <= j < Iterations(cfg, env) && !env.outcomes[j].ListenFail? ==>
      j < |Writes(Run(p, cfg, env))| && Writes(Run(p, cfg, env))[j] == Write(NewMsg(j + 1, env.pid), cfg.ip, cfg.iface)
  {
    var k := Iterations(cfg, env);
    RunIsBlocks(p, cfg, env);
    WritesOfBlocks(p, 0, k, cfg, env);
    forall j | 0 <= j < k && !env.outcomes[j].ListenFail?
      ensures j < |Requests(0, k, cfg, env)| && Requests(0, k, cfg, env)[j] == Write(NewMsg(j + 1, env.pid), cfg.ip, cfg.iface)
    {
      assert forall l :: 0 <= l < j ==> !IsFatal(env.outcomes[l], env.parse);
      RequestsAt(0, k, cfg, env, j);
    }
  }

  // ---------------------------------------------------------------------
  // Reports: one per probe, numbered 1 to k, classified by the outcome

  /** A probe reports exactly once. */
  lemma ReportsOfProbe(p: ClosePolicy, sequence: int, o: Outcome, cfg: Config, env: Env)
    ensures Reports(Probe(p, sequence, o, cfg, env)) == [Report(sequence, o, env.parse)]
  {
    ProjectProbe(p, sequence, o, cfg, env, AsReport);
  }

  lemma ReportsOfBlock(p: ClosePolicy, i: nat, cfg: Config, env: Env)
    requires i < |env.outcomes|
    ensures Reports(Block(p, i, cfg, env)) == [Report(i + 1, env.outcomes[i], env.parse)]
  {
    ProjectBlock(p, i, cfg, env, AsReport);
    ReportsOfProbe(p, i + 1, env.outcomes[i], cfg, env);
  }

  /** The reports of probes `i + 1` to `k`, each classified by its own outcome. */
  function Classified(i: nat, k: nat, env: Env): (r: seq<Event>)
    requires k <= |env.outcomes|
    ensures i <= k ==> |r| == k - i
    decreases k - i
  {
    if i >= k then [] else [Report(i + 1, env.outcomes[i], env.parse)] + Classified(i + 1, k, env)
  }

  lemma {:induction false} ClassifiedAt(i: nat, k: nat, env: Env, j: nat)
    requires i <= j < k <= |env.outcomes|
    ensures Classified(i, k, env)[j - i] == Report(j + 1, env.outcomes[j], env.parse)
    decreases j - i
  {
    if i < j {
      ClassifiedAt(i + 1, k, env, j);
      assert Classified(i, k, env)[j - i] == Classified(i + 1, k, env)[j - i - 1];
    }
  }

  lemma {:induction false} ReportsOfBlocks(p: ClosePolicy, i: nat, k: nat, cfg: Config, env: Env)
    requires i <= k <= |env.outcomes|
    ensures Reports(Blocks(p, i, k, cfg, env)) == Classified(i, k, env)
    decreases k - i
  {
    if i < k {
      ReportsOfBlock(p, i, cfg, env);
      ProjectConcat(Block(p, i, cfg, env), Blocks(p, i + 1, k, cfg, env), AsReport);
      ReportsOfBlocks(p, i + 1, k, cfg, env);
    }
  }

  /**
   * A run reports once per probe, in order: the j-th report is that of
   * probe j + 1 and is classified by its outcome, so the reported
   * sequence numbers are exactly 1, 2, ..., k.
   */
  lemma RunReports(p: ClosePolicy, cfg: Config, env: Env)
    ensures Reports(Run(p, cfg, env)) == Classified(0, Iterations(cfg, env), env)
    ensures |Reports(Run(p, cfg, env))| == Iterations(cfg, env)
    ensures forall j :: 0 <= j < Iterations(cfg, env) ==>
      Reports(Run(p, cfg, env))[j] == Report(j + 1, env.outcomes[j], env.parse)
  {
    var k := Iterations(cfg, env);
    RunIsBlocks(p, cfg, env);
    ReportsOfBlocks(p, 0, k, cfg, env);
    forall j | 0 <= j < k
      ensures Classified(0, k, env)[j] == Report(j + 1, env.outcomes[j], env.parse)
    {
      ClassifiedAt(0, k, env, j);
    }
  }

  /**
   * A failed write or read of probe j + 1 is reported as an error for
   * that probe, and when the limit admits another probe, probe j + 2
   * follows with the next sequence number.
   */
  lemma TransportErrorContinues(p: ClosePolicy, cfg: Config, env: Env, j: nat)
    requires j + 1 < Admitted(cfg.count, |env.outcomes|)
    requires forall i :: 0 <= i <= j ==> !IsFatal(env.outcomes[i], env.parse)
    requires env.outcomes[j].WriteFail? || env.outcomes[j].ReadFail?
    ensures j + 1 < Iterations(cfg, env) == |Reports(Run(p, cfg, env))|
    ensures Reports(Run(p, cfg, env))[j] == ProbeErr(j + 1, if env.outcomes[j].WriteFail? then WriteError else ReadError)
    ensures Reports(Run(p, cfg, env))[j + 1] == Report(j + 2, env.outcomes[j + 1], env.parse)
  {
    RunReports(p, cfg, env);
  }

  // ---------------------------------------------------------------------
  // Pacing: probes start in order, with one pause between two probes

  /** A probe starts exactly once, and does not pause. */
  lemma TimelineOfProbe(p: ClosePolicy, sequence: int, o: Outcome, cfg: Config, env: Env)
    ensures Timeline(Probe(p, sequence, o, cfg, env)) == [Begin(sequence)]
  {
    ProjectProbe(p, sequence, o, cfg, env, AsMark);
  }

  lemma TimelineOfBlock(p: ClosePolicy, i: nat, cfg: Config, env: Env)
    requires 0 < i < |env.outcomes|
    ensures Timeline(Block(p, i, cfg, env)) == [Pause(cfg.interval), Begin(i + 1)]
  {
    ProjectBlock(p, i, cfg, env, AsMark);
    TimelineOfProbe(p, i + 1, env.outcomes[i], cfg, env);
  }

  /** Probes `i + 1` to `k`, each started right after a pause of `interval`. */
  function Paced(i: nat, k: nat, interval: int): (tl: seq<Mark>)
    ensures i <= k ==> |tl| == 2 * (k - i)
    decreases k - i
  {
    if i >= k then [] else [Pause(interval), Begin(i + 1)] + Paced(i + 1, k, interval)
  }

  lemma {:induction false} PacedAt(i: nat, k: nat, interval: int, q: nat)
    requires i <= k && q < 2 * (k - i)
    ensures Paced(i, k, interval)[q] == if q % 2 == 0 then Pause(interval) else Begin(i + q / 2 + 1)
    decreases k - i
  {
    if q >= 2 {
      PacedAt(i + 1, k, interval, q - 2);
      assert Paced(i, k, interval)[q] == Paced(i + 1, k, interval)[q - 2];
      assert (q - 2) % 2 == q % 2 && (q - 2) / 2 == q / 2 - 1;
    }
  }

  lemma {:induction false} TimelineOfBlocks(p: ClosePolicy, i: nat, k: nat, cfg: Config, env: Env)
    requires 1 <= i <= k <= |env.outcomes|
    ensures Timeline(Blocks(p, i, k, cfg, env)) == Paced(i, k, cfg.interval)
    decreases k - i
  {
    if i < k {
      TimelineOfBlock(p, i, cfg, env);
      ProjectConcat(Block(p, i, cfg, env), Blocks(p, i + 1, k, cfg, env), AsMark);
      TimelineOfBlocks(p, i + 1, k, cfg, env);
    }
  }

  /** The timeline of a run that probes at all: probe 1, then the paced probes 2 to k. */
  lemma TimelineOfRun(p: ClosePolicy, cfg: Config, env: Env)
    requires Iterations(cfg, env) > 0
    ensures Timeline(Run(p, cfg, env)) == [Begin(1)] + Paced(1, Iterations(cfg, env), cfg.interval)
  {
    var k := Iterations(cfg, env);
    RunIsBlocks(p, cfg, env);
    TimelineOfProbe(p, 1, env.outcomes[0], cfg, env);
    assert Block(p, 0, cfg, env) == Probe(p, 1, env.outcomes[0], cfg, env);
    ProjectConcat(Block(p, 0, cfg, env), Blocks(p, 1, k, cfg, env), AsMark);
    TimelineOfBlocks(p, 1, k, cfg, env);
  }

  /**
   * The timeline of a run of k probes: probe 1 starts first with no pause
   * before it, and every later probe starts right after a pause of exactly
   * the interval; after the start of probe k there is no further pause.
   * So the probes start in the order 1, 2, ..., k and a run pauses k - 1
   * times.
   */
  lemma RunTimeline(p: ClosePolicy, cfg: Config, env: Env)
    ensures |Timeline(Run(p, cfg, env))| == if Iterations(cfg, env) == 0 then 0 else 2 * Iterations(cfg, env) - 1
    ensures forall q :: 0 <= q < |Timeline(Run(p, cfg, env))| ==>
      Timeline(Run(p, cfg, env))[q] == if q % 2 == 0 then Begin(q / 2 + 1) else Pause(cfg.interval)
  {
    if Iterations(cfg, env) == 0 {
      RunIsBlocks(p, cfg, env);
    } else {
      TimelineOfRun(p, cfg, env);
      FirstThenPaced(Iterations(cfg, env), cfg.interval);
    }
  }

  /** Probe 1 followed by the paced probes 2 to k: probe starts at even positions, pauses at odd ones. */
  lemma FirstThenPaced(k: nat, interval: int)
    requires k > 0
    ensures |[Begin(1)] + Paced(1, k, interval)| == 2 * k - 1
    ensures forall q :: 0 <= q < 2 * k - 1 ==>
      ([Begin(1)] + Paced(1, k, interval))[q] == if q % 2 == 0 then Begin(q / 2 + 1) else Pause(interval)
  {
    var tl := [Begin(1)] + Paced(1, k, interval);
    forall q | 1 <= q < |tl|
      ensures tl[q] == if q % 2 == 0 then Begin(q / 2 + 1) else Pause(interval)
    {
      PacedAt(1, k, interval, q - 1);
    }
  }

  // ---------------------------------------------------------------------
  // Sockets: which probes close theirs, and how many stay open

  /** The probes among `i` to `k - 1` (0-based) that leave their socket open. */
  function LeakCount(p: ClosePolicy, i: nat, k: nat, env: Env): (n: nat)
    requires k <= |env.outcomes|
    ensures i <= k ==> n <= k - i
    decreases k - i
  {
    if i >= k then 0 else (if Leaks(p, env.outcomes[i], env.parse) then 1 else 0) + LeakCount(p, i + 1, k, env)
  }

  /** The sequence numbers of the probes among `i` to `k - 1` (0-based) that reach a `Close`. */
  function Closing(p: ClosePolicy, i: nat, k: nat, env: Env): seq<int>
    requires k <= |env.outcomes|
    decreases k - i
  {
    if i >= k then [] else (if Closes(p, env.outcomes[i], env.parse) then [i + 1] else []) + Closing(p, i + 1, k, env)
  }

  /** As written, a probe keeps its socket open exactly when its write or read fails or its reply does not parse. */
  lemma AsWrittenLeaks(o: Outcome, parse: Parser)
    ensures Leaks(AsWritten, o, parse) <==> o.WriteFail? || o.ReadFail? || (o.Received? && Parsed(o, parse).None?)
  {
  }

  /** Closing on every path, only a probe whose reply does not parse, which ends the process, keeps its socket. */
  lemma ReleasingLeaks(o: Outcome, parse: Parser)
    ensures Leaks(CloseOnEveryPath, o, parse) <==> o.Received? && Parsed(o, parse).None?
  {
  }

  /** A probe closes its own socket, once, exactly when it reaches the close. */
  lemma ClosedOfProbe(p: ClosePolicy, sequence: int, o: Outcome, cfg: Config, env: Env)
    ensures Closed(Probe(p, sequence, o, cfg, env)) == if Closes(p, o, env.parse) then [sequence] else []
  {
    ProjectProbe(p, sequence, o, cfg, env, AsClose);
  }

  lemma ClosedOfBlock(p: ClosePolicy, i: nat, cfg: Config, env: Env)
    requires i < |env.outcomes|
    ensures Closed(Block(p, i, cfg, env)) == if Closes(p, env.outcomes[i], env.parse) then [i + 1] else []
  {
    ProjectBlock(p, i, cfg, env, AsClose);
    ClosedOfProbe(p, i + 1, env.outcomes[i], cfg, env);
  }

  lemma OpenAfterBlock(p: ClosePolicy, i: nat, cfg: Config, env: Env)
    requires i < |env.outcomes|
    ensures OpenAfter(Block(p, i, cfg, env)) == if Leaks(p, env.outcomes[i], env.parse) then 1 else 0
  {
    var pause: seq<Event> := if i == 0 then [] else [Sleep(cfg.interval)];
    var probe := Probe(p, i + 1, env.outcomes[i], cfg, env);
    PeakWithoutOpen(pause);
    OpenAfterConcat(pause, probe);
    ProbeOpenAfter(p, i + 1, env.outcomes[i], cfg, env);
  }

  lemma {:induction false} SocketsOfBlocks(p: ClosePolicy, i: nat, k: nat, cfg: Config, env: Env)
    requires i <= k <= |env.outcomes|
    ensures OpenAfter(Blocks(p, i, k, cfg, env)) == LeakCount(p, i, k, env)
    ensures Closed(Blocks(p, i, k, cfg, env)) == Closing(p, i, k, env)
    decreases k - i
  {
    if i < k {
      OpenAfterBlock(p, i, cfg, env);
      ClosedOfBlock(p, i, cfg, env);
      OpenAfterConcat(Block(p, i, cfg, env), Blocks(p, i + 1, k, cfg, env));
      ProjectConcat(Block(p, i, cfg, env), Blocks(p, i + 1, k, cfg, env), AsClose);
      SocketsOfBlocks(p, i + 1, k, cfg, env);
    }
  }

  /**
   * The sockets of a run: those of the probes that reach a `Close` are
   * closed, in probe order, and every other probe that opened one leaves
   * it open at the end of the run.
   */
  lemma RunSockets(p: ClosePolicy, cfg: Config, env: Env)
    ensures OpenAfter(Run(p, cfg, env)) == LeakCount(p, 0, Iterations(cfg, env), env)
    ensures Closed(Run(p, cfg, env)) == Closing(p, 0, Iterations(cfg, env), env)
  {
    RunIsBlocks(p, cfg, env);
    SocketsOfBlocks(p, 0, Iterations(cfg, env), cfg, env);
  }

  /** Within one probe at most its own socket is open. */
  lemma PeakOfProbe(p: ClosePolicy, sequence: int, o: Outcome, cfg: Config, env: Env)
    ensures Peak(Probe(p, sequence, o, cfg, env)) <= 1
  {
    var report := Report(sequence, o, env.parse);
    var tail: seq<Event> := if Closes(p, o, env.parse) then [Close(sequence)] else [];
    PeakWithoutOpen([report] + tail);
    if !o.ListenFail? {
      var write := Write(NewMsg(sequence, env.pid), cfg.ip, cfg.iface);
      var head := [Open(sequence), write];
      assert Peak([write]) == 0 && OpenAfter([write]) == 0 by {
        assert [write][1..] == [];
      }
      assert Peak(head) == 1 && OpenAfter(head) == 1 by {
        assert head[0] == Open(sequence) && head[1..] == [write];
      }
      PeakConcat(head, [report] + tail);
      assert Probe(p, sequence, o, cfg, env) == head + ([report] + tail);
    } else {
      assert Probe(p, sequence, o, cfg, env) == [report] + tail;
    }
  }

  lemma PeakOfBlock(p: ClosePolicy, i: nat, cfg: Config, env: Env)
    requires i < |env.outcomes|
    ensures Peak(Block(p, i, cfg, env)) <= 1
  {
    var pause: seq<Event> := if i == 0 then [] else [Sleep(cfg.interval)];
    PeakWithoutOpen(pause);
    PeakConcat(pause, Probe(p, i + 1, env.outcomes[i], cfg, env));
    PeakOfProbe(p, i + 1, env.outcomes[i], cfg, env);
  }

  /** Closing on every path, blocks up to the first fatal probe never hold two sockets. */
  lemma {:induction false} ReleasingPeakOfBlocks(i: nat, k: nat, cfg: Config, env: Env)
    requires i <= k <= |env.outcomes|
    requires forall j :: i <= j < k - 1 ==> !IsFatal(env.outcomes[j], env.parse)
    ensures Peak(Blocks(CloseOnEveryPath, i, k, cfg, env)) <= 1
    decreases k - i
  {
    if i < k {
      PeakOfBlock(CloseOnEveryPath, i, cfg, env);
      OpenAfterBlock(CloseOnEveryPath, i, cfg, env);
      ReleasingPeakOfBlocks(i + 1, k, cfg, env);
      PeakConcat(Block(CloseOnEveryPath, i, cfg, env), Blocks(CloseOnEveryPath, i + 1, k, cfg, env));
      if i + 1 == k {
        assert Blocks(CloseOnEveryPath, i + 1, k, cfg, env) == [];
      }
    }
  }

  /**
   * With the socket closed on every path, at no point of a run is more
   * than one socket open, and at its end at most the socket of a probe
   * whose reply did not parse is.
   */
  lemma ReleasingHoldsOneSocket(cfg: Config, env: Env)
    ensures forall q :: 0 <= q <= |Run(CloseOnEveryPath, cfg, env)| ==>
      OpenAfter(Run(CloseOnEveryPath, cfg, env)[..q]) <= 1
    ensures OpenAfter(Run(CloseOnEveryPath, cfg, env)) == 1 ==>
      var k := Iterations(cfg, env);
      k > 0 && env.outcomes[k - 1].Received? && Parsed(env.outcomes[k - 1], env.parse).None?
  {
    var t := Run(CloseOnEveryPath, cfg, env);
    var k := Iterations(cfg, env);
    RunIsBlocks(CloseOnEveryPath, cfg, env);
    ReleasingPeakOfBlocks(0, k, cfg, env);
    PeakBoundsPrefixes(t);
    RunSockets(CloseOnEveryPath, cfg, env);
    assert t[..|t|] == t;
    ReleasingLeakCount(k, env);
  }

  /** Closing on every path, only a fatal last probe can leave its socket open. */
  lemma {:induction false} ReleasingLeakCount(k: nat, env: Env)
    requires k <= Min(|env.outcomes|, FirstFatal(env.outcomes, env.parse) + 1)
    ensures LeakCount(CloseOnEveryPath, 0, k, env) <= 1
    ensures LeakCount(CloseOnEveryPath, 0, k, env) == 1 ==>
      k > 0 && env.outcomes[k - 1].Received? && Parsed(env.outcomes[k - 1], env.parse).None?
  {
    if k > 0 {
      ReleasingLeakCount(k - 1, env);
      LeakCountSplit(CloseOnEveryPath, 0, k - 1, env);
    }
  }

  /** Counting the leaks up to `k + 1` is counting them up to `k` and adding probe `k`. */
  lemma {:induction false} LeakCountSplit(p: ClosePolicy, i: nat, k: nat, env: Env)
    requires i <= k < |env.outcomes|
    ensures LeakCount(p, i, k + 1, env) == LeakCount(p, i, k, env) + if Leaks(p, env.outcomes[k], env.parse) then 1 else 0
    decreases k - i
  {
    if i < k {
      LeakCountSplit(p, i + 1, k, env);
    }
  }

  /**
   * The code as written leaks one socket per transport error: when the
   * first `k` writes or reads all fail, the first `k` probes leave `k`
   * sockets open, so a run with two such errors holds two at once.
   */
  lemma {:induction false} AsWrittenLeaksPerError(k: nat, env: Env)
    requires k <= |env.outcomes|
    requires forall j :: 0 <= j < k ==> env.outcomes[j].WriteFail? || env.outcomes[j].ReadFail?
    ensures LeakCount(AsWritten, 0, k, env) == k
  {
    if k > 0 {
      AsWrittenLeaksPerError(k - 1, env);
      LeakCountSplit(AsWritten, 0, k - 1, env);
    }
  }

  /** Two failed writes with a count of 2: the run ends with two sockets open. */
  lemma AsWrittenHoldsTwoSockets(cfg: Config, env: Env)
    requires cfg.count == 2 && |env.outcomes| == 2
    requires env.outcomes[0].WriteFail? && env.outcomes[1].WriteFail?
    ensures OpenAfter(Run(AsWritten, cfg, env)) == 2
    ensures OpenAfter(Run(CloseOnEveryPath, cfg, env)) == 0
  {
    ExactCount(cfg, env);
    RunSockets(AsWritten, cfg, env);
    AsWrittenLeaksPerError(2, env);
    RunSockets(CloseOnEveryPath, cfg, env);
    LeakCountSplit(CloseOnEveryPath, 0, 1, env);
  }
}
