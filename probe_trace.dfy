/**
 * What the probe loop does, as a trace of events. The network, the clock
 * and the reply parser are an oracle: one Outcome per probe says how its
 * socket calls end, and a parser function says what ICMP message type the
 * received bytes hold (or that they do not parse). Running out of outcomes
 * stands for the process being interrupted from outside.
 */
module ProbeTrace {
  import opened Wrappers
  import opened Icmp
  import opened Pacing

  /** Size of the buffer each probe reads its reply into. */
  const READ_BUFFER_SIZE: nat := 1500

  /** How the socket calls of one probe end. */
  datatype Outcome =
    | ListenFail     // opening the raw ICMP socket fails
    | WriteFail      // sending the request fails
    | ReadFail       // reading the reply fails, including the 10-second deadline passing
    | Received(datagram: seq<byte>, peer: string, sent: int, arrived: int)
      // a datagram from `peer`; `sent` and `arrived` are the clock readings before and after the read

  /** The reply parser: given the protocol number and the bytes read, the ICMP message type, if they parse. */
  type Parser = (int, seq<byte>) -> Option<byte>

  /** Why a probe failed. */
  datatype Reason = ListenError | WriteError | ReadError | ParseError | UnexpectedType(msgType: byte)

  /** What the loop does that can be observed. */
  datatype Event =
    | Sleep(duration: int)                                  // pause before a probe
    | Open(sequence: int)                                   // socket of probe `sequence` opened
    | Write(request: Message, ip: string, zone: string)     // request handed to the socket
    | ProbeOk(sequence: int, bytes: nat, peer: string, rtt: int)   // Echo Reply received
    | ProbeErr(sequence: int, reason: Reason)               // the probe failed, the loop goes on
    | Fatal(sequence: int, reason: Reason)                  // the process ends
    | Close(sequence: int)                                  // socket of probe `sequence` closed

  /**
   * Which probes close their socket: the code as written closes it only
   * after a reply was parsed; the corrected loop also closes it on the
   * write-error and read-error paths.
   */
  datatype ClosePolicy = AsWritten | CloseOnEveryPath

  /** The fixed inputs of the loop. */
  datatype Config = Config(ip: string, count: int, interval: int, iface: string)

  /** What the loop meets: the process identifier, one outcome per probe, and the parser. */
  datatype Env = Env(pid: int, outcomes: seq<Outcome>, parse: Parser)

  function Min(a: int, b: int): (m: int)
    ensures m <= a && m <= b && (m == a || m == b)
  {
    if a <= b then a else b
  }

  /** Number of bytes a read delivers: the datagram, cut to the buffer size. */
  function ReplyLength(o: Outcome): (n: nat)
    requires o.Received?
    ensures n <= READ_BUFFER_SIZE && n <= |o.datagram|
    ensures n == READ_BUFFER_SIZE || n == |o.datagram|
  {
    Min(|o.datagram|, READ_BUFFER_SIZE)
  }

  /** The parser's verdict on the bytes a read delivered. */
  function Parsed(o: Outcome, parse: Parser): Option<byte>
    requires o.Received?
  {
    parse(PROTOCOL_ICMP, o.datagram[..ReplyLength(o)])
  }

  /** The outcomes that end the process: no socket, or a reply that does not parse. */
  predicate IsFatal(o: Outcome, parse: Parser)
  {
    o.ListenFail? || (o.Received? && Parsed(o, parse).None?)
  }

  /**
   * The one report of probe `sequence`: a success with byte count, peer and
   * round-trip time for an Echo Reply, an error for a failed write or read
   * or any other message type, and a fatal end when there is no socket or
   * the reply does not parse.
   */
  function Report(sequence: int, o: Outcome, parse: Parser): (e: Event)
    ensures e.ProbeOk? || e.ProbeErr? || e.Fatal?
    ensures e.sequence == sequence
    ensures e.Fatal? <==> IsFatal(o, parse)
    ensures e.ProbeOk? <==> o.Received? && Parsed(o, parse) == Some(ECHO_REPLY)
    ensures e.ProbeOk? ==> e.bytes == ReplyLength(o) && e.peer == o.peer && e.rtt == o.arrived - o.sent
    ensures e.ProbeErr? && o.Received? ==> e.reason == UnexpectedType(Parsed(o, parse).value)
    ensures e.Fatal? && o.Received? ==> e.reason == ParseError
    ensures !o.Received? ==> e.reason == if o.ListenFail? then ListenError else if o.WriteFail? then WriteError else ReadError
  {
    match o
    case ListenFail => Fatal(sequence, ListenError)
    case WriteFail => ProbeErr(sequence, WriteError)
    case ReadFail => ProbeErr(sequence, ReadError)
    case Received(_, peer, sent, arrived) =>
      match Parsed(o, parse)
      case None => Fatal(sequence, ParseError)
      case Some(t) =>
        if t == ECHO_REPLY then ProbeOk(sequence, ReplyLength(o), peer, arrived - sent)
        else ProbeErr(sequence, UnexpectedType(t))
  }

  /** Whether probe outcome `o` reaches a `Close` under policy `p`. */
  predicate Closes(p: ClosePolicy, o: Outcome, parse: Parser)
  {
    (o.Received? && Parsed(o, parse).Some?) || (p == CloseOnEveryPath && (o.WriteFail? || o.ReadFail?))
  }

  /** The events of probe `sequence`: open, write, its report, and the close if it gets there. */
  function Probe(p: ClosePolicy, sequence: int, o: Outcome, cfg: Config, env: Env): (t: seq<Event>)
    ensures |t| >= 1
    ensures t[0] == if o.ListenFail? then Fatal(sequence, ListenError) else Open(sequence)
    ensures !o.ListenFail? ==> |t| >= 3 && t[1] == Write(NewMsg(sequence, env.pid), cfg.ip, cfg.iface)
    ensures forall i :: 0 < i < |t| ==> !t[i].Open?
    ensures forall i :: 0 <= i < |t| ==> !t[i].Sleep?
    ensures Closes(p, o, env.parse) <==> t[|t| - 1] == Close(sequence)
  {
    (if o.ListenFail? then [] else [Open(sequence), Write(NewMsg(sequence, env.pid), cfg.ip, cfg.iface)])
    + [Report(sequence, o, env.parse)]
    + (if Closes(p, o, env.parse) then [Close(sequence)] else [])
  }

  /** The pause the pacing rule takes when `done` probes have completed. */
  function PauseBefore(done: nat, cfg: Config): (t: seq<Event>)
    ensures OpenAfter(t) == 0
  {
    var d := ShouldStop(done, cfg.count, cfg.interval);
    if d.pause.Some? then [Sleep(d.pause.value)] else []
  }

  /**
   * The events from the point where `done` probes have completed: unless
   * the oracle is exhausted, the rule is asked, its pause taken, and unless
   * it says stop the next probe runs; a fatal outcome ends the trace.
   */
  function RunFrom(p: ClosePolicy, done: nat, cfg: Config, env: Env): (t: seq<Event>)
    ensures done >= |env.outcomes| ==> t == []
    ensures forall i :: 0 <= i < |t| && t[i].Sleep? ==> t[i].duration == cfg.interval
    decreases |env.outcomes| - done
  {
    if done >= |env.outcomes| then []
    else
      PauseBefore(done, cfg)
      + if ShouldStop(done, cfg.count, cfg.interval).stop then []
        else
          var o := env.outcomes[done];
          Probe(p, done + 1, o, cfg, env) + if IsFatal(o, env.parse) then [] else RunFrom(p, done + 1, cfg, env)
  }

  /** The trace ends with the pause, if any, when the rule says stop. */
  lemma RunFromStop(p: ClosePolicy, done: nat, cfg: Config, env: Env)
    requires done < |env.outcomes|
    requires ShouldStop(done, cfg.count, cfg.interval).stop
    ensures RunFrom(p, done, cfg, env) == PauseBefore(done, cfg) == []
  {
  }

  /** The trace ends with a fatal probe. */
  lemma RunFromFatal(p: ClosePolicy, done: nat, cfg: Config, env: Env)
    requires done < |env.outcomes|
    requires !ShouldStop(done, cfg.count, cfg.interval).stop
    requires IsFatal(env.outcomes[done], env.parse)
    ensures RunFrom(p, done, cfg, env) == PauseBefore(done, cfg) + Probe(p, done + 1, env.outcomes[done], cfg, env)
  {
  }

  /** The trace goes on after a probe that is not fatal. */
  lemma RunFromNext(p: ClosePolicy, done: nat, cfg: Config, env: Env)
    requires done < |env.outcomes|
    requires !ShouldStop(done, cfg.count, cfg.interval).stop
    requires !IsFatal(env.outcomes[done], env.parse)
    ensures RunFrom(p, done, cfg, env)
      == PauseBefore(done, cfg) + Probe(p, done + 1, env.outcomes[done], cfg, env) + RunFrom(p, done + 1, cfg, env)
  {
  }

  /** The whole trace of a run. */
  function Run(p: ClosePolicy, cfg: Config, env: Env): (t: seq<Event>)
    ensures t != [] ==> t[0] == Open(1) || t[0] == Fatal(1, ListenError)
    ensures forall i :: 0 <= i < |t| && t[i].Sleep? ==> t[i].duration == cfg.interval
    ensures cfg.count < 0 || |env.outcomes| == 0 ==> t == []
  {
    RunFrom(p, 0, cfg, env)
  }

  /** Change in the number of open sockets that one event makes. */
  function Delta(e: Event): int
  {
    if e.Open? then 1 else if e.Close? then -1 else 0
  }

  /** Sockets opened and not closed by the end of trace `t`. */
  function OpenAfter(t: seq<Event>): int
  {
    if t == [] then 0 else Delta(t[0]) + OpenAfter(t[1..])
  }

  /** The open-socket count of a concatenation is the sum of the counts of the parts. */
  lemma {:induction false} OpenAfterConcat(a: seq<Event>, b: seq<Event>)
    ensures OpenAfter(a + b) == OpenAfter(a) + OpenAfter(b)
  {
    if a != [] {
      assert (a + b)[1..] == a[1..] + b;
      OpenAfterConcat(a[1..], b);
    } else {
      assert a + b == b;
    }
  }

  /** A probe leaves its socket open when it opened one and does not reach a `Close`. */
  predicate Leaks(p: ClosePolicy, o: Outcome, parse: Parser)
  {
    !o.ListenFail? && !Closes(p, o, parse)
  }

  /** The events of one probe leave one socket open exactly when the probe leaks. */
  lemma ProbeOpenAfter(p: ClosePolicy, sequence: int, o: Outcome, cfg: Config, env: Env)
    ensures OpenAfter(Probe(p, sequence, o, cfg, env)) == if Leaks(p, o, env.parse) then 1 else 0
  {
    var report := Report(sequence, o, env.parse);
    var tail: seq<Event> := if Closes(p, o, env.parse) then [Close(sequence)] else [];
    assert OpenAfter(tail) == if Closes(p, o, env.parse) then -1 else 0 by {
      if Closes(p, o, env.parse) {
        assert tail[1..] == [];
      }
    }
    assert OpenAfter([report] + tail) == OpenAfter(tail) by {
      assert ([report] + tail)[1..] == tail;
    }
    if !o.ListenFail? {
      var head := [Open(sequence), Write(NewMsg(sequence, env.pid), cfg.ip, cfg.iface)];
      assert OpenAfter(head) == 1 by {
        assert head[1..][1..] == [];
      }
      OpenAfterConcat(head, [report] + tail);
      assert Probe(p, sequence, o, cfg, env) == head + ([report] + tail);
    } else {
      assert Probe(p, sequence, o, cfg, env) == [report] + tail;
    }
  }
}
