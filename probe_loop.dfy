/**
 * The probe loop itself, step by step: a counter starting at 1, the
 * pacing rule asked before each probe, a socket opened per probe, the
 * request written, the reply read into a fresh 1500-byte buffer, parsed
 * and classified, and the socket closed. The socket calls take their
 * results from the oracle; the loop records what it does as a trace and
 * keeps the number of sockets it has opened and not closed.
 */
module ProbeLoop {
  import opened Wrappers
  import opened Icmp
  import opened Pacing
  import opened ProbeTrace

  /**
   * A read into `buf`: the datagram is copied into the buffer, cut to the
   * buffer's length, and the number of bytes read is returned.
   */
  method ReadFrom(buf: array<byte>, datagram: seq<byte>) returns (n: nat)
    modifies buf
    ensures n == Min(|datagram|, buf.Length)
    ensures buf[..n] == datagram[..n]
    ensures buf[n..] == old(buf[n..])
  {
    n := Min(|datagram|, buf.Length);
    forall i | 0 <= i < n {
      buf[i] := datagram[i];
    }
  }

  /**
   * The loop body for probe `counter` with outcome `o`: open the socket,
   * write the request, read the reply into a fresh buffer, parse and
   * classify it, and close the socket. A `continue` of the loop is an
   * early return here. Under `AsWritten` the write-error and read-error
   * paths return without closing the socket, as the source does; under
   * `CloseOnEveryPath` they close it first. `leftOpen` says whether the
   * socket this probe opened is still open; `fatal` that the process ends.
   */
  method ProbeOnce(p: ClosePolicy, cfg: Config, env: Env, counter: int, o: Outcome)
    returns (events: seq<Event>, leftOpen: bool, fatal: bool)
    ensures events == Probe(p, counter, o, cfg, env)
    ensures leftOpen == Leaks(p, o, env.parse)
    ensures OpenAfter(events) == if leftOpen then 1 else 0
    ensures fatal == IsFatal(o, env.parse)
  {
    ProbeOpenAfter(p, counter, o, cfg, env);
    leftOpen, fatal := false, false;
    if o.ListenFail? {
      events, fatal := [Fatal(counter, ListenError)], true;
      return;
    }
    events, leftOpen := [Open(counter)], true;
    var msg := NewMsg(counter, env.pid);
    events := events + [Write(msg, cfg.ip, cfg.iface)];
    if o.WriteFail? {
      events := events + [ProbeErr(counter, WriteError)];
      if p == CloseOnEveryPath {
        events, leftOpen := events + [Close(counter)], false;
      }
      return;
    }
    var readBuff := new byte[READ_BUFFER_SIZE];
    if o.ReadFail? {
      events := events + [ProbeErr(counter, ReadError)];
      if p == CloseOnEveryPath {
        events, leftOpen := events + [Close(counter)], false;
      }
      return;
    }
    var n := ReadFrom(readBuff, o.datagram);
    var rm := env.parse(PROTOCOL_ICMP, readBuff[..n]);
    if rm.None? {
      events, fatal := events + [Fatal(counter, ParseError)], true;
      return;
    }
    if rm.value == ECHO_REPLY {
      events := events + [ProbeOk(counter, n, o.peer, o.arrived - o.sent)];
    } else {
      events := events + [ProbeErr(counter, UnexpectedType(rm.value))];
    }
    events, leftOpen := events + [Close(counter)], false;
  }

  /**
   * The pacing step of a turn with `counter - 1` probes completed: the
   * rule is asked and, when it says so, the pause is taken.
   */
  method Pace(cfg: Config, counter: nat, trace: seq<Event>, unclosed: nat)
    returns (trace': seq<Event>, unclosed': nat, stop: bool)
    requires 1 <= counter
    requires unclosed == OpenAfter(trace)
    ensures trace' == trace + PauseBefore(counter - 1, cfg)
    ensures unclosed' == OpenAfter(trace')
    ensures stop == ShouldStop(counter - 1, cfg.count, cfg.interval).stop
  {
    trace', unclosed' := trace, unclosed;
    var d := ShouldStop(counter - 1, cfg.count, cfg.interval);
    if d.pause.Some? {
      trace' := trace' + [Sleep(d.pause.value)];
    }
    stop := d.stop;
    OpenAfterConcat(trace, PauseBefore(counter - 1, cfg));
  }

  /**
   * One turn of the loop with `counter - 1` probes completed: the pacing
   * rule is asked and its pause taken; unless it says stop, probe
   * `counter` runs. `finished` says that the loop ends here, by the rule
   * or by a fatal probe. Stated against the trace specification: the
   * trace so far followed by what remains of the run is the whole run.
   */
  method Turn(p: ClosePolicy, cfg: Config, env: Env, counter: nat, trace: seq<Event>, unclosed: nat)
    returns (trace': seq<Event>, unclosed': nat, finished: bool)
    requires 1 <= counter && counter - 1 < |env.outcomes|
    requires trace + RunFrom(p, counter - 1, cfg, env) == Run(p, cfg, env)
    requires unclosed == OpenAfter(trace)
    ensures unclosed' == OpenAfter(trace')
    ensures finished ==> trace' == Run(p, cfg, env)
    ensures !finished ==> trace' + RunFrom(p, counter, cfg, env) == Run(p, cfg, env)
  {
    var stop;
    trace', unclosed', stop := Pace(cfg, counter, trace, unclosed);
    if stop {
      StopStep(p, counter - 1, cfg, env, trace);
      finished := true;
      return;
    }
    var events, leftOpen, fatal := ProbeOnce(p, cfg, env, counter, env.outcomes[counter - 1]);
    ghost var paused := trace';
    trace' := trace' + events;
    unclosed' := if leftOpen then unclosed' + 1 else unclosed';
    OpenAfterConcat(paused, events);
    finished := fatal;
    if fatal {
      FatalStep(p, counter - 1, cfg, env, trace);
    } else {
      NextStep(p, counter - 1, cfg, env, trace);
    }
  }

  // The three step lemmas below restate RunFromStop, RunFromFatal and
  // RunFromNext with the trace so far in front. Turn calls these so that
  // its proof does not need to regroup concatenations itself, which keeps
  // it within the solver's resource limit.

  lemma StopStep(p: ClosePolicy, done: nat, cfg: Config, env: Env, trace: seq<Event>)
    requires done < |env.outcomes|
    requires ShouldStop(done, cfg.count, cfg.interval).stop
    ensures trace + RunFrom(p, done, cfg, env) == trace + PauseBefore(done, cfg)
  {
    RunFromStop(p, done, cfg, env);
  }

  lemma FatalStep(p: ClosePolicy, done: nat, cfg: Config, env: Env, trace: seq<Event>)
    requires done < |env.outcomes|
    requires !ShouldStop(done, cfg.count, cfg.interval).stop
    requires IsFatal(env.outcomes[done], env.parse)
    ensures trace + RunFrom(p, done, cfg, env)
      == trace + PauseBefore(done, cfg) + Probe(p, done + 1, env.outcomes[done], cfg, env)
  {
    RunFromFatal(p, done, cfg, env);
  }

  lemma NextStep(p: ClosePolicy, done: nat, cfg: Config, env: Env, trace: seq<Event>)
    requires done < |env.outcomes|
    requires !ShouldStop(done, cfg.count, cfg.interval).stop
    requires !IsFatal(env.outcomes[done], env.parse)
    ensures trace + RunFrom(p, done, cfg, env)
      == trace + PauseBefore(done, cfg) + Probe(p, done + 1, env.outcomes[done], cfg, env) + RunFrom(p, done + 1, cfg, env)
  {
    RunFromNext(p, done, cfg, env);
  }

  /**
   * The probe loop under close policy `p`: a counter from 1, one turn per
   * probe, until a turn finishes the run or the oracle is exhausted.
   * `unclosed` counts the sockets left open.
   */
  method RunLoop(p: ClosePolicy, cfg: Config, env: Env) returns (trace: seq<Event>, unclosed: nat)
    ensures trace == Run(p, cfg, env)
    ensures unclosed == OpenAfter(trace)
  {
    trace := [];
    unclosed := 0;
    var counter := 1;
    while counter - 1 < |env.outcomes|
      invariant 1 <= counter
      invariant trace + RunFrom(p, counter - 1, cfg, env) == Run(p, cfg, env)
      invariant unclosed == OpenAfter(trace)
      decreases |env.outcomes| - counter
    {
      var finished;
      trace, unclosed, finished := Turn(p, cfg, env, counter, trace, unclosed);
      if finished {
        return;
      }
      counter := counter + 1;
    }
  }

  /** The source's probe loop, as written. */
  method Start(ip: string, count: int, interval: int, iface: string, env: Env)
    returns (trace: seq<Event>, unclosed: nat)
    ensures trace == Run(AsWritten, Config(ip, count, interval, iface), env)
    ensures unclosed == OpenAfter(trace)
  {
    trace, unclosed := RunLoop(AsWritten, Config(ip, count, interval, iface), env);
  }

  /** The probe loop with the socket closed on the write-error and read-error paths too. */
  method StartReleasing(ip: string, count: int, interval: int, iface: string, env: Env)
    returns (trace: seq<Event>, unclosed: nat)
    ensures trace == Run(CloseOnEveryPath, Config(ip, count, interval, iface), env)
    ensures unclosed == OpenAfter(trace)
  {
    trace, unclosed := RunLoop(CloseOnEveryPath, Config(ip, count, interval, iface), env);
  }
}
