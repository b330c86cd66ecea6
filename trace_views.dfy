/**
 * Views of a trace that the properties of the loop are stated in: the
 * requests written, the reports in order, the timeline of pauses and probe starts, the probes
 * whose socket was closed, and the largest number of sockets open at once.
 */
module TraceViews {
  import opened Wrappers
  import opened ProbeTrace

  /** What `f` makes of one event: nothing, or one item. */
  function Pick<T>(f: Event -> Option<T>, e: Event): (r: seq<T>)
    ensures |r| <= 1
  {
    if f(e).Some? then [f(e).value] else []
  }

  /** The events `f` selects, each turned into what `f` makes of it, in trace order. */
  function Project<T>(t: seq<Event>, f: Event -> Option<T>): (r: seq<T>)
    ensures |r| <= |t|
  {
    if t == [] then [] else Pick(f, t[0]) + Project(t[1..], f)
  }

  lemma ProjectCons<T>(e: Event, t: seq<Event>, f: Event -> Option<T>)
    ensures Project([e] + t, f) == Pick(f, e) + Project(t, f)
  {
    assert ([e] + t)[0] == e;
    assert ([e] + t)[1..] == t;
  }

  lemma ProjectSingle<T>(e: Event, f: Event -> Option<T>)
    ensures Project([e], f) == Pick(f, e)
  {
    assert [e][1..] == [];
  }

  lemma {:induction false} ProjectConcat<T>(a: seq<Event>, b: seq<Event>, f: Event -> Option<T>)
    ensures Project(a + b, f) == Project(a, f) + Project(b, f)
  {
    if a == [] {
      assert a + b == b;
    } else {
      assert (a + b)[0] == a[0];
      assert (a + b)[1..] == a[1..] + b;
      calc {
        Project(a + b, f);
        Pick(f, a[0]) + Project(a[1..] + b, f);
        { ProjectConcat(a[1..], b, f); }
        Pick(f, a[0]) + (Project(a[1..], f) + Project(b, f));
        Project(a, f) + Project(b, f);
      }
    }
  }

  /** A report of a probe: success, error or fatal end. */
  function AsReport(e: Event): Option<Event>
  {
    if e.ProbeOk? || e.ProbeErr? || e.Fatal? then Some(e) else None
  }

  /** The reports of a trace, in order. */
  function Reports(t: seq<Event>): seq<Event>
  {
    Project(t, AsReport)
  }

  /** What the timeline records: a pause, or the start of a probe. */
  datatype Mark = Pause(duration: int) | Begin(sequence: int)

  /** A probe starts with its socket being opened, or with the failure to open it. */
  function AsMark(e: Event): Option<Mark>
  {
    match e
    case Sleep(d) => Some(Pause(d))
    case Open(s) => Some(Begin(s))
    case Fatal(s, ListenError) => Some(Begin(s))
    case _ => None
  }

  /** The pauses and probe starts of a trace, in order. */
  function Timeline(t: seq<Event>): seq<Mark>
  {
    Project(t, AsMark)
  }

  /** A request handed to a socket, with its destination. */
  function AsWrite(e: Event): Option<Event>
  {
    if e.Write? then Some(e) else None
  }

  /** The requests a trace writes, in order. */
  function Writes(t: seq<Event>): seq<Event>
  {
    Project(t, AsWrite)
  }

  function AsClose(e: Event): Option<int>
  {
    if e.Close? then Some(e.sequence) else None
  }

  /** The sequence numbers of the probes whose socket was closed, in order. */
  function Closed(t: seq<Event>): seq<int>
  {
    Project(t, AsClose)
  }

  function Max(a: int, b: int): int
  {
    if a < b then b else a
  }

  /** The largest number of sockets open at any point of trace `t` (counting from none open). */
  function Peak(t: seq<Event>): (m: int)
    ensures m >= 0
  {
    if t == [] then 0 else Max(0, Delta(t[0]) + Peak(t[1..]))
  }

  /** Every prefix of a trace has at most `Peak` sockets open. */
  lemma {:induction false} PeakBoundsPrefixes(t: seq<Event>)
    ensures forall q :: 0 <= q <= |t| ==> OpenAfter(t[..q]) <= Peak(t)
  {
    if t != [] {
      PeakBoundsPrefixes(t[1..]);
      forall q | 0 <= q <= |t| ensures OpenAfter(t[..q]) <= Peak(t) {
        if q > 0 {
          assert t[..q][1..] == t[1..][..q - 1];
        }
      }
    }
  }

  lemma {:induction false} PeakConcat(a: seq<Event>, b: seq<Event>)
    ensures Peak(a + b) == Max(Peak(a), OpenAfter(a) + Peak(b))
  {
    if a == [] {
      assert a + b == b;
    } else {
      assert (a + b)[1..] == a[1..] + b;
      PeakConcat(a[1..], b);
    }
  }

  /** A trace that opens no socket never has one open. */
  lemma {:induction false} PeakWithoutOpen(t: seq<Event>)
    requires forall i :: 0 <= i < |t| ==> !t[i].Open?
    ensures Peak(t) == 0 && OpenAfter(t) <= 0
  {
    if t != [] {
      PeakWithoutOpen(t[1..]);
    }
  }
}
