// The windowed byte counters of scratch/swiftSim.cc for one group of flows: trace sinks add to them,
// and a periodic event reports and clears them.  The counters are uint64 and wrap around, and so does the
// product with 8 that turns a window into bits.
module Windows {
  import opened Counters

  datatype Event =
    | Receive(flow: nat, size: nat)   // Trace*Sink
    | Initialize                      // InitializeCounters on its own
    | Periodic                        // PrintThroughputAndFairnessPeriodic

  // ---------------------------------------------------------------- what a history of events means

  /** The bytes received by a flow since the last Initialize. */
  function Received(h: seq<Event>, flow: nat): nat {
    if h == [] then 0
    else
      var before := Received(h[..|h| - 1], flow);
      match h[|h| - 1]
      case Receive(f, size) => if f == flow then before + size else before
      case Initialize => 0
      case Periodic => before
  }

  /** The bytes received by a flow in the current window: since the last event that cleared the counters. */
  function Window(h: seq<Event>, flow: nat): nat {
    if h == [] then 0
    else
      match h[|h| - 1]
      case Receive(f, size) => Window(h[..|h| - 1], flow) + if f == flow then size else 0
      case Initialize => 0
      case Periodic => 0
  }

  /** A counter after that many bytes. */
  function Counter(bytes: nat): nat {
    bytes % UINT64
  }

  /** The bits that PrintThroughput makes of a counter; it writes them divided by the seconds and by 1e6. */
  function Bits(counter: nat): nat {
    counter * 8 % UINT64
  }

  /** The bits reported for a flow since the last Initialize, window by window. */
  function Reported(h: seq<Event>, flow: nat): seq<nat> {
    if h == [] then []
    else
      var before := Reported(h[..|h| - 1], flow);
      match h[|h| - 1]
      case Receive(_, _) => before
      case Initialize => []
      case Periodic => before + [Bits(Counter(Window(h[..|h| - 1], flow)))]
  }

  /** The windows of a flow closed by a report since the last Initialize, in exact byte counts. */
  function Closed(h: seq<Event>, flow: nat): seq<nat> {
    if h == [] then []
    else
      var before := Closed(h[..|h| - 1], flow);
      match h[|h| - 1]
      case Receive(_, _) => before
      case Initialize => []
      case Periodic => before + [Window(h[..|h| - 1], flow)]
  }

  /** The bits of every closed window fit into 64 bits, and so do the bytes of the live one. */
  predicate Fits(h: seq<Event>, flow: nat) {
    AllFit(Closed(h, flow)) && Window(h, flow) < UINT64
  }

  predicate AllFit(ws: seq<nat>) {
    forall i | 0 <= i < |ws| :: 8 * ws[i] < UINT64
  }

  /** Every byte received since the measurement began is in exactly one window. */
  lemma {:induction false} ClosedAddUp(h: seq<Event>, flow: nat)
    ensures Received(h, flow) == Sum(Closed(h, flow)) + Window(h, flow)
  {
    if h != [] {
      var g := h[..|h| - 1];
      ClosedAddUp(g, flow);
      SumNext(Closed(g, flow), Window(g, flow));
    }
  }

  /** What a flow has received since the last reset is the sum of the sizes of its packets since then. */
  function Sizes(h: seq<Event>, flow: nat): seq<nat> {
    if h == [] then []
    else
      match h[0]
      case Receive(f, size) => (if f == flow then [size] else []) + Sizes(h[1..], flow)
      case _ => Sizes(h[1..], flow)
  }

  lemma {:induction false} SizesNext(h: seq<Event>, flow: nat, e: Event)
    ensures Sizes(h + [e], flow) == Sizes(h, flow) + Sizes([e], flow)
  {
    if h == [] {
      assert h + [e] == [e] && Sizes([], flow) + Sizes([e], flow) == Sizes([e], flow);
    } else {
      SizesNext(h[1..], flow, e);
      assert (h + [e])[1..] == h[1..] + [e] && (h + [e])[0] == h[0];
    }
  }

  lemma {:induction false} ReceivedIsSum(h: seq<Event>, flow: nat)
    requires Initialize !in h
    ensures Received(h, flow) == Sum(Sizes(h, flow)) && Received([Initialize] + h, flow) == Sum(Sizes(h, flow))
  {
    if h == [] {
      assert [Initialize] + h == [Initialize];
    } else {
      var g, e := h[..|h| - 1], h[|h| - 1];
      assert h == g + [e] && ([Initialize] + h)[..|h|] == [Initialize] + g;
      ReceivedIsSum(g, flow);
      SizesNext(g, flow, e);
      assert [e][1..] == [];
      if e.Receive? && e.flow == flow {
        assert Sizes([e], flow) == [e.size];
        SumNext(Sizes(g, flow), e.size);
      } else {
        assert Sizes([e], flow) == [] && Sizes(g, flow) + [] == Sizes(g, flow);
      }
    }
  }

  lemma AllFitNext(ws: seq<nat>, w: nat)
    ensures AllFit(ws + [w]) <==> AllFit(ws) && 8 * w < UINT64
  {
    var vs := ws + [w];
    assert vs[|ws|] == w;
    assert forall i | 0 <= i < |ws| :: vs[i] == ws[i];
  }

  lemma CounterLoss(w: nat)
    ensures Counter(w) <= w && (Counter(w) == w <==> w < UINT64)
  {
    var q := DivMod(w);
  }

  /** Wrapping before the product with 8 makes no difference, wrapping after it does. */
  lemma BitsLoss(w: nat)
    ensures Bits(Counter(w)) == 8 * w % UINT64
    ensures Bits(Counter(w)) <= 8 * w && (Bits(Counter(w)) == 8 * w <==> 8 * w < UINT64)
  {
    var q := DivMod(w);
    ModMultiple(8 * q, 8 * Counter(w));
    assert 8 * w == 8 * q * UINT64 + 8 * Counter(w);
    var q' := DivMod(8 * w);
  }

  lemma WrapsOnce(w: nat, size: nat)
    ensures (Counter(w) + size) % UINT64 == Counter(w + size)
  {
    var q := DivMod(w);
    ModMultiple(q, Counter(w) + size);
    assert w + size == q * UINT64 + (Counter(w) + size);
  }

  /** The reports fall short of the closed windows exactly when the bits of one of them did not fit. */
  lemma {:induction false} ReportedLoss(h: seq<Event>, flow: nat)
    ensures Sum(Reported(h, flow)) <= 8 * Sum(Closed(h, flow))
    ensures Sum(Reported(h, flow)) == 8 * Sum(Closed(h, flow)) <==> AllFit(Closed(h, flow))
  {
    if h != [] {
      var g := h[..|h| - 1];
      ReportedLoss(g, flow);
      if h[|h| - 1].Periodic? {
        var w := Window(g, flow);
        BitsLoss(w);
        SumNext(Reported(g, flow), Bits(Counter(w)));
        SumNext(Closed(g, flow), w);
        AllFitNext(Closed(g, flow), w);
      }
    }
  }

  /** Nothing is lost or counted twice: the reported bits and those of the live counter add up to what was
      received, exactly when every closed window is below 2^61 bytes and the live one below 2^64. */
  lemma WindowsAddUp(h: seq<Event>, flow: nat)
    ensures Sum(Reported(h, flow)) + 8 * Counter(Window(h, flow)) == 8 * Received(h, flow) <==> Fits(h, flow)
  {
    ClosedAddUp(h, flow);
    ReportedLoss(h, flow);
    CounterLoss(Window(h, flow));
  }

  /** A window of 2^61 bytes does not overflow its counter, and is reported as nothing. */
  lemma ReportCanVanish()
    ensures var h := [Receive(0, 0x2000_0000_0000_0000), Periodic];
            && Closed(h, 0) == [0x2000_0000_0000_0000] && Received(h, 0) == 0x2000_0000_0000_0000
            && Reported(h, 0) == [0] && !Fits(h, 0)
  {
    var g := [Receive(0, 0x2000_0000_0000_0000)];
    var h := g + [Periodic];
    assert g[..0] == [] && h[..1] == g && h == [Receive(0, 0x2000_0000_0000_0000), Periodic];
    assert Window(g, 0) == 0x2000_0000_0000_0000;
    assert 8 * Closed(h, 0)[0] == UINT64;
  }

  // ---------------------------------------------------------------- the program

  class FlowCounters {
    const rxBytes: array<nat>
    var reports: seq<seq<nat>>    // the bits of each flow in each report since the last Initialize
    ghost var history: seq<Event>

    ghost predicate Valid()
      reads this, rxBytes
    {
      && (forall i | 0 <= i < rxBytes.Length :: rxBytes[i] == Counter(Window(history, i)))
      && (forall k | 0 <= k < |reports| :: |reports[k]| == rxBytes.Length)
      && forall i | 0 <= i < rxBytes.Length :: Column(reports, i) == Reported(history, i)
    }

    constructor (n: nat)
      ensures Valid() && rxBytes.Length == n && history == [] && fresh(rxBytes)
    {
      rxBytes := new nat[n](i => 0);
      reports, history := [], [];
    }

    method TraceSink(index: nat, size: nat)
      requires Valid() && index < rxBytes.Length
      modifies this, rxBytes
      ensures Valid() && history == old(history) + [Receive(index, size)]
      ensures rxBytes[..] == old(rxBytes[..])[index := (old(rxBytes[index]) + size) % UINT64] && reports == old(reports)
    {
      history := history + [Receive(index, size)];
      assert history[..|history| - 1] == old(history);
      WrapsOnce(Window(old(history), index), size);
      rxBytes[index] := (rxBytes[index] + size) % UINT64;
    }

    method InitializeCounters()
      modifies rxBytes
      ensures forall i | 0 <= i < rxBytes.Length :: rxBytes[i] == 0
    {
      for i := 0 to rxBytes.Length
        invariant forall k | 0 <= k < i :: rxBytes[k] == 0
      {
        rxBytes[i] := 0;
      }
    }

    /** The scheduled InitializeCounters that starts the measurement. */
    method Start()
      requires Valid()
      modifies this, rxBytes
      ensures Valid() && history == old(history) + [Initialize]
      ensures reports == [] && forall i | 0 <= i < rxBytes.Length :: rxBytes[i] == 0
    {
      history := history + [Initialize];
      reports := [];
      InitializeCounters();
    }

    method PrintThroughput() returns (bits: seq<nat>)
      ensures |bits| == rxBytes.Length && forall i | 0 <= i < |bits| :: bits[i] == Bits(rxBytes[i])
    {
      bits := [];
      for i := 0 to rxBytes.Length
        invariant |bits| == i && forall k | 0 <= k < i :: bits[k] == Bits(rxBytes[k])
      {
        bits := bits + [rxBytes[i] * 8 % UINT64];
      }
    }

    method PrintPeriodic()
      requires Valid()
      modifies this, rxBytes
      ensures Valid() && history == old(history) + [Periodic]
      ensures forall i | 0 <= i < rxBytes.Length :: rxBytes[i] == 0
      ensures |reports| == |old(reports)| + 1 && reports[..|old(reports)|] == old(reports)
      ensures forall i | 0 <= i < rxBytes.Length :: reports[|old(reports)|][i] == old(rxBytes[i]) * 8 % UINT64
    {
      history := history + [Periodic];
      assert history[..|history| - 1] == old(history);
      ghost var before := reports;
      var bits := PrintThroughput();
      reports := reports + [bits];
      InitializeCounters();
      assert reports[..|reports| - 1] == before;
    }

    /** At any time: the bits reported for a flow and those of its counter add up to what it received since
        the measurement started, exactly when no closed window reached 2^61 bytes and the live one not 2^64. */
    lemma Conserved(flow: nat)
      requires Valid() && flow < rxBytes.Length
      ensures Sum(Column(reports, flow)) + 8 * rxBytes[flow] == 8 * Received(history, flow) <==> Fits(history, flow)
    {
      WindowsAddUp(history, flow);
    }
  }

  function Column(rows: seq<seq<nat>>, i: nat): seq<nat>
    requires forall k | 0 <= k < |rows| :: i < |rows[k]|
  {
    if rows == [] then [] else Column(rows[..|rows| - 1], i) + [rows[|rows| - 1][i]]
  }
}
