// The benchmark of utils/bench-scheduler.cc: a fixed population of events, each of which
// schedules its successor, driven by the event loop of the default simulator.
module Bench {

  /** Delay number k drawn from the random stream, as a non-negative time. */
  type Delays = nat -> nat

  /** The simulator and the counters between two callbacks. */
  datatype Sim = Sim(now: nat, pending: multiset<nat>, stopped: bool, count: nat, draws: nat)

  predicate Earliest(t: nat, pending: multiset<nat>) {
    t in pending && forall u | u in pending :: t <= u
  }

  /** The callback, after its event was removed and the clock set. */
  function Callback(s: Sim, total: nat, rand: Delays): Sim {
    if s.count >= total then s.(stopped := true)
    else s.(pending := s.pending + multiset{s.now + rand(s.draws)}, count := s.count + 1, draws := s.draws + 1)
  }

  function CbAt(s: Sim, t: nat, total: nat, rand: Delays): Sim {
    Callback(s.(now := t, pending := s.pending - multiset{t}), total, rand)
  }

  /** The events that the first loop of Run schedules. */
  function Filled(population: nat, rand: Delays): multiset<nat> {
    if population == 0 then multiset{} else Filled(population - 1, rand) + multiset{rand(population - 1)}
  }

  predicate Halted(s: Sim) {
    s.pending == multiset{} || s.stopped
  }

  ghost predicate Fires(s: Sim, s': Sim, total: nat, rand: Delays) {
    !Halted(s) && exists t :: Earliest(t, s.pending) && s' == CbAt(s, t, total, rand)
  }

  /** The states of one benchmark run, from the filled scheduler to the return of Simulator::Run. */
  ghost predicate IsRun(population: nat, total: nat, rand: Delays, trace: seq<Sim>) {
    && trace != []
    && trace[0] == Sim(0, Filled(population, rand), false, 0, population)
    && (forall i | 0 <= i < |trace| - 1 :: Fires(trace[i], trace[i + 1], total, rand))
    && Halted(trace[|trace| - 1])
  }

  /** State i of a run: between events the scheduler holds exactly the population. */
  ghost predicate Between(population: nat, total: nat, s: Sim, i: nat) {
    && (forall u | u in s.pending :: s.now <= u)
    && if i <= total then !s.stopped && s.count == i && |s.pending| == population
       else i == total + 1 && s.stopped && s.count == total && |s.pending| == population - 1
  }

  lemma FilledNext(i: nat, rand: Delays)
    ensures Filled(i + 1, rand) == Filled(i, rand) + multiset{rand(i)}
  {
  }

  lemma {:induction false} FilledSize(population: nat, rand: Delays)
    ensures |Filled(population, rand)| == population
  {
    if population > 0 { FilledSize(population - 1, rand); }
  }

  lemma FiresBetween(population: nat, total: nat, rand: Delays, s: Sim, s': Sim, i: nat)
    requires Between(population, total, s, i) && population > 0 && Fires(s, s', total, rand)
    ensures Between(population, total, s', i + 1) && s.now <= s'.now
  {
    var t :| Earliest(t, s.pending) && s' == CbAt(s, t, total, rand);
    var rest := s.pending - multiset{t};
    assert forall u | u in rest :: u in s.pending;
    assert |rest| == |s.pending| - 1;
  }

  lemma {:induction false} RunState(population: nat, total: nat, rand: Delays, trace: seq<Sim>, i: nat)
    requires IsRun(population, total, rand, trace) && population > 0 && i < |trace|
    ensures Between(population, total, trace[i], i)
    ensures i > 0 ==> trace[i - 1].now <= trace[i].now
  {
    if i == 0 {
      FilledSize(population, rand);
    } else {
      RunState(population, total, rand, trace, i - 1);
      assert Fires(trace[i - 1], trace[i - 1 + 1], total, rand);
      FiresBetween(population, total, rand, trace[i - 1], trace[i], i - 1);
    }
  }

  lemma HaltsAtTheEnd(population: nat, total: nat, s: Sim, i: nat)
    requires Between(population, total, s, i) && population > 0
    ensures Halted(s) ==> i == total + 1
  {
  }

  /** A run with at least one event executes exactly total + 1 callbacks, of which the last one stops it,
      keeps the population constant between events and never goes back in time. */
  lemma RunShape(population: nat, total: nat, rand: Delays, trace: seq<Sim>)
    requires IsRun(population, total, rand, trace) && population > 0
    ensures |trace| == total + 2
    ensures forall i | 0 <= i <= total :: |trace[i].pending| == population && trace[i].count == i && !trace[i].stopped
    ensures forall i | 0 <= i <= total :: trace[i].now <= trace[i + 1].now
    ensures trace[total + 1].stopped && trace[total + 1].count == total
  {
    forall i | 0 <= i < |trace|
      ensures Between(population, total, trace[i], i)
      ensures i > 0 ==> trace[i - 1].now <= trace[i].now
    {
      RunState(population, total, rand, trace, i);
    }
    HaltsAtTheEnd(population, total, trace[|trace| - 1], |trace| - 1);
    forall i | 0 <= i <= total ensures trace[i].now <= trace[i + 1].now {
      assert i + 1 > 0;
    }
  }

  /** The times of the first k callbacks. */
  ghost function FireTimes(trace: seq<Sim>, k: nat): multiset<nat>
    requires k < |trace|
  {
    if k == 0 then multiset{} else FireTimes(trace, k - 1) + multiset{trace[k].now}
  }

  /** The times of the events that k callbacks schedule: callback number i adds the next delay after those of the
      population to its own time. */
  ghost function Successors(population: nat, rand: Delays, trace: seq<Sim>, k: nat): multiset<nat>
    requires k < |trace|
  {
    if k == 0 then multiset{}
    else Successors(population, rand, trace, k - 1) + multiset{trace[k].now + rand(population + (k - 1))}
  }

  ghost function FirstDelays(population: nat, rand: Delays): (r: seq<nat>)
    ensures |r| == population && forall i: nat | i < population :: r[i] == rand(i)
  {
    seq(population, i requires 0 <= i => rand(i))
  }

  lemma FirstDelaysNext(n: nat, rand: Delays)
    ensures multiset(FirstDelays(n + 1, rand)) == multiset(FirstDelays(n, rand)) + multiset{rand(n)}
  {
    assert FirstDelays(n + 1, rand) == FirstDelays(n, rand) + [rand(n)];
  }

  lemma {:induction false} FilledIsFirstDelays(population: nat, rand: Delays)
    ensures Filled(population, rand) == multiset(FirstDelays(population, rand))
  {
    if population > 0 {
      FilledIsFirstDelays(population - 1, rand);
      FirstDelaysNext(population - 1, rand);
    }
  }

  function Least(a: nat, b: nat): nat {
    if a <= b then a else b
  }

  /** One callback, in terms of the events: it fires at an earliest time, and schedules one successor unless it stops. */
  ghost predicate Turn(population: nat, total: nat, rand: Delays, s: Sim, s': Sim, i: nat) {
    && Earliest(s'.now, s.pending)
    && s'.pending == s.pending - multiset{s'.now} + More(population, total, rand, s'.now, i)
    && s'.draws == population + Least(i + 1, total)
  }

  lemma CbAtTurn(s: Sim, t: nat, total: nat, rand: Delays)
    ensures var s' := CbAt(s, t, total, rand);
            && s'.now == t
            && (s.count < total ==> s'.pending == s.pending - multiset{t} + multiset{t + rand(s.draws)} && s'.draws == s.draws + 1)
            && (s.count >= total ==> s'.pending == s.pending - multiset{t} + multiset{} && s'.draws == s.draws)
  {
    AddNothing(s.pending - multiset{t});
  }

  lemma AddNothing(m: multiset<nat>)
    ensures m + multiset{} == m
  {
  }

  lemma CbAtIsTurn(population: nat, total: nat, rand: Delays, s: Sim, t: nat, i: nat)
    requires i <= total && s.count == i && s.draws == population + i && Earliest(t, s.pending)
    ensures Turn(population, total, rand, s, CbAt(s, t, total, rand), i)
  {
    CbAtTurn(s, t, total, rand);
  }

  lemma FiresTurn(population: nat, total: nat, rand: Delays, s: Sim, s': Sim, i: nat)
    requires i <= total && s.count == i && s.draws == population + i && Fires(s, s', total, rand)
    ensures Turn(population, total, rand, s, s', i)
  {
    var t: nat :| Earliest(t, s.pending) && s' == CbAt(s, t, total, rand);
    CbAtIsTurn(population, total, rand, s, t, i);
  }

  lemma BeforeTheEnd(population: nat, total: nat, s: Sim, i: nat)
    requires Between(population, total, s, i) && !Halted(s)
    ensures i <= total && s.count == i
  {
  }

  lemma {:induction false} TurnAt(population: nat, total: nat, rand: Delays, trace: seq<Sim>, k: nat)
    requires IsRun(population, total, rand, trace) && population > 0 && k < |trace| - 1
    ensures Turn(population, total, rand, trace[k], trace[k + 1], k)
  {
    assert Fires(trace[k], trace[k + 1], total, rand);
    RunState(population, total, rand, trace, k);
    BeforeTheEnd(population, total, trace[k], k);
    if k > 0 { TurnAt(population, total, rand, trace, k - 1); }
    FiresTurn(population, total, rand, trace[k], trace[k + 1], k);
  }

  /** Every callback fires at an earliest pending time. */
  lemma NextIsEarliest(population: nat, total: nat, rand: Delays, trace: seq<Sim>, k: nat)
    requires IsRun(population, total, rand, trace) && population > 0 && k < |trace| - 1
    ensures trace[k + 1].now in trace[k].pending && forall u | u in trace[k].pending :: trace[k + 1].now <= u
  {
    TurnAt(population, total, rand, trace, k);
  }

  /** No event is lost, and each comes from a delay of its own: the events that have fired or are pending are those
      of the population and one successor for each callback but the last, a delay after it. */
  ghost predicate Conserved(population: nat, total: nat, rand: Delays, trace: seq<Sim>, k: nat)
    requires k < |trace|
  {
    FireTimes(trace, k) + trace[k].pending
    == multiset(FirstDelays(population, rand)) + Successors(population, rand, trace, Least(k, total))
  }

  lemma StartConserves(population: nat, total: nat, rand: Delays, trace: seq<Sim>)
    requires trace != [] && trace[0].pending == Filled(population, rand)
    ensures Conserved(population, total, rand, trace, 0)
  {
    FilledIsFirstDelays(population, rand);
    AddNothing(multiset(FirstDelays(population, rand)));
    AddNothing(trace[0].pending);
  }

  lemma TurnConserves(population: nat, total: nat, rand: Delays, trace: seq<Sim>, k: nat)
    requires k + 1 < |trace| && Turn(population, total, rand, trace[k], trace[k + 1], k)
    requires Conserved(population, total, rand, trace, k)
    ensures Conserved(population, total, rand, trace, k + 1)
  {
    var t := trace[k + 1].now;
    SuccessorsNext(population, total, rand, trace, k);
    Balance(FireTimes(trace, k), FireTimes(trace, k + 1), trace[k].pending, trace[k + 1].pending,
            multiset(FirstDelays(population, rand)), Successors(population, rand, trace, Least(k, total)),
            Successors(population, rand, trace, Least(k + 1, total)), t, More(population, total, rand, t, k));
  }

  lemma {:induction false} EventsAreConserved(population: nat, total: nat, rand: Delays, trace: seq<Sim>, k: nat)
    requires IsRun(population, total, rand, trace) && population > 0 && k < |trace|
    ensures Conserved(population, total, rand, trace, k)
  {
    if k == 0 {
      StartConserves(population, total, rand, trace);
    } else {
      EventsAreConserved(population, total, rand, trace, k - 1);
      TurnAt(population, total, rand, trace, k - 1);
      TurnConserves(population, total, rand, trace, k - 1);
    }
  }

  /** What callback number i schedules. */
  ghost function More(population: nat, total: nat, rand: Delays, t: nat, i: nat): multiset<nat> {
    if i < total then multiset{t + rand(population + i)} else multiset{}
  }

  lemma SuccessorsNext(population: nat, total: nat, rand: Delays, trace: seq<Sim>, k: nat)
    requires k + 1 < |trace|
    ensures Successors(population, rand, trace, Least(k + 1, total))
         == Successors(population, rand, trace, Least(k, total)) + More(population, total, rand, trace[k + 1].now, k)
  {
    if k >= total { AddNothing(Successors(population, rand, trace, total)); }
  }

  lemma Balance(fired: multiset<nat>, fired': multiset<nat>, pending: multiset<nat>, pending': multiset<nat>,
                first: multiset<nat>, later: multiset<nat>, later': multiset<nat>, t: nat, more: multiset<nat>)
    requires fired + pending == first + later && t in pending
    requires fired' == fired + multiset{t} && pending' == pending - multiset{t} + more && later' == later + more
    ensures fired' + pending' == first + later'
  {
    forall y: nat ensures (fired' + pending')[y] == (first + later')[y] {
      assert (fired + pending)[y] == (first + later)[y];
    }
  }

  /** With nothing to schedule the simulator returns at once. */
  lemma EmptyRunShape(total: nat, rand: Delays, trace: seq<Sim>)
    requires IsRun(0, total, rand, trace)
    ensures |trace| == 1 && trace[0].count == 0
  {
    forall i | 0 <= i < |trace| - 1 ensures !Halted(trace[i]) {
      assert Fires(trace[i], trace[i + 1], total, rand);
    }
  }

  lemma {:induction false} HasEarliest(pending: multiset<nat>)
    requires pending != multiset{}
    ensures exists t :: Earliest(t, pending)
    decreases |pending|
  {
    var u :| u in pending;
    var rest := pending - multiset{u};
    if rest == multiset{} {
      assert pending == multiset{u};
      assert Earliest(u, pending);
    } else {
      HasEarliest(rest);
      var t :| Earliest(t, rest);
      assert pending == rest + multiset{u};
      assert Earliest(if u <= t then u else t, pending);
    }
  }

  class Bench {
    const rand: Delays
    const m_population: nat
    const m_total: nat
    var m_count: nat
    // the simulator
    var now: nat
    var pending: multiset<nat>
    var stopped: bool
    var draws: nat

    ghost function State(): Sim
      reads this
    {
      Sim(now, pending, stopped, m_count, draws)
    }

    constructor (population: nat, total: nat, rand: Delays)
      ensures m_population == population && m_total == total && this.rand == rand && m_count == 0
    {
      this.rand, m_population, m_total, m_count := rand, population, total, 0;
      now, pending, stopped, draws := 0, multiset{}, false, 0;
    }

    method Schedule(delay: nat)
      modifies this`pending
      ensures pending == old(pending) + multiset{now + delay}
    {
      pending := pending + multiset{now + delay};
    }

    method GetValue() returns (delay: nat)
      modifies this`draws
      ensures delay == rand(old(draws)) && draws == old(draws) + 1
    {
      delay := rand(draws);
      draws := draws + 1;
    }

    method Cb()
      modifies this
      ensures now == old(now)
      ensures var s := Callback(old(State()), m_total, rand);
              stopped == s.stopped && m_count == s.count && draws == s.draws && pending == s.pending
    {
      if m_count >= m_total {
        stopped := true;
        return;
      }
      var after := GetValue();
      Schedule(after);
      m_count := m_count + 1;
    }

    /** The simulator takes out an earliest event and calls its function. */
    method ProcessOneEvent()
      requires !Halted(State())
      modifies this
      ensures Fires(old(State()), State(), m_total, rand)
    {
      HasEarliest(pending);
      var t :| Earliest(t, pending);
      pending := pending - multiset{t};
      now := t;
      Cb();
      assert State() == CbAt(old(State()), t, m_total, rand);
    }

    /** Simulator::Run. */
    method RunSimulator() returns (ghost trace: seq<Sim>)
      modifies this
      ensures trace != [] && trace[0] == old(State()).(stopped := false) && trace[|trace| - 1] == State()
      ensures forall i | 0 <= i < |trace| - 1 :: Fires(trace[i], trace[i + 1], m_total, rand)
      ensures Halted(State())
    {
      stopped := false;
      trace := [State()];
      while pending != multiset{} && !stopped
        invariant trace != [] && trace[0] == old(State()).(stopped := false) && trace[|trace| - 1] == State()
        invariant forall i | 0 <= i < |trace| - 1 :: Fires(trace[i], trace[i + 1], m_total, rand)
        decreases !stopped, m_total - m_count
      {
        ghost var before := State();
        ProcessOneEvent();
        trace := trace + [State()];
      }
    }

    /** The loop of Run that schedules the population, and its body. */
    method Fill()
      requires now == 0 && pending == multiset{} && draws == 0
      modifies this`pending, this`draws
      ensures pending == Filled(m_population, rand) && draws == m_population
    {
      for i := 0 to m_population
        invariant pending == Filled(i, rand) && draws == i
      {
        ScheduleFirst(i);
      }
    }

    method ScheduleFirst(ghost i: nat)
      requires now == 0 && pending == Filled(i, rand) && draws == i
      modifies this`pending, this`draws
      ensures pending == Filled(i + 1, rand) && draws == i + 1
    {
      FilledNext(i, rand);
      var at := GetValue();
      Schedule(at);
    }

    /** One benchmark run on a fresh simulator and random stream; returns the number of executed events. */
    method Run() returns (events: nat, ghost trace: seq<Sim>)
      requires now == 0 && pending == multiset{} && draws == 0 && !stopped
      modifies this
      ensures IsRun(m_population, m_total, rand, trace) && State() == trace[|trace| - 1]
      ensures events == if m_population == 0 then 0 else m_total
    {
      m_count := 0;
      Fill();
      trace := RunSimulator();
      if m_population == 0 {
        EmptyRunShape(m_total, rand, trace);
      } else {
        RunShape(m_population, m_total, rand, trace);
      }
      events := m_count;
    }
  }
}
