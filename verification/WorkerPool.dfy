// The worker-pool protocol of test.py: the main thread spawns the workers, feeds a FIFO
// input queue with jobs and then one break job per worker, collects as many reports from
// the output queue as it dispatched jobs, and joins the workers.  Every statement that
// touches shared state is one step; any interleaving, with SIGINT at any point, is a run.
module WorkerPool {

  /** What does not change during a run: the number of workers and, per job, its is_skip flag. */
  datatype Config = Config(processors: nat, skip: seq<bool>) {
    function Jobs(): nat { |skip| }
  }

  /** An element of the input queue: job number id, or a job whose is_break flag main has set. */
  datatype Entry = Task(id: nat) | Break

  /** An element of the output queue; bounced when a worker set is_break on the job. */
  datatype Report = Report(id: nat, bounced: bool)

  datatype Worker =
    | Unstarted
    | Waiting                    // blocked in input_queue.get(), or about to call it
    | Holding(entry: Entry)      // got a job, has not looked at is_break yet
    | Running(id: nat)           // inside run_job_synchronously
    | Posting(report: Report)    // about to call output_queue.put()
    | Exited

  /** The main thread: the loop it is in, and how many iterations of it are complete. */
  datatype Main =
    | Spawning(k: nat)
    | Dispatching(k: nat)
    | Breaking(k: nat)
    | Collecting(k: nat)
    | Joining(k: nat)
    | Done

  datatype State = State(main: Main, input: seq<Entry>, output: seq<Report>,
                         workers: seq<Worker>, collected: seq<Report>, threadExit: bool)

  datatype Action = MainStep | WorkerStep(w: nat) | Sigint

  function Init(c: Config): State {
    State(Spawning(0), [], [], seq(c.processors, i => Unstarted), [], false)
  }

  predicate Enabled(c: Config, s: State, a: Action) {
    match a
    case Sigint => !s.threadExit
    case WorkerStep(w) =>
      w < |s.workers| && !s.workers[w].Unstarted? && !s.workers[w].Exited?
      && (s.workers[w].Waiting? ==> s.input != [])
    case MainStep =>
      match s.main
      case Collecting(k) => k < c.Jobs() ==> s.output != []
      case Joining(k) => k < |s.workers| ==> s.workers[k].Exited?
      case Done => false
      case _ => true
  }

  function MainNext(c: Config, s: State): State
    requires Enabled(c, s, MainStep)
  {
    match s.main
    case Spawning(k) =>
      if k < |s.workers| then s.(main := Spawning(k + 1), workers := s.workers[k := Waiting])
      else s.(main := Dispatching(0))
    case Dispatching(k) =>
      if k < c.Jobs() then s.(main := Dispatching(k + 1), input := s.input + [Task(k)])
      else s.(main := Breaking(0))
    case Breaking(k) =>
      if k < c.processors then s.(main := Breaking(k + 1), input := s.input + [Break])
      else s.(main := Collecting(0))
    case Collecting(k) =>
      if k < c.Jobs()
      then s.(main := Collecting(k + 1), output := s.output[1..], collected := s.collected + [s.output[0]])
      else s.(main := Joining(0))
    case Joining(k) =>
      if k < |s.workers| then s.(main := Joining(k + 1)) else s.(main := Done)
  }

  function WorkerNext(c: Config, s: State, w: nat): State
    requires Enabled(c, s, WorkerStep(w))
  {
    match s.workers[w]
    case Waiting => s.(workers := s.workers[w := Holding(s.input[0])], input := s.input[1..])
    case Holding(Break) => s.(workers := s.workers[w := Exited])
    case Holding(Task(j)) =>
      var next := if s.threadExit then Posting(Report(j, true))
                  else if j < c.Jobs() && c.skip[j] then Posting(Report(j, false))
                  else Running(j);
      s.(workers := s.workers[w := next])
    case Running(j) => s.(workers := s.workers[w := Posting(Report(j, false))])
    case Posting(r) => s.(workers := s.workers[w := Waiting], output := s.output + [r])
  }

  function Next(c: Config, s: State, a: Action): State
    requires Enabled(c, s, a)
  {
    match a
    case Sigint => s.(threadExit := true)
    case WorkerStep(w) => WorkerNext(c, s, w)
    case MainStep => MainNext(c, s)
  }

  /** A run: any finite interleaving from the initial state. */
  ghost predicate IsRun(c: Config, acts: seq<Action>, states: seq<State>) {
    && |states| == |acts| + 1
    && states[0] == Init(c)
    && forall i | 0 <= i < |acts| :: Enabled(c, states[i], acts[i]) && states[i + 1] == Next(c, states[i], acts[i])
  }

  ghost predicate Reachable(c: Config, s: State) {
    exists acts, states :: IsRun(c, acts, states) && states[|acts|] == s
  }

  /** Nothing but another SIGINT can happen. */
  ghost predicate Stuck(c: Config, s: State) {
    !Enabled(c, s, MainStep) && forall w: nat :: !Enabled(c, s, WorkerStep(w))
  }

  // ---------------------------------------------------------------- the invariant

  function Dispatched(c: Config, s: State): nat {
    match s.main
    case Spawning(_) => 0
    case Dispatching(k) => k
    case _ => c.Jobs()
  }

  function BreaksPut(c: Config, s: State): nat {
    match s.main
    case Spawning(_) => 0
    case Dispatching(_) => 0
    case Breaking(k) => k
    case _ => c.processors
  }

  /** How often e occurs in the input queue. */
  function Queued(q: seq<Entry>, e: Entry): nat {
    if q == [] then 0 else (if q[0] == e then 1 else 0) + Queued(q[1..], e)
  }

  /** How many reports are about job j. */
  function Reports(rs: seq<Report>, j: nat): nat {
    if rs == [] then 0 else (if rs[0].id == j then 1 else 0) + Reports(rs[1..], j)
  }

  predicate Busy(x: Worker, j: nat) {
    x == Holding(Task(j)) || x == Running(j) || (x.Posting? && x.report.id == j)
  }

  /** How many workers have job j in hand. */
  function AtWorkers(ws: seq<Worker>, j: nat): nat {
    if ws == [] then 0 else (if Busy(ws[0], j) then 1 else 0) + AtWorkers(ws[1..], j)
  }

  predicate TookBreak(x: Worker) {
    x == Holding(Break) || x == Exited
  }

  /** How many workers have consumed a break job. */
  function BreaksTaken(ws: seq<Worker>): nat {
    if ws == [] then 0 else (if TookBreak(ws[0]) then 1 else 0) + BreaksTaken(ws[1..])
  }

  /** How often job j occurs in the input queue, at the workers, in the output queue and among the collected. */
  function Places(s: State, j: nat): nat {
    Queued(s.input, Task(j)) + AtWorkers(s.workers, j) + Reports(s.output, j) + Reports(s.collected, j)
  }

  ghost predicate Conserved(c: Config, s: State) {
    forall j: nat :: Places(s, j) == if j < Dispatched(c, s) then 1 else 0
  }

  predicate BreaksAccounted(c: Config, s: State) {
    Queued(s.input, Break) + BreaksTaken(s.workers) == BreaksPut(c, s)
  }

  ghost predicate NoTaskQueued(s: State) {
    forall i | 0 <= i < |s.input| :: s.input[i] == Break
  }

  ghost predicate TasksFirst(q: seq<Entry>) {
    forall i, k | 0 <= i < k < |q| :: q[i] == Break ==> q[k] == Break
  }

  ghost predicate PhaseOk(c: Config, s: State) {
    && |s.workers| == c.processors
    && (!s.main.Spawning? ==> forall w | 0 <= w < |s.workers| :: !s.workers[w].Unstarted?)
    && match s.main
       case Spawning(k) => k <= c.processors && s.collected == []
                           && forall w | 0 <= w < |s.workers| :: s.workers[w].Unstarted? <==> k <= w
       case Dispatching(k) => k <= c.Jobs() && s.collected == []
       case Breaking(k) => k <= c.processors && s.collected == []
       case Collecting(k) => k <= c.Jobs() && |s.collected| == k
       case Joining(k) => k <= c.processors && |s.collected| == c.Jobs()
                          && forall w | 0 <= w < k :: s.workers[w].Exited?
       case Done => |s.collected| == c.Jobs() && forall w | 0 <= w < |s.workers| :: s.workers[w].Exited?
  }

  /** Without SIGINT no report is marked as bounced. */
  ghost predicate Unbounced(s: State) {
    && (forall i | 0 <= i < |s.workers| :: s.workers[i].Posting? ==> !s.workers[i].report.bounced)
    && (forall i | 0 <= i < |s.output| :: !s.output[i].bounced)
    && (forall i | 0 <= i < |s.collected| :: !s.collected[i].bounced)
  }

  ghost predicate Inv(c: Config, s: State) {
    && PhaseOk(c, s)
    && Conserved(c, s)
    && BreaksAccounted(c, s)
    && TasksFirst(s.input)
    && (BreaksTaken(s.workers) > 0 ==> NoTaskQueued(s))
    && (!s.threadExit ==> Unbounced(s))
  }

  lemma {:induction false} NoneBusy(ws: seq<Worker>, j: nat)
    requires forall i | 0 <= i < |ws| :: ws[i] == Unstarted
    ensures AtWorkers(ws, j) == 0 && BreaksTaken(ws) == 0
  {
    if ws != [] { NoneBusy(ws[1..], j); }
  }

  lemma InitInv(c: Config)
    ensures Inv(c, Init(c))
  {
    forall j: nat ensures Places(Init(c), j) == 0 { NoneBusy(Init(c).workers, j); }
    NoneBusy(Init(c).workers, 0);
  }

  lemma {:induction false} QueuedAppend(q: seq<Entry>, x: Entry, e: Entry)
    ensures Queued(q + [x], e) == Queued(q, e) + if x == e then 1 else 0
  {
    if q == [] {
      assert q + [x] == [x];
    } else {
      assert (q + [x])[1..] == q[1..] + [x];
      QueuedAppend(q[1..], x, e);
    }
  }

  lemma {:induction false} ReportsAppend(rs: seq<Report>, r: Report, j: nat)
    ensures Reports(rs + [r], j) == Reports(rs, j) + if r.id == j then 1 else 0
  {
    if rs == [] {
      assert rs + [r] == [r];
    } else {
      assert (rs + [r])[1..] == rs[1..] + [r];
      ReportsAppend(rs[1..], r, j);
    }
  }

  lemma {:induction false} WorkerReplaced(ws: seq<Worker>, w: nat, x: Worker, j: nat)
    requires w < |ws|
    ensures AtWorkers(ws[w := x], j)
         == AtWorkers(ws, j) - (if Busy(ws[w], j) then 1 else 0) + (if Busy(x, j) then 1 else 0)
    ensures BreaksTaken(ws[w := x])
         == BreaksTaken(ws) - (if TookBreak(ws[w]) then 1 else 0) + (if TookBreak(x) then 1 else 0)
  {
    if w == 0 {
      assert ws[w := x][1..] == ws[1..];
    } else {
      assert ws[w := x][1..] == ws[1..][w - 1 := x];
      WorkerReplaced(ws[1..], w - 1, x, j);
    }
  }

  lemma WorkerKeepsPlaces(c: Config, s: State, w: nat, j: nat)
    requires Enabled(c, s, WorkerStep(w))
    ensures Places(WorkerNext(c, s, w), j) == Places(s, j)
  {
    var t := WorkerNext(c, s, w);
    WorkerReplaced(s.workers, w, t.workers[w], j);
    match s.workers[w]
    case Posting(r) => ReportsAppend(s.output, r, j);
    case _ =>
  }

  lemma MainKeepsPlaces(c: Config, s: State, j: nat)
    requires Enabled(c, s, MainStep) && PhaseOk(c, s)
    ensures Places(MainNext(c, s), j)
         == Places(s, j) + if s.main.Dispatching? && s.main.k < c.Jobs() && s.main.k == j then 1 else 0
  {
    var t := MainNext(c, s);
    match s.main
    case Spawning(k) => if k < |s.workers| { WorkerReplaced(s.workers, k, Waiting, j); }
    case Dispatching(k) => QueuedAppend(s.input, Task(k), Task(j));
    case Breaking(k) => QueuedAppend(s.input, Break, Task(j));
    case Collecting(k) => if k < c.Jobs() { ReportsAppend(s.collected, s.output[0], j); }
    case _ =>
  }

  lemma WorkerKeepsBreaks(c: Config, s: State, w: nat)
    requires Enabled(c, s, WorkerStep(w))
    ensures BreaksAccounted(c, s) ==> BreaksAccounted(c, WorkerNext(c, s, w))
  {
    WorkerReplaced(s.workers, w, WorkerNext(c, s, w).workers[w], 0);
  }

  lemma MainKeepsBreaks(c: Config, s: State)
    requires Enabled(c, s, MainStep) && PhaseOk(c, s) && BreaksAccounted(c, s)
    ensures BreaksAccounted(c, MainNext(c, s))
  {
    match s.main
    case Spawning(k) => if k < |s.workers| { WorkerReplaced(s.workers, k, Waiting, 0); }
    case Dispatching(k) => QueuedAppend(s.input, Task(k), Break);
    case Breaking(k) => QueuedAppend(s.input, Break, Break);
    case _ =>
  }

  lemma MainPhase(c: Config, s: State)
    requires PhaseOk(c, s) && Enabled(c, s, MainStep)
    ensures PhaseOk(c, MainNext(c, s))
  {
  }

  lemma WorkerPhase(c: Config, s: State, w: nat)
    requires PhaseOk(c, s) && Enabled(c, s, WorkerStep(w))
    ensures PhaseOk(c, WorkerNext(c, s, w))
  {
    var t := WorkerNext(c, s, w);
    assert forall v | 0 <= v < |s.workers| && v != w :: t.workers[v] == s.workers[v];
    assert !t.workers[w].Unstarted?;
  }

  lemma UnbouncedStep(c: Config, s: State, a: Action)
    requires Unbounced(s) && Enabled(c, s, a) && !Next(c, s, a).threadExit
    ensures Unbounced(Next(c, s, a))
  {
  }

  lemma {:induction false} BreakQueued(q: seq<Entry>, i: nat)
    requires i < |q| && q[i] == Break
    ensures Queued(q, Break) > 0
  {
    if i > 0 { BreakQueued(q[1..], i - 1); }
  }

  lemma HeadIsQueued(q: seq<Entry>)
    ensures q != [] ==> Queued(q, q[0]) > 0
  {
  }

  lemma WorkerKeepsOrder(c: Config, s: State, w: nat)
    requires Enabled(c, s, WorkerStep(w)) && TasksFirst(s.input) && (BreaksTaken(s.workers) > 0 ==> NoTaskQueued(s))
    ensures var t := WorkerNext(c, s, w); TasksFirst(t.input) && (BreaksTaken(t.workers) > 0 ==> NoTaskQueued(t))
  {
    WorkerReplaced(s.workers, w, WorkerNext(c, s, w).workers[w], 0);
  }

  lemma MainKeepsOrder(c: Config, s: State)
    requires Inv(c, s) && Enabled(c, s, MainStep)
    ensures var t := MainNext(c, s); TasksFirst(t.input) && (BreaksTaken(t.workers) > 0 ==> NoTaskQueued(t))
  {
    match s.main
    case Spawning(k) => if k < |s.workers| { WorkerReplaced(s.workers, k, Waiting, 0); }
    case Dispatching(k) =>
      // no break job exists yet, so none is queued and none was taken
      forall i | 0 <= i < |s.input| ensures s.input[i] != Break {
        if s.input[i] == Break { BreakQueued(s.input, i); }
      }
    case _ =>
  }

  lemma MainKeepsConserved(c: Config, s: State)
    requires Inv(c, s) && Enabled(c, s, MainStep)
    ensures Conserved(c, MainNext(c, s))
  {
    var t := MainNext(c, s);
    forall j: nat ensures Places(t, j) == if j < Dispatched(c, t) then 1 else 0 {
      assert Places(s, j) == if j < Dispatched(c, s) then 1 else 0;
      MainKeepsPlaces(c, s, j);
    }
  }

  lemma WorkerKeepsConserved(c: Config, s: State, w: nat)
    requires Inv(c, s) && Enabled(c, s, WorkerStep(w))
    ensures Conserved(c, WorkerNext(c, s, w))
  {
    var t := WorkerNext(c, s, w);
    forall j: nat ensures Places(t, j) == if j < Dispatched(c, t) then 1 else 0 {
      assert Places(s, j) == if j < Dispatched(c, s) then 1 else 0;
      WorkerKeepsPlaces(c, s, w, j);
    }
  }

  lemma MainInv(c: Config, s: State)
    requires Inv(c, s) && Enabled(c, s, MainStep)
    ensures Inv(c, MainNext(c, s))
  {
    MainPhase(c, s);
    MainKeepsBreaks(c, s);
    MainKeepsOrder(c, s);
    MainKeepsConserved(c, s);
    if !s.threadExit { UnbouncedStep(c, s, MainStep); }
  }

  lemma WorkerInv(c: Config, s: State, w: nat)
    requires Inv(c, s) && Enabled(c, s, WorkerStep(w))
    ensures Inv(c, WorkerNext(c, s, w))
  {
    WorkerPhase(c, s, w);
    WorkerKeepsBreaks(c, s, w);
    WorkerKeepsOrder(c, s, w);
    WorkerKeepsConserved(c, s, w);
    if !s.threadExit { UnbouncedStep(c, s, WorkerStep(w)); }
  }

  lemma SigintInv(c: Config, s: State)
    requires Inv(c, s)
    ensures Inv(c, s.(threadExit := true))
  {
    var t := s.(threadExit := true);
    forall j: nat ensures Places(t, j) == if j < Dispatched(c, t) then 1 else 0 {
      assert Places(s, j) == if j < Dispatched(c, s) then 1 else 0;
    }
  }

  lemma StepInv(c: Config, s: State, a: Action)
    requires Inv(c, s) && Enabled(c, s, a)
    ensures Inv(c, Next(c, s, a))
  {
    match a
    case Sigint => SigintInv(c, s);
    case MainStep => MainInv(c, s);
    case WorkerStep(w) => WorkerInv(c, s, w);
  }

  lemma {:induction false} RunInv(c: Config, acts: seq<Action>, states: seq<State>, i: nat)
    requires IsRun(c, acts, states) && i <= |acts|
    ensures Inv(c, states[i])
  {
    if i == 0 {
      InitInv(c);
    } else {
      RunInv(c, acts, states, i - 1);
      StepInv(c, states[i - 1], acts[i - 1]);
    }
  }

  // ---------------------------------------------------------------- main results

  /** The jobs below n, as a set of n elements. */
  ghost function Ids(n: nat): (s: set<nat>)
    ensures |s| == n && forall j: nat :: j in s <==> j < n
  {
    if n == 0 then {} else Ids(n - 1) + {n - 1}
  }

  lemma {:induction false} ReportsAtLeast(rs: seq<Report>, s: set<nat>)
    requires forall j | j in s :: Reports(rs, j) >= 1
    ensures |rs| >= |s|
  {
    if rs == [] {
      assert forall j | j in s :: Reports([], j) >= 1;
      assert forall j | j in s :: Reports([], j) == 0;
    } else {
      var rest := s - {rs[0].id};
      ReportsAtLeast(rs[1..], rest);
      assert s <= rest + {rs[0].id};
      assert rs[0].id in s ==> s == rest + {rs[0].id};
    }
  }

  lemma {:induction false} ReportsAtMost(rs: seq<Report>, s: set<nat>)
    requires forall j: nat :: Reports(rs, j) <= if j in s then 1 else 0
    ensures |rs| <= |s|
  {
    if rs != [] {
      var id := rs[0].id;
      assert Reports(rs, id) <= if id in s then 1 else 0;
      forall j: nat ensures Reports(rs[1..], j) <= if j in s - {id} then 1 else 0 {
        assert Reports(rs, j) <= if j in s then 1 else 0;
      }
      ReportsAtMost(rs[1..], s - {id});
    }
  }

  lemma {:induction false} IdleWorkers(ws: seq<Worker>, j: nat)
    requires forall i | 0 <= i < |ws| :: ws[i].Waiting? || ws[i].Exited?
    ensures AtWorkers(ws, j) == 0
    ensures BreaksTaken(ws) == |ws| <==> forall i | 0 <= i < |ws| :: ws[i].Exited?
    ensures (exists i :: 0 <= i < |ws| && ws[i].Exited?) ==> BreaksTaken(ws) > 0
    ensures BreaksTaken(ws) <= |ws|
  {
    if ws != [] {
      IdleWorkers(ws[1..], j);
      assert forall i | 0 <= i < |ws| - 1 :: ws[1..][i] == ws[i + 1];
      if BreaksTaken(ws) == |ws| {
        forall i | 0 <= i < |ws| ensures ws[i].Exited? { if i > 0 { assert ws[i] == ws[1..][i - 1]; } }
      }
      if i :| 0 < i < |ws| && ws[i].Exited? { assert ws[1..][i - 1].Exited?; }
    }
  }

  /** A stuck state with at least one worker (or nothing to do): main is done. */
  lemma StuckIsDone(c: Config, s: State)
    requires Inv(c, s) && Stuck(c, s)
    requires c.processors > 0 || c.Jobs() == 0
    ensures s.main.Done?
  {
    assert !s.main.Spawning? && !s.main.Dispatching? && !s.main.Breaking?;
    forall w: nat | w < |s.workers|
      ensures (s.workers[w].Waiting? && s.input == []) || s.workers[w].Exited?
    {
      assert !Enabled(c, s, WorkerStep(w));
    }
    IdleWorkers(s.workers, 0);
    // if the queue were not empty, every worker would have exited: only break jobs could be
    // left in it, and all of them would be consumed
    HeadIsQueued(s.input);
    forall j: nat ensures Queued(s.input, Task(j)) <= if j < c.Jobs() then 1 else 0 {
      assert Places(s, j) == if j < Dispatched(c, s) then 1 else 0;
    }
    if s.main.Collecting? {
      forall j: nat | j < c.Jobs() ensures Reports(s.collected, j) >= 1 {
        IdleWorkers(s.workers, j);
        assert Places(s, j) == 1;
      }
      ReportsAtLeast(s.collected, Ids(c.Jobs()));
    }
  }

  /** Everything is where it should be when main is done. */
  ghost predicate Complete(c: Config, s: State) {
    && s.main.Done? && s.input == [] && s.output == []
    && |s.workers| == c.processors && (forall w | 0 <= w < |s.workers| :: s.workers[w].Exited?)
    && |s.collected| == c.Jobs()
    && (forall j: nat :: Reports(s.collected, j) == if j < c.Jobs() then 1 else 0)
  }

  lemma DoneIsComplete(c: Config, s: State)
    requires Inv(c, s) && s.main.Done?
    ensures Complete(c, s)
  {
    var n := c.Jobs();
    IdleWorkers(s.workers, 0);
    forall j: nat ensures Reports(s.collected, j) <= if j < n then 1 else 0 {
      assert Places(s, j) == if j < n then 1 else 0;
    }
    forall j: nat ensures Reports(s.collected, j) == if j < n then 1 else 0 {
      if j < n && Reports(s.collected, j) == 0 { ReportsAtMost(s.collected, Ids(n) - {j}); }
    }
    forall j: nat ensures Queued(s.input, Task(j)) == 0 && Reports(s.output, j) == 0 {
      assert Places(s, j) == if j < n then 1 else 0;
    }
    assert s.output != [] ==> Reports(s.output, s.output[0].id) > 0;
    HeadIsQueued(s.input);
  }

  // Termination: every step but a repeated SIGINT uses up some of this measure.

  function Effort(x: Worker): nat {
    match x
    case Holding(Task(_)) => 3
    case Holding(Break) => 1
    case Running(_) => 2
    case Posting(_) => 1
    case _ => 0
  }

  function WorkersEffort(ws: seq<Worker>): nat {
    if ws == [] then 0 else Effort(ws[0]) + WorkersEffort(ws[1..])
  }

  lemma {:induction false} EffortReplaced(ws: seq<Worker>, w: nat, x: Worker)
    requires w < |ws|
    ensures WorkersEffort(ws[w := x]) == WorkersEffort(ws) - Effort(ws[w]) + Effort(x)
  {
    if w == 0 {
      assert ws[w := x][1..] == ws[1..];
    } else {
      assert ws[w := x][1..] == ws[1..][w - 1 := x];
      EffortReplaced(ws[1..], w - 1, x);
    }
  }

  /** The iterations main still has to make, counting the exit of each loop as one. */
  function MainLeft(c: Config, m: Main): int {
    var n, p := c.Jobs(), c.processors;
    match m
    case Spawning(k) => (p - k + 1) + (n + 1) + (p + 1) + (n + 1) + (p + 1)
    case Dispatching(k) => (n - k + 1) + (p + 1) + (n + 1) + (p + 1)
    case Breaking(k) => (p - k + 1) + (n + 1) + (p + 1)
    case Collecting(k) => (n - k + 1) + (p + 1)
    case Joining(k) => p - k + 1
    case Done => 0
  }

  function Measure(c: Config, s: State): int {
    5 * MainLeft(c, s.main) + 4 * |s.input| + WorkersEffort(s.workers) + if s.threadExit then 0 else 1
  }

  function Bound(c: Config): nat {
    15 * c.processors + 10 * c.Jobs() + 26
  }

  lemma {:induction false} InitEffort(ws: seq<Worker>)
    requires forall i | 0 <= i < |ws| :: ws[i] == Unstarted
    ensures WorkersEffort(ws) == 0
  {
    if ws != [] { InitEffort(ws[1..]); }
  }

  lemma WorkerDrops(c: Config, s: State, w: nat)
    requires Enabled(c, s, WorkerStep(w))
    ensures Measure(c, WorkerNext(c, s, w)) < Measure(c, s)
  {
    EffortReplaced(s.workers, w, WorkerNext(c, s, w).workers[w]);
  }

  lemma MainDrops(c: Config, s: State)
    requires PhaseOk(c, s) && Enabled(c, s, MainStep)
    ensures Measure(c, MainNext(c, s)) < Measure(c, s)
  {
    if s.main.Spawning? && s.main.k < |s.workers| { EffortReplaced(s.workers, s.main.k, Waiting); }
  }

  lemma {:induction false} StepsSoFar(c: Config, acts: seq<Action>, states: seq<State>, i: nat)
    requires IsRun(c, acts, states) && i <= |acts|
    ensures i + Measure(c, states[i]) <= Bound(c)
  {
    if i == 0 {
      InitEffort(states[0].workers);
    } else {
      StepsSoFar(c, acts, states, i - 1);
      RunInv(c, acts, states, i - 1);
      match acts[i - 1]
      case Sigint =>
      case MainStep => MainDrops(c, states[i - 1]);
      case WorkerStep(w) => WorkerDrops(c, states[i - 1], w);
    }
  }

  /** Every schedule is finite: a run has at most Bound(c) steps, whatever its interleaving. */
  lemma RunsTerminate(c: Config, acts: seq<Action>, states: seq<State>)
    requires IsRun(c, acts, states)
    ensures |acts| <= Bound(c)
  {
    StepsSoFar(c, acts, states, |acts|);
    RunInv(c, acts, states, |acts|);
  }

  /** Each dispatched job is in exactly one place, in every reachable state; a job not yet dispatched is nowhere. */
  lemma JobsAreConserved(c: Config, s: State, j: nat)
    requires Reachable(c, s)
    ensures Places(s, j) == if j < Dispatched(c, s) then 1 else 0
  {
    var acts, states :| IsRun(c, acts, states) && states[|acts|] == s;
    RunInv(c, acts, states, |acts|);
  }

  /** When some worker has consumed a break job, all jobs are dispatched and none is left in the input queue. */
  lemma BreakComesLast(c: Config, s: State, w: nat)
    requires Reachable(c, s) && w < |s.workers| && TookBreak(s.workers[w])
    ensures Dispatched(c, s) == c.Jobs() && NoTaskQueued(s)
  {
    var acts, states :| IsRun(c, acts, states) && states[|acts|] == s;
    RunInv(c, acts, states, |acts|);
    WorkerReplaced(s.workers, w, Waiting, 0);
  }

  /** Deadlock freedom: with a worker, or without jobs, the protocol stops only when main is done
      and everything is collected and joined.  With jobs but no worker it never gets there. */
  lemma StopsComplete(c: Config, s: State)
    requires Reachable(c, s) && Stuck(c, s)
    ensures s.main.Done? <==> c.processors > 0 || c.Jobs() == 0
    ensures s.main.Done? ==> Complete(c, s)
  {
    var acts, states :| IsRun(c, acts, states) && states[|acts|] == s;
    RunInv(c, acts, states, |acts|);
    if c.processors > 0 || c.Jobs() == 0 {
      StuckIsDone(c, s);
      DoneIsComplete(c, s);
    } else {
      NoWorkersNoReports(c, acts, states, |acts|);
    }
  }

  lemma NoWorkerStep(c: Config, s: State, a: Action)
    requires |s.workers| == 0 && s.output == [] && s.collected == [] && Enabled(c, s, a)
    ensures var t := Next(c, s, a); |t.workers| == 0 && t.output == [] && t.collected == []
  {
  }

  lemma {:induction false} NoWorkersNoReports(c: Config, acts: seq<Action>, states: seq<State>, i: nat)
    requires IsRun(c, acts, states) && i <= |acts| && c.processors == 0
    ensures |states[i].workers| == 0 && states[i].output == [] && states[i].collected == []
  {
    if i > 0 {
      NoWorkersNoReports(c, acts, states, i - 1);
      NoWorkerStep(c, states[i - 1], acts[i - 1]);
    }
  }

  /** One job and no worker: after four steps main waits for a report that nobody will post. */
  lemma NoWorkerDeadlocks()
    ensures var c := Config(0, [false]); exists s :: Reachable(c, s) && Stuck(c, s) && !s.main.Done?
  {
    var c := Config(0, [false]);
    var s0 := Init(c);
    var s1 := MainNext(c, s0);
    var s2 := MainNext(c, s1);
    var s3 := MainNext(c, s2);
    var s4 := MainNext(c, s3);
    assert s0.workers == [] && s4.main == Collecting(0);
    assert IsRun(c, [MainStep, MainStep, MainStep, MainStep], [s0, s1, s2, s3, s4]);
    assert Reachable(c, s4) && Stuck(c, s4);
  }

  /** main Done is the same as Complete, in every reachable state and not only in a stuck one. */
  lemma DoneMeansComplete(c: Config, s: State)
    requires Reachable(c, s)
    ensures s.main.Done? <==> Complete(c, s)
    ensures !s.threadExit ==> Unbounced(s)
  {
    var acts, states :| IsRun(c, acts, states) && states[|acts|] == s;
    RunInv(c, acts, states, |acts|);
    if s.main.Done? { DoneIsComplete(c, s); }
  }

  // ---------------------------------------------------------------- what a report tells about the run

  ghost predicate RunsNow(s: State, j: nat) {
    exists w: nat :: w < |s.workers| && s.workers[w] == Running(j)
  }

  /** Some state of the run up to number i has a worker inside job j. */
  ghost predicate HasRun(states: seq<State>, i: nat, j: nat) {
    exists k: nat :: k <= i && k < |states| && RunsNow(states[k], j)
  }

  /** The report is about to be posted, queued or collected. */
  ghost predicate Posted(s: State, r: Report) {
    || r in s.output || r in s.collected
    || exists w: nat :: w < |s.workers| && s.workers[w] == Posting(r)
  }

  /** The jobs that have run so far, and what they are now; and what the reports say about them. */
  ghost predicate Told(c: Config, s: State, ran: iset<nat>) {
    && (forall j: nat | RunsNow(s, j) :: j in ran)
    && (forall j: nat | j in ran :: j < c.Jobs() && !c.skip[j] && (RunsNow(s, j) || Posted(s, Report(j, false))))
    && (forall r: Report | Posted(s, r) ::
          r.id < c.Jobs() && if r.bounced then r.id !in ran else (r.id in ran <==> !c.skip[r.id]))
  }

  lemma {:induction false} BusyOnce(ws: seq<Worker>, v: nat, w: nat, j: nat)
    requires v < w < |ws| && Busy(ws[v], j) && Busy(ws[w], j)
    ensures AtWorkers(ws, j) >= 2
  {
    if v > 0 {
      BusyOnce(ws[1..], v - 1, w - 1, j);
    } else {
      BusyCounts(ws[1..], w - 1, j);
    }
  }

  lemma {:induction false} BusyCounts(ws: seq<Worker>, w: nat, j: nat)
    requires w < |ws| && Busy(ws[w], j)
    ensures AtWorkers(ws, j) >= 1
  {
    if w > 0 { BusyCounts(ws[1..], w - 1, j); }
  }

  lemma {:induction false} ReportCounts(rs: seq<Report>, r: Report)
    requires r in rs
    ensures Reports(rs, r.id) >= 1
  {
    if rs[0] != r { ReportCounts(rs[1..], r); }
  }

  /** A job in the hands of one worker is neither in those of another nor reported. */
  lemma OnlyHere(c: Config, s: State, w: nat, j: nat)
    requires Conserved(c, s) && w < |s.workers| && Busy(s.workers[w], j)
    ensures j < Dispatched(c, s)
    ensures forall v: nat | v < |s.workers| && v != w :: !Busy(s.workers[v], j)
    ensures forall r | r in s.output || r in s.collected :: r.id != j
  {
    assert Places(s, j) == if j < Dispatched(c, s) then 1 else 0;
    BusyCounts(s.workers, w, j);
    forall v: nat | v < |s.workers| && v != w ensures !Busy(s.workers[v], j) {
      if Busy(s.workers[v], j) { BusyOnce(s.workers, if v < w then v else w, if v < w then w else v, j); }
    }
    forall r | r in s.output || r in s.collected ensures r.id != j {
      if r.id == j && r in s.output { ReportCounts(s.output, r); }
      if r.id == j && r in s.collected { ReportCounts(s.collected, r); }
    }
  }

  lemma WorkerPosts(c: Config, s: State, w: nat, r: Report)
    requires Enabled(c, s, WorkerStep(w))
    ensures var t := WorkerNext(c, s, w); Posted(t, r) <==> Posted(s, r) || t.workers[w] == Posting(r)
  {
    var t := WorkerNext(c, s, w);
    assert forall v: nat | v < |s.workers| && v != w :: t.workers[v] == s.workers[v];
    if Posted(s, r) && r !in s.output && r !in s.collected {
      var v: nat :| v < |s.workers| && s.workers[v] == Posting(r);
      if v == w {
        assert t.output == s.output + [r];
      } else {
        assert t.workers[v] == Posting(r);
      }
    }
    if Posted(t, r) && t.workers[w] != Posting(r) { NothingElsePosted(c, s, w, r); }
  }

  lemma NothingElsePosted(c: Config, s: State, w: nat, r: Report)
    requires Enabled(c, s, WorkerStep(w)) && Posted(WorkerNext(c, s, w), r) && WorkerNext(c, s, w).workers[w] != Posting(r)
    ensures Posted(s, r)
  {
    var t := WorkerNext(c, s, w);
    if v: nat :| v < |t.workers| && t.workers[v] == Posting(r) {
      assert v != w && s.workers[v] == t.workers[v];
    } else if s.workers[w].Posting? {
      assert t.output == s.output + [s.workers[w].report];
    }
  }

  lemma MainPosts(c: Config, s: State, r: Report)
    requires PhaseOk(c, s) && Enabled(c, s, MainStep)
    ensures Posted(MainNext(c, s), r) <==> Posted(s, r)
  {
    var t := MainNext(c, s);
    assert forall v: nat | v < |s.workers| :: s.workers[v] == Posting(r) <==> t.workers[v] == Posting(r);
    if s.main.Collecting? && s.main.k < c.Jobs() { assert s.output == [s.output[0]] + s.output[1..]; }
  }

  lemma MainRuns(c: Config, s: State, j: nat)
    requires PhaseOk(c, s) && Enabled(c, s, MainStep)
    ensures RunsNow(MainNext(c, s), j) <==> RunsNow(s, j)
  {
    var t := MainNext(c, s);
    assert forall v: nat | v < |s.workers| :: s.workers[v] == Running(j) <==> t.workers[v] == Running(j);
  }

  lemma WorkerRuns(c: Config, s: State, w: nat, j: nat)
    requires Enabled(c, s, WorkerStep(w))
    ensures var t := WorkerNext(c, s, w);
            && (t.workers[w] == Running(j) ==> RunsNow(t, j))
            && (RunsNow(t, j) && t.workers[w] != Running(j) ==> RunsNow(s, j))
            && (RunsNow(s, j) && s.workers[w] != Running(j) ==> RunsNow(t, j))
  {
    var t := WorkerNext(c, s, w);
    assert forall v: nat | v < |s.workers| && v != w :: t.workers[v] == s.workers[v];
    if RunsNow(t, j) && t.workers[w] != Running(j) {
      var v: nat :| v < |t.workers| && t.workers[v] == Running(j);
      assert s.workers[v] == Running(j);
    }
    if RunsNow(s, j) && s.workers[w] != Running(j) {
      var v: nat :| v < |s.workers| && s.workers[v] == Running(j);
      assert t.workers[v] == Running(j);
    }
  }

  ghost function NowRunning(s: State): iset<nat> {
    iset j: nat | RunsNow(s, j)
  }

  lemma MainTells(c: Config, s: State, ran: iset<nat>)
    requires PhaseOk(c, s) && Told(c, s, ran) && Enabled(c, s, MainStep)
    ensures var t := MainNext(c, s); Told(c, t, ran + NowRunning(t))
  {
    var t := MainNext(c, s);
    forall j: nat ensures RunsNow(t, j) <==> RunsNow(s, j) { MainRuns(c, s, j); }
    forall r: Report ensures Posted(t, r) <==> Posted(s, r) { MainPosts(c, s, r); }
    assert ran + NowRunning(t) == ran;
  }

  /** A job that a worker still holds has neither run nor been reported. */
  lemma HeldIsNew(c: Config, s: State, ran: iset<nat>, w: nat, j: nat)
    requires Conserved(c, s) && Told(c, s, ran) && w < |s.workers| && s.workers[w] == Holding(Task(j))
    ensures j !in ran && j < Dispatched(c, s) && forall r: Report | Posted(s, r) :: r.id != j
  {
    OnlyHere(c, s, w, j);
    forall v: nat, x: Worker | v < |s.workers| && s.workers[v] == x ensures v != w ==> !Busy(x, j) {}
    forall r: Report | Posted(s, r) ensures r.id != j {
      NotPostedElsewhere(s, w, j, r);
    }
  }

  lemma NotPostedElsewhere(s: State, w: nat, j: nat, r: Report)
    requires w < |s.workers| && s.workers[w].Holding? && Posted(s, r)
    requires forall v: nat | v < |s.workers| && v != w :: !Busy(s.workers[v], j)
    requires r in s.output || r in s.collected ==> r.id != j
    ensures r.id != j
  {
  }

  lemma HeldTells(c: Config, s: State, ran: iset<nat>, w: nat, j: nat)
    requires Inv(c, s) && Told(c, s, ran) && Enabled(c, s, WorkerStep(w)) && s.workers[w] == Holding(Task(j))
    ensures var t := WorkerNext(c, s, w); Told(c, t, ran + NowRunning(t))
  {
    var t := WorkerNext(c, s, w);
    HeldIsNew(c, s, ran, w, j);
    assert t.workers[w] == (if s.threadExit then Posting(Report(j, true))
                            else if c.skip[j] then Posting(Report(j, false)) else Running(j));
    forall i: nat ensures RunsNow(t, i) <==> RunsNow(s, i) || t.workers[w] == Running(i) { WorkerRuns(c, s, w, i); }
    forall r: Report ensures Posted(t, r) <==> Posted(s, r) || t.workers[w] == Posting(r) { WorkerPosts(c, s, w, r); }
  }

  lemma RunningTells(c: Config, s: State, ran: iset<nat>, w: nat, j: nat)
    requires Inv(c, s) && Told(c, s, ran) && Enabled(c, s, WorkerStep(w)) && s.workers[w] == Running(j)
    ensures var t := WorkerNext(c, s, w); Told(c, t, ran + NowRunning(t))
  {
    var t := WorkerNext(c, s, w);
    assert RunsNow(s, j) && j in ran;
    forall i: nat ensures (RunsNow(t, i) ==> RunsNow(s, i)) && (RunsNow(s, i) && i != j ==> RunsNow(t, i)) {
      WorkerRuns(c, s, w, i);
    }
    forall r: Report ensures Posted(t, r) <==> Posted(s, r) || r == Report(j, false) { WorkerPosts(c, s, w, r); }
    assert ran + NowRunning(t) == ran;
  }

  lemma WorkerTells(c: Config, s: State, ran: iset<nat>, w: nat)
    requires Inv(c, s) && Told(c, s, ran) && Enabled(c, s, WorkerStep(w))
    ensures var t := WorkerNext(c, s, w); Told(c, t, ran + NowRunning(t))
  {
    var t := WorkerNext(c, s, w);
    var x := s.workers[w];
    if x.Holding? && x.entry.Task? {
      HeldTells(c, s, ran, w, x.entry.id);
    } else if x.Running? {
      RunningTells(c, s, ran, w, x.id);
    } else {
      forall i: nat ensures RunsNow(t, i) <==> RunsNow(s, i) { WorkerRuns(c, s, w, i); }
      forall r: Report ensures Posted(t, r) <==> Posted(s, r) { WorkerPosts(c, s, w, r); }
      assert ran + NowRunning(t) == ran;
    }
  }

  lemma StepPosts(c: Config, s: State, a: Action, r: Report)
    requires PhaseOk(c, s) && Enabled(c, s, a) && Posted(s, r)
    ensures Posted(Next(c, s, a), r)
  {
    match a
    case Sigint =>
    case MainStep => MainPosts(c, s, r);
    case WorkerStep(w) => WorkerPosts(c, s, w, r);
  }

  lemma StepTells(c: Config, s: State, ran: iset<nat>, a: Action)
    requires Inv(c, s) && Told(c, s, ran) && Enabled(c, s, a)
    ensures var t := Next(c, s, a); Told(c, t, ran + NowRunning(t))
  {
    match a {
      case Sigint =>
        var t := Next(c, s, a);
        assert ran + NowRunning(t) == ran;
      case MainStep => MainTells(c, s, ran);
      case WorkerStep(w) => WorkerTells(c, s, ran, w);
    }
  }

  ghost function RanUpTo(states: seq<State>, i: nat): iset<nat> {
    iset j: nat | HasRun(states, i, j)
  }

  lemma {:induction false} RunTells(c: Config, acts: seq<Action>, states: seq<State>, i: nat)
    requires IsRun(c, acts, states) && i <= |acts|
    ensures Told(c, states[i], RanUpTo(states, i))
  {
    if i == 0 {
      assert forall w: nat | w < |states[0].workers| :: states[0].workers[w] == Unstarted;
    } else {
      RunTells(c, acts, states, i - 1);
      RunInv(c, acts, states, i - 1);
      StepTells(c, states[i - 1], RanUpTo(states, i - 1), acts[i - 1]);
      forall j: nat ensures HasRun(states, i, j) <==> HasRun(states, i - 1, j) || RunsNow(states[i], j) {
        if HasRun(states, i, j) {
          var k: nat :| k <= i && k < |states| && RunsNow(states[k], j);
          assert k < i ==> k <= i - 1;
        }
      }
      assert RanUpTo(states, i) == RanUpTo(states, i - 1) + NowRunning(states[i]);
    }
  }

  lemma StaysPostedNext(c: Config, acts: seq<Action>, states: seq<State>, i: nat, r: Report)
    requires IsRun(c, acts, states) && i < |acts| && Posted(states[i], r)
    ensures Posted(states[i + 1], r)
  {
    RunInv(c, acts, states, i);
    StepPosts(c, states[i], acts[i], r);
  }

  lemma {:induction false} StaysPosted(c: Config, acts: seq<Action>, states: seq<State>, i: nat, n: nat, r: Report)
    requires IsRun(c, acts, states) && i <= n <= |acts| && Posted(states[i], r)
    ensures Posted(states[n], r)
  {
    if i < n {
      StaysPosted(c, acts, states, i, n - 1, r);
      StaysPostedNext(c, acts, states, n - 1, r);
    }
  }

  /** A report that is not bounced means that the job was run before, exactly if it is not to be skipped;
      a bounced one means that the job is run at no time. */
  lemma ReportsTell(c: Config, acts: seq<Action>, states: seq<State>, i: nat, r: Report)
    requires IsRun(c, acts, states) && i <= |acts| && Posted(states[i], r)
    ensures r.id < c.Jobs()
    ensures !r.bounced ==> (HasRun(states, i, r.id) <==> !c.skip[r.id])
    ensures r.bounced ==> !HasRun(states, |acts|, r.id)
  {
    RunTells(c, acts, states, i);
    assert r.id in RanUpTo(states, i) <==> HasRun(states, i, r.id);
    StaysPosted(c, acts, states, i, |acts|, r);
    RunTells(c, acts, states, |acts|);
    assert r.id in RanUpTo(states, |acts|) <==> HasRun(states, |acts|, r.id);
  }

  /** Only jobs that are not to be skipped are ever run. */
  lemma SkippedNeverRuns(c: Config, acts: seq<Action>, states: seq<State>, j: nat)
    requires IsRun(c, acts, states) && HasRun(states, |acts|, j)
    ensures j < c.Jobs() && !c.skip[j]
  {
    RunTells(c, acts, states, |acts|);
    assert j in RanUpTo(states, |acts|);
  }

  /** thread_exit is set from the first SIGINT on. */
  lemma {:induction false} ExitIffSigint(c: Config, acts: seq<Action>, states: seq<State>, i: nat)
    requires IsRun(c, acts, states) && i <= |acts|
    ensures states[i].threadExit <==> Sigint in acts[..i]
  {
    if i > 0 {
      ExitIffSigint(c, acts, states, i - 1);
      assert acts[..i] == acts[..i - 1] + [acts[i - 1]];
    }
  }

  /** A worker that looks at a job runs it, exactly without SIGINT so far and when it is not to be skipped; it
      reports it as bounced at once after a SIGINT, and as done at once when it is to be skipped. */
  lemma LookedAt(c: Config, acts: seq<Action>, states: seq<State>, i: nat, w: nat, j: nat)
    requires IsRun(c, acts, states) && i < |acts| && acts[i] == WorkerStep(w)
    requires w < |states[i].workers| && states[i].workers[w] == Holding(Task(j))
    ensures j < c.Jobs() && w < |states[i + 1].workers|
    ensures var x := states[i + 1].workers[w];
            && (x == Running(j) <==> Sigint !in acts[..i] && !c.skip[j])
            && (x == Posting(Report(j, true)) <==> Sigint in acts[..i])
            && (x == Posting(Report(j, false)) <==> Sigint !in acts[..i] && c.skip[j])
  {
    RunInv(c, acts, states, i);
    OnlyHere(c, states[i], w, j);
    ExitIffSigint(c, acts, states, i);
  }

  ghost predicate Fifo(s: State, t: State) {
    && (t.input == s.input || (s.input != [] && t.input == s.input[1..]) || exists e :: t.input == s.input + [e])
    && s.collected + s.output <= t.collected + t.output
  }

  lemma MainFifo(c: Config, s: State)
    requires Enabled(c, s, MainStep)
    ensures Fifo(s, MainNext(c, s))
  {
    if s.main.Collecting? && s.main.k < c.Jobs() {
      assert s.output == [s.output[0]] + s.output[1..];
      assert s.collected + s.output == MainNext(c, s).collected + MainNext(c, s).output;
    }
  }

  lemma WorkerFifo(c: Config, s: State, w: nat)
    requires Enabled(c, s, WorkerStep(w))
    ensures Fifo(s, WorkerNext(c, s, w))
  {
    if s.workers[w].Posting? {
      var t := WorkerNext(c, s, w);
      assert t.collected + t.output == (s.collected + s.output) + [s.workers[w].report];
    }
  }

  /** Both queues are first in, first out: entries join at the back and leave at the front, and reports are
      collected in the order in which they were posted. */
  lemma QueuesAreFifo(c: Config, acts: seq<Action>, states: seq<State>, i: nat)
    requires IsRun(c, acts, states) && i < |acts|
    ensures Fifo(states[i], states[i + 1])
  {
    match acts[i]
    case Sigint =>
    case MainStep => MainFifo(c, states[i]);
    case WorkerStep(w) => WorkerFifo(c, states[i], w);
  }

  /** SIGINT can come in any state. */
  lemma SigintAtAnyTime(c: Config, s: State)
    requires Reachable(c, s)
    ensures Reachable(c, s.(threadExit := true))
  {
    var acts, states :| IsRun(c, acts, states) && states[|acts|] == s;
    if !s.threadExit {
      var t := s.(threadExit := true);
      assert IsRun(c, acts + [Sigint], states + [t]);
      assert (states + [t])[|acts + [Sigint]|] == t;
    } else {
      assert s.(threadExit := true) == s;
    }
  }

  /** Nobody but another worker that takes the last entry of the queue can keep a thread from its next step. */
  lemma StepsPersist(c: Config, s: State, a: Action, b: Action)
    requires PhaseOk(c, s) && a != b && Enabled(c, s, a) && Enabled(c, s, b)
    ensures Enabled(c, Next(c, s, a), b)
         <==> !(a.WorkerStep? && b.WorkerStep? && s.workers[a.w].Waiting? && s.workers[b.w].Waiting? && |s.input| == 1)
  {
    match a {
      case Sigint =>
      case MainStep =>
      case WorkerStep(w) =>
        if b.WorkerStep? {
          assert WorkerNext(c, s, w).workers[b.w] == s.workers[b.w];
        }
    }
  }
}
