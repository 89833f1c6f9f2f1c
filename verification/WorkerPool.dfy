/** probeTasks as an interleaving of a producer, a pool of workers and the collector. */
module WorkerPool {

  /** A worker: at the jobs channel, holding a task, probing it, about to send its result, or gone. */
  datatype Worker = Idle | Holding(task: nat) | Probing(task: nat) | Ready(task: nat, outcome: int) | Exited

  /** The producer: sending tasks, waiting for the workers after closing jobs, or finished. */
  datatype Producer = Sending(next: nat) | Waiting(next: nat) | Finished(next: nat)

  datatype Item = Item(task: nat, outcome: int)

  /**
   * tasks is also the capacity of the results channel; the jobs channel has none, so a hand-off is one step.
   * abandoned is a history variable: tasks a worker took and dropped because of cancellation.
   */
  datatype State = State(
    tasks: nat, workers: seq<Worker>, producer: Producer, cancelled: bool,
    results: seq<Item>, resultsClosed: bool, batch: seq<Item>, returned: bool, abandoned: seq<nat>)

  datatype Action =
    | Cancel
    | HandOff(w: nat)
    | StopOnCancel
    | CloseJobs
    | CloseResults
    | JobsDrained(w: nat)
    | Abandon(w: nat)
    | StartProbe(w: nat)
    | EndProbe(w: nat, outcome: int)
    | Send(w: nat)
    | Receive
    | Return

  const DEFAULT_CONCURRENCY := 20

  function PoolSize(configured: int, tasks: nat): (size: nat)
    ensures size <= tasks && (configured > 0 ==> size <= configured) && (configured <= 0 ==> size <= 20)
    ensures size == 0 <==> tasks == 0
    ensures size < tasks ==> size == if configured > 0 then configured else 20
  {
    var concurrency := if configured <= 0 then DEFAULT_CONCURRENCY else configured;
    if concurrency > tasks then tasks else concurrency
  }

  function Init(configured: int, tasks: nat): State {
    State(tasks, seq(PoolSize(configured, tasks), _ => Idle), Sending(0), false, [], false, [], false, [])
  }

  predicate Enabled(s: State, a: Action) {
    match a
    case Cancel => !s.cancelled
    case HandOff(w) => s.producer.Sending? && s.producer.next < s.tasks && w < |s.workers| && s.workers[w].Idle?
    case StopOnCancel => s.producer.Sending? && s.producer.next < s.tasks && s.cancelled
    case CloseJobs => s.producer.Sending? && s.producer.next == s.tasks
    case CloseResults => s.producer.Waiting? && forall w :: 0 <= w < |s.workers| ==> s.workers[w].Exited?
    case JobsDrained(w) => !s.producer.Sending? && w < |s.workers| && s.workers[w].Idle?
    case Abandon(w) => w < |s.workers| && s.workers[w].Holding? && s.cancelled
    case StartProbe(w) => w < |s.workers| && s.workers[w].Holding? && !s.cancelled
    case EndProbe(w, _) => w < |s.workers| && s.workers[w].Probing?
    case Send(w) => w < |s.workers| && s.workers[w].Ready? && |s.results| < s.tasks
    case Receive => !s.returned && s.results != []
    case Return => !s.returned && s.results == [] && s.resultsClosed
  }

  function Apply(s: State, a: Action): State
    requires Enabled(s, a)
  {
    match a
    case Cancel => s.(cancelled := true)
    case HandOff(w) =>
      s.(workers := s.workers[w := Holding(s.producer.next)], producer := Sending(s.producer.next + 1))
    case StopOnCancel => s.(producer := Waiting(s.producer.next))
    case CloseJobs => s.(producer := Waiting(s.producer.next))
    case CloseResults => s.(producer := Finished(s.producer.next), resultsClosed := true)
    case JobsDrained(w) => s.(workers := s.workers[w := Exited])
    case Abandon(w) => s.(workers := s.workers[w := Exited], abandoned := s.abandoned + [s.workers[w].task])
    case StartProbe(w) => s.(workers := s.workers[w := Probing(s.workers[w].task)])
    case EndProbe(w, outcome) => s.(workers := s.workers[w := Ready(s.workers[w].task, outcome)])
    case Send(w) =>
      s.(workers := s.workers[w := Idle], results := s.results + [Item(s.workers[w].task, s.workers[w].outcome)])
    case Receive => s.(batch := s.batch + [s.results[0]], results := s.results[1..])
    case Return => s.(returned := true)
  }

  // ----- Where the tasks are

  predicate HasTask(w: Worker) {
    w.Holding? || w.Probing? || w.Ready?
  }

  /** How often task t is held by the first n workers. */
  function HeldBy(workers: seq<Worker>, t: nat, n: nat): nat
    requires n <= |workers|
  {
    if n == 0 then 0
    else HeldBy(workers, t, n - 1) + if HasTask(workers[n - 1]) && workers[n - 1].task == t then 1 else 0
  }

  function Held(workers: seq<Worker>, n: nat): nat
    requires n <= |workers|
  {
    if n == 0 then 0 else Held(workers, n - 1) + if HasTask(workers[n - 1]) then 1 else 0
  }

  /** How often task t occurs among the items. */
  function Occurs(items: seq<Item>, t: nat): nat {
    if items == [] then 0 else Occurs(items[..|items| - 1], t) + if items[|items| - 1].task == t then 1 else 0
  }

  function Dropped(tasks: seq<nat>, t: nat): nat {
    if tasks == [] then 0 else Dropped(tasks[..|tasks| - 1], t) + if tasks[|tasks| - 1] == t then 1 else 0
  }

  function Places(s: State, t: nat): nat {
    HeldBy(s.workers, t, |s.workers|) + Occurs(s.results, t) + Occurs(s.batch, t) + Dropped(s.abandoned, t)
  }

  /** Every task handed out is in exactly one place, and every other task in none. */
  ghost predicate Accounted(s: State) {
    && (forall t: nat :: Places(s, t) == if t < s.producer.next then 1 else 0)
    && Held(s.workers, |s.workers|) + |s.results| + |s.batch| + |s.abandoned| == s.producer.next
  }

  ghost predicate Inv(s: State) {
    && s.producer.next <= s.tasks
    && Accounted(s)
    && (s.resultsClosed <==> s.producer.Finished?)
    && (s.resultsClosed ==> forall w :: 0 <= w < |s.workers| ==> s.workers[w].Exited?)
    && (!s.cancelled ==> s.abandoned == [] && (s.producer.next == s.tasks || s.producer.Sending?))
    && (!s.cancelled && s.producer.Sending? ==> forall w :: 0 <= w < |s.workers| ==> !s.workers[w].Exited?)
    && (s.returned ==> s.resultsClosed && s.results == [])
  }

  lemma {:induction false} HeldByUpdate(workers: seq<Worker>, w: nat, x: Worker, t: nat, n: nat)
    requires w < |workers| && n <= |workers|
    ensures HeldBy(workers[w := x], t, n) + (if w < n && HasTask(workers[w]) && workers[w].task == t then 1 else 0)
         == HeldBy(workers, t, n) + (if w < n && HasTask(x) && x.task == t then 1 else 0)
  {
    if n > 0 {
      HeldByUpdate(workers, w, x, t, n - 1);
    }
  }

  lemma {:induction false} HeldUpdate(workers: seq<Worker>, w: nat, x: Worker, n: nat)
    requires w < |workers| && n <= |workers|
    ensures Held(workers[w := x], n) + (if w < n && HasTask(workers[w]) then 1 else 0)
         == Held(workers, n) + (if w < n && HasTask(x) then 1 else 0)
  {
    if n > 0 {
      HeldUpdate(workers, w, x, n - 1);
    }
  }

  lemma OccursAppend(items: seq<Item>, item: Item, t: nat)
    ensures Occurs(items + [item], t) == Occurs(items, t) + if item.task == t then 1 else 0
  {
    assert (items + [item])[..|items|] == items;
  }

  lemma {:induction false} OccursHead(items: seq<Item>, t: nat)
    requires items != []
    ensures Occurs(items, t) == Occurs(items[1..], t) + if items[0].task == t then 1 else 0
  {
    var n := |items| - 1;
    if n > 0 {
      OccursHead(items[..n], t);
      assert items[1..][..n - 1] == items[..n][1..];
    } else {
      assert items[1..] == [] && items[..0] == [];
    }
  }

  lemma DroppedAppend(tasks: seq<nat>, task: nat, t: nat)
    ensures Dropped(tasks + [task], t) == Dropped(tasks, t) + if task == t then 1 else 0
  {
    assert (tasks + [task])[..|tasks|] == tasks;
  }

  lemma {:induction false} NoneHeld(workers: seq<Worker>, n: nat)
    requires n <= |workers| && forall w :: 0 <= w < n ==> !HasTask(workers[w])
    ensures Held(workers, n) == 0
    ensures forall t: nat :: HeldBy(workers, t, n) == 0
  {
    if n > 0 {
      NoneHeld(workers, n - 1);
    }
  }

  lemma {:induction false} SomeHeld(workers: seq<Worker>, w: nat, n: nat)
    requires w < n <= |workers| && HasTask(workers[w])
    ensures Held(workers, n) >= 1
  {
    if w < n - 1 {
      SomeHeld(workers, w, n - 1);
    }
  }

  // ----- Safety

  lemma InitInv(configured: int, tasks: nat)
    requires tasks >= 1
    ensures Inv(Init(configured, tasks))
  {
    var s := Init(configured, tasks);
    NoneHeld(s.workers, |s.workers|);
  }

  /** Only the worker a step names can gain or lose a task. */
  lemma StepKeepsCount(s: State, a: Action, t: nat)
    requires Enabled(s, a)
    ensures var s' := Apply(s, a);
      Places(s', t) == Places(s, t) + if a.HandOff? && t == s.producer.next then 1 else 0
  {
    hide HeldBy, Occurs, Dropped;
    match a
    case HandOff(w) => HeldByUpdate(s.workers, w, Holding(s.producer.next), t, |s.workers|);
    case JobsDrained(w) => HeldByUpdate(s.workers, w, Exited, t, |s.workers|);
    case Abandon(w) =>
      HeldByUpdate(s.workers, w, Exited, t, |s.workers|);
      DroppedAppend(s.abandoned, s.workers[w].task, t);
    case StartProbe(w) => HeldByUpdate(s.workers, w, Probing(s.workers[w].task), t, |s.workers|);
    case EndProbe(w, outcome) => HeldByUpdate(s.workers, w, Ready(s.workers[w].task, outcome), t, |s.workers|);
    case Send(w) =>
      HeldByUpdate(s.workers, w, Idle, t, |s.workers|);
      OccursAppend(s.results, Item(s.workers[w].task, s.workers[w].outcome), t);
    case Receive =>
      OccursHead(s.results, t);
      OccursAppend(s.batch, s.results[0], t);
    case _ =>
  }

  lemma StepKeepsTotal(s: State, a: Action)
    requires Enabled(s, a)
    ensures var s' := Apply(s, a);
      Held(s'.workers, |s'.workers|) + |s'.results| + |s'.batch| + |s'.abandoned|
      == Held(s.workers, |s.workers|) + |s.results| + |s.batch| + |s.abandoned| + if a.HandOff? then 1 else 0
  {
    hide Held;
    match a
    case HandOff(w) => HeldUpdate(s.workers, w, Holding(s.producer.next), |s.workers|);
    case JobsDrained(w) => HeldUpdate(s.workers, w, Exited, |s.workers|);
    case Abandon(w) => HeldUpdate(s.workers, w, Exited, |s.workers|);
    case StartProbe(w) => HeldUpdate(s.workers, w, Probing(s.workers[w].task), |s.workers|);
    case EndProbe(w, outcome) => HeldUpdate(s.workers, w, Ready(s.workers[w].task, outcome), |s.workers|);
    case Send(w) => HeldUpdate(s.workers, w, Idle, |s.workers|);
    case _ =>
  }

  lemma StepKeepsAccounts(s: State, a: Action)
    requires Accounted(s) && Enabled(s, a)
    ensures Accounted(Apply(s, a))
  {
    hide Places, Held;
    StepKeepsTotal(s, a);
    var s' := Apply(s, a);
    forall t: nat ensures Places(s', t) == if t < s'.producer.next then 1 else 0 {
      StepKeepsCount(s, a, t);
    }
  }

  /** Every step of every interleaving keeps the invariant. */
  lemma StepKeepsInv(s: State, a: Action)
    requires Inv(s) && Enabled(s, a)
    ensures Inv(Apply(s, a))
  {
    hide Accounted;
    StepKeepsAccounts(s, a);
  }

  /** A worker with a result can always send it: the channel is open and has room. */
  lemma SendNeverBlocks(s: State, w: nat)
    requires Inv(s) && w < |s.workers| && s.workers[w].Ready?
    ensures Enabled(s, Send(w)) && !s.resultsClosed
  {
    SomeHeld(s.workers, w, |s.workers|);
  }

  /** The workers that are probing. */
  function Probers(workers: seq<Worker>): set<nat> {
    set w: nat | w < |workers| && workers[w].Probing?
  }

  lemma {:induction false} NoMoreThan(s: set<nat>, n: nat)
    requires forall w :: w in s ==> w < n
    ensures |s| <= n
  {
    if n > 0 {
      NoMoreThan(s - {n - 1}, n - 1);
    } else {
      assert s == {};
    }
  }

  // ----- Runs

  predicate IsRun(s: State, run: seq<Action>)
    decreases run
  {
    run == [] || (Enabled(s, run[0]) && IsRun(Apply(s, run[0]), run[1..]))
  }

  function End(s: State, run: seq<Action>): State
    requires IsRun(s, run)
    decreases run
  {
    if run == [] then s else End(Apply(s, run[0]), run[1..])
  }

  /** Safety over whole runs. */
  lemma {:induction false} RunKeepsInv(s: State, run: seq<Action>)
    requires Inv(s) && IsRun(s, run)
    ensures Inv(End(s, run)) && |End(s, run).workers| == |s.workers| && End(s, run).tasks == s.tasks
    decreases run
  {
    hide Inv;
    if run != [] {
      StepKeepsInv(s, run[0]);
      RunKeepsInv(Apply(s, run[0]), run[1..]);
    }
  }

  /** At no point of any run are more probes active than configured, or sends blocked or late. */
  lemma RunIsSafe(configured: int, tasks: nat, run: seq<Action>)
    requires tasks >= 1 && IsRun(Init(configured, tasks), run)
    ensures var s := End(Init(configured, tasks), run);
      && |Probers(s.workers)| <= PoolSize(configured, tasks)
      && (forall w :: 0 <= w < |s.workers| && s.workers[w].Ready? ==> |s.results| < tasks && !s.resultsClosed)
  {
    hide Inv;
    InitInv(configured, tasks);
    RunKeepsInv(Init(configured, tasks), run);
    var s := End(Init(configured, tasks), run);
    NoMoreThan(Probers(s.workers), |s.workers|);
    forall w | 0 <= w < |s.workers| && s.workers[w].Ready? ensures |s.results| < tasks && !s.resultsClosed {
      SendNeverBlocks(s, w);
    }
  }

  lemma {:induction false} CancelledIff(s: State, run: seq<Action>)
    requires IsRun(s, run)
    ensures End(s, run).cancelled <==> s.cancelled || Cancel in run
    decreases run
  {
    hide Enabled;
    if run != [] {
      CancelledIff(Apply(s, run[0]), run[1..]);
      assert run == [run[0]] + run[1..];
    }
  }

  /** When probeTasks returns, no task has two results; without cancellation each task has exactly one. */
  lemma ReturnedBatch(configured: int, tasks: nat, run: seq<Action>)
    requires tasks >= 1 && IsRun(Init(configured, tasks), run)
    ensures var s := End(Init(configured, tasks), run);
      && (forall t: nat :: Occurs(s.batch, t) <= 1)
      && (forall t: nat :: t >= tasks ==> Occurs(s.batch, t) == 0)
      && (s.returned && Cancel !in run ==>
            |s.batch| == tasks && forall t: nat :: t < tasks ==> Occurs(s.batch, t) == 1)
  {
    CancelledIff(Init(configured, tasks), run);
    InitInv(configured, tasks);
    RunKeepsInv(Init(configured, tasks), run);
    var s := End(Init(configured, tasks), run);
    forall t: nat ensures Occurs(s.batch, t) <= if t < s.producer.next then 1 else 0 {
      assert Places(s, t) == if t < s.producer.next then 1 else 0;
    }
    if s.returned {
      NoneHeld(s.workers, |s.workers|);
      if !s.cancelled {
        forall t: nat | t < tasks ensures Occurs(s.batch, t) == 1 {
          assert Places(s, t) == 1;
        }
      }
    }
  }

  // ----- What is in the batch

  /** The results sent in a run, in order. */
  function SentIn(s: State, run: seq<Action>): seq<Item>
    requires IsRun(s, run)
    decreases run
  {
    if run == [] then []
    else
      var rest := SentIn(Apply(s, run[0]), run[1..]);
      match run[0]
      case Send(w) => [Item(s.workers[w].task, s.workers[w].outcome)] + rest
      case _ => rest
  }

  /** The outcomes with which probes end in a run, each with the task probed. */
  function EndedIn(s: State, run: seq<Action>): set<Item>
    requires IsRun(s, run)
    decreases run
  {
    if run == [] then {}
    else
      var rest := EndedIn(Apply(s, run[0]), run[1..]);
      match run[0]
      case EndProbe(w, outcome) => {Item(s.workers[w].task, outcome)} + rest
      case _ => rest
  }

  /** Results are received in the order in which they are sent, and none is lost on the way. */
  lemma {:induction false} ReceivedInOrder(s: State, run: seq<Action>)
    requires IsRun(s, run)
    ensures End(s, run).batch + End(s, run).results == s.batch + s.results + SentIn(s, run)
    decreases run
  {
    if run == [] {
      assert s.batch + s.results + [] == s.batch + s.results;
    } else {
      ReceivedInOrder(Apply(s, run[0]), run[1..]);
      OneReceived(s, run[0], SentIn(Apply(s, run[0]), run[1..]));
    }
  }

  lemma OneReceived(s: State, a: Action, rest: seq<Item>)
    requires Enabled(s, a)
    ensures var s' := Apply(s, a);
      s'.batch + s'.results + rest
      == s.batch + s.results + (if a.Send? then [Item(s.workers[a.w].task, s.workers[a.w].outcome)] + rest else rest)
  {
    if a.Receive? {
      assert s.results == [s.results[0]] + s.results[1..];
    }
  }

  /** The outcome a worker is about to send, or has sent, is one its probe of that task has ended with. */
  predicate FromProbes(s: State, ended: set<Item>) {
    && (forall w :: 0 <= w < |s.workers| && s.workers[w].Ready? ==>
          Item(s.workers[w].task, s.workers[w].outcome) in ended)
    && (forall i :: 0 <= i < |s.results| ==> s.results[i] in ended)
    && (forall i :: 0 <= i < |s.batch| ==> s.batch[i] in ended)
  }

  function EndedBy(s: State, a: Action): set<Item>
    requires Enabled(s, a)
  {
    match a
    case EndProbe(w, outcome) => {Item(s.workers[w].task, outcome)}
    case _ => {}
  }

  lemma StepFromProbes(s: State, a: Action, ended: set<Item>)
    requires Enabled(s, a) && FromProbes(s, ended)
    ensures FromProbes(Apply(s, a), ended + EndedBy(s, a))
  {
  }

  lemma {:induction false} RunFromProbes(s: State, run: seq<Action>, ended: set<Item>)
    requires IsRun(s, run) && FromProbes(s, ended)
    ensures FromProbes(End(s, run), ended + EndedIn(s, run))
    decreases run
  {
    hide FromProbes;
    if run == [] {
      assert ended + {} == ended;
    } else {
      StepFromProbes(s, run[0], ended);
      RunFromProbes(Apply(s, run[0]), run[1..], ended + EndedBy(s, run[0]));
      assert ended + EndedBy(s, run[0]) + EndedIn(Apply(s, run[0]), run[1..]) == ended + EndedIn(s, run);
    }
  }

  /** In any run the batch holds results in the order sent, each with an outcome its task's probe has ended with. */
  lemma BatchIsProbed(configured: int, tasks: nat, run: seq<Action>)
    requires IsRun(Init(configured, tasks), run)
    ensures var s := End(Init(configured, tasks), run);
      && s.batch + s.results == SentIn(Init(configured, tasks), run)
      && forall i :: 0 <= i < |s.batch| ==> s.batch[i] in EndedIn(Init(configured, tasks), run)
  {
    var init := Init(configured, tasks);
    ReceivedInOrder(init, run);
    assert init.batch + init.results + SentIn(init, run) == SentIn(init, run);
    RunFromProbes(init, run, {});
    assert {} + EndedIn(init, run) == EndedIn(init, run);
    hide End, SentIn, EndedIn, IsRun;
  }

  // ----- Progress

  /** Unless probeTasks has returned, some step other than a cancellation can be taken. */
  lemma NoDeadlock(s: State) returns (a: Action)
    requires Inv(s) && !s.returned && s.tasks >= 1 && |s.workers| >= 1
    ensures Enabled(s, a) && !a.Cancel?
  {
    if s.results != [] {
      a := Receive;
    } else if s.resultsClosed {
      a := Return;
    } else if w: nat :| w < |s.workers| && HasTask(s.workers[w]) {
      a := WorkerStep(s, w);
    } else if s.producer.Sending? {
      a := ProducerStep(s);
    } else if w: nat :| w < |s.workers| && s.workers[w].Idle? {
      a := JobsDrained(w);
    } else {
      a := CloseResults;
      forall w | 0 <= w < |s.workers| ensures s.workers[w].Exited? {
        assert !HasTask(s.workers[w]) && !s.workers[w].Idle?;
      }
    }
  }

  lemma WorkerStep(s: State, w: nat) returns (a: Action)
    requires Inv(s) && w < |s.workers| && HasTask(s.workers[w])
    ensures Enabled(s, a) && !a.Cancel?
  {
    match s.workers[w]
    case Holding(_) => a := if s.cancelled then Abandon(w) else StartProbe(w);
    case Probing(_) => a := EndProbe(w, 0);
    case Ready(_, _) =>
      SendNeverBlocks(s, w);
      a := Send(w);
  }

  lemma ProducerStep(s: State) returns (a: Action)
    requires Inv(s) && s.producer.Sending? && |s.workers| >= 1
    requires forall w :: 0 <= w < |s.workers| ==> !HasTask(s.workers[w])
    ensures Enabled(s, a) && !a.Cancel?
  {
    if s.producer.next == s.tasks {
      a := CloseJobs;
    } else if s.cancelled {
      a := StopOnCancel;
    } else {
      assert !HasTask(s.workers[0]) && !s.workers[0].Exited?;
      a := HandOff(0);
    }
  }

  function Weight(w: Worker): nat {
    match w
    case Exited => 0
    case Idle => 1
    case Ready(_, _) => 3
    case Probing(_) => 4
    case Holding(_) => 5
  }

  function Load(workers: seq<Worker>, n: nat): nat
    requires n <= |workers|
  {
    if n == 0 then 0 else Load(workers, n - 1) + Weight(workers[n - 1])
  }

  function ProducerWork(s: State): nat {
    match s.producer
    case Sending(next) => (if next <= s.tasks then 6 * (s.tasks - next) else 0) + 2
    case Waiting(_) => 1
    case Finished(_) => 0
  }

  /** How many steps can still follow. */
  function Work(s: State): nat {
    Load(s.workers, |s.workers|) + ProducerWork(s) + |s.results|
    + (if s.cancelled then 0 else 1) + (if s.returned then 0 else 1)
  }

  lemma {:induction false} LoadUpdate(workers: seq<Worker>, w: nat, x: Worker, n: nat)
    requires w < |workers| && n <= |workers|
    ensures Load(workers[w := x], n) + (if w < n then Weight(workers[w]) else 0)
         == Load(workers, n) + (if w < n then Weight(x) else 0)
  {
    if n > 0 {
      LoadUpdate(workers, w, x, n - 1);
    }
  }

  /** Every step uses up work, so no run is longer than the work at its start. */
  lemma StepUsesWork(s: State, a: Action)
    requires s.producer.next <= s.tasks && Enabled(s, a)
    ensures Work(Apply(s, a)) < Work(s)
  {
    hide Load;
    match a
    case HandOff(w) => LoadUpdate(s.workers, w, Holding(s.producer.next), |s.workers|);
    case JobsDrained(w) => LoadUpdate(s.workers, w, Exited, |s.workers|);
    case Abandon(w) => LoadUpdate(s.workers, w, Exited, |s.workers|);
    case StartProbe(w) => LoadUpdate(s.workers, w, Probing(s.workers[w].task), |s.workers|);
    case EndProbe(w, outcome) => LoadUpdate(s.workers, w, Ready(s.workers[w].task, outcome), |s.workers|);
    case Send(w) => LoadUpdate(s.workers, w, Idle, |s.workers|);
    case _ =>
  }

  lemma {:induction false} RunsAreBounded(s: State, run: seq<Action>)
    requires Inv(s) && IsRun(s, run)
    ensures |run| + Work(End(s, run)) <= Work(s)
    decreases run
  {
    hide Work, Accounted;
    if run != [] {
      StepUsesWork(s, run[0]);
      StepKeepsInv(s, run[0]);
      RunsAreBounded(Apply(s, run[0]), run[1..]);
    }
  }

  /** Every run is finite, and a run that cannot go on has returned: probeTasks always returns. */
  lemma AlwaysReturns(configured: int, tasks: nat, run: seq<Action>)
    requires tasks >= 1 && IsRun(Init(configured, tasks), run)
    ensures var s := End(Init(configured, tasks), run);
      && |run| <= Work(Init(configured, tasks))
      && (s.returned || exists a :: Enabled(s, a) && !a.Cancel?)
  {
    hide Inv, Work;
    InitInv(configured, tasks);
    RunKeepsInv(Init(configured, tasks), run);
    RunsAreBounded(Init(configured, tasks), run);
    var s := End(Init(configured, tasks), run);
    if !s.returned {
      var a := NoDeadlock(s);
    }
  }
}
