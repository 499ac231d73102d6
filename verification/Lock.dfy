/**
  Admission of processes through two counting semaphores, one for the queue and one for the run
  slots (lib/Lock.cc). The processes interleave between their system calls; each call is one event.
 */
module Lock {

  datatype Entering = No | Waiting(block: bool)

  /** The slots that the kernel returns when the process exits, and a wait in the middle of enter. */
  datatype Process = Process(queued: int, running: int, entering: Entering)

  const FRESH := Process(0, 0, No)

  datatype State = State(created: bool, queue: int, run: int, processes: seq<Process>)

  datatype Event =
    | Setup(max: int, size: int)
    | TakeQueueSlot(p: nat, block: bool)
    | TakeRunSlot(p: nat)
    | Interrupt(p: nat)
    | Leave(p: nat)
    | Exit(p: nat)

  /** How a step of enter ends: still waiting, or with the result or the exception of enter. */
  datatype Outcome = Wait | Refused | Entered | Thrown

  function Nonnegative(x: int): int {
    if x < 0 then 0 else x
  }

  function Next(s: State, e: Event): State
    requires e.Setup? || e.p < |s.processes|
  {
    match e
    case Setup(max, size) => if s.created then s else s.(created := true, queue := size, run := max)
    case TakeQueueSlot(p, block) =>
      if s.queue <= 0 then s
      else
        var q := s.processes[p];
        s.(queue := s.queue - 1,
           processes := s.processes[p := q.(queued := q.queued + 1, entering := Waiting(block))])
    case TakeRunSlot(p) =>
      var q := s.processes[p];
      if s.run > 0 then
        s.(run := s.run - 1, processes := s.processes[p := q.(running := q.running + 1, entering := No)])
      else if q.entering == Waiting(true) then s
      else s.(processes := s.processes[p := q.(entering := No)])
    case Interrupt(p) => s.(processes := s.processes[p := s.processes[p].(entering := No)])
    case Leave(p) =>
      var q := s.processes[p];
      s.(queue := s.queue + 1, run := s.run + 1,
         processes := s.processes[p := q.(queued := q.queued - 1, running := q.running - 1)])
    case Exit(p) =>
      var q := s.processes[p];
      s.(queue := Nonnegative(s.queue + q.queued), run := Nonnegative(s.run + q.running),
         processes := s.processes[p := FRESH])
  }

  class SemaphoreSet {
    var created: bool
    var queue: int
    var run: int
    var processes: seq<Process>

    function Now(): State
      reads this
    {
      State(created, queue, run, processes)
    }

    /** Before the first setup, with n processes that may come. */
    constructor (n: nat)
      ensures Now() == State(false, 0, 0, seq(n, i => FRESH))
    {
      created, queue, run, processes := false, 0, 0, seq(n, i => FRESH);
    }

    /** The file lock makes the search for the set and its initialisation one step. */
    method Setup(max: int, size: int)
      modifies this
      ensures Now() == Next(old(Now()), Event.Setup(max, size))
    {
      if !created {
        created := true;
        queue := size;
        run := max;
      }
    }

    /** The first system call of enter. */
    method TakeQueueSlot(p: nat, block: bool) returns (o: Outcome)
      requires p < |processes|
      modifies this
      ensures Now() == Next(old(Now()), Event.TakeQueueSlot(p, block))
      ensures o == if old(queue) <= 0 then Refused else Wait
    {
      if queue <= 0 {
        return Refused;
      }
      queue := queue - 1;
      processes := processes[p := processes[p].(queued := processes[p].queued + 1, entering := Waiting(block))];
      o := Wait;
    }

    /** The second system call of enter, tried again when the set has changed. */
    method TakeRunSlot(p: nat) returns (o: Outcome)
      requires p < |processes| && processes[p].entering.Waiting?
      modifies this
      ensures Now() == Next(old(Now()), Event.TakeRunSlot(p))
      ensures o == if old(run) > 0 then Entered else if old(processes[p].entering.block) then Wait else Thrown
    {
      if run > 0 {
        run := run - 1;
        processes := processes[p := processes[p].(running := processes[p].running + 1, entering := No)];
        return Entered;
      }
      if processes[p].entering.block {
        return Wait;
      }
      processes := processes[p := processes[p].(entering := No)];
      o := Thrown;
    }

    /** A call of enter during which no other process makes a system call. */
    method Enter(p: nat, block: bool) returns (o: Outcome)
      requires p < |processes|
      modifies this
      ensures o == if old(queue) <= 0 then Refused else if old(run) > 0 then Entered
                   else if block then Wait else Thrown
      ensures old(queue) <= 0 ==> Now() == old(Now())
      ensures old(queue) > 0 ==>
                Now() == Next(Next(old(Now()), Event.TakeQueueSlot(p, block)), Event.TakeRunSlot(p))
    {
      o := TakeQueueSlot(p, block);
      if o == Wait {
        o := TakeRunSlot(p);
      }
    }

    method Leave(p: nat)
      requires p < |processes|
      modifies this
      ensures Now() == Next(old(Now()), Event.Leave(p))
      ensures queue == old(queue) + 1 && run == old(run) + 1
    {
      queue, run := queue + 1, run + 1;
      var q := processes[p];
      processes := processes[p := q.(queued := q.queued - 1, running := q.running - 1)];
    }

    /** The kernel applies the undo counts, and stops at zero. */
    method Exit(p: nat)
      requires p < |processes|
      modifies this
      ensures Now() == Next(old(Now()), Event.Exit(p))
      ensures queue == if old(queue + processes[p].queued) < 0 then 0 else old(queue + processes[p].queued)
      ensures run == if old(run + processes[p].running) < 0 then 0 else old(run + processes[p].running)
    {
      queue := Nonnegative(queue + processes[p].queued);
      run := Nonnegative(run + processes[p].running);
      processes := processes[p := FRESH];
    }
  }

  // ----- sums over the processes -----

  function Queued(ps: seq<Process>): int {
    if ps == [] then 0 else Queued(ps[..|ps| - 1]) + ps[|ps| - 1].queued
  }

  function Running(ps: seq<Process>): int {
    if ps == [] then 0 else Running(ps[..|ps| - 1]) + ps[|ps| - 1].running
  }

  lemma {:induction false} SumsAfterUpdate(ps: seq<Process>, p: nat, q: Process)
    requires p < |ps|
    ensures Queued(ps[p := q]) == Queued(ps) - ps[p].queued + q.queued
    ensures Running(ps[p := q]) == Running(ps) - ps[p].running + q.running
  {
    var n := |ps| - 1;
    if p == n {
      assert ps[p := q][..n] == ps[..n];
    } else {
      SumsAfterUpdate(ps[..n], p, q);
      assert ps[p := q][..n] == ps[..n][p := q];
    }
  }

  lemma {:induction false} SumsOfFresh(ps: seq<Process>)
    requires forall p :: 0 <= p < |ps| ==> ps[p] == FRESH
    ensures Queued(ps) == 0 && Running(ps) == 0
  {
    if ps != [] {
      SumsOfFresh(ps[..|ps| - 1]);
    }
  }

  /** The number of processes that hold a run slot, and of those that hold a queue slot. */
  function RunningProcesses(ps: seq<Process>): nat {
    if ps == [] then 0
    else RunningProcesses(ps[..|ps| - 1]) + if ps[|ps| - 1].running > 0 then 1 else 0
  }

  function QueuedProcesses(ps: seq<Process>): nat {
    if ps == [] then 0
    else QueuedProcesses(ps[..|ps| - 1]) + if ps[|ps| - 1].queued > 0 then 1 else 0
  }

  /** What a process holds when it leaves only what it has entered. */
  predicate Sound(q: Process) {
    0 <= q.running <= q.queued && (q.entering.Waiting? ==> q.running < q.queued)
  }

  lemma {:induction false} CountsBelowSums(ps: seq<Process>)
    requires forall p :: 0 <= p < |ps| ==> Sound(ps[p])
    ensures 0 <= RunningProcesses(ps) <= Running(ps) && 0 <= QueuedProcesses(ps) <= Queued(ps)
  {
    if ps != [] {
      assert Sound(ps[|ps| - 1]);
      CountsBelowSums(ps[..|ps| - 1]);
    }
  }

  lemma {:induction false} SomeoneRuns(ps: seq<Process>) returns (q: nat)
    requires (forall p :: 0 <= p < |ps| ==> Sound(ps[p])) && Running(ps) > 0
    ensures q < |ps| && ps[q].running > 0
  {
    if ps[|ps| - 1].running > 0 {
      q := |ps| - 1;
    } else {
      q := SomeoneRuns(ps[..|ps| - 1]);
    }
  }

  // ----- what every step keeps -----

  /** Free and held slots add up to what the set was created with. */
  ghost predicate Conserved(s: State, size: int, max: int) {
    s.created && s.queue >= 0 && s.run >= 0 &&
    s.queue + Queued(s.processes) == size && s.run + Running(s.processes) == max &&
    (forall p :: 0 <= p < |s.processes| ==> Sound(s.processes[p]))
  }

  /** The order in which the code of one process makes its calls; it leaves only while it runs. */
  ghost predicate Orderly(s: State, e: Event) {
    e.Setup? ||
    (e.p < |s.processes| &&
     match e
     case TakeQueueSlot(p, _) => s.processes[p].entering.No?
     case TakeRunSlot(p) => s.processes[p].entering.Waiting?
     case Interrupt(p) => s.processes[p].entering.Waiting?
     case Leave(p) => s.processes[p].entering.No? && s.processes[p].running > 0
     case Exit(_) => true)
  }

  lemma ConservedByStep(s: State, e: Event, size: int, max: int)
    requires Conserved(s, size, max) && Orderly(s, e)
    ensures Conserved(Next(s, e), size, max)
  {
    hide Queued, Running;
    if !e.Setup? {
      assert Sound(s.processes[e.p]);
      var r := Next(s, e);
      var q := r.processes[e.p];
      assert r.processes == s.processes[e.p := q];
      SumsAfterUpdate(s.processes, e.p, q);
      assert Sound(q);
      forall p | 0 <= p < |r.processes| ensures Sound(r.processes[p]) {
        assert p != e.p ==> r.processes[p] == s.processes[p];
      }
    }
  }

  /**
    A process gives slots back only when it leaves or exits: a call of enter that is refused, fails or is
    interrupted keeps what it has taken, and no step touches what other processes hold.
   */
  lemma SlotsKept(s: State, e: Event, p: nat)
    requires s.created && Orderly(s, e) && p < |s.processes|
    ensures var r := Next(s, e);
            (e.Setup? || e.p != p ==> r.processes[p] == s.processes[p]) &&
            (!e.Leave? && !e.Exit? ==>
               r.processes[p].queued >= s.processes[p].queued && r.processes[p].running >= s.processes[p].running &&
               r.queue <= s.queue && r.run <= s.run) &&
            (e.Interrupt? || (e.TakeRunSlot? && s.run <= 0) ==>
               r.queue == s.queue && r.run == s.run && r.processes[e.p].queued == s.processes[e.p].queued &&
               (e.Interrupt? ==> r.processes[e.p].entering.No?))
  {
  }

  function After(s: State, events: seq<Event>): State
    requires forall i :: 0 <= i < |events| ==> events[i].Setup? || events[i].p < |s.processes|
    ensures |After(s, events).processes| == |s.processes|
  {
    if events == [] then s else Next(After(s, events[..|events| - 1]), events[|events| - 1])
  }

  /** A run in which every process follows the order of its code. */
  ghost predicate Run(s: State, events: seq<Event>) {
    (forall i :: 0 <= i < |events| ==> events[i].Setup? || events[i].p < |s.processes|) &&
    (forall i :: 0 <= i < |events| ==> Orderly(After(s, events[..i]), events[i]))
  }

  /** No process has called setup yet. */
  predicate Initial(s: State) {
    !s.created && forall p :: 0 <= p < |s.processes| ==> s.processes[p] == FRESH
  }

  /** In every run the values of the first setup are conserved, whatever later setups ask for. */
  lemma {:induction false} SlotsConserved(s: State, size: nat, max: nat, events: seq<Event>)
    requires Initial(s) && Run(Next(s, Setup(max, size)), events)
    ensures Conserved(After(Next(s, Setup(max, size)), events), size, max)
  {
    hide Next;
    var first := Created(s, size, max);
    if events == [] {
      SumsOfFresh(s.processes);
    } else {
      var n := |events| - 1;
      assert forall i :: 0 <= i < n ==> events[..n][..i] == events[..i];
      SlotsConserved(s, size, max, events[..n]);
      ConservedByStep(After(first, events[..n]), events[n], size, max);
    }
  }

  lemma Created(s: State, size: nat, max: nat) returns (first: State)
    requires !s.created
    ensures first == Next(s, Setup(max, size)) == State(true, size, max, s.processes)
  {
    first := Next(s, Setup(max, size));
  }

  /** The limits are never exceeded. */
  lemma LimitsHold(s: State, size: int, max: int)
    requires Conserved(s, size, max)
    ensures RunningProcesses(s.processes) <= max && QueuedProcesses(s.processes) <= size
  {
    CountsBelowSums(s.processes);
  }

  /** When no process holds more than one slot of a kind, the slots that are not free are the processes. */
  lemma SlotsAreProcesses(s: State, size: int, max: int)
    requires Conserved(s, size, max)
    requires forall p :: 0 <= p < |s.processes| ==> s.processes[p].queued <= 1
    ensures s.queue + QueuedProcesses(s.processes) == size
    ensures s.run + RunningProcesses(s.processes) == max
  {
    CountsAreSums(s.processes);
  }

  lemma {:induction false} CountsAreSums(ps: seq<Process>)
    requires forall p :: 0 <= p < |ps| ==> Sound(ps[p]) && ps[p].queued <= 1
    ensures QueuedProcesses(ps) == Queued(ps) && RunningProcesses(ps) == Running(ps)
  {
    if ps != [] {
      assert Sound(ps[|ps| - 1]);
      CountsAreSums(ps[..|ps| - 1]);
    }
  }

  /** A process enters only when it holds no slot. */
  ghost predicate Frugal(s: State, e: Event) {
    Orderly(s, e) && (e.TakeQueueSlot? ==> s.processes[e.p].queued == 0)
  }

  /** A run in which every process does. */
  ghost predicate FrugalRun(s: State, events: seq<Event>) {
    (forall i :: 0 <= i < |events| ==> events[i].Setup? || events[i].p < |s.processes|) &&
    (forall i :: 0 <= i < |events| ==> Frugal(After(s, events[..i]), events[i]))
  }

  predicate AtMostOne(s: State) {
    forall p :: 0 <= p < |s.processes| ==> s.processes[p].queued <= 1
  }

  lemma AtMostOneByStep(s: State, e: Event)
    requires AtMostOne(s) && Frugal(s, e)
    ensures AtMostOne(Next(s, e))
  {
  }

  lemma FrugalIsRun(s: State, events: seq<Event>)
    requires FrugalRun(s, events)
    ensures Run(s, events)
  {
    hide After, Orderly;
    forall i | 0 <= i < |events| ensures Orderly(After(s, events[..i]), events[i]) {
      assert Frugal(After(s, events[..i]), events[i]);
    }
  }

  lemma {:induction false} AtMostOneInRun(s: State, events: seq<Event>)
    requires AtMostOne(s) && FrugalRun(s, events)
    ensures Run(s, events) && AtMostOne(After(s, events))
  {
    hide AtMostOne, Next, Frugal, Run;
    FrugalIsRun(s, events);
    if events != [] {
      var n := |events| - 1;
      assert forall i :: 0 <= i < n ==> events[..n][..i] == events[..i];
      AtMostOneInRun(s, events[..n]);
      assert Frugal(After(s, events[..n]), events[n]);
      AtMostOneByStep(After(s, events[..n]), events[n]);
    }
  }

  /**
    In every interleaving of such processes, free slots plus queued or running processes are what the
    set was created with, and a process that waits holds no run slot.
   */
  lemma ProcessesInRun(s: State, size: nat, max: nat, events: seq<Event>)
    requires Initial(s) && FrugalRun(Next(s, Setup(max, size)), events)
    ensures var r := After(Next(s, Setup(max, size)), events);
            r.queue + QueuedProcesses(r.processes) == size && r.run + RunningProcesses(r.processes) == max &&
            Single(r)
  {
    hide After;
    var first := Next(s, Setup(max, size));
    assert AtMostOne(first);
    AtMostOneInRun(first, events);
    SlotsConserved(s, size, max, events);
    var r := After(first, events);
    SlotsAreProcesses(r, size, max);
    OneIsSingle(r, size, max);
  }

  lemma OneIsSingle(s: State, size: int, max: int)
    requires Conserved(s, size, max) && AtMostOne(s)
    ensures Single(s)
  {
    forall p | 0 <= p < |s.processes| && s.processes[p].entering.Waiting? ensures s.processes[p].running == 0 {
      assert Sound(s.processes[p]);
    }
  }

  /** Once all processes have left or exited, all slots are free again. */
  lemma SlotsReturn(s: State, size: int, max: int)
    requires Conserved(s, size, max)
    requires forall p :: 0 <= p < |s.processes| ==> s.processes[p] == FRESH
    ensures s.queue == size && s.run == max
  {
    SumsOfFresh(s.processes);
  }

  /** Leaving keeps the slots conserved exactly for a process that runs. */
  lemma LeaveOnlyWhenRunning(s: State, p: nat, size: int, max: int)
    requires Conserved(s, size, max) && p < |s.processes| && s.processes[p].entering.No?
    ensures Conserved(Next(s, Leave(p)), size, max) <==> s.processes[p].running > 0
    ensures Next(s, Leave(p)).run == s.run + 1
  {
    var r := Next(s, Leave(p));
    assert Sound(s.processes[p]);
    if s.processes[p].running > 0 {
      ConservedByStep(s, Leave(p), size, max);
    } else {
      assert !Sound(r.processes[p]);
    }
  }

  /** A waiting process stays blocked only while some process holds a run slot. */
  lemma BlockedWhileRunning(s: State, p: nat, size: int, max: int) returns (q: nat)
    requires Conserved(s, size, max) && max >= 1 && p < |s.processes|
    requires s.processes[p].entering == Waiting(true) && Next(s, TakeRunSlot(p)) == s
    ensures q < |s.processes| && s.processes[q].running > 0
  {
    if s.run > 0 {
      assert false;
    }
    q := SomeoneRuns(s.processes);
  }

  /** No process enters a second time before it leaves. */
  predicate Single(s: State) {
    forall p :: 0 <= p < |s.processes| && s.processes[p].entering.Waiting? ==> s.processes[p].running == 0
  }

  /** Then some other process can leave, and its leaving or its exit lets the blocked one run. */
  lemma Unblocked(s: State, p: nat, size: int, max: int) returns (q: nat)
    requires Conserved(s, size, max) && Single(s) && max >= 1 && p < |s.processes|
    requires s.processes[p].entering.Waiting? && s.run == 0
    ensures q < |s.processes| && q != p && Orderly(s, Leave(q))
    ensures Next(Next(s, Leave(q)), TakeRunSlot(p)).processes[p].running == 1
    ensures Next(Next(s, Exit(q)), TakeRunSlot(p)).processes[p].running == 1
  {
    q := SomeoneRuns(s.processes);
    assert s.processes[p].running == 0;
  }

  // ----- enter without blocking -----

  /** Failed calls of enter(false), one after the other. */
  function Retries(s: State, p: nat, k: nat): State
    requires p < |s.processes|
    ensures |Retries(s, p, k).processes| == |s.processes|
  {
    if k == 0 then s else Next(Next(Retries(s, p, k - 1), TakeQueueSlot(p, false)), TakeRunSlot(p))
  }

  /** Every failed call keeps its queue slot, until the process exits. */
  lemma {:induction false} RetriesDrainQueue(s: State, p: nat, k: nat)
    requires p < |s.processes| && s.processes[p].entering.No? && s.run == 0 && k <= s.queue
    ensures var q := s.processes[p];
            Retries(s, p, k) == s.(queue := s.queue - k, processes := s.processes[p := q.(queued := q.queued + k)])
    ensures s.processes[p].queued >= 0 ==>
              Next(Retries(s, p, k), Exit(p)).queue == s.queue + s.processes[p].queued
  {
    if k > 0 {
      RetriesDrainQueue(s, p, k - 1);
    }
  }

  /** After as many as there are free queue slots, enter refuses every process. */
  lemma QueueDrained(s: State, p: nat, other: nat, block: bool)
    requires p < |s.processes| && other < |s.processes| && s.processes[p].entering.No?
    requires s.run == 0 && s.queue >= 0
    ensures var r := Retries(s, p, s.queue); Next(r, TakeQueueSlot(other, block)) == r
  {
    RetriesDrainQueue(s, p, s.queue);
  }
}
