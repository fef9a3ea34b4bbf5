/**
 What every run of the scheduler keeps: no inference task is lost or doubled; and when a task
 that waits for a slot can count on being woken up.
 */
module Scheduling {
  import opened Options
  import opened TaskQueue

  // ----- steps -----

  /** An id is handed out; tasks arrive; the main loop takes one, and processes it; a slot has finished. */
  datatype Step = NewId | Arrive(tasks: seq<Task>, front: bool) | Take | Handle(choice: Choice) | Finish(k: nat)

  predicate Enabled(s: State, step: Step) {
    match step
    case NewId => true
    case Arrive(_, _) => true
    case Take => s.inFlight == None && s.queue != []
    case Handle(choice) => s.inFlight != None && s.slots != [] && Offers(s.slots, choice.available)
    case Finish(k) => s.inFlight == None && IsBusy(s.slots, k)
  }

  function Next(s: State, step: Step): State
    requires Enabled(s, step)
  {
    match step
    case NewId => Issue(s)
    case Arrive(tasks, front) => PostAll(s, tasks, front)
    case Take => s.(inFlight := Some(s.queue[0]), queue := s.queue[1..])
    case Handle(choice) => Process(s, choice)
    case Finish(k) => Release(s, k)
  }

  /** The server starts with idle slots. */
  function Start(n: nat): State { State(0, [], [], None, seq(n, _ => None)) }

  // ----- where a task is -----

  function One(b: bool): nat { if b then 1 else 0 }

  /** How often the id x occurs among ids. */
  function Occurs(ids: seq<int>, x: int): nat {
    if ids == [] then 0 else One(ids[0] == x) + Occurs(ids[1..], x)
  }

  /** How often x is the id of an inference task or of one of its children, which wait with it. */
  function In(t: Task, x: int): nat {
    if t.kind == Inference then One(t.id == x) + Occurs(t.children, x) else 0
  }

  function InQueue(q: seq<Task>, x: int): nat {
    if q == [] then 0 else In(q[0], x) + InQueue(q[1..], x)
  }

  function InFlight(t: Option<Task>, x: int): nat {
    match t
    case None => 0
    case Some(task) => In(task, x)
  }

  function Runs(r: Option<Running>, x: int): nat {
    if r == None then 0 else One(r.value.id == x)
  }

  function InSlots(slots: seq<Option<Running>>, x: int): nat {
    if slots == [] then 0 else Runs(slots[0], x) + InSlots(slots[1..], x)
  }

  /** In how many places the task x waits for a slot. */
  function Waits(s: State, x: int): nat {
    InQueue(s.queue, x) + InQueue(s.deferred, x) + InFlight(s.inFlight, x)
  }

  /** In how many places the task x is. */
  function Places(s: State, x: int): nat {
    Waits(s, x) + InSlots(s.slots, x)
  }

  // ----- queues -----

  lemma {:induction false} InQueueAppend(a: seq<Task>, b: seq<Task>, x: int)
    ensures InQueue(a + b, x) == InQueue(a, x) + InQueue(b, x)
  {
    if a == [] {
      assert a + b == b;
    } else {
      assert (a + b)[1..] == a[1..] + b;
      InQueueAppend(a[1..], b, x);
    }
  }

  lemma InQueueOne(t: Task, x: int)
    ensures InQueue([t], x) == In(t, x)
  {
    assert [t][1..] == [];
  }

  lemma {:induction false} InQueueWithout(q: seq<Task>, i: nat, x: int)
    requires i < |q|
    ensures InQueue(q, x) == In(q[i], x) + InQueue(Without(q, i), x)
  {
    if i == 0 {
      assert Without(q, 0) == q[1..];
    } else {
      InQueueWithout(q[1..], i - 1, x);
      assert Without(q, i)[1..] == Without(q[1..], i - 1);
    }
  }

  /** How often x is in the tasks that a cancellation removes. */
  function InRemoved(q: seq<Task>, target: int, x: int): nat {
    if q == [] then 0 else (if q[0].id == target then In(q[0], x) else 0) + InRemoved(q[1..], target, x)
  }

  lemma {:induction false} InQueueKept(q: seq<Task>, target: int, x: int)
    ensures InQueue(q, x) == InQueue(Kept(q, target), x) + InRemoved(q, target, x)
  {
    if q != [] {
      InQueueKept(q[1..], target, x);
      assert ([q[0]] + Kept(q[1..], target))[1..] == Kept(q[1..], target);
    }
  }

  lemma {:induction false} InSlotsUpdate(slots: seq<Option<Running>>, k: nat, r: Option<Running>, x: int)
    requires k < |slots|
    ensures InSlots(slots, x) + Runs(r, x) == InSlots(slots[k := r], x) + Runs(slots[k], x)
  {
    if k == 0 {
      assert slots[0 := r][1..] == slots[1..];
    } else {
      assert slots[k := r][1..] == slots[1..][k - 1 := r];
      InSlotsUpdate(slots[1..], k - 1, r, x);
    }
  }

  /** Popping a deferred task moves it. */
  lemma PopDeferredMoves(s: State, idSlot: int, x: int)
    ensures Waits(PopDeferred(s, idSlot), x) == Waits(s, x) && PopDeferred(s, idSlot).slots == s.slots
  {
    if s.deferred != [] {
      var i := NextDeferred(s.deferred, idSlot);
      InQueueWithout(s.deferred, i, x);
      InQueueAppend([s.deferred[i]], s.queue, x);
      InQueueOne(s.deferred[i], x);
    }
  }

  /** Releasing a slot ends its task and nothing else. */
  lemma ReleaseEnds(s: State, k: nat, x: int)
    requires k < |s.slots|
    ensures Waits(Release(s, k), x) == Waits(s, x)
    ensures InSlots(s.slots, x) == InSlots(Release(s, k).slots, x) + Runs(s.slots[k], x)
    ensures Release(s, k).slots == s.slots[k := None]
  {
    if s.slots[k] != None {
      PopDeferredMoves(s.(slots := s.slots[k := None]), k, x);
      InSlotsUpdate(s.slots, k, None, x);
    } else {
      assert s.slots[k := None] == s.slots;
    }
  }

  // ----- arriving -----

  function EndedByPost(s: State, task: Task, x: int): nat {
    if task.kind == Cancel then InRemoved(s.queue, task.idTarget, x) + InRemoved(s.deferred, task.idTarget, x) else 0
  }

  lemma PostConserves(s: State, task: Task, front: bool, x: int)
    ensures Waits(Post(s, task, front), x) + EndedByPost(s, task, x) == Waits(s, x) + In(task, x)
    ensures Post(s, task, front).slots == s.slots && Post(s, task, front).inFlight == s.inFlight
  {
    var queue := if task.kind == Cancel then Kept(s.queue, task.idTarget) else s.queue;
    if task.kind == Cancel {
      InQueueKept(s.queue, task.idTarget, x);
      InQueueKept(s.deferred, task.idTarget, x);
    }
    InQueueOne(task, x);
    InQueueAppend([task], queue, x);
    InQueueAppend(queue, [task], x);
  }

  /** A task as it is posted: without an id it gets one. */
  function Number(s: State, task: Task): (State, Task) {
    if task.id == -1 then (s.(nextId := s.nextId + 1), task.(id := s.nextId)) else (s, task)
  }

  /** The tasks as they are posted. */
  function Numbered(s: State, tasks: seq<Task>): seq<Task>
    decreases |tasks|
  {
    if tasks == [] then [] else [Number(s, tasks[0]).1] + Numbered(Number(s, tasks[0]).0, tasks[1..])
  }

  function EndedByArrival(s: State, tasks: seq<Task>, front: bool, x: int): nat
    decreases |tasks|
  {
    if tasks == [] then 0
    else
      var (numbered, task) := Number(s, tasks[0]);
      EndedByPost(numbered, task, x) + EndedByArrival(Post(numbered, task, front), tasks[1..], front, x)
  }

  lemma {:induction false} ArrivalConserves(s: State, tasks: seq<Task>, front: bool, x: int)
    ensures Waits(PostAll(s, tasks, front), x) + EndedByArrival(s, tasks, front, x) == Waits(s, x) + InQueue(Numbered(s, tasks), x)
    ensures PostAll(s, tasks, front).slots == s.slots && PostAll(s, tasks, front).inFlight == s.inFlight
    decreases |tasks|
  {
    if tasks != [] {
      var (numbered, task) := Number(s, tasks[0]);
      PostConserves(numbered, task, front, x);
      ArrivalConserves(Post(numbered, task, front), tasks[1..], front, x);
      NumberedNext(numbered, Post(numbered, task, front), tasks[1..]);
      InQueueAppend([task], Numbered(numbered, tasks[1..]), x);
      InQueueOne(task, x);
    }
  }

  lemma {:induction false} NumberedNext(s: State, t: State, tasks: seq<Task>)
    requires s.nextId == t.nextId
    ensures Numbered(s, tasks) == Numbered(t, tasks)
    decreases |tasks|
  {
    if tasks != [] {
      NumberedNext(Number(s, tasks[0]).0, Number(t, tasks[0]).0, tasks[1..]);
    }
  }

  // ----- launching -----

  /** The slots are idle, and no two of them are the same. */
  predicate AllIdle(slots: seq<Option<Running>>, free: seq<nat>) {
    free != [] ==>
      && free[0] < |slots| && slots[free[0]] == None
      && (forall j | j in free[1..] :: j != free[0]) && AllIdle(slots, free[1..])
  }

  lemma {:induction false} FreeAreIdle(slots: seq<Option<Running>>, needed: nat, exclude: nat, k: nat)
    requires k <= |slots|
    ensures AllIdle(slots, FreeFrom(slots, needed, exclude, k))
    ensures forall j | j in FreeFrom(slots, needed, exclude, k) :: k <= j && j != exclude
    decreases |slots| - k
  {
    if k < |slots| && needed > 0 {
      if !IsBusy(slots, k) && k != exclude {
        FreeAreIdle(slots, needed - 1, exclude, k + 1);
        var rest := FreeFrom(slots, needed - 1, exclude, k + 1);
        assert ([k] + rest)[1..] == rest;
      } else {
        FreeAreIdle(slots, needed, exclude, k + 1);
      }
    }
  }

  lemma {:induction false} StillIdle(slots: seq<Option<Running>>, free: seq<nat>, k: nat, r: Option<Running>)
    requires AllIdle(slots, free) && k < |slots| && forall j | j in free :: j != k
    ensures AllIdle(slots[k := r], free)
    decreases |free|
  {
    if free != [] {
      assert free[0] in free && forall j | j in free[1..] :: j in free;
      StillIdle(slots, free[1..], k, r);
    }
  }

  /** How often x is among the children that are launched before one cannot be. */
  function Launched(children: seq<int>, launches: int -> bool, x: int): nat {
    if children == [] || !launches(children[0]) then 0 else One(children[0] == x) + Launched(children[1..], launches, x)
  }

  predicate AllLaunch(children: seq<int>, launches: int -> bool) {
    children == [] || (launches(children[0]) && AllLaunch(children[1..], launches))
  }

  lemma {:induction false} AllAreLaunched(children: seq<int>, launches: int -> bool, x: int)
    requires AllLaunch(children, launches)
    ensures Launched(children, launches, x) == Occurs(children, x)
  {
    if children != [] {
      AllAreLaunched(children[1..], launches, x);
    }
  }

  /** How often x runs in a slot of a family. */
  function FamilyRuns(slots: seq<Option<Running>>, parent: int, x: int): nat {
    if slots == [] then 0 else FamilyRun(slots[0], parent, x) + FamilyRuns(slots[1..], parent, x)
  }

  function FamilyRun(r: Option<Running>, parent: int, x: int): nat {
    if OfFamily(r, parent) then Runs(r, x) else 0
  }

  lemma {:induction false} FamilyRunsUpdate(slots: seq<Option<Running>>, k: nat, r: Option<Running>, parent: int, x: int)
    requires k < |slots|
    ensures FamilyRuns(slots, parent, x) + FamilyRun(r, parent, x) == FamilyRuns(slots[k := r], parent, x) + FamilyRun(slots[k], parent, x)
  {
    if k == 0 {
      assert slots[0 := r][1..] == slots[1..];
    } else {
      assert slots[k := r][1..] == slots[1..][k - 1 := r];
      FamilyRunsUpdate(slots[1..], k - 1, r, parent, x);
    }
  }

  /** Launching children puts each of them into a slot of its own. */
  lemma {:induction false} LaunchingPlaces(s: State, free: seq<nat>, children: seq<int>, parent: int, launches: int -> bool, x: int)
    requires |free| == |children| && InRange(free, |s.slots|) && AllIdle(s.slots, free)
    ensures var (t, ok) := LaunchChildren(s, free, children, parent, launches);
      && ok == AllLaunch(children, launches) && t == s.(slots := t.slots) && |t.slots| == |s.slots|
      && InSlots(t.slots, x) == InSlots(s.slots, x) + Launched(children, launches, x)
      && FamilyRuns(t.slots, parent, x) == FamilyRuns(s.slots, parent, x) + Launched(children, launches, x)
    decreases |free|
  {
    if free != [] && launches(children[0]) {
      var r := Some(Running(children[0], parent));
      InSlotsUpdate(s.slots, free[0], r, x);
      FamilyRunsUpdate(s.slots, free[0], r, parent, x);
      StillIdle(s.slots, free[1..], free[0], r);
      LaunchingPlaces(Occupy(s, free[0], r.value), free[1..], children[1..], parent, launches, x);
    }
  }

  /** Which slots launching changes, and to what. */
  lemma {:induction false} LaunchingKeeps(s: State, free: seq<nat>, children: seq<int>, parent: int, launches: int -> bool, j: nat)
    requires |free| == |children| && InRange(free, |s.slots|) && j < |s.slots|
    ensures var t := LaunchChildren(s, free, children, parent, launches).0;
      && |t.slots| == |s.slots| && (j !in free ==> t.slots[j] == s.slots[j])
      && (t.slots[j] == s.slots[j] || (t.slots[j] != None && t.slots[j].value.parent == parent))
    decreases |free|
  {
    if free != [] && launches(children[0]) {
      assert free[0] in free && forall i | i in free[1..] :: i in free;
      LaunchingKeeps(Occupy(s, free[0], Running(children[0], parent)), free[1..], children[1..], parent, launches, j);
    }
  }

  // ----- releasing a family -----

  /** How often x runs in a slot of a family, from slot k on. */
  function FamilyRunsFrom(slots: seq<Option<Running>>, parent: int, x: int, k: nat): nat
    requires k <= |slots|
    decreases |slots| - k
  {
    if k == |slots| then 0 else FamilyRun(slots[k], parent, x) + FamilyRunsFrom(slots, parent, x, k + 1)
  }

  lemma {:induction false} FamilyRunsFromIs(slots: seq<Option<Running>>, parent: int, x: int, k: nat)
    requires k <= |slots|
    ensures FamilyRunsFrom(slots, parent, x, k) == FamilyRuns(slots[k..], parent, x)
    decreases |slots| - k
  {
    if k < |slots| {
      assert slots[k..][1..] == slots[k + 1..];
      FamilyRunsFromIs(slots, parent, x, k + 1);
    }
  }

  lemma {:induction false} FamilyRunsLater(slots: seq<Option<Running>>, parent: int, x: int, k: nat, i: nat, r: Option<Running>)
    requires i < k <= |slots|
    ensures FamilyRunsFrom(slots[i := r], parent, x, k) == FamilyRunsFrom(slots, parent, x, k)
    decreases |slots| - k
  {
    if k < |slots| {
      FamilyRunsLater(slots, parent, x, k + 1, i, r);
    }
  }

  /** Releasing a family ends its tasks and nothing else. */
  lemma {:induction false} FamilyEnds(s: State, parent: int, k: nat, x: int)
    requires k <= |s.slots|
    ensures var t := ReleaseFamily(s, parent, k);
      && Waits(t, x) == Waits(s, x) && |t.slots| == |s.slots|
      && InSlots(s.slots, x) == InSlots(t.slots, x) + FamilyRunsFrom(s.slots, parent, x, k)
    decreases |s.slots| - k
  {
    if k < |s.slots| {
      if OfFamily(s.slots[k], parent) {
        ReleaseEnds(s, k, x);
        FamilyRunsLater(s.slots, parent, x, k + 1, k, None);
        FamilyEnds(Release(s, k), parent, k + 1, x);
      } else {
        FamilyEnds(s, parent, k + 1, x);
      }
    }
  }

  /** After that no slot is of the family, and the others are as they were. */
  lemma {:induction false} FamilyIsGone(s: State, parent: int, k: nat, j: nat)
    requires k <= |s.slots| && j < |s.slots|
    ensures var t := ReleaseFamily(s, parent, k);
      && |t.slots| == |s.slots|
      && t.slots[j] == if j >= k && OfFamily(s.slots[j], parent) then None else s.slots[j]
    decreases |s.slots| - k
  {
    if k < |s.slots| {
      if OfFamily(s.slots[k], parent) {
        ReleaseEnds(s, k, 0);
        FamilyIsGone(Release(s, k), parent, k + 1, j);
      } else {
        FamilyIsGone(s, parent, k + 1, j);
      }
    }
  }

  // ----- one step -----

  /** No slot runs the task or a child of it. */
  ghost predicate NoneOfFamily(slots: seq<Option<Running>>, parent: int) {
    forall k | 0 <= k < |slots| :: !OfFamily(slots[k], parent)
  }

  lemma {:induction false} NoFamilyRuns(slots: seq<Option<Running>>, parent: int, x: int)
    requires NoneOfFamily(slots, parent)
    ensures FamilyRuns(slots, parent, x) == 0
  {
    if slots != [] {
      assert !OfFamily(slots[0], parent);
      assert forall k | 0 <= k < |slots[1..]| :: slots[1..][k] == slots[k + 1];
      NoFamilyRuns(slots[1..], parent, x);
    }
  }

  /** How often x is ended when a task with children is to be launched. */
  function EndedByFamily(s: State, k: nat, task: Task, launches: int -> bool, x: int): nat
    requires k < |s.slots|
  {
    if |FreeFrom(s.slots, |task.children|, k, 0)| < |task.children| then 0
    else if AllLaunch(task.children, launches) && launches(task.id) then 0
    else In(task, x)
  }

  /** A task with children is deferred, is launched as a whole, or ends as a whole. */
  lemma FamilyConserves(s: State, k: nat, task: Task, launches: int -> bool, x: int)
    requires k < |s.slots| && s.slots[k] == None && task.kind == Inference && NoneOfFamily(s.slots, task.id)
    ensures var t := LaunchFamily(s, k, task, launches);
      && Places(t, x) + EndedByFamily(s, k, task, launches, x) == Places(s, x) + In(task, x)
      && Waits(t, x) <= Waits(s, x) + In(task, x) && |t.slots| == |s.slots|
  {
    var free := FreeFrom(s.slots, |task.children|, k, 0);
    if |free| < |task.children| {
      InQueueAppend(s.deferred, [task], x);
      InQueueOne(task, x);
    } else {
      FreeAreSlots(s.slots, |task.children|, k, 0);
      FreeAreIdle(s.slots, |task.children|, k, 0);
      LaunchingPlaces(s, free, task.children, task.id, launches, x);
      LaunchingKeeps(s, free, task.children, task.id, launches, k);
      var t := LaunchChildren(s, free, task.children, task.id, launches).0;
      if AllLaunch(task.children, launches) && launches(task.id) {
        AllAreLaunched(task.children, launches, x);
        InSlotsUpdate(t.slots, k, Some(Running(task.id, -1)), x);
      } else {
        FamilyEnds(t, task.id, 0, x);
        FamilyRunsFromIs(t.slots, task.id, x, 0);
        assert t.slots[0..] == t.slots;
        NoFamilyRuns(s.slots, task.id, x);
      }
    }
  }

  /** How often x is ended when the task that was taken is processed. */
  function EndedByHandling(s: State, choice: Choice, x: int): nat
    requires Enabled(s, Handle(choice))
  {
    var task := s.inFlight.value;
    match task.kind
    case Other => 0
    case Cancel =>
      var k := SlotOf(s.slots, task.idTarget);
      if k < |s.slots| then Runs(s.slots[k], x) else 0
    case SlotAction => 0
    case Inference =>
      var k := if task.idSlot != -1 then SlotById(|s.slots|, task.idSlot) else choice.available;
      if task.cli && !choice.tokenizes then In(task, x)
      else if k == -1 || IsBusy(s.slots, k) then 0
      else if task.children != [] then EndedByFamily(s.(inFlight := None), k, task, choice.launches, x)
      else if choice.launches(task.id) then 0
      else In(task, x)
  }

  lemma HandlingConserves(s: State, choice: Choice, x: int)
    requires Enabled(s, Handle(choice))
    requires s.inFlight.value.kind == Inference ==> NoneOfFamily(s.slots, s.inFlight.value.id)
    ensures Places(Process(s, choice), x) + EndedByHandling(s, choice, x) == Places(s, x)
    ensures Waits(Process(s, choice), x) <= Waits(s, x)
  {
    var task, t := s.inFlight.value, s.(inFlight := None);
    InQueueAppend(t.deferred, [task], x);
    InQueueOne(task, x);
    match task.kind
    case Other =>
    case Cancel =>
      var k := SlotOf(t.slots, task.idTarget);
      if k < |t.slots| {
        ReleaseEnds(t, k, x);
      }
    case SlotAction =>
    case Inference =>
      var k := if task.idSlot != -1 then SlotById(|t.slots|, task.idSlot) else choice.available;
      if !(task.cli && !choice.tokenizes) && k != -1 && !IsBusy(t.slots, k) {
        if task.children != [] {
          FamilyConserves(t, k, task, choice.launches, x);
        } else if choice.launches(task.id) {
          InSlotsUpdate(t.slots, k, Some(Running(task.id, -1)), x);
        }
      }
  }

  /** How often x arrives with a step, and how often x is ended by it. */
  function Arrives(s: State, step: Step, x: int): nat {
    match step
    case Arrive(tasks, _) => InQueue(Numbered(s, tasks), x)
    case _ => 0
  }

  function Ends(s: State, step: Step, x: int): nat
    requires Enabled(s, step)
  {
    match step
    case NewId => 0
    case Arrive(tasks, front) => EndedByArrival(s, tasks, front, x)
    case Take => 0
    case Handle(choice) => EndedByHandling(s, choice, x)
    case Finish(k) => Runs(s.slots[k], x)
  }

  ghost predicate Unrelated(s: State) {
    s.inFlight != None && s.inFlight.value.kind == Inference ==> NoneOfFamily(s.slots, s.inFlight.value.id)
  }

  /** Whatever a step does, what arrives with it is added, what it ends is gone, and all else is still there. */
  lemma StepConserves(s: State, step: Step, x: int)
    requires Enabled(s, step) && Unrelated(s)
    ensures Places(Next(s, step), x) + Ends(s, step, x) == Places(s, x) + Arrives(s, step, x)
    ensures Waits(Next(s, step), x) <= Waits(s, x) + Arrives(s, step, x)
  {
    match step
    case NewId =>
    case Arrive(tasks, front) => ArrivalConserves(s, tasks, front, x);
    case Take =>
    case Handle(choice) => HandlingConserves(s, choice, x);
    case Finish(k) => ReleaseEnds(s, k, x);
  }

  // ----- every run -----

  /** The ids of inference tasks and their children. */
  function IdsOf(q: seq<Task>): set<int> {
    if q == [] then {}
    else (if q[0].kind == Inference then {q[0].id} + (set i | 0 <= i < |q[0].children| :: q[0].children[i]) else {}) + IdsOf(q[1..])
  }

  lemma {:induction false} OccursIsIn(ids: seq<int>, x: int)
    requires Occurs(ids, x) > 0
    ensures x in ids
  {
    if ids[0] != x {
      OccursIsIn(ids[1..], x);
    }
  }

  lemma {:induction false} InQueueIsId(q: seq<Task>, x: int)
    requires InQueue(q, x) > 0
    ensures x in IdsOf(q)
  {
    if q != [] {
      if In(q[0], x) > 0 {
        if q[0].id != x {
          OccursIsIn(q[0].children, x);
        }
      } else {
        InQueueIsId(q[1..], x);
      }
    }
  }

  function ArrivingIds(s: State, step: Step): set<int> {
    match step
    case Arrive(tasks, _) => IdsOf(Numbered(s, tasks))
    case _ => {}
  }

  /** Tasks that arrive have ids that were never used before, and no id twice. */
  ghost predicate Fresh(s: State, step: Step, used: set<int>) {
    && (forall x | x in ArrivingIds(s, step) :: x !in used && x != -1)
    && forall x: int :: Arrives(s, step, x) <= 1
  }

  /**
   Each task is in at most one place, and has been seen before; a child runs only after its
   parent has stopped to wait.
   */
  ghost predicate Sound(s: State, used: set<int>) {
    && (forall x: int :: Places(s, x) <= 1)
    && (forall x: int | Places(s, x) > 0 :: x in used && x != -1)
    && forall k | 0 <= k < |s.slots| && s.slots[k] != None :: ParentIsGone(s, used, s.slots[k].value.parent)
  }

  ghost predicate ParentIsGone(s: State, used: set<int>, parent: int) {
    parent != -1 ==> parent in used && Waits(s, parent) == 0
  }

  lemma {:induction false} BusyIsPlace(slots: seq<Option<Running>>, k: nat)
    requires k < |slots| && slots[k] != None
    ensures InSlots(slots, slots[k].value.id) >= 1
  {
    if k > 0 {
      BusyIsPlace(slots[1..], k - 1);
    }
  }

  lemma SoundIsUnrelated(s: State, used: set<int>)
    requires Sound(s, used)
    ensures Unrelated(s)
  {
    if s.inFlight != None && s.inFlight.value.kind == Inference {
      var id := s.inFlight.value.id;
      assert Waits(s, id) >= 1 && Places(s, id) >= 1;
      forall k | 0 <= k < |s.slots|
        ensures !OfFamily(s.slots[k], id)
      {
        if s.slots[k] != None {
          BusyIsPlace(s.slots, k);
          assert ParentIsGone(s, used, s.slots[k].value.parent);
        }
      }
    }
  }

  /** What a slot may run after a family was to be launched. */
  lemma FamilySlots(s: State, k: nat, task: Task, launches: int -> bool, j: nat)
    requires k < |s.slots| && j < |s.slots| && s.slots[k] == None
    ensures var t := LaunchFamily(s, k, task, launches);
      && |t.slots| == |s.slots|
      && (|| t.slots[j] == s.slots[j] || t.slots[j] == None || t.slots[j].value.parent == -1
          || (t.slots[j].value.parent == task.id && t.slots[k] == Some(Running(task.id, -1))))
  {
    var free := FreeFrom(s.slots, |task.children|, k, 0);
    if |free| == |task.children| {
      FreeAreSlots(s.slots, |task.children|, k, 0);
      LaunchKeepsSlots(s, free, task.children, task.id, launches);
      LaunchingKeeps(s, free, task.children, task.id, launches, j);
      var (t, ok) := LaunchChildren(s, free, task.children, task.id, launches);
      if !(ok && launches(task.id)) {
        FamilyIsGone(t, task.id, 0, j);
      }
    } else {
      FreeAreSlots(s.slots, |task.children|, k, 0);
    }
  }

  lemma HandlingSlots(s: State, choice: Choice, j: nat)
    requires Enabled(s, Handle(choice)) && j < |s.slots|
    ensures var t, id := Process(s, choice), s.inFlight.value.id;
      && |t.slots| == |s.slots|
      && (|| t.slots[j] == s.slots[j] || t.slots[j] == None || t.slots[j].value.parent == -1
          || (t.slots[j].value.parent == id && exists k | 0 <= k < |t.slots| :: t.slots[k] == Some(Running(id, -1))))
  {
    var task, t := s.inFlight.value, s.(inFlight := None);
    match task.kind
    case Other =>
    case Cancel =>
      var k := SlotOf(t.slots, task.idTarget);
      if k < |t.slots| {
        ReleaseEnds(t, k, 0);
      }
    case SlotAction =>
    case Inference =>
      var k := if task.idSlot != -1 then SlotById(|t.slots|, task.idSlot) else choice.available;
      if !(task.cli && !choice.tokenizes) && k != -1 && !IsBusy(t.slots, k) && task.children != [] {
        FamilySlots(t, k, task, choice.launches, j);
      }
  }

  lemma StepSlots(s: State, step: Step, j: nat)
    requires Enabled(s, step) && j < |s.slots|
    ensures var t := Next(s, step);
      && |t.slots| == |s.slots|
      && (|| t.slots[j] == s.slots[j] || t.slots[j] == None || t.slots[j].value.parent == -1
          || (s.inFlight != None && t.slots[j].value.parent == s.inFlight.value.id
              && exists k | 0 <= k < |t.slots| :: t.slots[k] == Some(Running(s.inFlight.value.id, -1))))
  {
    match step
    case NewId =>
    case Arrive(tasks, front) => ArrivalConserves(s, tasks, front, 0);
    case Take =>
    case Handle(choice) => HandlingSlots(s, choice, j);
    case Finish(k) => ReleaseEnds(s, k, 0);
  }

  lemma ArrivingIsId(s: State, step: Step, x: int)
    requires Arrives(s, step, x) > 0
    ensures x in ArrivingIds(s, step)
  {
    match step
    case Arrive(tasks, _) => InQueueIsId(Numbered(s, tasks), x);
    case _ =>
  }

  lemma StepPlaces(s: State, step: Step, used: set<int>, x: int)
    requires Enabled(s, step) && Sound(s, used) && Fresh(s, step, used)
    ensures Places(Next(s, step), x) <= 1
    ensures Places(Next(s, step), x) > 0 ==> x in used + ArrivingIds(s, step) && x != -1
    ensures x in used ==> Waits(Next(s, step), x) <= Waits(s, x)
  {
    SoundIsUnrelated(s, used);
    StepConserves(s, step, x);
    if Arrives(s, step, x) > 0 {
      ArrivingIsId(s, step, x);
    }
    assert Places(s, x) <= 1 && Arrives(s, step, x) <= 1;
  }

  /** Every step keeps every task in one place. */
  lemma StepKeepsSound(s: State, step: Step, used: set<int>)
    requires Enabled(s, step) && Sound(s, used) && Fresh(s, step, used)
    ensures Sound(Next(s, step), used + ArrivingIds(s, step))
  {
    var t, after := Next(s, step), used + ArrivingIds(s, step);
    forall x: int
      ensures Places(t, x) <= 1 && (Places(t, x) > 0 ==> x in after && x != -1)
    {
      StepPlaces(s, step, used, x);
    }
    forall k | 0 <= k < |t.slots| && t.slots[k] != None
      ensures ParentIsGone(t, after, t.slots[k].value.parent)
    {
      SlotsStay(s, step);
      StepSlots(s, step, k);
      var parent := t.slots[k].value.parent;
      if parent != -1 {
        if t.slots[k] == s.slots[k] {
          assert ParentIsGone(s, used, parent);
          StepPlaces(s, step, used, parent);
        } else {
          var i :| 0 <= i < |t.slots| && t.slots[i] == Some(Running(parent, -1));
          BusyIsPlace(t.slots, i);
          assert Places(t, parent) <= 1;
        }
      }
    }
  }

  lemma SlotsStay(s: State, step: Step)
    requires Enabled(s, step)
    ensures |Next(s, step).slots| == |s.slots|
  {
    if s.slots != [] {
      StepSlots(s, step, 0);
    } else {
      match step
      case Arrive(tasks, front) => ArrivalConserves(s, tasks, front, 0);
      case _ =>
    }
  }

  /** A run from a state, in which each step is possible and ids are fresh. */
  ghost predicate IsRun(s: State, steps: seq<Step>, used: set<int>)
    decreases |steps|
  {
    steps != [] ==>
      Enabled(s, steps[0]) && Fresh(s, steps[0], used)
      && IsRun(Next(s, steps[0]), steps[1..], used + ArrivingIds(s, steps[0]))
  }

  function After(s: State, steps: seq<Step>): State
    decreases |steps|
  {
    if steps != [] && Enabled(s, steps[0]) then After(Next(s, steps[0]), steps[1..]) else s
  }

  /** How often x has arrived in a run, and how often x was ended. */
  function Arrived(s: State, steps: seq<Step>, x: int): nat
    decreases |steps|
  {
    if steps != [] && Enabled(s, steps[0]) then Arrives(s, steps[0], x) + Arrived(Next(s, steps[0]), steps[1..], x) else 0
  }

  function Ended(s: State, steps: seq<Step>, x: int): nat
    decreases |steps|
  {
    if steps != [] && Enabled(s, steps[0]) then Ends(s, steps[0], x) + Ended(Next(s, steps[0]), steps[1..], x) else 0
  }

  /**
   In every run, a task that has arrived and was not ended is in exactly one place: in the main
   queue, deferred, in flight, or in a slot.
   */
  lemma {:induction false} TasksAreConserved(s: State, steps: seq<Step>, used: set<int>, x: int)
    requires Sound(s, used) && IsRun(s, steps, used)
    ensures Places(After(s, steps), x) + Ended(s, steps, x) == Places(s, x) + Arrived(s, steps, x)
    ensures Places(After(s, steps), x) <= 1
    decreases |steps|
  {
    assert Places(s, x) <= 1;
    if steps != [] {
      SoundIsUnrelated(s, used);
      StepConserves(s, steps[0], x);
      StepKeepsSound(s, steps[0], used);
      TasksAreConserved(Next(s, steps[0]), steps[1..], used + ArrivingIds(s, steps[0]), x);
    }
  }

  lemma {:induction false} NothingAtFirst(n: nat, x: int)
    ensures Places(Start(n), x) == 0
  {
    if n > 0 {
      var none: Option<Running> := None;
      assert seq(n, _ => none)[1..] == seq(n - 1, _ => none);
      NothingAtFirst(n - 1, x);
    }
  }

  // ----- where fresh ids come from -----

  /** The ids that are handed out and not yet used by a task that has been posted. */
  function HandedOut(s: State, step: Step, handed: set<int>): set<int> {
    match step
    case NewId => handed + {s.nextId}
    case Arrive(tasks, _) => handed - IdsOf(tasks)
    case _ => handed
  }

  /** Tasks that arrive have no id yet, or one that was handed out; children always have one. */
  ghost predicate UsesHandedOut(step: Step, handed: set<int>) {
    match step
    case Arrive(tasks, _) =>
      && (forall t | t in tasks :: -1 !in t.children)
      && forall x: int | x != -1 :: InQueue(tasks, x) <= One(x in handed)
    case _ => true
  }

  /** Whatever has an id, or will have one that is handed out, has it from the counter. */
  ghost predicate Issued(s: State, used: set<int>, handed: set<int>) {
    && 0 <= s.nextId && used !! handed
    && (forall x | x in used :: 0 <= x < s.nextId) && (forall x | x in handed :: 0 <= x < s.nextId)
  }

  /** The ids that a task is posted with, up to the one that it may be given. */
  lemma {:induction false} NumberedCounts(s: State, tasks: seq<Task>, x: int)
    requires 0 <= s.nextId && x != -1 && forall t | t in tasks :: -1 !in t.children
    requires forall y: int | y >= s.nextId :: InQueue(tasks, y) == 0
    ensures x < s.nextId ==> InQueue(Numbered(s, tasks), x) == InQueue(tasks, x)
    ensures s.nextId <= x ==> InQueue(Numbered(s, tasks), x) <= 1
    ensures PostedId(s, tasks) >= s.nextId && (x >= PostedId(s, tasks) ==> InQueue(Numbered(s, tasks), x) == 0)
    decreases |tasks|
  {
    if tasks != [] {
      var next, task := Number(s, tasks[0]).0, Number(s, tasks[0]).1;
      assert tasks == [tasks[0]] + tasks[1..];
      forall y: int | y >= next.nextId
        ensures InQueue(tasks[1..], y) == 0
      {
        assert InQueue(tasks, y) == 0;
      }
      NumberedCounts(next, tasks[1..], x);
      assert ([task] + Numbered(next, tasks[1..]))[1..] == Numbered(next, tasks[1..]);
      if x >= s.nextId {
        assert InQueue(tasks, x) == 0;
      }
    }
  }

  /** The counter after tasks have been posted. */
  function PostedId(s: State, tasks: seq<Task>): int
    decreases |tasks|
  {
    if tasks == [] then s.nextId else PostedId(Number(s, tasks[0]).0, tasks[1..])
  }

  lemma {:induction false} PostedIdIs(s: State, t: State, tasks: seq<Task>, front: bool)
    requires s.nextId == t.nextId
    ensures PostAll(s, tasks, front).nextId == PostedId(t, tasks)
    decreases |tasks|
  {
    if tasks != [] {
      var (numbered, task) := Number(s, tasks[0]);
      PostedIdIs(Post(numbered, task, front), Number(t, tasks[0]).0, tasks[1..], front);
    }
  }

  lemma {:induction false} IdIsInQueue(q: seq<Task>, x: int)
    requires x in IdsOf(q)
    ensures InQueue(q, x) > 0
  {
    if x !in IdsOf(q[1..]) {
      if q[0].id != x {
        IsOccurring(q[0].children, x);
      }
    } else {
      IdIsInQueue(q[1..], x);
    }
  }

  lemma {:induction false} IsOccurring(ids: seq<int>, x: int)
    requires x in ids
    ensures Occurs(ids, x) > 0
  {
    if ids[0] != x {
      IsOccurring(ids[1..], x);
    }
  }

  /** What has been handed out is fresh when it arrives: no assumption about ids is needed. */
  lemma HandedOutIsFresh(s: State, step: Step, used: set<int>, handed: set<int>)
    requires Issued(s, used, handed) && Enabled(s, step) && UsesHandedOut(step, handed)
    ensures Fresh(s, step, used)
    ensures Issued(Next(s, step), used + ArrivingIds(s, step), HandedOut(s, step, handed))
  {
    match step
    case NewId =>
    case Arrive(tasks, front) =>
      forall y: int | y >= s.nextId
        ensures InQueue(tasks, y) == 0
      {
        assert InQueue(tasks, y) <= One(y in handed);
      }
      PostedIdIs(s, s, tasks, front);
      NumberedCounts(s, tasks, 0);
      forall x | x in ArrivingIds(s, step)
        ensures x !in used && x != -1 && 0 <= x < PostedId(s, tasks) && x !in handed - IdsOf(tasks)
      {
        ArrivingIsPosted(s, tasks, handed, x);
      }
      forall x: int
        ensures Arrives(s, step, x) <= 1
      {
        if x == -1 {
          NoNegativeId(s, tasks);
        } else {
          NumberedCounts(s, tasks, x);
          assert InQueue(tasks, x) <= One(x in handed);
        }
      }
    case Take =>
    case Handle(choice) => SameCounter(s, choice);
    case Finish(k) =>
  }

  lemma ArrivingIsPosted(s: State, tasks: seq<Task>, handed: set<int>, x: int)
    requires 0 <= s.nextId && UsesHandedOut(Arrive(tasks, true), handed) && x in IdsOf(Numbered(s, tasks))
    requires forall y | y in handed :: 0 <= y < s.nextId
    requires forall y: int | y >= s.nextId :: InQueue(tasks, y) == 0
    ensures 0 <= x < PostedId(s, tasks) && (x < s.nextId ==> x in handed && x in IdsOf(tasks))
  {
    IdIsInQueue(Numbered(s, tasks), x);
    NoNegativeId(s, tasks);
    NumberedCounts(s, tasks, x);
    if x < s.nextId {
      assert InQueue(tasks, x) <= One(x in handed);
      InQueueIsId(tasks, x);
    }
  }

  lemma {:induction false} NoNegativeId(s: State, tasks: seq<Task>)
    requires 0 <= s.nextId && forall t | t in tasks :: -1 !in t.children
    ensures InQueue(Numbered(s, tasks), -1) == 0
    decreases |tasks|
  {
    if tasks != [] {
      var next, task := Number(s, tasks[0]).0, Number(s, tasks[0]).1;
      NoNegativeId(next, tasks[1..]);
      assert tasks[0] in tasks;
      if Occurs(task.children, -1) > 0 {
        OccursIsIn(task.children, -1);
      }
      assert ([task] + Numbered(next, tasks[1..]))[1..] == Numbered(next, tasks[1..]);
    }
  }

  lemma SameCounter(s: State, choice: Choice)
    requires Enabled(s, Handle(choice))
    ensures Process(s, choice).nextId == s.nextId
  {
    var task, t := s.inFlight.value, s.(inFlight := None);
    if task.kind == Inference && task.children != [] {
      var k := if task.idSlot != -1 then SlotById(|t.slots|, task.idSlot) else choice.available;
      if k != -1 && k < |t.slots| {
        FamilyKeepsCounter(t, k, task, choice.launches);
      }
    }
  }

  lemma FamilyKeepsCounter(s: State, k: nat, task: Task, launches: int -> bool)
    requires k < |s.slots|
    ensures LaunchFamily(s, k, task, launches).nextId == s.nextId
  {
    var free := FreeFrom(s.slots, |task.children|, k, 0);
    FreeAreSlots(s.slots, |task.children|, k, 0);
    if |free| == |task.children| {
      LaunchingKeepsCounter(s, free, task.children, task.id, launches);
      ReleasingKeepsCounter(LaunchChildren(s, free, task.children, task.id, launches).0, task.id, 0);
    }
  }

  lemma {:induction false} LaunchingKeepsCounter(s: State, free: seq<nat>, children: seq<int>, parent: int, launches: int -> bool)
    requires |free| == |children| && InRange(free, |s.slots|)
    ensures LaunchChildren(s, free, children, parent, launches).0.nextId == s.nextId
    decreases |free|
  {
    if free != [] && launches(children[0]) {
      LaunchingKeepsCounter(Occupy(s, free[0], Running(children[0], parent)), free[1..], children[1..], parent, launches);
    }
  }

  lemma {:induction false} ReleasingKeepsCounter(s: State, parent: int, k: nat)
    requires k <= |s.slots|
    ensures ReleaseFamily(s, parent, k).nextId == s.nextId
    decreases |s.slots| - k
  {
    if k < |s.slots| {
      ReleasingKeepsCounter(if OfFamily(s.slots[k], parent) then Release(s, k) else s, parent, k + 1);
    }
  }

  /** A run in which all ids are handed out by the counter. */
  ghost predicate IsIssuedRun(s: State, steps: seq<Step>, handed: set<int>)
    decreases |steps|
  {
    steps != [] ==>
      Enabled(s, steps[0]) && UsesHandedOut(steps[0], handed)
      && IsIssuedRun(Next(s, steps[0]), steps[1..], HandedOut(s, steps[0], handed))
  }

  lemma {:induction false} IssuedIsRun(s: State, steps: seq<Step>, used: set<int>, handed: set<int>)
    requires Issued(s, used, handed) && IsIssuedRun(s, steps, handed)
    ensures IsRun(s, steps, used)
    decreases |steps|
  {
    if steps != [] {
      HandedOutIsFresh(s, steps[0], used, handed);
      IssuedIsRun(Next(s, steps[0]), steps[1..], used + ArrivingIds(s, steps[0]), HandedOut(s, steps[0], handed));
    }
  }

  /** From the start, a task is in as many places as it has arrived and not ended, and in one at most. */
  lemma EveryRunConserves(n: nat, steps: seq<Step>, x: int)
    requires IsIssuedRun(Start(n), steps, {})
    ensures Places(After(Start(n), steps), x) == Arrived(Start(n), steps, x) - Ended(Start(n), steps, x)
    ensures Places(After(Start(n), steps), x) <= 1
  {
    var start := Start(n);
    forall y: int
      ensures Places(start, y) == 0
    {
      NothingAtFirst(n, y);
    }
    IssuedIsRun(start, steps, {}, {});
    TasksAreConserved(start, steps, {}, x);
  }

  // ----- the program takes these steps -----

  /** What the scheduler does in a step is the step. */
  method Perform(scheduler: Scheduler, step: Step) returns (newId: Option<int>)
    requires Enabled(scheduler.Snapshot(), step)
    modifies scheduler, scheduler.queue
    ensures scheduler.Snapshot() == Next(old(scheduler.Snapshot()), step)
    ensures newId == if step == NewId then Some(old(scheduler.Snapshot()).nextId) else None
  {
    newId := None;
    match step
    case NewId =>
      var id := scheduler.queue.GetNewId(scheduler.Snapshot());
      newId := Some(id);
    case Arrive(tasks, front) => scheduler.queue.PostTasks(tasks, front, scheduler.Snapshot());
    case Take => scheduler.TakeTask();
    case Handle(choice) => scheduler.ProcessSingleTask(choice);
    case Finish(k) => scheduler.ReleaseSlot(k);
  }

  /** A server with idle slots, through any run whose ids come from its counter: no task is lost or doubled. */
  method RunFromTheStart(n: nat, steps: seq<Step>) returns (scheduler: Scheduler)
    requires IsIssuedRun(Start(n), steps, {})
    ensures fresh(scheduler) && fresh(scheduler.queue)
    ensures scheduler.Snapshot() == After(Start(n), steps)
    ensures forall x :: Places(scheduler.Snapshot(), x) == Arrived(Start(n), steps, x) - Ended(Start(n), steps, x)
  {
    scheduler := new Scheduler(n);
    PerformAll(scheduler, steps, {});
    forall x
      ensures Places(scheduler.Snapshot(), x) == Arrived(Start(n), steps, x) - Ended(Start(n), steps, x)
    {
      EveryRunConserves(n, steps, x);
    }
  }

  method PerformAll(scheduler: Scheduler, steps: seq<Step>, ghost handed: set<int>)
    requires IsIssuedRun(scheduler.Snapshot(), steps, handed)
    modifies scheduler, scheduler.queue
    ensures scheduler.Snapshot() == After(old(scheduler.Snapshot()), steps)
    decreases |steps|
  {
    if steps != [] {
      ghost var s := scheduler.Snapshot();
      var _ := Perform(scheduler, steps[0]);
      PerformAll(scheduler, steps[1..], HandedOut(s, steps[0], handed));
    }
  }
}
