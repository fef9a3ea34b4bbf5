/**
 The scheduling of tasks: the main queue, the deferred queue, the task that the main loop has
 taken, and the slots. Each operation that holds the lock of the queue is one step.
 */
module TaskQueue {
  import opened Options

  /** Inference tasks occupy slots; slot actions wait for a slot but do not occupy it. */
  datatype Kind = Inference | Cancel | SlotAction | Other

  datatype Task = Task(
    kind: Kind, id: int, idSlot: int, idTarget: int, actionSlot: int, children: seq<int>, cli: bool)

  /** What a slot is busy with: a task, and its parent or -1. */
  datatype Running = Running(id: int, parent: int)

  /** Where tasks are. */
  datatype State = State(nextId: int, queue: seq<Task>, deferred: seq<Task>, inFlight: Option<Task>, slots: seq<Option<Running>>)

  // ----- the queues -----

  function Without<T>(q: seq<T>, i: nat): seq<T>
    requires i < |q|
  {
    q[..i] + q[i + 1..]
  }

  /** The tasks that a cancellation of `target` leaves. */
  function Kept(q: seq<Task>, target: int): seq<Task> {
    if q == [] then []
    else if q[0].id == target then Kept(q[1..], target)
    else [q[0]] + Kept(q[1..], target)
  }

  /** Where the first deferred task for a slot is, or just the first one. */
  function NextDeferred(q: seq<Task>, idSlot: int): (i: nat)
    requires q != []
    ensures i < |q|
  {
    var i := FirstFor(q, idSlot);
    if i < |q| then i else 0
  }

  function FirstFor(q: seq<Task>, idSlot: int): (i: nat)
    ensures i <= |q|
  {
    if q == [] then 0 else if q[0].idSlot == idSlot then 0 else 1 + FirstFor(q[1..], idSlot)
  }

  lemma {:induction false} FirstForIs(q: seq<Task>, idSlot: int)
    ensures var i := FirstFor(q, idSlot);
      (i < |q| ==> q[i].idSlot == idSlot) && forall j | 0 <= j < i :: q[j].idSlot != idSlot
  {
    if q != [] && q[0].idSlot != idSlot {
      FirstForIs(q[1..], idSlot);
      var i := FirstFor(q[1..], idSlot);
      forall j | 0 <= j < i + 1
        ensures q[j].idSlot != idSlot
      {
        assert j > 0 ==> q[j] == q[1..][j - 1];
      }
    }
  }

  /** The first task for a slot, or, if there is none, the first task. */
  predicate IsNextFor(q: seq<Task>, idSlot: int, i: nat) {
    && i < |q| && (forall j | 0 <= j < i :: q[j].idSlot != idSlot)
    && (q[i].idSlot != idSlot ==> i == 0 && forall j | 0 <= j < |q| :: q[j].idSlot != idSlot)
  }

  lemma NextDeferredIs(q: seq<Task>, idSlot: int)
    requires q != []
    ensures IsNextFor(q, idSlot, NextDeferred(q, idSlot))
  {
    FirstForIs(q, idSlot);
  }

  /** `post`: a cancellation first removes the task it is about. */
  function Post(s: State, task: Task, front: bool): State {
    var t := if task.kind == Cancel then s.(queue := Kept(s.queue, task.idTarget), deferred := Kept(s.deferred, task.idTarget)) else s;
    t.(queue := if front then [task] + t.queue else t.queue + [task])
  }

  /** `post` of several tasks: those without an id get a new one. */
  function PostAll(s: State, tasks: seq<Task>, front: bool): State
    decreases |tasks|
  {
    if tasks == [] then s
    else
      var numbered := if tasks[0].id == -1 then s.(nextId := s.nextId + 1) else s;
      var task := if tasks[0].id == -1 then tasks[0].(id := s.nextId) else tasks[0];
      PostAll(Post(numbered, task, front), tasks[1..], front)
  }

  /** `get_new_id`: the next id is handed out. */
  function Issue(s: State): State { s.(nextId := s.nextId + 1) }

  function PopDeferred(s: State, idSlot: int): State {
    if s.deferred == [] then s
    else
      var i := NextDeferred(s.deferred, idSlot);
      s.(queue := [s.deferred[i]] + s.queue, deferred := Without(s.deferred, i))
  }

  class ServerQueue {
    var id: int
    var queueTasks: seq<Task>
    var queueTasksDeferred: seq<Task>

    constructor ()
      ensures id == 0 && queueTasks == [] && queueTasksDeferred == []
    {
      id, queueTasks, queueTasksDeferred := 0, [], [];
    }

    /** The queues, as a part of the state of the whole. */
    ghost function In(s: State): State
      reads this
    {
      s.(nextId := id, queue := queueTasks, deferred := queueTasksDeferred)
    }

    method CleanupPendingTask(idTarget: int)
      modifies this
      ensures id == old(id)
      ensures queueTasks == Kept(old(queueTasks), idTarget) && queueTasksDeferred == Kept(old(queueTasksDeferred), idTarget)
    {
      queueTasks := RemoveIf(queueTasks, idTarget);
      queueTasksDeferred := RemoveIf(queueTasksDeferred, idTarget);
    }

    method PostTask(task: Task, front: bool, ghost s: State) returns (taskId: int)
      requires task.id != -1
      modifies this
      ensures In(s) == Post(old(In(s)), task, front) && taskId == task.id
    {
      if task.kind == Cancel {
        CleanupPendingTask(task.idTarget);
      }
      taskId := task.id;
      if front {
        queueTasks := [task] + queueTasks;
      } else {
        queueTasks := queueTasks + [task];
      }
    }

    method PostTasks(tasks: seq<Task>, front: bool, ghost s: State)
      modifies this
      ensures In(s) == PostAll(old(In(s)), tasks, front)
    {
      var i := 0;
      assert tasks[0..] == tasks;
      while i < |tasks|
        invariant 0 <= i <= |tasks|
        invariant PostAll(In(s), tasks[i..], front) == PostAll(old(In(s)), tasks, front)
      {
        var task := tasks[i];
        assert tasks[i..][1..] == tasks[i + 1..];
        if task.id == -1 {
          task := task.(id := id);
          id := id + 1;
        }
        if task.kind == Cancel {
          CleanupPendingTask(task.idTarget);
        }
        if front {
          queueTasks := [task] + queueTasks;
        } else {
          queueTasks := queueTasks + [task];
        }
        i := i + 1;
      }
      assert tasks[i..] == [];
    }

    method Defer(task: Task)
      modifies this`queueTasksDeferred
      ensures queueTasksDeferred == old(queueTasksDeferred) + [task]
    {
      queueTasksDeferred := queueTasksDeferred + [task];
    }

    method GetNewId(ghost s: State) returns (newId: int)
      modifies this`id
      ensures newId == old(id) && In(s) == Issue(old(In(s)))
    {
      newId := id;
      id := id + 1;
    }

    method PopDeferredTask(idSlot: int, ghost s: State)
      modifies this
      ensures In(s) == PopDeferred(old(In(s)), idSlot)
      ensures old(queueTasksDeferred) != [] ==> exists i: nat ::
        && IsNextFor(old(queueTasksDeferred), idSlot, i) && queueTasks == [old(queueTasksDeferred)[i]] + old(queueTasks)
        && queueTasksDeferred == Without(old(queueTasksDeferred), i)
    {
      if queueTasksDeferred != [] {
        NextDeferredIs(queueTasksDeferred, idSlot);
        var found := false;
        var i := 0;
        while i < |queueTasksDeferred|
          invariant 0 <= i <= |queueTasksDeferred|
          invariant !found && queueTasksDeferred == old(queueTasksDeferred) && queueTasks == old(queueTasks) && id == old(id)
          invariant FirstFor(queueTasksDeferred, idSlot) == i + FirstFor(queueTasksDeferred[i..], idSlot)
        {
          assert queueTasksDeferred[i..][1..] == queueTasksDeferred[i + 1..];
          if queueTasksDeferred[i].idSlot == idSlot {
            queueTasks := [queueTasksDeferred[i]] + queueTasks;
            queueTasksDeferred := Without(queueTasksDeferred, i);
            found := true;
            break;
          }
          i := i + 1;
        }
        if !found {
          assert queueTasksDeferred[i..] == [];
          queueTasks := [queueTasksDeferred[0]] + queueTasks;
          queueTasksDeferred := Without(queueTasksDeferred, 0);
        }
      }
    }

    /** The part of the main loop that takes a task; `None` if there is none. */
    method Take() returns (task: Option<Task>)
      modifies this`queueTasks
      ensures old(queueTasks) == [] ==> task == None && queueTasks == []
      ensures old(queueTasks) != [] ==> task == Some(old(queueTasks)[0]) && queueTasks == old(queueTasks)[1..]
    {
      if queueTasks == [] {
        return None;
      }
      task := Some(queueTasks[0]);
      queueTasks := queueTasks[1..];
    }
  }

  /** `std::remove_if` and `erase`. */
  method RemoveIf(q: seq<Task>, target: int) returns (kept: seq<Task>)
    ensures kept == Kept(q, target)
  {
    kept := [];
    for i := 0 to |q|
      invariant kept == Kept(q[..i], target)
    {
      assert q[..i + 1] == q[..i] + [q[i]];
      KeptAppend(q[..i], [q[i]], target);
      assert [q[i]][1..] == [];
      if q[i].id != target {
        kept := kept + [q[i]];
      }
    }
    assert q[..|q|] == q;
  }

  lemma {:induction false} KeptAppend(a: seq<Task>, b: seq<Task>, target: int)
    ensures Kept(a + b, target) == Kept(a, target) + Kept(b, target)
  {
    if a == [] {
      assert a + b == b;
    } else {
      assert (a + b)[1..] == a[1..] + b;
      KeptAppend(a[1..], b, target);
    }
  }

  // ----- the slots -----

  /** What the code around the queues decides: a slot, and whether tasks can be prepared and launched. */
  datatype Choice = Choice(available: int, tokenizes: bool, launches: int -> bool)

  predicate IsBusy(slots: seq<Option<Running>>, k: nat) {
    k < |slots| && slots[k] != None
  }

  /** The choice of a slot: one that is not busy, or -1 if all are. */
  predicate Offers(slots: seq<Option<Running>>, k: int) {
    if k == -1 then forall j | 0 <= j < |slots| :: IsBusy(slots, j) else 0 <= k < |slots| && !IsBusy(slots, k)
  }

  /** Slot numbers that are too large wrap around; negative ones are converted to 64 bits before. */
  function SlotById(n: nat, idSlot: int): (k: nat)
    requires n > 0
    ensures k < n
  {
    (if idSlot < 0 then (0x1_0000_0000_0000_0000 + idSlot) % n else idSlot % n)
  }

  /** Slots from k on that are not busy, without one, until there are enough. */
  function FreeFrom(slots: seq<Option<Running>>, needed: nat, exclude: nat, k: nat): seq<nat>
    requires k <= |slots|
    decreases |slots| - k
  {
    if k == |slots| || needed == 0 then []
    else if !IsBusy(slots, k) && k != exclude then [k] + FreeFrom(slots, needed - 1, exclude, k + 1)
    else FreeFrom(slots, needed, exclude, k + 1)
  }

  function Occupy(s: State, k: nat, r: Running): State
    requires k < |s.slots|
  {
    s.(slots := s.slots[k := Some(r)])
  }

  /** A slot that is released pops a deferred task. */
  function Release(s: State, k: nat): State
    requires k < |s.slots|
  {
    if s.slots[k] == None then s else PopDeferred(s.(slots := s.slots[k := None]), k)
  }

  predicate OfFamily(r: Option<Running>, parent: int) {
    r != None && (r.value.id == parent || r.value.parent == parent)
  }

  function ReleaseFamily(s: State, parent: int, k: nat): State
    requires k <= |s.slots|
    decreases |s.slots| - k
  {
    if k == |s.slots| then s
    else ReleaseFamily(if OfFamily(s.slots[k], parent) then Release(s, k) else s, parent, k + 1)
  }

  predicate InRange(free: seq<nat>, n: nat) {
    forall i | 0 <= i < |free| :: free[i] < n
  }

  /** The children occupy the free slots one by one, until one cannot be launched. */
  function LaunchChildren(s: State, free: seq<nat>, children: seq<int>, parent: int, launches: int -> bool): (State, bool)
    requires |free| == |children| && InRange(free, |s.slots|)
    decreases |free|
  {
    if free == [] then (s, true)
    else if !launches(children[0]) then (s, false)
    else LaunchChildren(Occupy(s, free[0], Running(children[0], parent)), free[1..], children[1..], parent, launches)
  }

  lemma {:induction false} FreeAreSlots(slots: seq<Option<Running>>, needed: nat, exclude: nat, k: nat)
    requires k <= |slots|
    ensures |FreeFrom(slots, needed, exclude, k)| <= needed
    ensures var free := FreeFrom(slots, needed, exclude, k);
      forall i | 0 <= i < |free| :: k <= free[i] < |slots| && !IsBusy(slots, free[i]) && free[i] != exclude
    decreases |slots| - k
  {
    if k < |slots| && needed > 0 {
      FreeAreSlots(slots, if !IsBusy(slots, k) && k != exclude then needed - 1 else needed, exclude, k + 1);
    }
  }

  /** A task with children is launched only if there is a slot for each of them. */
  function LaunchFamily(s: State, k: nat, task: Task, launches: int -> bool): State
    requires k < |s.slots|
  {
    var free := FreeFrom(s.slots, |task.children|, k, 0);
    FreeAreSlots(s.slots, |task.children|, k, 0);
    if |free| < |task.children| then s.(deferred := s.deferred + [task])
    else
      var (launched, ok) := LaunchChildren(s, free, task.children, task.id, launches);
      LaunchKeepsSlots(s, free, task.children, task.id, launches);
      if ok && launches(task.id) then Occupy(launched, k, Running(task.id, -1)) else ReleaseFamily(launched, task.id, 0)
  }

  lemma {:induction false} LaunchKeepsSlots(s: State, free: seq<nat>, children: seq<int>, parent: int, launches: int -> bool)
    requires |free| == |children| && InRange(free, |s.slots|)
    ensures |LaunchChildren(s, free, children, parent, launches).0.slots| == |s.slots|
    decreases |free|
  {
    if free != [] && launches(children[0]) {
      LaunchKeepsSlots(Occupy(s, free[0], Running(children[0], parent)), free[1..], children[1..], parent, launches);
    }
  }

  // ----- one task -----

  /** The slot that runs a task, or the number of slots if none does. */
  function SlotOf(slots: seq<Option<Running>>, id: int): (k: nat)
    ensures k <= |slots|
  {
    if slots == [] then 0
    else if slots[0] != None && slots[0].value.id == id then 0
    else 1 + SlotOf(slots[1..], id)
  }

  /** `process_single_task`. */
  function Process(s: State, choice: Choice): State
    requires s.inFlight != None && s.slots != [] && Offers(s.slots, choice.available)
  {
    var task, t := s.inFlight.value, s.(inFlight := None);
    match task.kind
    case Other => t
    case Cancel =>
      var k := SlotOf(t.slots, task.idTarget);
      if k < |t.slots| then Release(t, k) else t
    case SlotAction =>
      if IsBusy(t.slots, SlotById(|t.slots|, task.actionSlot)) then t.(deferred := t.deferred + [task]) else t
    case Inference =>
      var k := if task.idSlot != -1 then SlotById(|t.slots|, task.idSlot) else choice.available;
      if task.cli && !choice.tokenizes then t
      else if k == -1 || IsBusy(t.slots, k) then t.(deferred := t.deferred + [task])
      else if task.children != [] then LaunchFamily(t, k, task, choice.launches)
      else if choice.launches(task.id) then Occupy(t, k, Running(task.id, -1))
      else t
  }

  class Scheduler {
    const queue: ServerQueue
    var slots: seq<Option<Running>>
    /** The task that the main loop has taken and not yet processed. */
    var inFlight: Option<Task>

    constructor (nSlots: nat)
      ensures fresh(queue) && Snapshot() == State(0, [], [], None, seq(nSlots, _ => None))
    {
      queue := new ServerQueue();
      slots := seq(nSlots, _ => None);
      inFlight := None;
    }

    ghost function Snapshot(): State
      reads this, queue
    {
      State(queue.id, queue.queueTasks, queue.queueTasksDeferred, inFlight, slots)
    }

    /** The main loop takes a task. */
    method TakeTask()
      requires inFlight == None
      modifies this, queue
      ensures Snapshot() == (if old(Snapshot()).queue == [] then old(Snapshot())
                          else old(Snapshot()).(inFlight := Some(old(Snapshot()).queue[0]), queue := old(Snapshot()).queue[1..]))
    {
      inFlight := queue.Take();
    }

    method ReleaseSlot(k: nat)
      requires k < |slots|
      modifies this, queue
      ensures Snapshot() == Release(old(Snapshot()), k)
    {
      if slots[k] != None {
        slots := slots[k := None];
        queue.PopDeferredTask(k, Snapshot());
      }
    }

    method GetFreeSlots(needed: nat, exclude: nat) returns (free: seq<nat>)
      requires needed > 0
      ensures free == FreeFrom(slots, needed, exclude, 0)
    {
      free := [];
      var k := 0;
      while k < |slots|
        invariant 0 <= k <= |slots| && |free| < needed
        invariant FreeFrom(slots, needed, exclude, 0) == free + FreeFrom(slots, needed - |free|, exclude, k)
      {
        if slots[k] == None && k != exclude {
          assert free + ([k] + FreeFrom(slots, needed - |free| - 1, exclude, k + 1)) == free + [k] + FreeFrom(slots, needed - |free| - 1, exclude, k + 1);
          free := free + [k];
        }
        if |free| >= needed {
          assert FreeFrom(slots, 0, exclude, k + 1) == [];
          break;
        }
        k := k + 1;
      }
    }

    method ReleaseAllOf(parent: int)
      modifies this, queue
      ensures Snapshot() == ReleaseFamily(old(Snapshot()), parent, 0)
    {
      var k := 0;
      while k < |slots|
        invariant 0 <= k <= |slots|
        invariant ReleaseFamily(Snapshot(), parent, k) == ReleaseFamily(old(Snapshot()), parent, 0)
        decreases |slots| - k
      {
        if OfFamily(slots[k], parent) {
          ReleaseSlot(k);
        }
        k := k + 1;
      }
    }

    method LaunchSlotsWithParentTask(k: nat, free: seq<nat>, task: Task, launches: int -> bool) returns (ok: bool)
      requires k < |slots| && free == FreeFrom(slots, |task.children|, k, 0) && |free| == |task.children|
      modifies this, queue
      ensures Snapshot() == LaunchFamily(old(Snapshot()), k, task, launches)
    {
      FreeAreSlots(slots, |task.children|, k, 0);
      LaunchKeepsSlots(Snapshot(), free, task.children, task.id, launches);
      ok := LaunchAll(free, task.children, task.id, launches);
      if ok && launches(task.id) {
        slots := slots[k := Some(Running(task.id, -1))];
      } else {
        ok := false;
        ReleaseAllOf(task.id);
      }
    }

    method LaunchAll(free: seq<nat>, children: seq<int>, parent: int, launches: int -> bool) returns (ok: bool)
      requires |free| == |children| && InRange(free, |slots|)
      modifies this`slots
      ensures (Snapshot(), ok) == LaunchChildren(old(Snapshot()), free, children, parent, launches)
    {
      var i := 0;
      assert free[0..] == free && children[0..] == children;
      while i < |free|
        invariant 0 <= i <= |free| && InRange(free, |slots|) && InRange(free[i..], |slots|)
        invariant LaunchChildren(Snapshot(), free[i..], children[i..], parent, launches) ==
                  LaunchChildren(old(Snapshot()), free, children, parent, launches)
      {
        assert free[i..][1..] == free[i + 1..] && children[i..][1..] == children[i + 1..];
        if !launches(children[i]) {
          return false;
        }
        slots := slots[free[i] := Some(Running(children[i], parent))];
        i := i + 1;
      }
      ok := true;
    }

    /** The task that was taken is launched, deferred, executed or dropped. */
    method ProcessSingleTask(choice: Choice)
      requires inFlight != None && slots != [] && Offers(slots, choice.available)
      modifies this, queue
      ensures Snapshot() == Process(old(Snapshot()), choice)
    {
      var task := inFlight.value;
      inFlight := None;
      match task.kind {
        case Other =>
        case Cancel =>
          CancelSlotOf(task.idTarget);
        case SlotAction =>
          if IsBusy(slots, SlotById(|slots|, task.actionSlot)) {
            queue.Defer(task);
          }
        case Inference =>
          if task.cli && !choice.tokenizes {
            return;
          }
          var k := if task.idSlot != -1 then SlotById(|slots|, task.idSlot) else choice.available;
          if k == -1 {
            queue.Defer(task);
          } else if IsBusy(slots, k) {
            queue.Defer(task);
          } else if task.children != [] {
            var free := GetFreeSlots(|task.children|, k);
            FreeAreSlots(slots, |task.children|, k, 0);
            if |free| < |task.children| {
              queue.Defer(task);
            } else {
              var _ := LaunchSlotsWithParentTask(k, free, task, choice.launches);
            }
          } else if choice.launches(task.id) {
            slots := slots[k := Some(Running(task.id, -1))];
          }
      }
    }

    /** The slot that runs a task is released. */
    method CancelSlotOf(id: int)
      modifies this, queue
      ensures var k := SlotOf(old(Snapshot()).slots, id);
        Snapshot() == if k < |old(Snapshot()).slots| then Release(old(Snapshot()), k) else old(Snapshot())
    {
      var k := 0;
      assert slots[0..] == slots;
      while k < |slots|
        invariant 0 <= k <= |slots| && Snapshot() == old(Snapshot())
        invariant SlotOf(slots, id) == k + SlotOf(slots[k..], id)
      {
        assert slots[k..][1..] == slots[k + 1..];
        if slots[k] != None && slots[k].value.id == id {
          ReleaseSlot(k);
          return;
        }
        k := k + 1;
      }
      assert slots[k..] == [];
    }
  }
}
