/**
 Where tasks go: in which slot a task runs, when it waits instead, which slot a cancellation gives
 back, and in which order tasks stand in the main queue.
 */
module Placement {
  import opened Options
  import opened TaskQueue
  import opened Scheduling
  import Waking

  // ----- the number of a slot -----

  /** A number beyond the end stands for the one that is smaller by a multiple of n. */
  ghost function Wrapped(n: nat, number: nat): (r: nat)
    requires n > 0
    ensures r < n
    decreases number
  {
    if number < n then number else Wrapped(n, number - n)
  }

  /** The slot that a number stands for; a negative number is one of 64 bits first. */
  ghost function Named(n: nat, number: int): (r: nat)
    requires n > 0 && -0x1_0000_0000_0000_0000 <= number
    ensures r < n
  {
    Wrapped(n, if number >= 0 then number else 0x1_0000_0000_0000_0000 + number)
  }

  lemma {:induction false} WrappedIs(n: nat, number: nat)
    requires n > 0
    ensures Wrapped(n, number) == number % n
    decreases number
  {
    if number >= n {
      WrappedIs(n, number - n);
      assert number == (number - n) + n;
      OneLess(number, n);
    }
  }

  lemma OneLess(a: nat, n: nat)
    requires n > 0 && a >= n
    ensures (a - n) % n == a % n
  {
    var q, r := a / n, a % n;
    assert a - n == n * (q - 1) + r by {
      assert n * (q - 1) == n * q - n;
    }
    var d := (a - n) / n - (q - 1);
    assert n * d == r - (a - n) % n by {
      assert n * d == n * ((a - n) / n) - n * (q - 1);
    }
    NoSmallMultiple(n, d);
  }

  lemma NoSmallMultiple(n: int, d: int)
    requires n >= 0
    ensures d >= 1 ==> n * d >= n
    ensures d <= -1 ==> n * d <= -n
    ensures d == 0 ==> n * d == 0
  {
  }

  /** Slots are found by their numbers. */
  lemma SlotByIdIs(n: nat, number: int)
    requires n > 0 && number >= -0x1_0000_0000_0000_0000
    ensures SlotById(n, number) == Named(n, number)
    ensures 0 <= number < n ==> SlotById(n, number) == number
  {
    WrappedIs(n, if number >= 0 then number else 0x1_0000_0000_0000_0000 + number);
  }

  // ----- the slots of a family -----

  /** How many slots from m up to j are idle, without one of them. */
  function IdleBetween(slots: seq<Option<Running>>, exclude: nat, m: nat, j: nat): nat
    requires j <= |slots|
    decreases |slots| - m
  {
    if m >= j then 0 else One(slots[m] == None && m != exclude) + IdleBetween(slots, exclude, m + 1, j)
  }

  lemma {:induction false} FreeCount(slots: seq<Option<Running>>, needed: nat, exclude: nat, m: nat)
    requires m <= |slots|
    ensures |FreeFrom(slots, needed, exclude, m)| < needed <==> IdleBetween(slots, exclude, m, |slots|) < needed
    ensures |FreeFrom(slots, needed, exclude, m)| <= needed
    decreases |slots| - m
  {
    if m < |slots| && needed > 0 {
      FreeCount(slots, if slots[m] == None && m != exclude then needed - 1 else needed, exclude, m + 1);
    }
  }

  /** The free slots are the first idle ones, in order. */
  lemma {:induction false} FreeInOrder(slots: seq<Option<Running>>, needed: nat, exclude: nat, m: nat, j: nat)
    requires m <= j < |slots| && slots[j] == None && j != exclude
    ensures var free, r := FreeFrom(slots, needed, exclude, m), IdleBetween(slots, exclude, m, j);
      if r < needed then r < |free| && free[r] == j else j !in free
    decreases |slots| - m
  {
    if needed > 0 {
      var idle := slots[m] == None && m != exclude;
      if m < j {
        FreeInOrder(slots, if idle then needed - 1 else needed, exclude, m + 1, j);
      } else {
        FreeAreSlots(slots, needed - 1, exclude, m + 1);
      }
    }
  }

  /** Each child that is launched runs in its slot. */
  lemma {:induction false} ChildRuns(s: State, free: seq<nat>, children: seq<int>, parent: int, launches: int -> bool, i: nat)
    requires |free| == |children| && InRange(free, |s.slots|) && AllIdle(s.slots, free) && AllLaunch(children, launches) && i < |free|
    ensures var t := LaunchChildren(s, free, children, parent, launches).0;
      |t.slots| == |s.slots| && t.slots[free[i]] == Some(Running(children[i], parent))
    decreases |free|
  {
    var r := Running(children[0], parent);
    var next := Occupy(s, free[0], r);
    StillIdle(s.slots, free[1..], free[0], Some(r));
    if i == 0 {
      LaunchingKeeps(next, free[1..], children[1..], parent, launches, free[0]);
    } else {
      ChildRuns(next, free[1..], children[1..], parent, launches, i - 1);
    }
  }

  /** What a slot runs when a task with children runs in slot k: the children have the first idle slots, in order. */
  function WithFamily(slots: seq<Option<Running>>, k: nat, task: Task, j: nat): Option<Running>
    requires j < |slots|
  {
    if j == k then Some(Running(task.id, -1))
    else if slots[j] == None && IdleBetween(slots, k, 0, j) < |task.children| then
      Some(Running(task.children[IdleBetween(slots, k, 0, j)], task.id))
    else slots[j]
  }

  lemma FamilyRuns(s: State, k: nat, task: Task, launches: int -> bool, j: nat)
    requires k < |s.slots| && j < |s.slots| && s.slots[k] == None && IdleBetween(s.slots, k, 0, |s.slots|) >= |task.children|
    requires AllLaunch(task.children, launches) && launches(task.id)
    ensures var t := LaunchFamily(s, k, task, launches);
      && t == s.(slots := t.slots) && |t.slots| == |s.slots| && t.slots[j] == WithFamily(s.slots, k, task, j)
  {
    var free := FreeFrom(s.slots, |task.children|, k, 0);
    FreeCount(s.slots, |task.children|, k, 0);
    FreeAreSlots(s.slots, |task.children|, k, 0);
    FreeAreIdle(s.slots, |task.children|, k, 0);
    LaunchingPlaces(s, free, task.children, task.id, launches, 0);
    LaunchingKeeps(s, free, task.children, task.id, launches, j);
    if j != k && s.slots[j] == None {
      FreeInOrder(s.slots, |task.children|, k, 0, j);
      if IdleBetween(s.slots, k, 0, j) < |task.children| {
        ChildRuns(s, free, task.children, task.id, launches, IdleBetween(s.slots, k, 0, j));
      }
    }
  }

  // ----- one task -----

  /** The slot that a task of its own gets, if it asks for one, or else the one that is offered. */
  ghost predicate IsSlotFor(s: State, task: Task, choice: Choice, k: nat) {
    && k < |s.slots| && -0x1_0000_0000_0000_0000 <= task.idSlot
    && k == if task.idSlot == -1 then choice.available else Named(|s.slots|, task.idSlot)
  }

  /** The task in flight waits for a slot. */
  ghost predicate IsDeferred(s: State, t: State)
    requires s.inFlight != None
  {
    t == s.(inFlight := None, deferred := s.deferred + [s.inFlight.value])
  }

  /**
   An inference task runs in the slot that it asks for, or else in the one that is offered. It is deferred
   exactly if that slot is busy or there are not enough others for its children. If one of them cannot be
   launched nothing runs that did not run before.
   */
  lemma RunsWhereAsked(s: State, choice: Choice, k: nat, j: nat)
    requires Enabled(s, Handle(choice)) && s.inFlight.value.kind == Inference && j < |s.slots|
    requires IsSlotFor(s, s.inFlight.value, choice, k) && NoneOfFamily(s.slots, s.inFlight.value.id)
    requires s.inFlight.value.cli ==> choice.tokenizes
    ensures var task, t := s.inFlight.value, Process(s, choice);
      && |t.slots| == |s.slots|
      && (IsDeferred(s, t) <==> s.slots[k] != None || IdleBetween(s.slots, k, 0, |s.slots|) < |task.children|)
      && (!IsDeferred(s, t) && LaunchesAll(task, choice) ==>
            t == s.(inFlight := None, slots := t.slots) && t.slots[j] == WithFamily(s.slots, k, task, j))
      && (!IsDeferred(s, t) && !LaunchesAll(task, choice) ==> t.slots[j] == s.slots[j] && |t.deferred| <= |s.deferred|)
  {
    var task, t := s.inFlight.value, s.(inFlight := None);
    if task.idSlot != -1 {
      SlotByIdIs(|s.slots|, task.idSlot);
    }
    if s.slots[k] == None && task.children != [] {
      FamilyRunsOrNot(t, k, task, choice.launches, j);
    }
  }

  predicate LaunchesAll(task: Task, choice: Choice) {
    AllLaunch(task.children, choice.launches) && choice.launches(task.id)
  }

  lemma FamilyRunsOrNot(s: State, k: nat, task: Task, launches: int -> bool, j: nat)
    requires k < |s.slots| && j < |s.slots| && s.slots[k] == None && NoneOfFamily(s.slots, task.id)
    ensures var t := LaunchFamily(s, k, task, launches);
      && |t.slots| == |s.slots|
      && if IdleBetween(s.slots, k, 0, |s.slots|) < |task.children| then t == s.(deferred := s.deferred + [task])
         else if AllLaunch(task.children, launches) && launches(task.id) then
           t == s.(slots := t.slots) && t.slots[j] == WithFamily(s.slots, k, task, j)
         else t.slots[j] == s.slots[j] && |t.deferred| <= |s.deferred|
  {
    FreeCount(s.slots, |task.children|, k, 0);
    if IdleBetween(s.slots, k, 0, |s.slots|) >= |task.children| {
      if AllLaunch(task.children, launches) && launches(task.id) {
        FamilyRuns(s, k, task, launches, j);
      } else {
        FamilyIsBack(s, k, task, launches, j);
      }
    }
  }

  lemma FamilyIsBack(s: State, k: nat, task: Task, launches: int -> bool, j: nat)
    requires k < |s.slots| && j < |s.slots| && NoneOfFamily(s.slots, task.id)
    requires |FreeFrom(s.slots, |task.children|, k, 0)| == |task.children| && !(AllLaunch(task.children, launches) && launches(task.id))
    ensures var t := LaunchFamily(s, k, task, launches);
      |t.slots| == |s.slots| && t.slots[j] == s.slots[j] && |t.deferred| <= |s.deferred|
  {
    var free := FreeFrom(s.slots, |task.children|, k, 0);
    FreeAreSlots(s.slots, |task.children|, k, 0);
    FreeAreIdle(s.slots, |task.children|, k, 0);
    LaunchingPlaces(s, free, task.children, task.id, launches, 0);
    Waking.SlotsAreBack(s, free, task, launches, j);
    DeferredShrinks(LaunchChildren(s, free, task.children, task.id, launches).0, task.id, 0);
  }

  lemma {:induction false} DeferredShrinks(s: State, parent: int, k: nat)
    requires k <= |s.slots|
    ensures |ReleaseFamily(s, parent, k).deferred| <= |s.deferred|
    decreases |s.slots| - k
  {
    if k < |s.slots| {
      var t := if OfFamily(s.slots[k], parent) then Release(s, k) else s;
      ReleaseEnds(s, k, 0);
      DeferredShrinks(t, parent, k + 1);
    }
  }

  /** A released slot is idle, and wakes up the first deferred task for it, or else the first of all. */
  lemma ReleasedIs(s: State, k: nat, i: nat)
    requires k < |s.slots| && s.slots[k] != None && (s.deferred != [] ==> IsNextFor(s.deferred, k, i))
    ensures Release(s, k) ==
      if s.deferred == [] then s.(slots := s.slots[k := None])
      else s.(slots := s.slots[k := None], queue := [s.deferred[i]] + s.queue, deferred := Without(s.deferred, i))
  {
    if s.deferred != [] {
      NextDeferredIs(s.deferred, k);
      OneIsNext(s.deferred, k, i, NextDeferred(s.deferred, k));
    }
  }

  lemma OneIsNext(q: seq<Task>, k: int, i: nat, j: nat)
    requires IsNextFor(q, k, i) && IsNextFor(q, k, j)
    ensures i == j
  {
  }

  /** The first slot that runs the task. */
  ghost predicate IsFirstRunning(slots: seq<Option<Running>>, id: int, k: nat) {
    && k < |slots| && slots[k] != None && slots[k].value.id == id
    && forall j | 0 <= j < k :: slots[j] == None || slots[j].value.id != id
  }

  /** A cancellation releases the first slot that runs its target, if there is one. */
  lemma CancelReleases(s: State, choice: Choice, k: nat)
    requires Enabled(s, Handle(choice)) && s.inFlight.value.kind == Cancel
    ensures IsFirstRunning(s.slots, s.inFlight.value.idTarget, k) ==> Process(s, choice) == Release(s.(inFlight := None), k)
    ensures (forall j | 0 <= j < |s.slots| :: s.slots[j] == None || s.slots[j].value.id != s.inFlight.value.idTarget) ==>
      Process(s, choice) == s.(inFlight := None)
  {
    var target := s.inFlight.value.idTarget;
    FirstRunningIs(s.slots, target);
    if IsFirstRunning(s.slots, target, k) {
      assert SlotOf(s.slots, target) == k;
    }
  }

  lemma {:induction false} FirstRunningIs(slots: seq<Option<Running>>, id: int)
    ensures var k := SlotOf(slots, id);
      && (k < |slots| ==> IsFirstRunning(slots, id, k))
      && forall j | 0 <= j < k :: slots[j] == None || slots[j].value.id != id
  {
    if slots != [] && (slots[0] == None || slots[0].value.id != id) {
      FirstRunningIs(slots[1..], id);
      forall j | 0 <= j < SlotOf(slots, id)
        ensures slots[j] == None || slots[j].value.id != id
      {
        assert j > 0 ==> slots[j] == slots[1..][j - 1];
      }
    }
  }

  /** A slot action waits exactly if its slot is busy; inference without a slot waits; what cannot be tokenized is dropped. */
  lemma OthersAreHandled(s: State, choice: Choice)
    requires Enabled(s, Handle(choice))
    ensures var task, t := s.inFlight.value, Process(s, choice);
      && (task.kind == Other ==> t == s.(inFlight := None))
      && (task.kind == SlotAction && task.actionSlot >= -0x1_0000_0000_0000_0000 ==>
            if s.slots[Named(|s.slots|, task.actionSlot)] != None then IsDeferred(s, t) else t == s.(inFlight := None))
      && (task.kind == Inference && task.cli && !choice.tokenizes ==> t == s.(inFlight := None))
      && (task.kind == Inference && !(task.cli && !choice.tokenizes) && task.idSlot == -1 && choice.available == -1 ==> IsDeferred(s, t))
  {
    var task := s.inFlight.value;
    if task.kind == SlotAction && task.actionSlot >= -0x1_0000_0000_0000_0000 {
      SlotByIdIs(|s.slots|, task.actionSlot);
    }
  }

  // ----- the order of tasks -----

  function Reversed<T>(q: seq<T>): seq<T> {
    if q == [] then [] else Reversed(q[1..]) + [q[0]]
  }

  /** Tasks are posted behind the others, or in front of them one before the other, and are taken from the front. */
  lemma {:induction false} PostedInOrder(s: State, tasks: seq<Task>, front: bool)
    requires forall t | t in tasks :: t.kind != Cancel
    ensures var t := PostAll(s, tasks, front);
      && t == s.(nextId := t.nextId, queue := t.queue)
      && t.queue == if front then Reversed(Numbered(s, tasks)) + s.queue else s.queue + Numbered(s, tasks)
    decreases |tasks|
  {
    if tasks != [] {
      var (numbered, task) := Number(s, tasks[0]);
      var next := Post(numbered, task, front);
      PostedInOrder(next, tasks[1..], front);
      NumberedNext(numbered, next, tasks[1..]);
      var rest := Numbered(numbered, tasks[1..]);
      assert ([task] + rest)[1..] == rest;
      if front {
        assert Reversed(rest) + ([task] + s.queue) == Reversed(rest) + [task] + s.queue;
      } else {
        assert s.queue + [task] + rest == s.queue + ([task] + rest);
      }
    } else {
      assert s.queue + [] == s.queue && [] + s.queue == s.queue;
    }
  }
}
