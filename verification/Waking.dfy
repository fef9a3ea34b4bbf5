/**
 When a task that waits for a slot can count on being woken up: exactly which steps leave it with
 nothing that will, and runs in which that happens.
 */
module Waking {
  import opened Options
  import opened TaskQueue
  import opened Scheduling

  // ----- waking up -----

  predicate AnyBusy(slots: seq<Option<Running>>) {
    exists k | 0 <= k < |slots| :: slots[k] != None
  }

  predicate HasInference(q: seq<Task>) {
    q != [] && (q[0].kind == Inference || HasInference(q[1..]))
  }

  predicate TakenIsInference(t: Option<Task>) {
    t != None && t.value.kind == Inference
  }

  /** Something will happen that can wake up a deferred task: a slot finishes, or an inference task gets one. */
  predicate Alive(s: State) {
    AnyBusy(s.slots) || HasInference(s.queue) || TakenIsInference(s.inFlight)
  }

  predicate NotStuck(s: State) {
    s.deferred == [] || Alive(s)
  }

  lemma {:induction false} HasInferenceAppend(a: seq<Task>, b: seq<Task>)
    ensures HasInference(a + b) <==> HasInference(a) || HasInference(b)
  {
    if a == [] {
      assert a + b == b;
    } else {
      assert (a + b)[1..] == a[1..] + b;
      HasInferenceAppend(a[1..], b);
    }
  }

  lemma HasInferenceOne(t: Task)
    ensures HasInference([t]) <==> t.kind == Inference
  {
    assert [t][1..] == [];
  }

  lemma BusyAfter(slots: seq<Option<Running>>, k: nat, r: Option<Running>)
    requires k < |slots|
    ensures AnyBusy(slots[k := r]) <==> r != None || exists j | 0 <= j < |slots| && j != k :: slots[j] != None
  {
    var after := slots[k := r];
    if r != None {
      assert after[k] != None;
    }
    if j :| 0 <= j < |slots| && j != k && slots[j] != None {
      assert after[j] != None;
    }
    if AnyBusy(after) && r == None {
      var j :| 0 <= j < |after| && after[j] != None;
      assert j != k && slots[j] != None;
    }
  }

  /** A slot that is released leaves a deferred task waiting for nothing, exactly if nothing else goes on and it woke up no inference task. */
  lemma ReleaseWakes(s: State, k: nat)
    requires IsBusy(s.slots, k)
    ensures NotStuck(Release(s, k)) <==> ReleaseKeepsAwake(s, k)
  {
    BusyAfter(s.slots, k, None);
    if s.deferred != [] {
      var d := s.deferred[NextDeferred(s.deferred, k)];
      HasInferenceAppend([d], s.queue);
      HasInferenceOne(d);
    }
  }

  /** Something other than the task in flight will happen, or nothing is deferred. */
  predicate OthersGoOn(s: State) {
    s.deferred == [] || AnyBusy(s.slots) || HasInference(s.queue)
  }

  // ----- arriving -----

  /** What a list of posted tasks leaves of a queue: the cancellations among them remove tasks. */
  function Remaining(q: seq<Task>, tasks: seq<Task>): seq<Task>
    decreases |tasks|
  {
    if tasks == [] then q
    else Remaining(if tasks[0].kind == Cancel then Kept(q, tasks[0].idTarget) else q, tasks[1..])
  }

  /** Some inference task among those that are posted is not cancelled by one behind it. */
  predicate SomeStays(tasks: seq<Task>) {
    tasks != [] && ((tasks[0].kind == Inference && Remaining([tasks[0]], tasks[1..]) != []) || SomeStays(tasks[1..]))
  }

  lemma {:induction false} RemainingAppend(a: seq<Task>, b: seq<Task>, tasks: seq<Task>)
    ensures Remaining(a + b, tasks) == Remaining(a, tasks) + Remaining(b, tasks)
    decreases |tasks|
  {
    if tasks != [] {
      if tasks[0].kind == Cancel {
        KeptAppend(a, b, tasks[0].idTarget);
        RemainingAppend(Kept(a, tasks[0].idTarget), Kept(b, tasks[0].idTarget), tasks[1..]);
      } else {
        RemainingAppend(a, b, tasks[1..]);
      }
    }
  }

  lemma {:induction false} RemainingOne(t: Task, tasks: seq<Task>)
    ensures Remaining([t], tasks) == [t] || Remaining([t], tasks) == []
    ensures Remaining([], tasks) == []
    decreases |tasks|
  {
    if tasks != [] {
      assert [t][1..] == [];
      assert Kept([t], tasks[0].idTarget) == (if t.id == tasks[0].idTarget then [] else [t]);
      assert Kept([], tasks[0].idTarget) == [];
      RemainingOne(t, tasks[1..]);
    }
  }

  lemma {:induction false} ArrivalLeaves(s: State, tasks: seq<Task>, front: bool)
    ensures var t, posted := PostAll(s, tasks, front), Numbered(s, tasks);
      && t.deferred == Remaining(s.deferred, posted) && t.slots == s.slots && t.inFlight == s.inFlight
      && (HasInference(t.queue) <==> HasInference(Remaining(s.queue, posted)) || SomeStays(posted))
    decreases |tasks|
  {
    if tasks != [] {
      var (numbered, task) := Number(s, tasks[0]);
      var next, rest := Post(numbered, task, front), Numbered(numbered, tasks[1..]);
      var queue := if task.kind == Cancel then Kept(s.queue, task.idTarget) else s.queue;
      NumberedNext(numbered, next, tasks[1..]);
      ArrivalLeaves(next, tasks[1..], front);
      assert ([task] + rest)[1..] == rest;
      RemainingAppend([task], queue, rest);
      RemainingAppend(queue, [task], rest);
      HasInferenceAppend(Remaining([task], rest), Remaining(queue, rest));
      HasInferenceAppend(Remaining(queue, rest), Remaining([task], rest));
      RemainingOne(task, rest);
      HasInferenceOne(task);
    }
  }

  // ----- releasing -----

  /** A finishing slot leaves something that goes on. */
  predicate ReleaseKeepsAwake(s: State, k: nat) {
    || |s.deferred| <= 1
    || s.deferred[NextDeferred(s.deferred, k)].kind == Inference
    || (exists j | 0 <= j < |s.slots| && j != k :: s.slots[j] != None)
    || HasInference(s.queue) || TakenIsInference(s.inFlight)
  }

  /** What slots pop from the deferred tasks, one after the other, and what they leave. */
  function Woken(q: seq<Task>, ks: seq<nat>): (seq<Task>, seq<Task>)
    decreases |ks|
  {
    if q == [] || ks == [] then ([], q)
    else
      var i := NextDeferred(q, ks[0]);
      var (woken, left) := Woken(Without(q, i), ks[1..]);
      ([q[i]] + woken, left)
  }

  /** The slots of a family, from slot k on. */
  function FamilyFrom(slots: seq<Option<Running>>, parent: int, k: nat): seq<nat>
    requires k <= |slots|
    decreases |slots| - k
  {
    if k == |slots| then []
    else if OfFamily(slots[k], parent) then [k] + FamilyFrom(slots, parent, k + 1)
    else FamilyFrom(slots, parent, k + 1)
  }

  lemma {:induction false} FamilyLater(slots: seq<Option<Running>>, parent: int, k: nat, i: nat, r: Option<Running>)
    requires i < k <= |slots|
    ensures FamilyFrom(slots[i := r], parent, k) == FamilyFrom(slots, parent, k)
    decreases |slots| - k
  {
    if k < |slots| {
      FamilyLater(slots, parent, k + 1, i, r);
    }
  }

  /** A family that is released wakes up one deferred task for each of its slots. */
  lemma {:induction false} FamilyWakes(s: State, parent: int, k: nat)
    requires k <= |s.slots|
    ensures var t, (woken, left) := ReleaseFamily(s, parent, k), Woken(s.deferred, FamilyFrom(s.slots, parent, k));
      && t.deferred == left && t.inFlight == s.inFlight
      && (HasInference(t.queue) <==> HasInference(s.queue) || HasInference(woken))
    decreases |s.slots| - k
  {
    if k < |s.slots| {
      if OfFamily(s.slots[k], parent) {
        var t, ks := Release(s, k), FamilyFrom(s.slots, parent, k + 1);
        FamilyLater(s.slots, parent, k + 1, k, None);
        FamilyWakes(t, parent, k + 1);
        assert ([k] + ks)[1..] == ks;
        if s.deferred != [] {
          var i := NextDeferred(s.deferred, k);
          var (woken, left) := Woken(Without(s.deferred, i), ks);
          HasInferenceAppend([s.deferred[i]], s.queue);
          HasInferenceAppend([s.deferred[i]], woken);
          HasInferenceOne(s.deferred[i]);
        }
      } else {
        FamilyWakes(s, parent, k + 1);
      }
    }
  }

  // ----- a family -----

  /** A task with children leaves something that goes on, though one of them may not be launched. */
  predicate FamilyKeepsAwake(s: State, k: nat, task: Task, launches: int -> bool)
    requires k < |s.slots|
  {
    var free := FreeFrom(s.slots, |task.children|, k, 0);
    FreeAreSlots(s.slots, |task.children|, k, 0);
    if |free| < |task.children| then AnyBusy(s.slots) || HasInference(s.queue)
    else if AllLaunch(task.children, launches) && launches(task.id) then true
    else
      LaunchKeepsSlots(s, free, task.children, task.id, launches);
      var launched := LaunchChildren(s, free, task.children, task.id, launches).0.slots;
      var (woken, left) := Woken(s.deferred, FamilyFrom(launched, task.id, 0));
      left == [] || AnyBusy(s.slots) || HasInference(s.queue) || HasInference(woken)
  }

  /** The children that were launched give back their slots, and the other slots are as they were. */
  lemma SlotsAreBack(s: State, free: seq<nat>, task: Task, launches: int -> bool, j: nat)
    requires |free| == |task.children| && InRange(free, |s.slots|) && AllIdle(s.slots, free)
    requires NoneOfFamily(s.slots, task.id) && j < |s.slots|
    ensures var t := LaunchChildren(s, free, task.children, task.id, launches).0;
      |t.slots| == |s.slots| && |ReleaseFamily(t, task.id, 0).slots| == |s.slots| && ReleaseFamily(t, task.id, 0).slots[j] == s.slots[j]
  {
    LaunchingKeeps(s, free, task.children, task.id, launches, j);
    var t := LaunchChildren(s, free, task.children, task.id, launches).0;
    FamilyIsGone(t, task.id, 0, j);
    if j in free {
      IdleAt(s.slots, free, j);
    }
  }

  lemma {:induction false} IdleAt(slots: seq<Option<Running>>, free: seq<nat>, j: nat)
    requires AllIdle(slots, free) && j in free
    ensures j < |slots| && slots[j] == None
    decreases |free|
  {
    if j != free[0] {
      IdleAt(slots, free[1..], j);
    }
  }

  lemma FamilyAwakeIff(s: State, k: nat, task: Task, launches: int -> bool)
    requires k < |s.slots| && s.slots[k] == None && task.kind == Inference && NoneOfFamily(s.slots, task.id) && s.inFlight == None
    ensures NotStuck(LaunchFamily(s, k, task, launches)) <==> FamilyKeepsAwake(s, k, task, launches)
  {
    var free := FreeFrom(s.slots, |task.children|, k, 0);
    FreeAreSlots(s.slots, |task.children|, k, 0);
    if |free| == |task.children| {
      FreeAreIdle(s.slots, |task.children|, k, 0);
      LaunchingPlaces(s, free, task.children, task.id, launches, 0);
      var t := LaunchChildren(s, free, task.children, task.id, launches).0;
      if AllLaunch(task.children, launches) && launches(task.id) {
        BusyAfter(t.slots, k, Some(Running(task.id, -1)));
      } else {
        FamilyWakes(t, task.id, 0);
        SlotsAreBack(s, free, task, launches, k);
        forall j | 0 <= j < |s.slots|
          ensures ReleaseFamily(t, task.id, 0).slots[j] == s.slots[j]
        {
          SlotsAreBack(s, free, task, launches, j);
        }
        assert ReleaseFamily(t, task.id, 0).slots == s.slots;
      }
    }
  }

  // ----- every step -----

  /** Processing the task in flight leaves something that goes on. */
  predicate HandlingKeepsAwake(s: State, choice: Choice)
    requires Enabled(s, Handle(choice))
  {
    var task, t := s.inFlight.value, s.(inFlight := None);
    match task.kind
    case Other => OthersGoOn(t)
    case Cancel =>
      var k := SlotOf(t.slots, task.idTarget);
      if k < |t.slots| then ReleaseKeepsAwake(t, k) else OthersGoOn(t)
    case SlotAction => IsBusy(t.slots, SlotById(|t.slots|, task.actionSlot)) || OthersGoOn(t)
    case Inference =>
      var k := if task.idSlot != -1 then SlotById(|t.slots|, task.idSlot) else choice.available;
      if task.cli && !choice.tokenizes then OthersGoOn(t)
      else if k == -1 || IsBusy(t.slots, k) then true
      else if task.children != [] then FamilyKeepsAwake(t, k, task, choice.launches)
      else choice.launches(task.id) || OthersGoOn(t)
  }

  /** What can be seen before a step, and decides whether something goes on after it. */
  predicate KeepsAwake(s: State, step: Step)
    requires Enabled(s, step)
  {
    match step
    case NewId => NotStuck(s)
    case Arrive(tasks, _) =>
      var posted := Numbered(s, tasks);
      || Remaining(s.deferred, posted) == [] || AnyBusy(s.slots) || TakenIsInference(s.inFlight)
      || HasInference(Remaining(s.queue, posted)) || SomeStays(posted)
    case Take => NotStuck(s)
    case Handle(choice) => HandlingKeepsAwake(s, choice)
    case Finish(k) => ReleaseKeepsAwake(s, k)
  }

  lemma HandlingAwakeIff(s: State, choice: Choice)
    requires Enabled(s, Handle(choice)) && Unrelated(s)
    ensures NotStuck(Process(s, choice)) <==> HandlingKeepsAwake(s, choice)
  {
    var task, t := s.inFlight.value, s.(inFlight := None);
    match task.kind
    case Other =>
    case Cancel =>
      var k := SlotOf(t.slots, task.idTarget);
      if k < |t.slots| {
        SlotOfIs(t.slots, task.idTarget);
        ReleaseWakes(t, k);
      }
    case SlotAction =>
    case Inference =>
      var k := if task.idSlot != -1 then SlotById(|t.slots|, task.idSlot) else choice.available;
      if !(task.cli && !choice.tokenizes) {
        if k == -1 {
          assert IsBusy(t.slots, 0);
        } else if !IsBusy(t.slots, k) {
          if task.children != [] {
            FamilyAwakeIff(t, k, task, choice.launches);
          } else {
            BusyAfter(t.slots, k, Some(Running(task.id, -1)));
          }
        }
      }
  }

  /** For every step of every kind: deferred tasks still have something that will wake them up exactly if this is so. */
  lemma StepAwakeIff(s: State, step: Step)
    requires Enabled(s, step) && Unrelated(s)
    ensures NotStuck(Next(s, step)) <==> KeepsAwake(s, step)
  {
    match step
    case NewId =>
    case Arrive(tasks, front) => ArrivalLeaves(s, tasks, front);
    case Take =>
    case Handle(choice) => HandlingAwakeIff(s, choice);
    case Finish(k) => ReleaseWakes(s, k);
  }

  /** If only inference tasks are deferred, a family that fails strands them exactly if its first child fails and nothing else goes on. */
  lemma FamilyFailureStrandsIff(s: State, k: nat, task: Task, launches: int -> bool)
    requires k < |s.slots| && s.slots[k] == None && task.kind == Inference && NoneOfFamily(s.slots, task.id) && s.inFlight == None
    requires task.children != [] && AllInference(s.deferred) && !(AllLaunch(task.children, launches) && launches(task.id))
    requires |FreeFrom(s.slots, |task.children|, k, 0)| == |task.children|
    ensures NotStuck(LaunchFamily(s, k, task, launches)) <==> launches(task.children[0]) || OthersGoOn(s)
  {
    FamilyAwakeIff(s, k, task, launches);
    var free := FreeFrom(s.slots, |task.children|, k, 0);
    FreeAreSlots(s.slots, |task.children|, k, 0);
    FreeAreIdle(s.slots, |task.children|, k, 0);
    LaunchKeepsSlots(s, free, task.children, task.id, launches);
    var t := LaunchChildren(s, free, task.children, task.id, launches).0;
    if launches(task.children[0]) {
      FirstIsLaunched(s, free, task.children, task.id, launches);
      InFamily(t.slots, task.id, 0, free[0]);
      if s.deferred != [] {
        var ks := FamilyFrom(t.slots, task.id, 0);
        InferenceAt(s.deferred, NextDeferred(s.deferred, ks[0]));
      }
    } else {
      NobodyOfFamily(s.slots, task.id, 0);
    }
  }

  lemma {:induction false} InferenceAt(q: seq<Task>, i: nat)
    requires i < |q| && AllInference(q)
    ensures q[i].kind == Inference
  {
    if i > 0 {
      InferenceAt(q[1..], i - 1);
    }
  }

  lemma FirstIsLaunched(s: State, free: seq<nat>, children: seq<int>, parent: int, launches: int -> bool)
    requires free != [] && |free| == |children| && InRange(free, |s.slots|) && AllIdle(s.slots, free) && launches(children[0])
    ensures var t := LaunchChildren(s, free, children, parent, launches).0;
      |t.slots| == |s.slots| && OfFamily(t.slots[free[0]], parent)
  {
    var next := Occupy(s, free[0], Running(children[0], parent));
    LaunchingKeeps(next, free[1..], children[1..], parent, launches, free[0]);
  }

  lemma {:induction false} InFamily(slots: seq<Option<Running>>, parent: int, k: nat, j: nat)
    requires k <= j < |slots| && OfFamily(slots[j], parent)
    ensures FamilyFrom(slots, parent, k) != []
    decreases |slots| - k
  {
    if k < j {
      InFamily(slots, parent, k + 1, j);
    }
  }

  lemma {:induction false} NobodyOfFamily(slots: seq<Option<Running>>, parent: int, k: nat)
    requires k <= |slots| && NoneOfFamily(slots, parent)
    ensures FamilyFrom(slots, parent, k) == []
    decreases |slots| - k
  {
    if k < |slots| {
      NobodyOfFamily(slots, parent, k + 1);
    }
  }

  // ----- runs in which tasks are woken up -----

  /** An inference task that the server has prepared, with fewer children than there are slots; or none. */
  predicate Plain(t: Task, nSlots: nat) {
    t.kind == Inference ==> !t.cli && |t.children| < nSlots
  }

  predicate AllPlain(q: seq<Task>, nSlots: nat) {
    q == [] || (Plain(q[0], nSlots) && q[0].kind != SlotAction && AllPlain(q[1..], nSlots))
  }

  predicate AllInference(q: seq<Task>) {
    q == [] || (q[0].kind == Inference && AllInference(q[1..]))
  }

  /** Only inference tasks are deferred, and no task asks for too much. */
  predicate Orderly(s: State) {
    && AllPlain(s.queue, |s.slots|) && AllPlain(s.deferred, |s.slots|) && AllInference(s.deferred)
    && (s.inFlight != None ==> Plain(s.inFlight.value, |s.slots|) && s.inFlight.value.kind != SlotAction)
  }

  /** No cancellation hits a task in the main queue. */
  predicate Spares(s: State, tasks: seq<Task>, front: bool)
    decreases |tasks|
  {
    tasks == [] ||
    var (numbered, task) := Number(s, tasks[0]);
    && (task.kind == Cancel ==> Kept(s.queue, task.idTarget) == s.queue)
    && Spares(Post(numbered, task, front), tasks[1..], front)
  }

  ghost predicate Gentle(s: State, step: Step) {
    match step
    case NewId => true
    case Arrive(tasks, front) => AllPlain(tasks, |s.slots|) && Spares(s, tasks, front)
    case Take => true
    case Handle(choice) => forall id: int :: choice.launches(id)
    case Finish(_) => true
  }

  lemma {:induction false} AllPlainAppend(a: seq<Task>, b: seq<Task>, n: nat)
    ensures AllPlain(a + b, n) <==> AllPlain(a, n) && AllPlain(b, n)
    ensures AllInference(a + b) <==> AllInference(a) && AllInference(b)
  {
    if a == [] {
      assert a + b == b;
    } else {
      assert (a + b)[1..] == a[1..] + b;
      AllPlainAppend(a[1..], b, n);
    }
  }

  lemma AllPlainOne(t: Task, n: nat)
    ensures AllPlain([t], n) <==> Plain(t, n) && t.kind != SlotAction
    ensures AllInference([t]) <==> t.kind == Inference
  {
    assert [t][1..] == [];
  }

  lemma {:induction false} AllPlainKept(q: seq<Task>, target: int, n: nat)
    ensures AllPlain(q, n) ==> AllPlain(Kept(q, target), n)
    ensures AllInference(q) ==> AllInference(Kept(q, target))
  {
    if q != [] {
      AllPlainKept(q[1..], target, n);
      assert ([q[0]] + Kept(q[1..], target))[1..] == Kept(q[1..], target);
    }
  }

  lemma {:induction false} AllPlainWithout(q: seq<Task>, i: nat, n: nat)
    requires i < |q| && AllPlain(q, n) && AllInference(q)
    ensures AllPlain(Without(q, i), n) && AllInference(Without(q, i))
    ensures Plain(q[i], n) && q[i].kind == Inference
  {
    if i == 0 {
      assert Without(q, 0) == q[1..];
    } else {
      AllPlainWithout(q[1..], i - 1, n);
      assert Without(q, i)[1..] == Without(q[1..], i - 1);
    }
  }

  lemma PostStaysAwake(s: State, task: Task, front: bool)
    requires Orderly(s) && NotStuck(s) && Plain(task, |s.slots|) && task.kind != SlotAction
    requires task.kind == Cancel ==> Kept(s.queue, task.idTarget) == s.queue
    ensures Orderly(Post(s, task, front)) && NotStuck(Post(s, task, front)) && Post(s, task, front).slots == s.slots
  {
    var n := |s.slots|;
    AllPlainKept(s.deferred, if task.kind == Cancel then task.idTarget else 0, n);
    AllPlainAppend([task], s.queue, n);
    AllPlainAppend(s.queue, [task], n);
    AllPlainOne(task, n);
    HasInferenceAppend([task], s.queue);
    HasInferenceAppend(s.queue, [task]);
    NothingKept(s.deferred, task.idTarget);
  }

  lemma NothingKept(q: seq<Task>, target: int)
    ensures q == [] ==> Kept(q, target) == []
  {
  }

  lemma {:induction false} ArrivalStaysAwake(s: State, tasks: seq<Task>, front: bool)
    requires Orderly(s) && NotStuck(s) && AllPlain(tasks, |s.slots|) && Spares(s, tasks, front)
    ensures Orderly(PostAll(s, tasks, front)) && NotStuck(PostAll(s, tasks, front))
    decreases |tasks|
  {
    if tasks != [] {
      var (numbered, task) := Number(s, tasks[0]);
      PostStaysAwake(numbered, task, front);
      ArrivalStaysAwake(Post(numbered, task, front), tasks[1..], front);
    }
  }

  lemma ReleaseStaysAwake(s: State, k: nat)
    requires Orderly(s) && k < |s.slots| && s.slots[k] != None
    ensures Orderly(Release(s, k)) && NotStuck(Release(s, k))
  {
    ReleaseWakes(s, k);
    if s.deferred != [] {
      var i := NextDeferred(s.deferred, k);
      AllPlainWithout(s.deferred, i, |s.slots|);
      AllPlainAppend([s.deferred[i]], s.queue, |s.slots|);
      AllPlainOne(s.deferred[i], |s.slots|);
    }
  }

  lemma {:induction false} AllLaunchAll(children: seq<int>, launches: int -> bool)
    requires forall id: int :: launches(id)
    ensures AllLaunch(children, launches)
  {
    if children != [] {
      AllLaunchAll(children[1..], launches);
    }
  }

  /** If all slots are free, there are as many free slots as there are, but for the one that is excluded. */
  lemma {:induction false} FreeIfIdle(slots: seq<Option<Running>>, needed: nat, exclude: nat, k: nat)
    requires k <= |slots| && !AnyBusy(slots)
    requires needed + (if k <= exclude < |slots| then 1 else 0) <= |slots| - k
    ensures |FreeFrom(slots, needed, exclude, k)| == needed
    decreases |slots| - k
  {
    if k < |slots| && needed > 0 {
      FreeIfIdle(slots, if k != exclude then needed - 1 else needed, exclude, k + 1);
    }
  }

  lemma FamilyStaysAwake(s: State, k: nat, task: Task, launches: int -> bool)
    requires Orderly(s) && k < |s.slots| && s.slots[k] == None && forall id: int :: launches(id)
    requires task.kind == Inference && Plain(task, |s.slots|)
    ensures Orderly(LaunchFamily(s, k, task, launches)) && NotStuck(LaunchFamily(s, k, task, launches))
  {
    var n := |s.slots|;
    var free := FreeFrom(s.slots, |task.children|, k, 0);
    FreeAreSlots(s.slots, |task.children|, k, 0);
    if |free| < |task.children| {
      if !AnyBusy(s.slots) {
        FreeIfIdle(s.slots, |task.children|, k, 0);
      }
      AllPlainAppend(s.deferred, [task], n);
      AllPlainOne(task, n);
    } else {
      FreeAreIdle(s.slots, |task.children|, k, 0);
      LaunchingPlaces(s, free, task.children, task.id, launches, 0);
      AllLaunchAll(task.children, launches);
      var t := LaunchChildren(s, free, task.children, task.id, launches).0;
      BusyAfter(t.slots, k, Some(Running(task.id, -1)));
    }
  }

  lemma HandlingStaysAwake(s: State, choice: Choice)
    requires Enabled(s, Handle(choice)) && Orderly(s) && NotStuck(s) && forall id: int :: choice.launches(id)
    ensures Orderly(Process(s, choice)) && NotStuck(Process(s, choice))
  {
    var task, t, n := s.inFlight.value, s.(inFlight := None), |s.slots|;
    AllPlainAppend(t.deferred, [task], n);
    AllPlainOne(task, n);
    match task.kind
    case Other =>
    case Cancel =>
      var k := SlotOf(t.slots, task.idTarget);
      if k < n {
        SlotOfIs(t.slots, task.idTarget);
        ReleaseStaysAwake(t, k);
      }
    case Inference =>
      var k := if task.idSlot != -1 then SlotById(n, task.idSlot) else choice.available;
      if k == -1 {
        assert IsBusy(t.slots, 0);
      } else if !IsBusy(t.slots, k) {
        if task.children != [] {
          FamilyStaysAwake(t, k, task, choice.launches);
        } else {
          BusyAfter(t.slots, k, Some(Running(task.id, -1)));
        }
      }
  }

  lemma {:induction false} SlotOfIs(slots: seq<Option<Running>>, id: int)
    ensures var k := SlotOf(slots, id); k < |slots| ==> slots[k] != None && slots[k].value.id == id
  {
    if slots != [] {
      SlotOfIs(slots[1..], id);
    }
  }

  lemma StepStaysAwake(s: State, step: Step)
    requires Enabled(s, step) && Gentle(s, step) && Orderly(s) && NotStuck(s)
    ensures Orderly(Next(s, step)) && NotStuck(Next(s, step))
  {
    match step
    case NewId =>
    case Arrive(tasks, front) => ArrivalStaysAwake(s, tasks, front);
    case Take =>
    case Handle(choice) => HandlingStaysAwake(s, choice);
    case Finish(k) => ReleaseStaysAwake(s, k);
  }

  ghost predicate GentleRun(s: State, steps: seq<Step>)
    decreases |steps|
  {
    steps != [] ==> Enabled(s, steps[0]) && Gentle(s, steps[0]) && GentleRun(Next(s, steps[0]), steps[1..])
  }

  /**
   While only inference tasks are deferred, nothing fails to launch, and no cancellation hits a
   task in the main queue, a deferred task always has something that will wake it up.
   */
  lemma {:induction false} DeferredTasksAreWoken(s: State, steps: seq<Step>)
    requires Orderly(s) && NotStuck(s) && GentleRun(s, steps)
    ensures NotStuck(After(s, steps))
    decreases |steps|
  {
    if steps != [] {
      StepStaysAwake(s, steps[0]);
      DeferredTasksAreWoken(Next(s, steps[0]), steps[1..]);
    }
  }

  // ----- runs in which tasks are not woken up -----

  /** One step more at the beginning of a run. */
  lemma RunCons(s: State, step: Step, next: State, handed: set<int>, after: set<int>, rest: seq<Step>, last: State) returns (steps: seq<Step>)
    requires Enabled(s, step) && UsesHandedOut(step, handed) && Next(s, step) == next && HandedOut(s, step, handed) == after
    requires IsIssuedRun(next, rest, after) && After(next, rest) == last
    ensures IsIssuedRun(s, steps, handed) && After(s, steps) == last
  {
    steps := [step] + rest;
    assert steps[0] == step && steps[1..] == rest;
  }

  /** An inference task for any slot. */
  function Job(id: int, cli: bool): Task { Task(Inference, id, -1, -1, -1, [], cli) }

  function SaveSlot(id: int): Task { Task(SlotAction, id, -1, -1, 0, [], false) }

  const EVERYTHING := Choice(-1, true, _ => true)
  const FIRST_SLOT := Choice(0, true, _ => true)
  const SECOND_SLOT := Choice(1, true, _ => true)

  /** One slot, and what it runs. */
  function OneSlot(nextId: int, queue: seq<Task>, deferred: seq<Task>, inFlight: Option<Task>, r: Option<Running>): State {
    State(nextId, queue, deferred, inFlight, [r])
  }

  lemma TaskArrives(t: Task, handed: set<int>)
    requires -1 !in t.children && forall x: int | x != -1 :: In(t, x) <= One(x in handed)
    ensures UsesHandedOut(Arrive([t], false), handed) && IdsOf([t]) == if t.kind == Inference then {t.id} + (set x | x in t.children) else {}
  {
    assert [t][1..] == [];
    forall x: int | x != -1
      ensures InQueue([t], x) <= One(x in handed)
    {
      InQueueOne(t, x);
    }
  }

  /** A task arrives, is taken, and is handled. */
  lemma Comes(s: State, t: Task, choice: Choice, next: State, handed: set<int>, after: set<int>, rest: seq<Step>, last: State)
    returns (steps: seq<Step>)
    requires s.slots != [] && s.queue == [] && s.inFlight == None && t.id != -1 && t.kind != Cancel
    requires UsesHandedOut(Arrive([t], false), handed) && after == handed - IdsOf([t])
    requires Offers(s.slots, choice.available) && Process(s.(inFlight := Some(t)), choice) == next
    requires IsIssuedRun(next, rest, after) && After(next, rest) == last
    ensures IsIssuedRun(s, steps, handed) && After(s, steps) == last
  {
    var taken, arrived := s.(inFlight := Some(t)), s.(queue := [t]);
    steps := RunCons(taken, Handle(choice), next, after, after, rest, last);
    assert [t][1..] == [];
    steps := RunCons(arrived, Take, taken, after, after, steps, last);
    assert PostAll(s, [t], false) == arrived by {
      assert [] + [t] == [t] && PostAll(arrived, [], false) == arrived;
    }
    steps := RunCons(s, Arrive([t], false), arrived, handed, after, steps, last);
  }

  /** A task arrives while the slot is busy, is taken, and is deferred. */
  lemma Defers(s: State, t: Task, handed: set<int>, after: set<int>, rest: seq<Step>, last: State) returns (steps: seq<Step>)
    requires |s.slots| == 1 && s.slots[0] != None && s.queue == [] && s.inFlight == None && t.children == [] && t.id in handed && t.id != -1
    requires (t.kind == Inference && t.idSlot == -1) || (t.kind == SlotAction && t.actionSlot == 0)
    requires after == handed - (if t.kind == Inference then {t.id} else {})
    requires var next := s.(deferred := s.deferred + [t]); IsIssuedRun(next, rest, after) && After(next, rest) == last
    ensures IsIssuedRun(s, steps, handed) && After(s, steps) == last
  {
    TaskArrives(t, handed);
    assert IsBusy(s.slots, 0);
    steps := Comes(s, t, EVERYTHING, s.(deferred := s.deferred + [t]), handed, after, rest, last);
  }

  /** The first task arrives, is taken, and is launched. */
  lemma Launches(s: State, t: Task, handed: set<int>, after: set<int>, rest: seq<Step>, last: State) returns (steps: seq<Step>)
    requires s.slots != [] && s.slots[0] == None && s.queue == [] && s.inFlight == None
    requires t.children == [] && t.id in handed && t.id != -1 && t.kind == Inference && t.idSlot == -1
    requires after == handed - {t.id}
    requires var next := s.(slots := s.slots[0 := Some(Running(t.id, -1))]); IsIssuedRun(next, rest, after) && After(next, rest) == last
    ensures IsIssuedRun(s, steps, handed) && After(s, steps) == last
  {
    TaskArrives(t, handed);
    assert !IsBusy(s.slots, 0);
    steps := Comes(s, t, FIRST_SLOT, s.(slots := s.slots[0 := Some(Running(t.id, -1))]), handed, after, rest, last);
  }

  /**
   A run from the start: a first task occupies the only slot, b and c are deferred, the slot
   finishes and wakes up b. From there it goes on with the given steps.
   */
  lemma FromTheStart(b: Task, c: Task, rest: seq<Step>, last: State) returns (steps: seq<Step>)
    requires b == Job(1, b.cli) || b == SaveSlot(1)
    requires c == Job(2, false)
    requires var handed: set<int> := if b.kind == Inference then {} else {1};
      var s := OneSlot(3, [b], [c], None, None);
      IsIssuedRun(s, rest, handed) && After(s, rest) == last
    ensures IsIssuedRun(OneSlot(0, [], [], None, None), steps, {}) && After(OneSlot(0, [], [], None, None), steps) == last
  {
    steps := TwoAreDeferred(b, c, rest, last);
    assert [None][0 := Some(Running(0, -1))] == [Some(Running(0, -1))];
    steps := Launches(OneSlot(3, [], [], None, None), Job(0, false), {0, 1, 2}, {1, 2}, steps, last);
    steps := RunCons(OneSlot(2, [], [], None, None), NewId, OneSlot(3, [], [], None, None), {0, 1}, {0, 1, 2}, steps, last);
    steps := RunCons(OneSlot(1, [], [], None, None), NewId, OneSlot(2, [], [], None, None), {0}, {0, 1}, steps, last);
    steps := RunCons(OneSlot(0, [], [], None, None), NewId, OneSlot(1, [], [], None, None), {}, {0}, steps, last);
  }

  /** With the slot busy b and c are deferred; then the slot finishes and wakes up b. */
  lemma TwoAreDeferred(b: Task, c: Task, rest: seq<Step>, last: State) returns (steps: seq<Step>)
    requires (b == Job(1, b.cli) || b == SaveSlot(1)) && c == Job(2, false)
    requires var handed: set<int> := if b.kind == Inference then {} else {1};
      var s := OneSlot(3, [b], [c], None, None);
      IsIssuedRun(s, rest, handed) && After(s, rest) == last
    ensures var s := OneSlot(3, [], [], None, Some(Running(0, -1)));
      IsIssuedRun(s, steps, {1, 2}) && After(s, steps) == last
  {
    var handed: set<int> := if b.kind == Inference then {} else {1};
    var busy := Some(Running(0, -1));
    var released := OneSlot(3, [b], [c], None, None);
    var waiting := OneSlot(3, [], [b, c], None, busy);
    FirstIsPopped(b, c, waiting, released);
    steps := RunCons(waiting, Finish(0), released, handed, handed, rest, last);
    assert [b] + [c] == [b, c] && [] + [b] == [b];
    steps := BothDefer(OneSlot(3, [], [], None, busy), OneSlot(3, [], [b], None, busy), waiting, b, c, handed, steps, last);
  }

  lemma BothDefer(s: State, one: State, two: State, b: Task, c: Task, handed: set<int>, rest: seq<Step>, last: State) returns (steps: seq<Step>)
    requires (b == Job(1, b.cli) || b == SaveSlot(1)) && c == Job(2, false) && handed == (if b.kind == Inference then {} else {1})
    requires |s.slots| == 1 && s.slots[0] != None && s.queue == [] && s.inFlight == None
    requires one == s.(deferred := s.deferred + [b]) && two == one.(deferred := one.deferred + [c])
    requires IsIssuedRun(two, rest, handed) && After(two, rest) == last
    ensures IsIssuedRun(s, steps, {1, 2}) && After(s, steps) == last
  {
    steps := Defers(one, c, handed + {2}, handed, rest, last);
    steps := Defers(s, b, {1, 2}, handed + {2}, steps, last);
  }

  lemma FirstIsPopped(b: Task, c: Task, s: State, t: State)
    requires b.idSlot == -1 && c.idSlot == -1
    requires s == OneSlot(3, [], [b, c], None, Some(Running(0, -1))) && t == OneSlot(3, [b], [c], None, None)
    ensures Release(s, 0) == t
  {
    assert [b, c][1..] == [c] && [c][1..] == [];
    assert FirstFor([c], 0) == 1 + FirstFor([], 0);
    assert FirstFor([b, c], 0) == 1 + FirstFor([c], 0);
    assert Without([b, c], 0) == [c] && [b] + [] == [b];
    assert s.slots[0 := None] == t.slots;
  }

  /** Nothing is left that could wake up c. */
  predicate Stranded(s: State, c: Task) {
    c in s.deferred && !NotStuck(s)
  }

  lemma KeptOne(t: Task, target: int)
    ensures Kept([t], target) == if t.id == target then [] else [t]
  {
    assert [t][1..] == [] && Kept([], target) == [];
  }

  /** The task that was woken up is cancelled: another one is stranded. */
  lemma CancelStrands() returns (steps: seq<Step>)
    ensures var start := OneSlot(0, [], [], None, None);
      IsIssuedRun(start, steps, {}) && Stranded(After(start, steps), Job(2, false))
  {
    var b, c := Job(1, false), Job(2, false);
    var cancel := Task(Cancel, -1, -1, 1, -1, [], false);
    var s, t := OneSlot(3, [b], [c], None, None), OneSlot(4, [cancel.(id := 3)], [c], None, None);
    assert [b][1..] == [] && [c][1..] == [] && [cancel][1..] == [];
    KeptOne(b, 1);
    KeptOne(c, 1);
    assert [cancel.(id := 3)] + [] == [cancel.(id := 3)];
    assert PostAll(s, [cancel], true) == t;
    assert IdsOf([cancel]) == {};
    forall x: int
      ensures InQueue([cancel], x) == 0
    {
      InQueueOne(cancel, x);
    }
    steps := RunCons(s, Arrive([cancel], true), t, {}, {}, [], t);
    steps := FromTheStart(b, c, steps, t);
    HasInferenceOne(cancel.(id := 3));
  }

  /** The task that was woken up cannot be launched: another one is stranded. */
  lemma FailureStrands() returns (steps: seq<Step>)
    ensures var start := OneSlot(0, [], [], None, None);
      IsIssuedRun(start, steps, {}) && Stranded(After(start, steps), Job(2, false))
  {
    var b, c := Job(1, false), Job(2, false);
    steps := DropsIt(b, c, Choice(0, true, _ => false));
  }

  /** The task that was woken up comes from the command line and cannot be tokenized: another one is stranded. */
  lemma TokenizingStrands() returns (steps: seq<Step>)
    ensures var start := OneSlot(0, [], [], None, None);
      IsIssuedRun(start, steps, {}) && Stranded(After(start, steps), Job(2, false))
  {
    var b, c := Job(1, true), Job(2, false);
    steps := DropsIt(b, c, Choice(0, false, _ => true));
  }

  lemma DropsIt(b: Task, c: Task, choice: Choice) returns (steps: seq<Step>)
    requires b == Job(1, b.cli) && c == Job(2, false) && choice.available == 0
    requires (b.cli && !choice.tokenizes) || !choice.launches(1)
    ensures var start := OneSlot(0, [], [], None, None);
      IsIssuedRun(start, steps, {}) && Stranded(After(start, steps), c)
  {
    var s, taken, t := OneSlot(3, [b], [c], None, None), OneSlot(3, [], [c], Some(b), None), OneSlot(3, [], [c], None, None);
    assert [b][1..] == [];
    assert !IsBusy(t.slots, 0);
    assert IsIssuedRun(t, [], {}) && After(t, []) == t;
    steps := RunCons(taken, Handle(choice), t, {}, {}, [], t);
    steps := RunCons(s, Take, taken, {}, {}, steps, t);
    steps := FromTheStart(b, c, steps, t);
  }

  /** The slot that finishes wakes up a slot action, which occupies no slot: an inference task is stranded. */
  lemma SlotActionStrands() returns (steps: seq<Step>)
    ensures var start := OneSlot(0, [], [], None, None);
      IsIssuedRun(start, steps, {}) && Stranded(After(start, steps), Job(2, false))
  {
    var b, c := SaveSlot(1), Job(2, false);
    var s := OneSlot(3, [b], [c], None, None);
    assert IsIssuedRun(s, [], {1}) && After(s, []) == s;
    steps := FromTheStart(b, c, [], s);
    HasInferenceOne(b);
  }

  /** A task with a child. */
  const FAMILY := Task(Inference, 1, -1, -1, -1, [2], false)

  /** A task for the first of two slots: numbers of slots wrap around. */
  const FOR_SLOT := Task(Inference, 3, 2, -1, -1, [], false)

  /**
   A task with a child is deferred while one of two slots is busy, and a task for that slot behind
   it. The slot finishes and wakes up the family, whose first child cannot be launched: the other
   task is stranded.
   */
  lemma FamilyStrands() returns (steps: seq<Step>)
    ensures IsIssuedRun(Start(2), steps, {}) && Stranded(After(Start(2), steps), FOR_SLOT)
  {
    var last;
    steps, last := FamilyFails();
    steps := FamilyWaits(steps, last);
    var idle: seq<Option<Running>> := [None, None];
    FirstRuns(idle);
    steps := Launches(State(4, [], [], None, idle), Job(0, false), {0, 1, 2, 3}, {1, 2, 3}, steps, last);
    steps := HandsOut(idle, 3, {0, 1, 2}, {0, 1, 2, 3}, steps, last);
    steps := HandsOut(idle, 2, {0, 1}, {0, 1, 2}, steps, last);
    steps := HandsOut(idle, 1, {0}, {0, 1}, steps, last);
    steps := HandsOut(idle, 0, {}, {0}, steps, last);
    assert Start(2).slots == idle;
  }

  lemma FirstRuns(idle: seq<Option<Running>>)
    requires idle == [None, None]
    ensures idle[0 := Some(Running(0, -1))] == [Some(Running(0, -1)), None]
  {
  }

  lemma HandsOut(slots: seq<Option<Running>>, n: int, handed: set<int>, after: set<int>, rest: seq<Step>, last: State) returns (steps: seq<Step>)
    requires after == handed + {n} && IsIssuedRun(State(n + 1, [], [], None, slots), rest, after)
    requires After(State(n + 1, [], [], None, slots), rest) == last
    ensures IsIssuedRun(State(n, [], [], None, slots), steps, handed) && After(State(n, [], [], None, slots), steps) == last
  {
    steps := RunCons(State(n, [], [], None, slots), NewId, State(n + 1, [], [], None, slots), handed, after, rest, last);
  }

  /** The family and the task behind it are deferred, and the family is woken up. */
  lemma FamilyWaits(rest: seq<Step>, last: State) returns (steps: seq<Step>)
    requires var s := State(4, [FAMILY], [FOR_SLOT], None, [None, None]); IsIssuedRun(s, rest, {}) && After(s, rest) == last
    ensures var s := State(4, [], [], None, [Some(Running(0, -1)), None]);
      IsIssuedRun(s, steps, {1, 2, 3}) && After(s, steps) == last
  {
    var slots := [Some(Running(0, -1)), None];
    var released, both := State(4, [FAMILY], [FOR_SLOT], None, [None, None]), State(4, [], [FAMILY, FOR_SLOT], None, slots);
    FamilyIsPopped(both, released);
    steps := RunCons(both, Finish(0), released, {}, {}, rest, last);
    assert [FAMILY] + [FOR_SLOT] == [FAMILY, FOR_SLOT] && [] + [FAMILY] == [FAMILY];
    var one := State(4, [], [FAMILY], None, slots);
    TaskArrives(FOR_SLOT, {3});
    ForSlotIsDeferred(one, both);
    steps := Comes(one, FOR_SLOT, SECOND_SLOT, both, {3}, {}, steps, last);
    FamilyArrives();
    FamilyIsDeferred(State(4, [], [], None, slots), one);
    steps := Comes(State(4, [], [], None, slots), FAMILY, SECOND_SLOT, one, {1, 2, 3}, {3}, steps, last);
  }

  lemma FamilyIsPopped(s: State, t: State)
    requires s.deferred == [FAMILY, FOR_SLOT] && s.queue == [] && s.slots == [Some(Running(0, -1)), None]
    requires t == s.(queue := [FAMILY], deferred := [FOR_SLOT], slots := [None, None])
    ensures Release(s, 0) == t
  {
    NextDeferredIs(s.deferred, 0);
    assert NextDeferred(s.deferred, 0) == 0 by {
      assert s.deferred[0].idSlot != 0 && s.deferred[1].idSlot != 0;
    }
    assert Without(s.deferred, 0) == [FOR_SLOT] && [FAMILY] + [] == [FAMILY];
    assert s.slots[0 := None] == t.slots;
  }

  lemma ForSlotIsDeferred(s: State, t: State)
    requires s.slots == [Some(Running(0, -1)), None] && s.inFlight == None && t == s.(deferred := s.deferred + [FOR_SLOT])
    ensures Offers(s.slots, 1) && Process(s.(inFlight := Some(FOR_SLOT)), SECOND_SLOT) == t
  {
    assert SlotById(2, FOR_SLOT.idSlot) == 0;
    assert IsBusy(s.slots, 0) && !IsBusy(s.slots, 1);
  }

  lemma FamilyIsDeferred(s: State, t: State)
    requires s.slots == [Some(Running(0, -1)), None] && s.inFlight == None && t == s.(deferred := s.deferred + [FAMILY])
    ensures Offers(s.slots, 1) && Process(s.(inFlight := Some(FAMILY)), SECOND_SLOT) == t
  {
    assert IsBusy(s.slots, 0) && !IsBusy(s.slots, 1);
    assert FreeFrom(s.slots, 1, 1, 2) == [] && FreeFrom(s.slots, 1, 1, 1) == [] && FreeFrom(s.slots, 1, 1, 0) == [];
  }

  lemma FamilyArrives()
    ensures UsesHandedOut(Arrive([FAMILY], false), {1, 2, 3}) && {1, 2, 3} - IdsOf([FAMILY]) == {3}
  {
    forall x: int | x != -1
      ensures In(FAMILY, x) <= One(x in {1, 2, 3})
    {
      assert [2][1..] == [] && Occurs([2], x) == One(2 == x) + Occurs([], x);
    }
    TaskArrives(FAMILY, {1, 2, 3});
    assert FAMILY.children[0] == 2;
  }

  /** The family that was woken up cannot be launched. */
  lemma FamilyFails() returns (steps: seq<Step>, last: State)
    ensures var s := State(4, [FAMILY], [FOR_SLOT], None, [None, None]); IsIssuedRun(s, steps, {}) && After(s, steps) == last
    ensures Stranded(last, FOR_SLOT)
  {
    var choice := Choice(0, true, _ => false);
    var t := State(4, [], [FOR_SLOT], None, [None, None]);
    assert FreeFrom(t.slots, 0, 0, 2) == [] && FreeFrom(t.slots, 1, 0, 1) == [1] + FreeFrom(t.slots, 0, 0, 2);
    assert FreeFrom(t.slots, 1, 0, 0) == FreeFrom(t.slots, 1, 0, 1) == [1];
    assert [FOR_SLOT][1..] == [] && [FAMILY][1..] == [];
    FamilyFailureStrandsIff(t, 0, FAMILY, choice.launches);
    FamilyKeepsDeferred(t, 0, FAMILY, choice.launches);
    last := LaunchFamily(t, 0, FAMILY, choice.launches);
    assert IsIssuedRun(last, [], {}) && After(last, []) == last;
    var taken := t.(inFlight := Some(FAMILY));
    assert !IsBusy(taken.slots, 0) && taken.(inFlight := None) == t;
    steps := RunCons(taken, Handle(choice), last, {}, {}, [], last);
    steps := RunCons(t.(queue := [FAMILY]), Take, taken, {}, {}, steps, last);
  }

  /** A family whose first child cannot be launched leaves the deferred tasks as they are. */
  lemma FamilyKeepsDeferred(s: State, k: nat, task: Task, launches: int -> bool)
    requires k < |s.slots| && s.inFlight == None && NoneOfFamily(s.slots, task.id)
    requires task.children != [] && !launches(task.children[0])
    requires |FreeFrom(s.slots, |task.children|, k, 0)| == |task.children|
    ensures LaunchFamily(s, k, task, launches).deferred == s.deferred
  {
    FreeAreSlots(s.slots, |task.children|, k, 0);
    FamilyWakes(s, task.id, 0);
    NobodyOfFamily(s.slots, task.id, 0);
  }
}
