/**
 What every run of senders and readers keeps: a result reaches the reader that owns its task,
 once and in order; and after a reader has stopped, nothing is queued for it any more.
 */
module Routing {
  import opened Options
  import opened Results

  /** What happens under one lock of the response queue. */
  datatype Step =
    | Register(list: seq<int>)
    | Send(result: Result)
    | Receive(k: nat)
    | StopBegin(k: nat)
    | StopErase(k: nat, id: int)

  /** A task sends nothing after its final result. */
  predicate Finished(q: seq<Result>) {
    q != [] && (q[0].isStop || Finished(q[1..]))
  }

  predicate Enabled(s: System, step: Step) {
    match step
    case Register(list) => Distinct(list) && forall k | 0 <= k < |s.readers| :: s.readers[k].ids !! Ids(list)
    case Send(result) => !Finished(Only(s.accepted, result.id))
    case Receive(k) => k < |s.readers| && s.readers[k].stage == Active
    case StopBegin(k) => k < |s.readers| && !s.readers[k].stage.Stopping?
    case StopErase(k, id) => k < |s.readers| && s.readers[k].stage.Stopping? && id in s.readers[k].stage.left
  }

  function Next(s: System, step: Step): System
    requires Enabled(s, step)
  {
    match step
    case Register(list) => Registered(s, list)
    case Send(result) => Sent(s, result)
    case Receive(k) => Given(s, k)
    case StopBegin(k) => BeginStop(s, k)
    case StopErase(k, id) => Erased(s, k, id)
  }

  // ----- what every step keeps -----

  /** A final result is the last one. */
  predicate FinalIsLast(q: seq<Result>) {
    q == [] || (if q[0].isStop then q[1..] == [] else FinalIsLast(q[1..]))
  }

  /** A final result that is no error. */
  predicate Answered(q: seq<Result>) {
    q != [] && ((q[0].isStop && !q[0].isError) || Answered(q[1..]))
  }

  /** The tasks of a reader of which it has been given a final result that is no error. */
  function Done(reader: Reader): set<int> {
    set x | x in reader.ids && Answered(Only(reader.delivered, x))
  }

  /** Task x of reader k: what was queued for it is what was delivered, deleted, and is still queued. */
  ghost predicate Routed(s: System, k: nat, x: int)
    requires k < |s.readers|
  {
    var reader := s.readers[k];
    && Only(s.accepted, x) == Only(reader.delivered, x) + Only(s.deleted, x) + Only(s.results, x)
    && FinalIsLast(Only(s.accepted, x))
    && match reader.stage
       case Active => Only(s.deleted, x) == []
       case Stopping(left) => x !in s.waiting && if x in left then Only(s.deleted, x) == [] else Only(s.results, x) == []
       case Stopped => x !in s.waiting && Only(s.results, x) == []
  }

  predicate StageOk(reader: Reader) {
    && reader.ids == Ids(reader.list) && Distinct(reader.list)
    && match reader.stage
       case Active => !reader.cancelled
       case Stopping(left) => reader.cancelled && left <= reader.ids
       case Stopped => !reader.HasNext()
  }

  ghost predicate ReaderOk(s: System, k: nat)
    requires k < |s.readers|
  {
    var reader := s.readers[k];
    && (forall x | x in reader.ids :: Routed(s, k, x))
    && (forall x | x !in reader.ids :: Only(reader.delivered, x) == [])
    && reader.receivedCount <= |Done(reader)| && StageOk(reader)
  }

  /** Nobody waits for, or has results of, a task that no reader owns. */
  ghost predicate Unowned(s: System, x: int) {
    (forall k | 0 <= k < |s.readers| :: x !in s.readers[k].ids) ==>
      x !in s.waiting && Only(s.accepted, x) == [] && Only(s.results, x) == [] && Only(s.deleted, x) == []
  }

  ghost predicate Sound(s: System) {
    && (forall k | 0 <= k < |s.readers| :: ReaderOk(s, k))
    && (forall i, k | 0 <= i < k < |s.readers| :: s.readers[i].ids !! s.readers[k].ids)
    && forall x: int :: Unowned(s, x)
  }

  lemma {:induction false} FinalAppend(q: seq<Result>, r: Result)
    requires !Finished(q)
    ensures FinalIsLast(q + [r])
  {
    if q == [] {
      assert [] + [r] == [r] && [r][1..] == [];
    } else {
      FinalAppend(q[1..], r);
      assert (q + [r])[1..] == q[1..] + [r];
    }
  }

  lemma {:induction false} FinishedAppend(a: seq<Result>, b: seq<Result>)
    ensures Finished(a + b) <==> Finished(a) || Finished(b)
    ensures FinalIsLast(a + b) && Finished(a) ==> b == []
  {
    if a == [] {
      assert a + b == b;
    } else {
      FinishedAppend(a[1..], b);
      assert (a + b)[1..] == a[1..] + b;
    }
  }

  lemma {:induction false} AnsweredAppend(a: seq<Result>, b: seq<Result>)
    ensures Answered(a + b) <==> Answered(a) || Answered(b)
  {
    if a == [] {
      assert a + b == b;
    } else {
      AnsweredAppend(a[1..], b);
      assert (a + b)[1..] == a[1..] + b;
    }
  }

  lemma {:induction false} AnsweredIsFinished(q: seq<Result>)
    requires Answered(q)
    ensures Finished(q)
  {
    if !(q[0].isStop && !q[0].isError) {
      AnsweredIsFinished(q[1..]);
    }
  }

  lemma SameSize(a: set<int>, b: set<int>)
    requires a <= b && |a| >= |b|
    ensures a == b
  {
    assert (b - a) + a == b;
    assert |b - a| + |a| == |b|;
    assert |b - a| == 0;
    forall x | x in b
      ensures x in a
    {
      assert x in a || x in b - a;
    }
  }

  /** Nothing has changed for a task. */
  lemma RoutedSame(s: System, t: System, k: nat, l: nat, x: int)
    requires k < |s.readers| && l < |t.readers| && s.readers[k] == t.readers[l] && Routed(s, k, x)
    requires Only(t.accepted, x) == Only(s.accepted, x) && Only(t.deleted, x) == Only(s.deleted, x)
    requires Only(t.results, x) == Only(s.results, x) && (x in t.waiting ==> x in s.waiting)
    ensures Routed(t, l, x)
  {
  }

  // ----- sending -----

  lemma SendKeeps(s: System, r: Result)
    requires Sound(s) && Enabled(s, Send(r))
    ensures Sound(Next(s, Send(r)))
  {
    var t := Next(s, Send(r));
    forall k | 0 <= k < |t.readers|
      ensures ReaderOk(t, k)
    {
      assert ReaderOk(s, k);
      forall x | x in t.readers[k].ids
        ensures Routed(t, k, x)
      {
        assert Routed(s, k, x);
        OnlyOne(r, x);
        OnlyAppend(s.results, [r], x);
        OnlyAppend(s.accepted, [r], x);
        if r.id in s.waiting && r.id == x {
          FinalAppend(Only(s.accepted, x), r);
          var d, e, q := Only(s.readers[k].delivered, x), Only(s.deleted, x), Only(s.results, x);
          assert d + e + q + [r] == d + e + (q + [r]);
        } else {
          RoutedSame(s, t, k, k, x);
        }
      }
    }
    forall x: int
      ensures Unowned(t, x)
    {
      assert Unowned(s, x);
      OnlyOne(r, x);
      OnlyAppend(s.results, [r], x);
      OnlyAppend(s.accepted, [r], x);
    }
  }

  // ----- registering -----

  lemma RegisterKeeps(s: System, list: seq<int>)
    requires Sound(s) && Enabled(s, Register(list))
    ensures Sound(Next(s, Register(list)))
  {
    var t, ids := Next(s, Register(list)), Ids(list);
    forall k | 0 <= k < |t.readers|
      ensures ReaderOk(t, k)
    {
      if k < |s.readers| {
        assert ReaderOk(s, k);
        forall x | x in t.readers[k].ids
          ensures Routed(t, k, x)
        {
          assert Routed(s, k, x) && x !in ids;
          RoutedSame(s, t, k, k, x);
        }
      } else {
        forall x | x in ids
          ensures Routed(t, k, x)
        {
          assert Unowned(s, x);
        }
      }
    }
    forall x: int
      ensures Unowned(t, x)
    {
      assert Unowned(s, x);
      if forall k | 0 <= k < |t.readers| :: x !in t.readers[k].ids {
        assert x !in t.readers[|s.readers|].ids;
        assert forall k | 0 <= k < |s.readers| :: s.readers[k] == t.readers[k];
      }
    }
  }

  // ----- receiving -----

  lemma ReceiveRoutes(s: System, k: nat, x: int)
    requires k < |s.readers| && s.readers[k].stage == Active && x in s.readers[k].ids && Routed(s, k, x)
    ensures Routed(Given(s, k), k, x)
  {
    var reader := s.readers[k];
    var i := FirstFor(s.results, reader.ids);
    if i < |s.results| {
      var r := s.results[i];
      OnlyWithout(s.results, reader.ids, x);
      OnlyOne(r, x);
      OnlyAppend(reader.delivered, [r], x);
      MoveOver(Only(reader.delivered, x), Only([r], x), Only(Without(s.results, i), x));
    }
  }

  lemma MoveOver(d: seq<Result>, r: seq<Result>, q: seq<Result>)
    ensures d + [] + (r + q) == d + r + [] + q
  {
  }

  /** A final result that is received is the first one for its task. */
  lemma ReceiveCounts(s: System, k: nat)
    requires k < |s.readers| && s.readers[k].stage == Active && ReaderOk(s, k)
    ensures Given(s, k).readers[k].receivedCount <= |Done(Given(s, k).readers[k])|
  {
    var reader, after := s.readers[k], Given(s, k).readers[k];
    var i := FirstFor(s.results, reader.ids);
    if i < |s.results| {
      var r := s.results[i];
      FirstForIs(s.results, reader.ids);
      assert Routed(s, k, r.id);
      OnlyWithout(s.results, reader.ids, r.id);
      var counts := r.isStop && !r.isError;
      forall x | x in reader.ids
        ensures Answered(Only(after.delivered, x)) <==> Answered(Only(reader.delivered, x)) || (x == r.id && counts)
      {
        OnlyAppend(reader.delivered, [r], x);
        OnlyOne(r, x);
        AnsweredAppend(Only(reader.delivered, x), Only([r], x));
        assert [r][1..] == [];
      }
      if counts {
        StillQueued(s, k, r.id);
        assert r.id !in Done(reader);
        assert Done(after) == Done(reader) + {r.id};
      } else {
        assert Done(after) == Done(reader);
      }
    }
  }

  /** A task of which something is queued has not been answered. */
  lemma StillQueued(s: System, k: nat, x: int)
    requires k < |s.readers| && Routed(s, k, x) && s.readers[k].stage == Active && Only(s.results, x) != []
    ensures !Answered(Only(s.readers[k].delivered, x))
  {
    var d, q := Only(s.readers[k].delivered, x), Only(s.deleted, x) + Only(s.results, x);
    assert d + q == Only(s.accepted, x);
    FinishedAppend(d, q);
    if Answered(d) {
      AnsweredIsFinished(d);
    }
  }

  lemma ReceiveKeeps(s: System, k: nat)
    requires Sound(s) && Enabled(s, Receive(k))
    ensures Sound(Next(s, Receive(k)))
  {
    var t := Given(s, k);
    var reader := s.readers[k];
    var i := FirstFor(s.results, reader.ids);
    FirstForIs(s.results, reader.ids);
    assert ReaderOk(s, k);
    ReceiveCounts(s, k);
    if i < |s.results| {
      var r := s.results[i];
      forall l | 0 <= l < |t.readers|
        ensures ReaderOk(t, l)
      {
        assert ReaderOk(s, l);
        forall x | x in t.readers[l].ids
          ensures Routed(t, l, x)
        {
          assert Routed(s, l, x);
          if l == k {
            ReceiveRoutes(s, k, x);
          } else {
            OnlyWithout(s.results, reader.ids, x);
            RoutedSame(s, t, l, l, x);
          }
        }
        forall x | x !in t.readers[l].ids
          ensures Only(t.readers[l].delivered, x) == []
        {
          OnlyAppend(reader.delivered, [r], x);
          OnlyOne(r, x);
        }
      }
      forall x: int
        ensures Unowned(t, x)
      {
        assert Unowned(s, x);
        OnlyWithout(s.results, reader.ids, x);
        if forall l | 0 <= l < |t.readers| :: x !in t.readers[l].ids {
          SameOwners(s, t, k, x);
        }
      }
    }
  }

  lemma SameOwners(s: System, t: System, k: nat, x: int)
    requires k < |s.readers| && |t.readers| == |s.readers| && t.readers[k].ids == s.readers[k].ids
    requires forall l | 0 <= l < |s.readers| && l != k :: t.readers[l] == s.readers[l]
    requires forall l | 0 <= l < |t.readers| :: x !in t.readers[l].ids
    ensures forall l | 0 <= l < |s.readers| :: x !in s.readers[l].ids
  {
    forall l | 0 <= l < |s.readers|
      ensures x !in s.readers[l].ids
    {
      assert x !in t.readers[l].ids;
    }
  }

  // ----- stopping -----

  /** If all final results have been received, nothing is left for the tasks of the reader. */
  lemma AllReceived(s: System, k: nat, x: int)
    requires k < |s.readers| && ReaderOk(s, k) && x in s.readers[k].ids
    requires s.readers[k].stage == Active && s.readers[k].receivedCount >= |s.readers[k].ids|
    ensures Only(s.results, x) == []
  {
    var reader := s.readers[k];
    SameSize(Done(reader), reader.ids);
    assert x in Done(reader) && Routed(s, k, x);
    if Only(s.results, x) != [] {
      StillQueued(s, k, x);
    }
  }

  lemma StopBeginKeeps(s: System, k: nat)
    requires Sound(s) && Enabled(s, StopBegin(k))
    ensures Sound(Next(s, StopBegin(k)))
  {
    var t := BeginStop(s, k);
    forall l | 0 <= l < |t.readers|
      ensures ReaderOk(t, l)
    {
      assert ReaderOk(s, l);
      forall x | x in t.readers[l].ids
        ensures Routed(t, l, x)
      {
        assert Routed(s, l, x);
        if l != k {
          RoutedSame(s, t, l, l, x);
        } else if s.readers[k].stage == Active && !s.readers[k].HasNext() {
          AllReceived(s, k, x);
        }
      }
    }
    forall x: int
      ensures Unowned(t, x)
    {
      assert Unowned(s, x);
      if forall l | 0 <= l < |t.readers| :: x !in t.readers[l].ids {
        SameOwners(s, t, k, x);
      }
    }
  }

  lemma EraseRoutes(s: System, k: nat, id: int, x: int)
    requires k < |s.readers| && s.readers[k].stage.Stopping? && id in s.readers[k].stage.left
    requires x in s.readers[k].ids && Routed(s, k, x)
    ensures Routed(Erased(s, k, id), k, x)
  {
    OnlyExcept(s.results, id, x);
    OnlyAppend(s.deleted, Only(s.results, id), x);
    OnlyOfOnly(s.results, id, x);
    MoveBehindNothing(Only(s.readers[k].delivered, x), Only(s.results, x));
    MoveBehindNothing(Only(s.deleted, x), Only(s.results, x));
  }

  lemma MoveBehindNothing(d: seq<Result>, q: seq<Result>)
    ensures d + [] + q == d + q + [] && [] + q == q && d + [] == d
  {
  }

  lemma StopEraseKeeps(s: System, k: nat, id: int)
    requires Sound(s) && Enabled(s, StopErase(k, id))
    ensures Sound(Next(s, StopErase(k, id)))
  {
    var t := Erased(s, k, id);
    assert ReaderOk(s, k);
    forall l | 0 <= l < |t.readers|
      ensures ReaderOk(t, l)
    {
      assert ReaderOk(s, l);
      forall x | x in t.readers[l].ids
        ensures Routed(t, l, x)
      {
        assert Routed(s, l, x);
        if l == k {
          EraseRoutes(s, k, id, x);
        } else {
          OnlyExcept(s.results, id, x);
          OnlyAppend(s.deleted, Only(s.results, id), x);
          OnlyOfOnly(s.results, id, x);
          assert Only(s.deleted, x) + [] == Only(s.deleted, x);
          RoutedSame(s, t, l, l, x);
        }
      }
    }
    forall x: int
      ensures Unowned(t, x)
    {
      assert Unowned(s, x);
      OnlyExcept(s.results, id, x);
      OnlyAppend(s.deleted, Only(s.results, id), x);
      OnlyOfOnly(s.results, id, x);
      if forall l | 0 <= l < |t.readers| :: x !in t.readers[l].ids {
        SameOwners(s, t, k, x);
      }
    }
  }

  // ----- every run -----

  lemma StepKeepsSound(s: System, step: Step)
    requires Sound(s) && Enabled(s, step)
    ensures Sound(Next(s, step))
  {
    match step
    case Register(list) => RegisterKeeps(s, list);
    case Send(r) => SendKeeps(s, r);
    case Receive(k) => ReceiveKeeps(s, k);
    case StopBegin(k) => StopBeginKeeps(s, k);
    case StopErase(k, id) => StopEraseKeeps(s, k, id);
  }

  ghost predicate IsRun(s: System, steps: seq<Step>)
    decreases |steps|
  {
    steps != [] ==> Enabled(s, steps[0]) && IsRun(Next(s, steps[0]), steps[1..])
  }

  function After(s: System, steps: seq<Step>): System
    decreases |steps|
  {
    if steps != [] && Enabled(s, steps[0]) then After(Next(s, steps[0]), steps[1..]) else s
  }

  lemma {:induction false} RunKeepsSound(s: System, steps: seq<Step>)
    requires Sound(s) && IsRun(s, steps)
    ensures Sound(After(s, steps))
    decreases |steps|
  {
    if steps != [] {
      StepKeepsSound(s, steps[0]);
      RunKeepsSound(Next(s, steps[0]), steps[1..]);
    }
  }

  const EMPTY := System({}, [], [], [], [])

  lemma SoundRoutes(s: System, k: nat, x: int)
    requires Sound(s) && k < |s.readers| && x in s.readers[k].ids
    ensures Only(s.readers[k].delivered, x) <= Only(s.accepted, x)
    ensures forall l | 0 <= l < |s.readers| && l != k :: Only(s.readers[l].delivered, x) == []
  {
    assert ReaderOk(s, k) && Routed(s, k, x);
    var d, e, q := Only(s.readers[k].delivered, x), Only(s.deleted, x), Only(s.results, x);
    assert d + e + q == d + (e + q);
    forall l | 0 <= l < |s.readers| && l != k
      ensures Only(s.readers[l].delivered, x) == []
    {
      assert ReaderOk(s, l) && s.readers[l].ids !! s.readers[k].ids;
    }
  }

  /** In every run, what a reader is given of a task is, in order, the beginning of what was sent for it; no other reader is given any of it. */
  lemma ResultsReachTheirReader(steps: seq<Step>, s: System, k: nat, x: int)
    requires IsRun(EMPTY, steps) && s == After(EMPTY, steps) && k < |s.readers| && x in s.readers[k].ids
    ensures Only(s.readers[k].delivered, x) <= Only(s.accepted, x)
    ensures forall l | 0 <= l < |s.readers| && l != k :: Only(s.readers[l].delivered, x) == []
  {
    RunKeepsSound(EMPTY, steps);
    SoundRoutes(s, k, x);
  }

  /** Once a reader has stopped, no result for one of its tasks is queued, and none ever will be. */
  lemma {:induction false} NothingAfterStop(s: System, steps: seq<Step>, k: nat, x: int)
    requires Sound(s) && IsRun(s, steps) && k < |s.readers| && s.readers[k].stage == Stopped && x in s.readers[k].ids
    ensures var t := After(s, steps);
      x !in t.waiting && Only(t.results, x) == [] && Only(t.accepted, x) == Only(s.accepted, x)
    decreases |steps|
  {
    assert ReaderOk(s, k) && Routed(s, k, x);
    if steps != [] {
      var t := Next(s, steps[0]);
      StepKeepsSound(s, steps[0]);
      StaysStopped(s, steps[0], k, x);
      NothingAfterStop(t, steps[1..], k, x);
    }
  }

  lemma StaysStopped(s: System, step: Step, k: nat, x: int)
    requires Enabled(s, step) && k < |s.readers| && s.readers[k].stage == Stopped && !s.readers[k].HasNext()
    requires x in s.readers[k].ids && x !in s.waiting
    ensures var t := Next(s, step);
      && k < |t.readers| && t.readers[k].stage == Stopped && t.readers[k].ids == s.readers[k].ids
      && Only(t.accepted, x) == Only(s.accepted, x)
  {
    match step
    case Send(r) =>
      OnlyOne(r, x);
      OnlyAppend(s.accepted, [r], x);
    case _ =>
  }

  /** A reader that has received all final results has been given all that was sent, and no task has failed. */
  lemma AllDelivered(s: System, k: nat, x: int)
    requires Sound(s) && k < |s.readers| && s.readers[k].stage == Active && !s.readers[k].HasNext() && x in s.readers[k].ids
    ensures Only(s.readers[k].delivered, x) == Only(s.accepted, x) && Answered(Only(s.accepted, x))
  {
    assert ReaderOk(s, k) && Routed(s, k, x);
    AllReceived(s, k, x);
    SameSize(Done(s.readers[k]), s.readers[k].ids);
    assert x in Done(s.readers[k]);
    assert Only(s.readers[k].delivered, x) + [] + [] == Only(s.readers[k].delivered, x);
  }

  // ----- one result for each task -----

  /** The result is where its task is in the list. */
  predicate AtItsIndex(list: seq<int>, r: Result) {
    r.index < |list| && list[r.index] == r.id
  }

  /** Tasks that are waited for all at once send nothing but final results: each with its own index, unless it is an error. */
  predicate Proper(s: System, r: Result) {
    r.isStop && (!r.isError ==> forall k | 0 <= k < |s.readers| && r.id in s.readers[k].ids :: AtItsIndex(s.readers[k].list, r))
  }

  ghost predicate AllProper(s: System) {
    forall r | r in s.accepted :: Proper(s, r)
  }

  predicate Allowed(s: System, step: Step) {
    Enabled(s, step) && match step case Send(r) => Proper(s, r) case _ => true
  }

  lemma {:induction false} InOnly(q: seq<Result>, r: Result, x: int)
    ensures r in Only(q, x) <==> r in q && r.id == x
  {
    if q != [] {
      InOnly(q[1..], r, x);
      assert r in q <==> r == q[0] || r in q[1..];
    }
  }

  lemma ProperStays(s: System, step: Step, r: Result)
    requires Sound(s) && Enabled(s, step) && Proper(s, r) && r in s.accepted
    ensures Proper(Next(s, step), r)
  {
    if step.Register? {
      assert Unowned(s, r.id);
      InOnly(s.accepted, r, r.id);
      var k :| 0 <= k < |s.readers| && r.id in s.readers[k].ids;
      assert s.readers[k].ids !! Ids(step.list);
    } else {
      ListsStay(s, step);
    }
  }

  lemma ListsStay(s: System, step: Step)
    requires Enabled(s, step) && !step.Register?
    ensures var t := Next(s, step);
      |t.readers| == |s.readers| && forall k | 0 <= k < |s.readers| :: t.readers[k].list == s.readers[k].list && t.readers[k].ids == s.readers[k].ids
  {
  }

  lemma StepKeepsProper(s: System, step: Step)
    requires Sound(s) && AllProper(s) && Allowed(s, step)
    ensures AllProper(Next(s, step))
  {
    forall r | r in Next(s, step).accepted
      ensures Proper(Next(s, step), r)
    {
      if r in s.accepted {
        ProperStays(s, step, r);
      } else {
        ListsStay(s, step);
      }
    }
  }

  ghost predicate IsProperRun(s: System, steps: seq<Step>)
    decreases |steps|
  {
    steps != [] ==> Allowed(s, steps[0]) && IsProperRun(Next(s, steps[0]), steps[1..])
  }

  lemma {:induction false} RunKeepsProper(s: System, steps: seq<Step>)
    requires Sound(s) && AllProper(s) && IsProperRun(s, steps)
    ensures Sound(After(s, steps)) && AllProper(After(s, steps))
    decreases |steps|
  {
    if steps != [] {
      StepKeepsSound(s, steps[0]);
      StepKeepsProper(s, steps[0]);
      RunKeepsProper(Next(s, steps[0]), steps[1..]);
    }
  }

  lemma OnlyOneFinal(q: seq<Result>)
    requires FinalIsLast(q) && forall r | r in q :: r.isStop
    ensures |q| <= 1
  {
    if q != [] {
      assert q[0] in q;
    }
  }

  /** Of each task of a reader no more than one result has ever been queued. */
  lemma OneAccepted(s: System, k: nat, x: int)
    requires Sound(s) && AllProper(s) && k < |s.readers| && x in s.readers[k].ids
    ensures |Only(s.accepted, x)| <= 1
  {
    assert ReaderOk(s, k) && Routed(s, k, x);
    forall r | r in Only(s.accepted, x)
      ensures r.isStop
    {
      InOnly(s.accepted, r, x);
    }
    OnlyOneFinal(Only(s.accepted, x));
  }

  /** What a reader has been given is its own, was accepted, and is proper. */
  lemma DeliveredIsProper(s: System, k: nat, r: Result)
    requires Sound(s) && AllProper(s) && k < |s.readers| && r in s.readers[k].delivered
    ensures r in s.accepted && r.id in s.readers[k].ids && r.isStop && (!r.isError ==> AtItsIndex(s.readers[k].list, r))
  {
    assert ReaderOk(s, k);
    InOnly(s.readers[k].delivered, r, r.id);
    SoundRoutes(s, k, r.id);
    InOnly(s.accepted, r, r.id);
  }

  lemma {:induction false} OnlyHas(q: seq<Result>, i: nat)
    requires i < |q|
    ensures q[i] in Only(q, q[i].id)
  {
    if i > 0 {
      OnlyHas(q[1..], i - 1);
      assert q[1..][i - 1] == q[i];
    }
  }

  /** If each task has sent one result at most, there are no two of the same task. */
  lemma {:induction false} OneResultEach(q: seq<Result>, i: nat, j: nat)
    requires i < j < |q| && |Only(q, q[i].id)| <= 1
    ensures q[i].id != q[j].id
  {
    if i == 0 {
      OnlyHas(q[1..], j - 1);
      assert q[1..][j - 1] == q[j];
    } else {
      assert q[1..][i - 1] == q[i] && q[1..][j - 1] == q[j];
      OneResultEach(q[1..], i - 1, j - 1);
    }
  }

  /** A reader is given no two results of the same task. */
  lemma NoTwoDelivered(s: System, k: nat, i: nat, j: nat)
    requires Sound(s) && AllProper(s) && k < |s.readers| && i < j < |s.readers[k].delivered|
    ensures s.readers[k].delivered[i].id != s.readers[k].delivered[j].id
  {
    var d := s.readers[k].delivered;
    DeliveredIsProper(s, k, d[i]);
    OneAccepted(s, k, d[i].id);
    SoundRoutes(s, k, d[i].id);
    OneResultEach(d, i, j);
  }

  // ----- placing the results -----

  /** The results of `wait_for_all`: each at its index. */
  function Place(q: seq<Result>, n: nat): (placed: seq<Option<Result>>)
    ensures |placed| == n
    decreases |q|
  {
    if q == [] then seq(n, _ => None)
    else
      var before, r := Place(q[..|q| - 1], n), q[|q| - 1];
      if r.index < n then before[r.index := Some(r)] else before
  }

  lemma PlaceOneMore(q: seq<Result>, r: Result, n: nat)
    ensures Place(q + [r], n) == if r.index < n then Place(q, n)[r.index := Some(r)] else Place(q, n)
  {
    assert (q + [r])[..|q|] == q;
  }

  /** What stands at an index is a result with that index; nothing stands there if there is none. */
  lemma {:induction false} PlacedIs(q: seq<Result>, n: nat, i: nat)
    requires i < n
    ensures Place(q, n)[i] == None <==> forall r | r in q :: r.index != i
    ensures Place(q, n)[i] != None ==> Place(q, n)[i].value in q && Place(q, n)[i].value.index == i
    decreases |q|
  {
    if q != [] {
      var rest, r := q[..|q| - 1], q[|q| - 1];
      PlacedIs(rest, n, i);
      assert q == rest + [r];
    }
  }

  /** The results that a reader has been given are for different indices. */
  lemma NoTwoAtAnIndex(s: System, k: nat, i: nat, j: nat)
    requires Sound(s) && AllProper(s) && k < |s.readers| && i < j < |s.readers[k].delivered|
    requires !s.readers[k].delivered[i].isError && !s.readers[k].delivered[j].isError
    ensures s.readers[k].delivered[i].index != s.readers[k].delivered[j].index
  {
    var d := s.readers[k].delivered;
    DeliveredIsProper(s, k, d[i]);
    DeliveredIsProper(s, k, d[j]);
    NoTwoDelivered(s, k, i, j);
  }

  /** The result of a task of a reader that has received everything. */
  lemma ResultOf(s: System, k: nat, x: int) returns (r: Result)
    requires Sound(s) && AllProper(s) && k < |s.readers| && s.readers[k].stage == Active && !s.readers[k].HasNext() && x in s.readers[k].ids
    ensures Only(s.readers[k].delivered, x) == [r] && r in s.readers[k].delivered && r.id == x
    ensures !r.isError && r.isStop && AtItsIndex(s.readers[k].list, r)
  {
    AllDelivered(s, k, x);
    OneAccepted(s, k, x);
    var q := Only(s.readers[k].delivered, x);
    r := q[0];
    assert q == [r] && [r][1..] == [];
    InOnly(s.readers[k].delivered, r, x);
    DeliveredIsProper(s, k, r);
  }

  /**
   A reader that has received everything has been given exactly one result of each task, none of
   them an error; and each index holds the result of the task with that index.
   */
  lemma EveryIndexIsFilled(s: System, k: nat, i: nat)
    requires Sound(s) && AllProper(s) && k < |s.readers| && s.readers[k].stage == Active && !s.readers[k].HasNext()
    requires i < |s.readers[k].list|
    ensures var reader := s.readers[k];
      var placed := Place(reader.delivered, |reader.list|)[i];
      && placed != None && placed.value.id == reader.list[i] && placed.value.index == i
      && !placed.value.isError && Only(reader.delivered, reader.list[i]) == [placed.value]
  {
    var reader := s.readers[k];
    assert ReaderOk(s, k);
    var r := ResultOf(s, k, reader.list[i]);
    assert r.index == i;
    PlacedIs(reader.delivered, |reader.list|, i);
    var p := Place(reader.delivered, |reader.list|)[i].value;
    DeliveredIsProper(s, k, p);
    InOnly(reader.delivered, p, p.id);
    if p.isError {
      var other := ResultOf(s, k, p.id);
    }
  }

  lemma EverythingAnswered(s: System, k: nat, r: Result)
    requires Sound(s) && AllProper(s) && k < |s.readers| && s.readers[k].stage == Active && !s.readers[k].HasNext()
    requires r in s.readers[k].delivered
    ensures !r.isError
  {
    DeliveredIsProper(s, k, r);
    var other := ResultOf(s, k, r.id);
    InOnly(s.readers[k].delivered, r, r.id);
  }

  /** The same for every run from the start in which tasks send nothing but their final results. */
  lemma EveryRunFills(steps: seq<Step>, s: System, k: nat)
    requires IsProperRun(EMPTY, steps) && s == After(EMPTY, steps)
    requires k < |s.readers| && s.readers[k].stage == Active && !s.readers[k].HasNext()
    ensures var reader := s.readers[k];
      && (forall i | 0 <= i < |reader.list| ::
            var placed := Place(reader.delivered, |reader.list|)[i];
            placed != None && placed.value.id == reader.list[i] && Only(reader.delivered, reader.list[i]) == [placed.value])
      && (forall i, j | 0 <= i < j < |reader.delivered| :: reader.delivered[i].index != reader.delivered[j].index)
  {
    RunKeepsProper(EMPTY, steps);
    var reader := s.readers[k];
    forall i | 0 <= i < |reader.list|
      ensures var placed := Place(reader.delivered, |reader.list|)[i];
        placed != None && placed.value.id == reader.list[i] && Only(reader.delivered, reader.list[i]) == [placed.value]
    {
      EveryIndexIsFilled(s, k, i);
    }
    forall i, j | 0 <= i < j < |reader.delivered|
      ensures reader.delivered[i].index != reader.delivered[j].index
    {
      EverythingAnswered(s, k, reader.delivered[i]);
      EverythingAnswered(s, k, reader.delivered[j]);
      NoTwoAtAnIndex(s, k, i, j);
    }
  }

  // ----- waiting for all -----

  /** The step is one of reader k. */
  predicate IsOf(step: Step, k: nat) {
    match step
    case Receive(l) => l == k
    case StopBegin(l) => l == k
    case StopErase(l, _) => l == k
    case _ => false
  }

  /** What senders and other readers do, as far as it is allowed. */
  function RunOthers(s: System, k: nat, steps: seq<Step>): System
    decreases |steps|
  {
    if steps == [] || IsOf(steps[0], k) || !Allowed(s, steps[0]) then s else RunOthers(Next(s, steps[0]), k, steps[1..])
  }

  lemma {:induction false} OthersKeep(s: System, k: nat, steps: seq<Step>)
    requires Sound(s) && AllProper(s) && k < |s.readers|
    ensures var t := RunOthers(s, k, steps);
      Sound(t) && AllProper(t) && k < |t.readers| && t.readers[k] == s.readers[k]
    decreases |steps|
  {
    if steps != [] && !IsOf(steps[0], k) && Allowed(s, steps[0]) {
      StepKeepsSound(s, steps[0]);
      StepKeepsProper(s, steps[0]);
      OthersKeep(Next(s, steps[0]), k, steps[1..]);
    }
  }

  /** The reader waits, nothing it has been given is an error, and all of it is placed. */
  ghost predicate Awaiting(s: System, k: nat, list: seq<int>, results: seq<Option<Result>>) {
    && Sound(s) && AllProper(s) && k < |s.readers| && s.readers[k].stage == Active && s.readers[k].list == list
    && (forall r | r in s.readers[k].delivered :: !r.isError)
    && results == Place(s.readers[k].delivered, |list|)
  }

  /** What is received next stands at a free index. */
  lemma NextIsPlaced(s: System, k: nat, list: seq<int>, results: seq<Option<Result>>, r: Result)
    requires Awaiting(s, k, list, results) && FirstOf(s.results, s.readers[k].ids) == Some(r)
    ensures r.id in s.readers[k].ids
    ensures !r.isError ==> AtItsIndex(list, r) && results[r.index] == None && r.isStop
    ensures !r.isError ==> Awaiting(Given(s, k), k, list, results[r.index := Some(r)])
  {
    var t := Given(s, k);
    StepKeepsSound(s, Receive(k));
    StepKeepsProper(s, Receive(k));
    FirstForIs(s.results, s.readers[k].ids);
    var d := s.readers[k].delivered;
    assert t.readers[k].delivered == d + [r];
    DeliveredIsProper(t, k, r);
    if !r.isError {
      PlacedIs(d, |list|, r.index);
      if results[r.index] != None {
        var before := results[r.index].value;
        var i :| 0 <= i < |d| && d[i] == before;
        DeliveredIsProper(s, k, before);
        NoTwoDelivered(t, k, i, |d|);
      }
      PlaceOneMore(d, r, |list|);
    }
  }

  /** Each index has the result of its task, or nothing. */
  predicate AreTheirs(list: seq<int>, results: seq<Option<Result>>) {
    && |results| == |list|
    && forall i | 0 <= i < |list| && results[i] != None ::
         results[i].value.id == list[i] && results[i].value.index == i && !results[i].value.isError
  }

  lemma PlacedAreTheirs(s: System, k: nat, list: seq<int>, results: seq<Option<Result>>)
    requires Awaiting(s, k, list, results)
    ensures AreTheirs(list, results)
  {
    forall i | 0 <= i < |list| && results[i] != None
      ensures results[i].value.id == list[i] && results[i].value.index == i && !results[i].value.isError
    {
      PlacedIs(s.readers[k].delivered, |list|, i);
      DeliveredIsProper(s, k, results[i].value);
    }
  }

  lemma {:induction false} DistinctSize(list: seq<int>)
    requires Distinct(list)
    ensures |Ids(list)| == |list|
    decreases |list|
  {
    if list != [] {
      var rest, last := list[..|list| - 1], list[|list| - 1];
      DistinctSize(rest);
      assert list == rest + [last] && last !in rest;
      assert Ids(list) == Ids(rest) + {last};
    }
  }

  lemma BeginsAwaiting(s: System, k: nat, results: seq<Option<Result>>)
    requires Sound(s) && AllProper(s) && k < |s.readers| && s.readers[k].stage == Active && s.readers[k].delivered == []
    requires results == seq(|s.readers[k].ids|, _ => None)
    ensures Awaiting(s, k, s.readers[k].list, results)
  {
    assert ReaderOk(s, k);
    DistinctSize(s.readers[k].list);
    assert Place([], |s.readers[k].list|) == results;
  }

  lemma AllFilled(s: System, k: nat, list: seq<int>, results: seq<Option<Result>>)
    requires Awaiting(s, k, list, results) && !s.readers[k].HasNext()
    ensures forall i | 0 <= i < |list| :: results[i] != None
  {
    forall i | 0 <= i < |list|
      ensures results[i] != None
    {
      EveryIndexIsFilled(s, k, i);
    }
  }

  /** Senders and other readers run, as far as they are allowed to. */
  method LetOthersRun(reader: ServerResponseReader, s: System, k: nat, steps: seq<Step>) returns (t: System)
    requires Sound(s) && AllProper(s) && k < |s.readers| && reader.In(s, k) == s
    modifies reader.queueResults
    ensures t == RunOthers(s, k, steps) && k < |t.readers| && reader.In(t, k) == t
  {
    t := RunOthers(s, k, steps);
    OthersKeep(s, k, steps);
    reader.queueResults.waitingTaskIds, reader.queueResults.queueResults := t.waiting, t.results;
    reader.queueResults.accepted, reader.queueResults.deleted := t.accepted, t.deleted;
    assert t.readers[k] == s.readers[k] == reader.View();
  }

  /** One round: others run, and the reader looks for a result. */
  method Poll(reader: ServerResponseReader, s: System, k: nat, steps: seq<Step>, ghost results: seq<Option<Result>>)
    returns (res: Option<Result>, t: System)
    requires Awaiting(s, k, reader.list, results) && reader.In(s, k) == s
    modifies reader, reader.queueResults
    ensures reader.list == old(reader.list) && reader.idTasks == old(reader.idTasks)
    ensures res == None ==> Awaiting(t, k, reader.list, results) && reader.In(t, k) == t && reader.HasNext() == old(reader.HasNext())
    ensures res == None ==> reader.receivedCount == old(reader.receivedCount)
    ensures res != None && res.value.isError ==> res.value.id in reader.idTasks && !reader.HasNext()
    ensures res != None && !res.value.isError ==>
      && AtItsIndex(reader.list, res.value) && |results| == |reader.list| && results[res.value.index] == None
      && Awaiting(t, k, reader.list, results[res.value.index := res]) && reader.In(t, k) == t
      && reader.receivedCount == old(reader.receivedCount) + 1
  {
    t := LetOthersRun(reader, s, k, steps);
    OthersKeep(s, k, steps);
    if FirstOf(t.results, t.readers[k].ids) != None {
      NextIsPlaced(t, k, reader.list, results, FirstOf(t.results, t.readers[k].ids).value);
    }
    var cancels;
    ghost var order;
    res, cancels, order := reader.TryNext(t, k);
    if res != None {
      t := Given(t, k);
    }
  }

  /**
   `wait_for_all`, while senders and other readers do in each round what they are allowed to, and
   until the client gives up after the last one. No index is out of range, and none is filled twice;
   without an error and without giving up each index has the result of its task.
   */
  method WaitForAll(reader: ServerResponseReader, world: System, k: nat, rounds: seq<seq<Step>>)
    returns (terminated: bool, error: Option<Result>, results: seq<Option<Result>>)
    requires Sound(world) && AllProper(world) && k < |world.readers| && reader.In(world, k) == world
    requires reader.stage == Active && reader.delivered == []
    modifies reader, reader.queueResults
    ensures reader.list == old(reader.list) && |results| == |reader.list|
    ensures terminated ==> error == None && reader.HasNext()
    ensures error != None ==> error.value.isError && error.value.id in reader.idTasks && !reader.HasNext()
    ensures !terminated && error == None ==> forall i | 0 <= i < |results| :: results[i] != None
    ensures AreTheirs(reader.list, results)
  {
    terminated, error := false, None;
    results := seq(|reader.idTasks|, _ => None);
    var s, n := world, 0;
    BeginsAwaiting(world, k, results);
    PlacedAreTheirs(s, k, reader.list, results);
    while reader.HasNext()
      invariant n <= |rounds| && reader.list == old(reader.list) && AreTheirs(reader.list, results)
      invariant Awaiting(s, k, reader.list, results) && reader.In(s, k) == s
      decreases |reader.idTasks| - reader.receivedCount, |rounds| - n
    {
      var res;
      res, s := Poll(reader, s, k, if n < |rounds| then rounds[n] else [], results);
      if res != None && res.value.isError {
        error := res;
        return;
      }
      if res != None {
        assert res.value.index < |results| && results[res.value.index] == None;
        results := results[res.value.index := res];
        PlacedAreTheirs(s, k, reader.list, results);
      } else if n == |rounds| {
        terminated := true;
        return;
      }
      if n < |rounds| {
        n := n + 1;
      }
    }
    AllFilled(s, k, reader.list, results);
  }
}
