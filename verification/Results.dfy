/**
 The routing of results from the slots to the readers that wait for them.
 */
module Results {
  import opened Options

  datatype Result = Result(id: int, index: nat, isError: bool, isStop: bool, data: int)

  // ----- queues of results -----

  /** The results of one task. */
  function Only(q: seq<Result>, x: int): seq<Result> {
    if q == [] then [] else if q[0].id == x then [q[0]] + Only(q[1..], x) else Only(q[1..], x)
  }

  /** All results but those of one task. */
  function Except(q: seq<Result>, x: int): seq<Result> {
    if q == [] then [] else if q[0].id == x then Except(q[1..], x) else [q[0]] + Except(q[1..], x)
  }

  /** Where the first result for one of the tasks is; the length if there is none. */
  function FirstFor(q: seq<Result>, ids: set<int>): (i: nat)
    ensures i <= |q|
  {
    if q == [] || q[0].id in ids then 0 else 1 + FirstFor(q[1..], ids)
  }

  function Without(q: seq<Result>, i: nat): seq<Result>
    requires i < |q|
  {
    q[..i] + q[i + 1..]
  }

  lemma {:induction false} OnlyAppend(a: seq<Result>, b: seq<Result>, x: int)
    ensures Only(a + b, x) == Only(a, x) + Only(b, x)
    ensures Except(a + b, x) == Except(a, x) + Except(b, x)
  {
    if a == [] {
      assert a + b == b;
    } else {
      assert (a + b)[1..] == a[1..] + b;
      OnlyAppend(a[1..], b, x);
    }
  }

  lemma OnlyOne(r: Result, x: int)
    ensures Only([r], x) == if r.id == x then [r] else []
  {
    assert [r][1..] == [];
  }

  lemma {:induction false} OnlyExcept(q: seq<Result>, x: int, y: int)
    ensures Only(Except(q, x), y) == if x == y then [] else Only(q, y)
  {
    if q != [] {
      OnlyExcept(q[1..], x, y);
      assert ([q[0]] + Except(q[1..], x))[1..] == Except(q[1..], x);
    }
  }

  lemma {:induction false} OnlyOfOnly(q: seq<Result>, x: int, y: int)
    ensures Only(Only(q, x), y) == if x == y then Only(q, x) else []
  {
    if q != [] {
      OnlyOfOnly(q[1..], x, y);
      assert ([q[0]] + Only(q[1..], x))[1..] == Only(q[1..], x);
    }
  }

  lemma {:induction false} FirstForIs(q: seq<Result>, ids: set<int>)
    ensures FirstFor(q, ids) < |q| ==> q[FirstFor(q, ids)].id in ids
  {
    if q != [] && q[0].id !in ids {
      FirstForIs(q[1..], ids);
    }
  }

  /** Taking the first result for a set of tasks takes the first one of its task. */
  lemma {:induction false} OnlyWithout(q: seq<Result>, ids: set<int>, x: int)
    requires FirstFor(q, ids) < |q|
    ensures var i := FirstFor(q, ids);
      Only(q, x) == (if q[i].id == x then [q[i]] else []) + Only(Without(q, i), x)
  {
    var i := FirstFor(q, ids);
    if i == 0 {
      assert Without(q, 0) == q[1..];
    } else {
      OnlyWithout(q[1..], ids, x);
      FirstForIs(q[1..], ids);
      assert Without(q, i)[1..] == Without(q[1..], i - 1);
      assert q[1..][i - 1] == q[i];
    }
  }

  // ----- the system of readers -----

  /** A task as it is posted: its own id, and those of its children. */
  datatype Posted = Posted(id: int, children: seq<int>)

  /** A task with the place that its result will have. */
  datatype Indexed = Indexed(id: int, index: nat)

  /** The ids in the order in which they are given indices: each task, and then its children. */
  function ListIds(tasks: seq<Posted>): seq<int> {
    if tasks == [] then [] else [tasks[0].id] + tasks[0].children + ListIds(tasks[1..])
  }

  lemma {:induction false} ListIdsAppend(a: seq<Posted>, b: seq<Posted>)
    ensures ListIds(a + b) == ListIds(a) + ListIds(b)
  {
    if a == [] {
      assert a + b == b;
    } else {
      assert (a + b)[1..] == a[1..] + b;
      ListIdsAppend(a[1..], b);
      var first := [a[0].id] + a[0].children;
      assert first + (ListIds(a[1..]) + ListIds(b)) == first + ListIds(a[1..]) + ListIds(b);
    }
  }

  lemma ListIdsOneMore(tasks: seq<Posted>, i: nat)
    requires i < |tasks|
    ensures ListIds(tasks[..i + 1]) == ListIds(tasks[..i]) + ([tasks[i].id] + tasks[i].children)
  {
    assert tasks[..i + 1] == tasks[..i] + [tasks[i]];
    ListIdsAppend(tasks[..i], [tasks[i]]);
    assert [tasks[i]][1..] == [];
    assert [tasks[i].id] + tasks[i].children + [] == [tasks[i].id] + tasks[i].children;
  }

  /** How many indices the first i tasks take, with their children. */
  function IndicesOf(tasks: seq<Posted>, i: nat): nat
    requires i <= |tasks|
  {
    if i == 0 then 0 else IndicesOf(tasks, i - 1) + 1 + |tasks[i - 1].children|
  }

  lemma ListParts(tasks: seq<Posted>, i: nat)
    requires i < |tasks|
    ensures ListIds(tasks) == ListIds(tasks[..i]) + ([tasks[i].id] + tasks[i].children + ListIds(tasks[i + 1..]))
  {
    var rest := tasks[i..];
    assert tasks == tasks[..i] + rest;
    ListIdsAppend(tasks[..i], rest);
    assert rest[0] == tasks[i] && rest[1..] == tasks[i + 1..];
  }

  /** A task has the index behind those of the tasks in front of it, and its children have the next ones, in order. */
  lemma ListIdsAre(tasks: seq<Posted>, i: nat, list: seq<int>, at: nat, part: seq<int>)
    requires i < |tasks| && list == ListIds(tasks) && at == IndicesOf(tasks, i) && part == [tasks[i].id] + tasks[i].children
    ensures at + |part| <= |list| && list[at..at + |part|] == part
  {
    LengthOfList(tasks, i);
    ListParts(tasks, i);
    PartIsAt(ListIds(tasks[..i]), part, ListIds(tasks[i + 1..]), list);
  }

  lemma PartIsAt(a: seq<int>, part: seq<int>, b: seq<int>, all: seq<int>)
    requires all == a + (part + b)
    ensures |a| + |part| <= |all| && all[|a|..|a| + |part|] == part
  {
  }

  lemma {:induction false} LengthOfList(tasks: seq<Posted>, i: nat)
    requires i <= |tasks|
    ensures |ListIds(tasks[..i])| == IndicesOf(tasks, i)
  {
    if i == 0 {
      assert tasks[..0] == [];
    } else {
      LengthOfList(tasks, i - 1);
      ListIdsOneMore(tasks, i - 1);
    }
  }

  function Ids(list: seq<int>): set<int> { set x | x in list }

  predicate Distinct(list: seq<int>) {
    forall i, j | 0 <= i < j < |list| :: list[i] != list[j]
  }

  /** A reader is active, is deleting the results of tasks one by one, or has stopped. */
  datatype Stage = Active | Stopping(left: set<int>) | Stopped

  /** A reader with its tasks, in order, and all that it has been given. */
  datatype Reader = Reader(ids: set<int>, list: seq<int>, receivedCount: nat, cancelled: bool, stage: Stage, delivered: seq<Result>) {
    function HasNext(): bool { !cancelled && receivedCount < |ids| }
  }

  function NewReader(list: seq<int>): Reader { Reader(Ids(list), list, 0, false, Active, []) }

  /** All readers and the response queue, with a record of what was queued and of what was deleted. */
  datatype System = System(waiting: set<int>, results: seq<Result>, readers: seq<Reader>, accepted: seq<Result>, deleted: seq<Result>)

  function Registered(s: System, list: seq<int>): System {
    s.(waiting := s.waiting + Ids(list), readers := s.readers + [NewReader(list)])
  }

  /** A result nobody waits for is dropped. */
  function Sent(s: System, r: Result): System {
    if r.id in s.waiting then s.(results := s.results + [r], accepted := s.accepted + [r]) else s
  }

  /** The first result for the reader is given to it; final ones are counted, errors are not. */
  function Given(s: System, k: nat): System
    requires k < |s.readers|
  {
    var reader := s.readers[k];
    var i := FirstFor(s.results, reader.ids);
    if i == |s.results| then s
    else
      var r := s.results[i];
      var count := if !r.isError && r.isStop then reader.receivedCount + 1 else reader.receivedCount;
      s.(results := Without(s.results, i),
         readers := s.readers[k := reader.(delivered := reader.delivered + [r], receivedCount := count)])
  }

  /** The first part of `stop`: if not all has been received, the results of all tasks are to be deleted. */
  function BeginStop(s: System, k: nat): System
    requires k < |s.readers|
  {
    var reader := s.readers[k];
    var after := if reader.HasNext() then reader.(cancelled := true, stage := Leaving(reader.ids)) else reader.(stage := Stopped);
    s.(waiting := s.waiting - reader.ids, readers := s.readers[k := after])
  }

  function Leaving(left: set<int>): Stage { if left == {} then Stopped else Stopping(left) }

  function Erased(s: System, k: nat, id: int): System
    requires k < |s.readers| && s.readers[k].stage.Stopping?
  {
    var reader := s.readers[k];
    s.(waiting := s.waiting - {id}, results := Except(s.results, id), deleted := s.deleted + Only(s.results, id),
       readers := s.readers[k := reader.(stage := Leaving(reader.stage.left - {id}))])
  }

  /** The rest of `stop`: the results of the tasks are deleted one after the other. */
  function ErasedAll(s: System, k: nat, order: seq<int>): System
    requires k < |s.readers|
    decreases |order|
  {
    if order == [] || !s.readers[k].stage.Stopping? then s else ErasedAll(Erased(s, k, order[0]), k, order[1..])
  }

  lemma {:induction false} ErasedOneMore(s: System, k: nat, order: seq<int>, id: int)
    requires k < |s.readers|
    ensures var t := ErasedAll(s, k, order);
      && |t.readers| == |s.readers|
      && (t.readers[k].stage.Stopping? ==> ErasedAll(s, k, order + [id]) == Erased(t, k, id))
    decreases |order|
  {
    if order == [] {
      assert ([id])[1..] == [] && order + [id] == [id];
    } else if s.readers[k].stage.Stopping? {
      assert (order + [id])[1..] == order[1..] + [id];
      ErasedOneMore(Erased(s, k, order[0]), k, order[1..], id);
    }
  }

  // ----- the response queue -----

  class ServerResponse {
    var waitingTaskIds: set<int>
    var queueResults: seq<Result>
    /** All results that have been queued, and all that have been deleted. */
    ghost var accepted: seq<Result>
    ghost var deleted: seq<Result>

    constructor ()
      ensures waitingTaskIds == {} && queueResults == [] && accepted == [] && deleted == []
    {
      waitingTaskIds, queueResults, accepted, deleted := {}, [], [], [];
    }

    /** The queue, as a part of the state of the whole. */
    ghost function In(s: System): System
      reads this
    {
      s.(waiting := waitingTaskIds, results := queueResults, accepted := accepted, deleted := deleted)
    }

    method AddWaitingTaskIds(ids: set<int>)
      modifies this`waitingTaskIds
      ensures waitingTaskIds == old(waitingTaskIds) + ids
    {
      waitingTaskIds := waitingTaskIds + ids;
    }

    /** A task that is no longer waited for; its results are deleted. */
    method RemoveWaitingTaskId(id: int)
      modifies this
      ensures waitingTaskIds == old(waitingTaskIds) - {id} && queueResults == Except(old(queueResults), id)
      ensures accepted == old(accepted) && deleted == old(deleted) + Only(old(queueResults), id)
    {
      waitingTaskIds := waitingTaskIds - {id};
      deleted := deleted + Only(queueResults, id);
      queueResults := RemoveIf(queueResults, id);
    }

    /** Tasks that are no longer waited for; their results stay. */
    method RemoveWaitingTaskIds(ids: set<int>)
      modifies this`waitingTaskIds
      ensures waitingTaskIds == old(waitingTaskIds) - ids
    {
      waitingTaskIds := waitingTaskIds - ids;
    }

    /** One scan of `recv` or `recv_with_timeout`. */
    method TryRecv(ids: set<int>) returns (res: Option<Result>)
      modifies this`queueResults
      ensures var i := FirstFor(old(queueResults), ids);
        if i < |old(queueResults)| then
          res == Some(old(queueResults)[i]) && queueResults == Without(old(queueResults), i)
        else res == None && queueResults == old(queueResults)
    {
      var i := 0;
      while i < |queueResults|
        invariant 0 <= i <= |queueResults| && queueResults == old(queueResults)
        invariant FirstFor(queueResults, ids) == i + FirstFor(queueResults[i..], ids)
      {
        assert queueResults[i..][1..] == queueResults[i + 1..];
        if queueResults[i].id in ids {
          res := Some(queueResults[i]);
          queueResults := Without(queueResults, i);
          return;
        }
        i := i + 1;
      }
      assert queueResults[i..] == [];
      res := None;
    }

    method Send(result: Result, ghost s: System)
      modifies this
      ensures In(s) == Sent(old(In(s)), result)
    {
      if result.id in waitingTaskIds {
        queueResults := queueResults + [result];
        accepted := accepted + [result];
      }
    }
  }

  // ----- a reader -----

  /** What a client uses to wait for the results of its tasks. */
  class ServerResponseReader {
    const queueResults: ServerResponse
    var idTasks: set<int>
    var receivedCount: nat
    var cancelled: bool
    /** The tasks in order, what has been received, and how far stopping has come. */
    ghost var list: seq<int>
    ghost var delivered: seq<Result>
    ghost var stage: Stage

    constructor (queueResults: ServerResponse)
      ensures this.queueResults == queueResults && View() == NewReader([])
    {
      this.queueResults := queueResults;
      idTasks, receivedCount, cancelled := {}, 0, false;
      list, delivered, stage := [], [], Active;
    }

    ghost function View(): Reader
      reads this
    {
      Reader(idTasks, list, receivedCount, cancelled, stage, delivered)
    }

    /** The reader and the queue, as a part of the state of the whole in which it is reader k. */
    ghost function In(s: System, k: nat): System
      requires k < |s.readers|
      reads this, queueResults
    {
      queueResults.In(s.(readers := s.readers[k := View()]))
    }

    predicate HasNext()
      reads this
    {
      !cancelled && receivedCount < |idTasks|
    }

    /** The tasks and their children get indices one after the other, and their ids are waited for. */
    method PostTasks(tasks: seq<Posted>, ghost s: System) returns (posted: seq<Indexed>)
      requires View() == NewReader([]) && Distinct(ListIds(tasks))
      modifies this, queueResults
      ensures queueResults.In(s.(readers := s.readers + [View()])) == Registered(old(queueResults.In(s)), ListIds(tasks))
      ensures AreIndexed(posted, ListIds(tasks))
    {
      posted := IndexTasks(tasks);
      list := ListIds(tasks);
      queueResults.AddWaitingTaskIds(idTasks);
    }

    /** Each task, and then its children, get the next indices. */
    method IndexTasks(tasks: seq<Posted>) returns (posted: seq<Indexed>)
      requires idTasks == {}
      modifies this`idTasks
      ensures AreIndexed(posted, ListIds(tasks)) && idTasks == Ids(ListIds(tasks))
    {
      posted := [];
      var index := 0;
      for i := 0 to |tasks|
        invariant index == |posted| && AreIndexed(posted, ListIds(tasks[..i])) && idTasks == Ids(ListIds(tasks[..i]))
      {
        ListIdsOneMore(tasks, i);
        posted, index := AddIds([tasks[i].id] + tasks[i].children, posted, index, ListIds(tasks[..i]));
      }
      assert tasks[..|tasks|] == tasks;
    }

    /** A task and its children get the next indices. */
    method AddIds(ids: seq<int>, posted0: seq<Indexed>, index0: nat, ghost done: seq<int>) returns (posted: seq<Indexed>, index: nat)
      requires index0 == |posted0| && AreIndexed(posted0, done) && idTasks == Ids(done)
      modifies this`idTasks
      ensures index == |posted| && AreIndexed(posted, done + ids) && idTasks == Ids(done + ids)
    {
      posted, index := posted0, index0;
      assert done + ids[..0] == done;
      for c := 0 to |ids|
        invariant index == |posted| && AreIndexed(posted, done + ids[..c]) && idTasks == Ids(done + ids[..c])
      {
        assert done + ids[..c + 1] == done + ids[..c] + [ids[c]];
        posted := posted + [Indexed(ids[c], index)];
        index := index + 1;
        idTasks := idTasks + {ids[c]};
      }
      assert ids[..|ids|] == ids;
    }

    /** One round of `next`: an error ends the waiting for all tasks, before it is returned. */
    method TryNext(ghost s: System, ghost k: nat) returns (res: Option<Result>, cancels: set<int>, ghost order: seq<int>)
      requires k < |s.readers| && stage == Active
      modifies this, queueResults
      ensures idTasks == old(idTasks) && list == old(list)
      ensures res == FirstOf(old(queueResults.queueResults), idTasks)
      ensures var t := Given(old(In(s, k)), k);
        In(s, k) == if res != None && res.value.isError then ErasedAll(BeginStop(t, k), k, order) else t
      ensures res != None && res.value.isError ==> stage == Stopped && !HasNext() && Ids(order) == cancels
      ensures cancels == if res != None && res.value.isError && old(HasNext()) then idTasks else {}
    {
      cancels, order := {}, [];
      ghost var start := In(s, k);
      res := queueResults.TryRecv(idTasks);
      if res != None {
        delivered := delivered + [res.value];
        if res.value.isError {
          IsGiven(s, k, start, In(s, k), res.value);
          cancels, order := Stop(s, k);
        } else {
          if res.value.isStop {
            receivedCount := receivedCount + 1;
          }
          IsGiven(s, k, start, In(s, k), res.value);
        }
      }
    }

    static lemma IsGiven(s: System, k: nat, start: System, t: System, r: Result)
      requires k < |s.readers| == |start.readers| && start.readers == s.readers[k := start.readers[k]]
      requires var i, reader := FirstFor(start.results, start.readers[k].ids), start.readers[k];
        && i < |start.results| && r == start.results[i]
        && t == start.(results := Without(start.results, i),
             readers := s.readers[k := reader.(delivered := reader.delivered + [r],
               receivedCount := if !r.isError && r.isStop then reader.receivedCount + 1 else reader.receivedCount)])
      ensures t == Given(start, k)
    {
    }

    /** The tasks are no longer waited for; those that may not be finished are to be cancelled. */
    method Stop(ghost s: System, ghost k: nat) returns (cancels: set<int>, ghost order: seq<int>)
      requires k < |s.readers| && !stage.Stopping?
      modifies this`cancelled, this`stage, queueResults
      ensures In(s, k) == ErasedAll(BeginStop(old(In(s, k)), k), k, order) && stage == Stopped
      ensures cancels == (if old(HasNext()) then idTasks else {}) && Ids(order) == cancels && !HasNext()
    {
      queueResults.RemoveWaitingTaskIds(idTasks);
      cancels, order := {}, [];
      if HasNext() {
        cancelled := true;
        stage := Leaving(idTasks);
        assert In(s, k) == BeginStop(old(In(s, k)), k);
        cancels, order := EraseTasks(s, k);
      } else {
        stage := Stopped;
      }
    }

    /** The part of `stop` that deletes the results of all tasks. */
    method EraseTasks(ghost s: System, ghost k: nat) returns (cancels: set<int>, ghost order: seq<int>)
      requires k < |s.readers| && stage == Leaving(idTasks)
      modifies this`stage, queueResults
      ensures In(s, k) == ErasedAll(old(In(s, k)), k, order) && stage == Stopped
      ensures cancels == idTasks && Ids(order) == cancels
    {
      cancels, order := {}, [];
      var left := idTasks;
      ghost var start := In(s, k);
      while left != {}
        invariant left <= idTasks && cancels == idTasks - left && Ids(order) == cancels
        invariant stage == Leaving(left) && In(s, k) == ErasedAll(start, k, order)
        decreases |left|
      {
        var id := AnyOf(left);
        EraseTask(s, k, id, left, start, order);
        cancels, order := cancels + {id}, order + [id];
        left := left - {id};
      }
    }

    method EraseTask(ghost s: System, ghost k: nat, id: int, ghost left: set<int>, ghost start: System, ghost order: seq<int>)
      requires k < |s.readers| == |start.readers| && stage == Leaving(left) && id in left && In(s, k) == ErasedAll(start, k, order)
      modifies this`stage, queueResults
      ensures stage == Leaving(left - {id}) && In(s, k) == ErasedAll(start, k, order + [id])
    {
      ErasedOneMore(start, k, order, id);
      queueResults.RemoveWaitingTaskId(id);
      stage := Leaving(left - {id});
    }
  }

  /** The first result for one of the tasks. */
  function FirstOf(q: seq<Result>, ids: set<int>): Option<Result> {
    if FirstFor(q, ids) < |q| then Some(q[FirstFor(q, ids)]) else None
  }

  /** The ids have the indices that say where they are in the list. */
  predicate AreIndexed(posted: seq<Indexed>, list: seq<int>) {
    |posted| == |list| && forall i | 0 <= i < |list| :: posted[i] == Indexed(list[i], i)
  }

  method AnyOf(ids: set<int>) returns (id: int)
    requires ids != {}
    ensures id in ids
  {
    NonEmpty(ids);
    id :| id in ids;
  }

  lemma NonEmpty(ids: set<int>)
    requires ids != {}
    ensures exists x :: x in ids
  {
    if forall x :: x !in ids {
      NothingIn(ids);
    }
  }

  lemma NothingIn(ids: set<int>)
    requires forall x :: x !in ids
    ensures ids == {}
  {
    assert forall x :: x in ids ==> x in {};
  }

  method RemoveIf(q: seq<Result>, x: int) returns (kept: seq<Result>)
    ensures kept == Except(q, x)
  {
    kept := [];
    for i := 0 to |q|
      invariant kept == Except(q[..i], x)
    {
      assert q[..i + 1] == q[..i] + [q[i]] && [q[i]][1..] == [];
      OnlyAppend(q[..i], [q[i]], x);
      if q[i].id != x {
        kept := kept + [q[i]];
      }
    }
    assert q[..|q|] == q;
  }
}
