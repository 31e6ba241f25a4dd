/** The worker pool (`WorkerPool.js`, and the same class again in
    `build.js`): a FIFO queue of submitted tasks, one slot per worker
    with a busy flag and the task it runs, and a counter of busy
    workers. Worker threads and promises are not modelled: a promise is
    the task's ticket, its settlement an entry of `settled`, and a
    worker's `message` and `error` events are calls of `HandleResult`
    and `HandleError`. */
module Pool {
  import opened Wrappers
  import opened Strings
  import opened Worker

  /** A worker slot: its index, whether it runs a task, and the ticket of
      the task it was last given (kept after the slot is freed, as the
      source keeps `currentTask`). */
  datatype Slot = Slot(id: nat, busy: bool, current: Option<nat>)

  /** A queued task with the ticket standing for its promise. */
  datatype Queued = Queued(ticket: nat, task: Task)

  /** A `postMessage`: which slot received which task. */
  datatype Dispatch = Dispatch(slot: nat, ticket: nat, task: Task)

  datatype Settlement = Resolved(result: Message) | Rejected(reason: string)

  /** `String(v)`, as `new Error(v)` renders its message. */
  function ToText(v: JsVal): string
  {
    match v
    case JStr(s) => s
    case JNum(n) => IntToString(n)
    case JBool(b) => if b then "true" else "false"
    case JUndefined => "undefined"
  }

  /** How `handleResult` settles a task from the worker's message: it is
      rejected iff the message's `error` field is truthy. */
  function Settle(result: Message): (r: Settlement)
    ensures r.Rejected? <==> Truthy(Field(result, "error"))
    ensures r.Resolved? ==> r.result == result
  {
    if Truthy(Field(result, "error")) then Rejected(ToText(Field(result, "error"))) else Resolved(result)
  }

  function BusyCount(s: seq<Slot>): (r: nat)
    ensures r <= |s|
  {
    if s == [] then 0 else (if s[0].busy then 1 else 0) + BusyCount(s[1..])
  }

  /** All slots are busy exactly when the busy count is the slot count. */
  lemma {:induction false} AllBusyIff(s: seq<Slot>)
    ensures BusyCount(s) == |s| <==> forall i :: 0 <= i < |s| ==> s[i].busy
  {
    if s != [] {
      AllBusyIff(s[1..]);
      if BusyCount(s) == |s| {
        assert s[0].busy;
        forall i | 0 <= i < |s| ensures s[i].busy {
          if i > 0 { assert s[i] == s[1..][i - 1]; }
        }
      }
      if forall i :: 0 <= i < |s| ==> s[i].busy {
        assert forall i :: 0 <= i < |s[1..]| ==> s[1..][i].busy by {
          forall i | 0 <= i < |s[1..]| ensures s[1..][i].busy { assert s[1..][i] == s[i + 1]; }
        }
      }
    }
  }

  /** Replacing one slot changes the busy count by the change of its flag. */
  lemma {:induction false} BusyCountUpdate(s: seq<Slot>, i: nat, x: Slot)
    requires i < |s|
    ensures BusyCount(s[i := x]) + (if s[i].busy then 1 else 0) == BusyCount(s) + (if x.busy then 1 else 0)
  {
    if i == 0 {
      assert s[i := x][1..] == s[1..];
    } else {
      assert s[i := x][1..] == s[1..][i - 1 := x];
      BusyCountUpdate(s[1..], i - 1, x);
    }
  }

  /** `workers.find(w => !w.busy)`: the lowest-index idle slot. */
  function FirstIdle(s: seq<Slot>): (r: Option<nat>)
    ensures r.Some? ==> r.value < |s| && !s[r.value].busy && forall j :: 0 <= j < r.value ==> s[j].busy
    ensures r.None? <==> forall j :: 0 <= j < |s| ==> s[j].busy
  {
    FirstIdleFrom(s, 0)
  }

  function FirstIdleFrom(s: seq<Slot>, k: nat): (r: Option<nat>)
    requires k <= |s|
    requires forall j :: 0 <= j < k ==> s[j].busy
    ensures r.Some? ==> k <= r.value < |s| && !s[r.value].busy && forall j :: 0 <= j < r.value ==> s[j].busy
    ensures r.None? <==> forall j :: 0 <= j < |s| ==> s[j].busy
    decreases |s| - k
  {
    if k == |s| then None
    else if !s[k].busy then Some(k)
    else FirstIdleFrom(s, k + 1)
  }

  class WorkerPool {
    const workers: array<Slot>
    var queue: seq<Queued>
    var activeWorkers: int
    /** The number of promises `run` has created: the next ticket. */
    var promises: nat
    /** Every task `run` was given, in order; a task's ticket is its index. */
    ghost var submitted: seq<Task>
    /** Every `postMessage`, in order. */
    ghost var posted: seq<Dispatch>
    /** The settled promises, by ticket. */
    ghost var settled: map<nat, Settlement>

    /** Tickets are handed out in submission order, dispatched in that
        order, and the queue holds exactly the tasks not yet dispatched. */
    ghost predicate Fifo()
      reads this
    {
      && |posted| + |queue| == |submitted| && promises == |submitted|
      && (forall k :: 0 <= k < |posted| ==> posted[k].ticket == k && posted[k].task == submitted[k])
      && (forall k :: 0 <= k < |queue| ==> queue[k] == Queued(|posted| + k, submitted[|posted| + k]))
    }

    /** A busy slot runs an unsettled task that was posted to it; every
        posted task is either settled or still running on its slot. */
    ghost predicate Running()
      reads this, workers
    {
      && (forall i :: 0 <= i < workers.Length && workers[i].busy ==>
            workers[i].current.Some? && workers[i].current.value < |posted|
            && workers[i].current.value !in settled && posted[workers[i].current.value].slot == i)
      && (forall t :: 0 <= t < |posted| ==> posted[t].slot < workers.Length)
      && (forall t :: 0 <= t < |posted| && t !in settled ==>
            workers[posted[t].slot].busy && workers[posted[t].slot].current == Some(t))
      && (forall t :: t in settled ==> t < |posted|)
    }

    /** Everything but the queue/idle relation. */
    ghost predicate Core()
      reads this, workers
    {
      && (forall i :: 0 <= i < workers.Length ==> workers[i].id == i)
      && activeWorkers == BusyCount(workers[..])
      && Fifo()
      && Running()
    }

    ghost predicate Valid()
      reads this, workers
    {
      Core() && (|queue| > 0 ==> forall i :: 0 <= i < workers.Length ==> workers[i].busy)
    }

    constructor(numWorkers: nat)
      ensures Valid() && fresh(workers)
      ensures workers.Length == numWorkers
      ensures forall i :: 0 <= i < numWorkers ==> workers[i] == Slot(i, false, None)
      ensures queue == [] && activeWorkers == 0
      ensures submitted == [] && posted == [] && settled == map[]
    {
      var slots := new Slot[numWorkers];
      var i := 0;
      while i < numWorkers
        invariant 0 <= i <= numWorkers
        invariant forall j :: 0 <= j < i ==> slots[j] == Slot(j, false, None)
      {
        slots[i] := Slot(i, false, None);
        i := i + 1;
      }
      workers := slots;
      queue := [];
      activeWorkers := 0;
      promises := 0;
      submitted := [];
      posted := [];
      settled := map[];
      new;
      NoneBusy(workers[..]);
    }

    static lemma {:induction false} NoneBusy(s: seq<Slot>)
      requires forall j :: 0 <= j < |s| ==> !s[j].busy
      ensures BusyCount(s) == 0
    {
      if s != [] {
        assert forall j :: 0 <= j < |s[1..]| ==> !s[1..][j].busy by {
          forall j | 0 <= j < |s[1..]| ensures !s[1..][j].busy { assert s[1..][j] == s[j + 1]; }
        }
        NoneBusy(s[1..]);
      }
    }

    /** `processQueue`: nothing when the queue is empty or every slot is
        busy; otherwise the queue's head goes to the lowest idle slot. */
    method ProcessQueue()
      requires Core()
      requires |queue| > 1 ==> BusyCount(workers[..]) + 1 >= workers.Length
      modifies this, workers
      ensures Valid()
      ensures submitted == old(submitted) && settled == old(settled)
      ensures old(queue) == [] || FirstIdle(old(workers[..])).None? ==>
        workers[..] == old(workers[..]) && queue == old(queue) && posted == old(posted)
        && activeWorkers == old(activeWorkers)
      ensures old(queue) != [] && FirstIdle(old(workers[..])).Some? ==>
        var i := FirstIdle(old(workers[..])).value;
        && workers[..] == old(workers[..])[i := Slot(i, true, Some(old(queue)[0].ticket))]
        && queue == old(queue)[1..]
        && posted == old(posted) + [Dispatch(i, old(queue)[0].ticket, old(queue)[0].task)]
        && activeWorkers == old(activeWorkers) + 1
    {
      if |queue| == 0 {
        return;
      }
      var available := FirstIdle(workers[..]);
      if available.None? {
        return;
      }
      var i := available.value;
      var head := queue[0];
      ghost var before := workers[..];
      queue := queue[1..];
      workers[i] := Slot(i, true, Some(head.ticket));
      posted := posted + [Dispatch(i, head.ticket, head.task)];
      activeWorkers := activeWorkers + 1;
      BusyCountUpdate(before, i, Slot(i, true, Some(head.ticket)));
      assert workers[..] == before[i := Slot(i, true, Some(head.ticket))];
      assert Fifo() by {
        assert head == Queued(|old(posted)|, submitted[|old(posted)|]);
        forall k | 0 <= k < |queue| ensures queue[k] == Queued(|posted| + k, submitted[|posted| + k]) {
          assert queue[k] == old(queue)[k + 1];
        }
      }
      if |queue| > 0 {
        AllBusyIff(before);
        AllBusyIff(workers[..]);
      }
      assert Running() by {
        forall t | 0 <= t < |posted| && t !in settled
          ensures workers[posted[t].slot].busy && workers[posted[t].slot].current == Some(t)
        {
          if t < |posted| - 1 {
            assert posted[t] == old(posted)[t];
            assert old(workers[posted[t].slot]).busy;
          }
        }
      }
    }

    /** `run`: the task joins the tail of the queue under the next
        ticket, then one dispatch is attempted. */
    method Run(task: Task) returns (ticket: nat)
      requires Valid()
      modifies this, workers
      ensures Valid()
      ensures ticket == |old(submitted)| && submitted == old(submitted) + [task]
      ensures settled == old(settled)
      ensures old(queue) != [] || FirstIdle(old(workers[..])).None? ==>
        workers[..] == old(workers[..]) && queue == old(queue) + [Queued(ticket, task)] && posted == old(posted)
      ensures old(queue) == [] && FirstIdle(old(workers[..])).Some? ==>
        var i := FirstIdle(old(workers[..])).value;
        workers[..] == old(workers[..])[i := Slot(i, true, Some(ticket))] && queue == []
        && posted == old(posted) + [Dispatch(i, ticket, task)]
    {
      ticket := promises;
      promises := promises + 1;
      submitted := submitted + [task];
      queue := queue + [Queued(ticket, task)];
      if |queue| > 1 {
        AllBusyIff(workers[..]);
      }
      ProcessQueue();
    }

    /** Frees slot `id` and settles its task; shared by both events. */
    method Free(id: nat, outcome: Settlement)
      requires Valid() && id < workers.Length && workers[id].busy
      modifies this, workers
      ensures Core()
      ensures |queue| > 1 ==> BusyCount(workers[..]) + 1 >= workers.Length
      ensures |queue| > 0 ==> FirstIdle(workers[..]) == Some(id)
      ensures workers[..] == old(workers[..])[id := old(workers[id]).(busy := false)]
      ensures settled == old(settled)[old(workers[id].current.value) := outcome]
      ensures queue == old(queue) && submitted == old(submitted) && posted == old(posted)
      ensures activeWorkers == old(activeWorkers) - 1
    {
      ghost var before := workers[..];
      var t := workers[id].current.value;
      workers[id] := workers[id].(busy := false);
      activeWorkers := activeWorkers - 1;
      settled := settled[t := outcome];
      BusyCountUpdate(before, id, before[id].(busy := false));
      assert workers[..] == before[id := before[id].(busy := false)];
      if |queue| > 0 {
        AllBusyIff(before);
        assert forall j :: 0 <= j < workers.Length && j != id ==> workers[j].busy;
        assert FirstIdle(workers[..]) == Some(id);
      }
      assert Running() by {
        forall t' | 0 <= t' < |posted| && t' !in settled
          ensures workers[posted[t'].slot].busy && workers[posted[t'].slot].current == Some(t')
        {
          assert old(workers[posted[t'].slot]).current == Some(t');
        }
      }
    }

    /** `handleResult`: the slot is freed, its task rejected when the
        message's `error` is truthy and resolved with the message
        otherwise, and the next queued task goes to the freed slot. */
    method HandleResult(id: nat, result: Message)
      requires Valid() && id < workers.Length && workers[id].busy
      modifies this, workers
      ensures Valid()
      ensures settled == old(settled)[old(workers[id].current.value) := Settle(result)]
      ensures submitted == old(submitted)
      ensures old(queue) == [] ==>
        workers[..] == old(workers[..])[id := old(workers[id]).(busy := false)] && queue == [] && posted == old(posted)
        && activeWorkers == old(activeWorkers) - 1
      ensures old(queue) != [] ==>
        workers[..] == old(workers[..])[id := Slot(id, true, Some(old(queue)[0].ticket))] && queue == old(queue)[1..]
        && posted == old(posted) + [Dispatch(id, old(queue)[0].ticket, old(queue)[0].task)]
        && activeWorkers == old(activeWorkers)
    {
      Free(id, Settle(result));
      ProcessQueue();
    }

    /** `handleError`: the slot is freed, its task rejected with the
        error, and the next queued task goes to the freed slot. */
    method HandleError(id: nat, error: string)
      requires Valid() && id < workers.Length && workers[id].busy
      modifies this, workers
      ensures Valid()
      ensures settled == old(settled)[old(workers[id].current.value) := Rejected(error)]
      ensures submitted == old(submitted)
      ensures old(queue) == [] ==>
        workers[..] == old(workers[..])[id := old(workers[id]).(busy := false)] && queue == [] && posted == old(posted)
        && activeWorkers == old(activeWorkers) - 1
      ensures old(queue) != [] ==>
        workers[..] == old(workers[..])[id := Slot(id, true, Some(old(queue)[0].ticket))] && queue == old(queue)[1..]
        && posted == old(posted) + [Dispatch(id, old(queue)[0].ticket, old(queue)[0].task)]
        && activeWorkers == old(activeWorkers)
    {
      Free(id, Rejected(error));
      ProcessQueue();
    }
  }

  /** In a valid pool the counter lies between 0 and the number of slots,
      and a slot is idle exactly when fewer than all are busy. */
  lemma CounterBounds(s: seq<Slot>, active: int)
    requires active == BusyCount(s)
    ensures 0 <= active <= |s|
    ensures active < |s| <==> FirstIdle(s).Some?
  {
    AllBusyIff(s);
  }

  /** A worker failure whose message is empty is not seen as a failure:
      `result.error` is falsy, and the task resolves. */
  lemma EmptyErrorResolves(task: Task)
    ensures Settle(FailureMessage(task, "")).Resolved?
    ensures Settle(FailureMessage(task, "Unknown task type: " + task.kind)) == Rejected("Unknown task type: " + task.kind)
  {
  }
}
