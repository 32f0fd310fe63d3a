/** The create-items task on the queue: the steps of `QueueProtocol` with their effect on the
    containers. */
module ItemStream {
  import opened Common
  import opened ItemRecords
  import QP = QueueProtocol

  /** The deterministic create function, the run id of each worker and the content of each
      message. */
  datatype Config = Config(create: CreateFn, runOf: QP.WorkerId -> string, contentOf: QP.MsgId -> Content)

  /** What a delivery does once processing returned: raise, put records, or put an error. */
  datatype Plan = Raise | Puts(records: seq<Record>) | PutsError

  function PlanFor(c: Config, m: QP.MsgId, runId: string): Plan {
    match ProcessMessage(c.create, c.contentOf(m))
    case ProcessRaises => Raise
    case Error(_) => PutsError
    case Ok(items) => if ValidItems(items) then Puts(RecordsOf(items, runId)) else Raise
  }

  function Steps(p: Plan): nat {
    match p
    case Raise => 0
    case Puts(rs) => |rs|
    case PutsError => 1
  }

  datatype State = State(q: QP.State, store: Store, errorPuts: set<(QP.MsgId, nat)>)

  function PlanOf(c: Config, s: State, w: QP.WorkerId): Plan
    requires w in s.q.busy
  {
    PlanFor(c, s.q.busy[w].msg, c.runOf(w))
  }

  /** A put needs one left to do; a delivery passes when processing did not raise and every put
      is done. It may fail or stop at any point. */
  predicate Enabled(c: Config, s: State, e: QP.Event) {
    && QP.Enabled(s.q, e)
    && (e.PutNext? ==> s.q.busy[e.w].done < Steps(PlanOf(c, s, e.w)))
    && (e.Finish? ==> !PlanOf(c, s, e.w).Raise? && s.q.busy[e.w].done == Steps(PlanOf(c, s, e.w)))
  }

  function StoreAfter(c: Config, s: State, e: QP.Event): Store
    requires Enabled(c, s, e)
  {
    if e.PutNext? && PlanOf(c, s, e.w).Puts? then
      var r := PlanOf(c, s, e.w).records[s.q.busy[e.w].done];
      s.store[KeyOf(r) := r]
    else s.store
  }

  function Apply(c: Config, s: State, e: QP.Event): State
    requires Enabled(c, s, e)
  {
    State(QP.Apply(s.q, e), StoreAfter(c, s, e),
          s.errorPuts + if e.PutNext? && PlanOf(c, s, e.w).PutsError?
                        then {(s.q.busy[e.w].msg, s.q.busy[e.w].dequeueCount)} else {})
  }

  const START: State := State(QP.START, map[], {})

  /** The state after the steps of `run` from `start`, if each of them was possible. */
  function From(c: Config, start: State, run: seq<QP.Event>): Option<State> {
    if run == [] then Some(start)
    else
      var e := run[|run| - 1];
      match From(c, start, run[..|run| - 1])
      case None => None
      case Some(p) => if Enabled(c, p, e) then Some(Apply(c, p, e)) else None
  }

  function After(c: Config, run: seq<QP.Event>): Option<State> {
    From(c, START, run)
  }

  /** Every run of the task is a run of the queue protocol, with all that is proved of those. */
  lemma {:induction false} RunsAreQueueRuns(c: Config, run: seq<QP.Event>)
    requires After(c, run).Some?
    ensures QP.After(run) == Some(After(c, run).value.q)
    ensures QP.Inv(After(c, run).value.q)
  {
    if run != [] {
      RunsAreQueueRuns(c, run[..|run| - 1]);
    }
    QP.Always(run);
  }

  // ---------------------------------------------------------------- one delivery

  function PutSteps(w: QP.WorkerId, n: nat): seq<QP.Event> {
    if n == 0 then [] else PutSteps(w, n - 1) + [QP.PutNext(w)]
  }

  /** The steps of one delivery: it is received, does its puts and ends. */
  function Fragment(w: QP.WorkerId, m: QP.MsgId, done: nat, end: QP.Event): seq<QP.Event> {
    [QP.Receive(w, m)] + PutSteps(w, done) + [end]
  }

  lemma FromSnoc(c: Config, s: State, run: seq<QP.Event>, e: QP.Event)
    requires From(c, s, run).Some? && Enabled(c, From(c, s, run).value, e)
    ensures From(c, s, run + [e]) == Some(Apply(c, From(c, s, run).value, e))
  {
    assert (run + [e])[..|run|] == run;
  }

  /** The store after the first `done` puts of a delivery. */
  function StoreWith(c: Config, store: Store, w: QP.WorkerId, m: QP.MsgId, done: nat): Store
    requires done <= Steps(PlanFor(c, m, c.runOf(w)))
  {
    var p := PlanFor(c, m, c.runOf(w));
    if p.Puts? then PutAll(store, p.records[..done]) else store
  }

  /** `s` is `start` in the middle of a delivery of `m` by `w`, after `done` puts. */
  ghost predicate Delivering(c: Config, start: State, s: State, w: QP.WorkerId, m: QP.MsgId, done: nat)
    requires m in start.q.queue && done <= Steps(PlanFor(c, m, c.runOf(w)))
  {
    var count := start.q.queue[m].dequeueCount + 1;
    && w in s.q.busy && s.q.busy[w] == QP.Delivery(m, count, done)
    && s.q.queue == start.q.queue[m := QP.Queued(count, false)]
    && s.q.passed == start.q.passed
    && s.store == StoreWith(c, start.store, w, m, done)
  }

  lemma DeliveringNext(c: Config, start: State, s: State, w: QP.WorkerId, m: QP.MsgId, done: nat)
    requires m in start.q.queue && done < Steps(PlanFor(c, m, c.runOf(w)))
    requires Delivering(c, start, s, w, m, done)
    ensures Enabled(c, s, QP.PutNext(w))
    ensures Delivering(c, start, Apply(c, s, QP.PutNext(w)), w, m, done + 1)
  {
    StoreWithNext(c, start.store, w, m, done);
  }

  lemma StoreWithNext(c: Config, store: Store, w: QP.WorkerId, m: QP.MsgId, done: nat)
    requires done < Steps(PlanFor(c, m, c.runOf(w)))
    ensures var p := PlanFor(c, m, c.runOf(w));
      StoreWith(c, store, w, m, done + 1) ==
      if p.Puts? then StoreWith(c, store, w, m, done)[KeyOf(p.records[done]) := p.records[done]]
      else StoreWith(c, store, w, m, done)
  {
    var p := PlanFor(c, m, c.runOf(w));
    if p.Puts? {
      assert p.records[..done + 1][..done] == p.records[..done];
    }
  }

  lemma ReceiptDelivers(c: Config, s: State, w: QP.WorkerId, m: QP.MsgId)
    requires w !in s.q.busy && m in s.q.queue && s.q.queue[m].visible
    ensures Enabled(c, s, QP.Receive(w, m)) && Delivering(c, s, Apply(c, s, QP.Receive(w, m)), w, m, 0)
  {
    var p := PlanFor(c, m, c.runOf(w));
    assert p.Puts? ==> PutAll(s.store, p.records[..0]) == s.store;
  }

  /** Receiving `m` and doing `done` puts is possible, and leaves the worker at that point. */
  ghost predicate RunsUpTo(c: Config, s: State, w: QP.WorkerId, m: QP.MsgId, done: nat)
    requires m in s.q.queue && done <= Steps(PlanFor(c, m, c.runOf(w)))
  {
    var mid := From(c, s, [QP.Receive(w, m)] + PutSteps(w, done));
    mid.Some? && Delivering(c, s, mid.value, w, m, done)
  }

  lemma ReceiptRuns(c: Config, s: State, w: QP.WorkerId, m: QP.MsgId)
    requires w !in s.q.busy && m in s.q.queue && s.q.queue[m].visible
    ensures RunsUpTo(c, s, w, m, 0)
  {
    ReceiptDelivers(c, s, w, m);
    FromSnoc(c, s, [], QP.Receive(w, m));
    assert [] + [QP.Receive(w, m)] == [QP.Receive(w, m)] + PutSteps(w, 0);
  }

  lemma PutStepNext(c: Config, s: State, w: QP.WorkerId, m: QP.MsgId, done: nat)
    requires m in s.q.queue && done < Steps(PlanFor(c, m, c.runOf(w))) && RunsUpTo(c, s, w, m, done)
    ensures RunsUpTo(c, s, w, m, done + 1)
  {
    var before := [QP.Receive(w, m)] + PutSteps(w, done);
    Assoc([QP.Receive(w, m)], PutSteps(w, done), [QP.PutNext(w)]);
    OnePut(c, s, before, w, m, done);
  }

  lemma OnePut(c: Config, s: State, before: seq<QP.Event>, w: QP.WorkerId, m: QP.MsgId, done: nat)
    requires m in s.q.queue && done < Steps(PlanFor(c, m, c.runOf(w)))
    requires From(c, s, before).Some? && Delivering(c, s, From(c, s, before).value, w, m, done)
    ensures var mid := From(c, s, before + [QP.PutNext(w)]);
      mid.Some? && Delivering(c, s, mid.value, w, m, done + 1)
  {
    DeliveringNext(c, s, From(c, s, before).value, w, m, done);
    FromSnoc(c, s, before, QP.PutNext(w));
  }

  lemma {:induction false} PutStepsRun(c: Config, s: State, w: QP.WorkerId, m: QP.MsgId, done: nat)
    requires w !in s.q.busy && m in s.q.queue && s.q.queue[m].visible
    requires done <= Steps(PlanFor(c, m, c.runOf(w)))
    ensures RunsUpTo(c, s, w, m, done)
    decreases done
  {
    if done == 0 {
      ReceiptRuns(c, s, w, m);
    } else {
      PutStepsRun(c, s, w, m, done - 1);
      PutStepNext(c, s, w, m, done - 1);
    }
  }

  /** How a delivery may end after `done` puts: a failure deletes only with a count of at least
      3, and only a delivery with all its puts done passes. */
  predicate MayEnd(c: Config, s: State, w: QP.WorkerId, m: QP.MsgId, done: nat, end: QP.Event)
    requires m in s.q.queue
  {
    var p := PlanFor(c, m, c.runOf(w));
    match end
    case Crash(v) => v == w
    case Fail(v, deleted) => v == w && (deleted ==> s.q.queue[m].dequeueCount + 1 >= 3)
    case Finish(v, _) => v == w && !p.Raise? && done == Steps(p)
    case _ => false
  }

  predicate Deleting(end: QP.Event) {
    (end.Fail? || end.Finish?) && end.deleted
  }

  /** The steps of a delivery are possible one after the other. They store its first `done`
      records, and exactly a deleting end takes the message out of the queue. */
  lemma FragmentRuns(c: Config, s: State, w: QP.WorkerId, m: QP.MsgId, done: nat, end: QP.Event)
    requires w !in s.q.busy && m in s.q.queue && s.q.queue[m].visible
    requires done <= Steps(PlanFor(c, m, c.runOf(w))) && MayEnd(c, s, w, m, done, end)
    ensures var after := From(c, s, Fragment(w, m, done, end));
      && after.Some?
      && after.value.store == StoreWith(c, s.store, w, m, done)
      && after.value.q.queue.Keys == s.q.queue.Keys - (if Deleting(end) then {m} else {})
      && after.value.q.passed == s.q.passed + (if end.Finish? then {m} else {})
  {
    PutStepsRun(c, s, w, m, done);
    var before := [QP.Receive(w, m)] + PutSteps(w, done);
    FromSnoc(c, s, before, end);
  }

  // ---------------------------------------------------------------- no loss, with its reason

  /** The steps of one worker. */
  function WorkerSteps(run: seq<QP.Event>, w: QP.WorkerId): seq<QP.Event> {
    if run == [] then []
    else
      var e := run[|run| - 1];
      WorkerSteps(run[..|run| - 1], w) + if !e.Send? && !e.Reappear? && e.w == w then [e] else []
  }

  /** From step `i` to step `j` worker `w` does one delivery of `m`, with `done` puts. */
  ghost predicate Delivered(run: seq<QP.Event>, i: nat, j: nat, w: QP.WorkerId, m: QP.MsgId, done: nat, end: QP.Event) {
    && i < j < |run| && run[i] == QP.Receive(w, m) && run[j] == end
    && WorkerSteps(run[i..j + 1], w) == Fragment(w, m, done, end)
  }

  /** A delivery of `m` that passed and deletes it: processing returned, and between the receipt
      and the deletion the worker did every put of the message. */
  ghost predicate PassedAndDeleted(c: Config, run: seq<QP.Event>, i: nat, j: nat, w: QP.WorkerId, m: QP.MsgId) {
    var p := PlanFor(c, m, c.runOf(w));
    !p.Raise? && Delivered(run, i, j, w, m, Steps(p), QP.Finish(w, true))
  }

  /** A delivery of `m` that failed after some puts and deletes it: it was at least the third
      receipt. */
  ghost predicate FailedAndDeleted(c: Config, run: seq<QP.Event>, i: nat, j: nat, w: QP.WorkerId, m: QP.MsgId) {
    && (exists done :: Delivered(run, i, j, w, m, done, QP.Fail(w, true)))
    && ThirdReceipt(c, run, i, m)
  }

  ghost predicate ThirdReceipt(c: Config, run: seq<QP.Event>, i: nat, m: QP.MsgId) {
    && i < |run| && After(c, run[..i]).Some?
    && m in After(c, run[..i]).value.q.queue
    && After(c, run[..i]).value.q.queue[m].dequeueCount + 1 >= 3
  }

  /** What a busy worker has done since the receipt of its message. */
  ghost predicate Opened(c: Config, run: seq<QP.Event>, i: nat, w: QP.WorkerId, d: QP.Delivery) {
    && i < |run| && run[i] == QP.Receive(w, d.msg)
    && WorkerSteps(run[i..], w) == [QP.Receive(w, d.msg)] + PutSteps(w, d.done)
    && After(c, run[..i]).Some? && d.msg in After(c, run[..i]).value.q.queue
    && d.dequeueCount == After(c, run[..i]).value.q.queue[d.msg].dequeueCount + 1
  }

  lemma OpenedLater(c: Config, front: seq<QP.Event>, i: nat, w: QP.WorkerId, d: QP.Delivery, e: QP.Event)
    requires Opened(c, front, i, w, d)
    ensures WorkerSteps((front + [e])[i..], w) ==
            WorkerSteps(front[i..], w) + if !e.Send? && !e.Reappear? && e.w == w then [e] else []
    ensures (front + [e])[..i] == front[..i]
  {
    assert (front + [e])[i..] == front[i..] + [e];
    assert (front[i..] + [e])[..|front[i..]|] == front[i..];
  }

  lemma StaysOpened(c: Config, front: seq<QP.Event>, p: State, i: nat, w: QP.WorkerId, e: QP.Event)
    requires Enabled(c, p, e) && w in p.q.busy && w in Apply(c, p, e).q.busy
    requires Opened(c, front, i, w, p.q.busy[w])
    ensures Opened(c, front + [e], i, w, Apply(c, p, e).q.busy[w])
  {
    var d := p.q.busy[w];
    OpenedLater(c, front, i, w, d, e);
    if e == QP.PutNext(w) {
      Assoc([QP.Receive(w, d.msg)], PutSteps(w, d.done), [e]);
    }
  }

  lemma JustOpened(c: Config, front: seq<QP.Event>, p: State, w: QP.WorkerId, m: QP.MsgId)
    requires After(c, front) == Some(p) && Enabled(c, p, QP.Receive(w, m))
    ensures Opened(c, front + [QP.Receive(w, m)], |front|, w, Apply(c, p, QP.Receive(w, m)).q.busy[w])
  {
    var e := QP.Receive(w, m);
    var run := front + [e];
    assert run[|front|..] == [e] && [e][..0] == [] && run[..|front|] == front;
    assert WorkerSteps([e], w) == [e] == [e] + PutSteps(w, 0);
  }

  /** Every delivery in progress began with a receipt, and all its worker did since is its puts. */
  lemma {:induction false} OpenDelivery(c: Config, run: seq<QP.Event>, w: QP.WorkerId) returns (i: nat)
    requires After(c, run).Some? && w in After(c, run).value.q.busy
    ensures Opened(c, run, i, w, After(c, run).value.q.busy[w])
  {
    var front, e := run[..|run| - 1], run[|run| - 1];
    var p := After(c, front).value;
    assert run == front + [e];
    if e.Receive? && e.w == w {
      i := |front|;
      JustOpened(c, front, p, w, e.m);
    } else {
      i := OpenDelivery(c, front, w);
      StaysOpened(c, front, p, i, w, e);
    }
  }

  lemma {:induction false} Prefixes(c: Config, run: seq<QP.Event>, i: nat)
    requires After(c, run).Some? && i <= |run|
    ensures After(c, run[..i]).Some?
    ensures i < |run| ==> Enabled(c, After(c, run[..i]).value, run[i])
  {
    if i == |run| {
      assert run[..i] == run;
    } else {
      var front := run[..|run| - 1];
      assert front[..i] == run[..i];
      if i < |front| {
        Prefixes(c, front, i);
      } else {
        assert run[..i] == front;
      }
    }
  }

  /** Every step that ends a delivery closes one such sequence of steps. */
  lemma ClosedDelivery(c: Config, run: seq<QP.Event>, j: nat, w: QP.WorkerId) returns (i: nat)
    requires After(c, run).Some? && j < |run| && After(c, run[..j]).Some?
    requires w in After(c, run[..j]).value.q.busy
    requires (run[j].Fail? || run[j].Finish? || run[j].Crash?) && run[j].w == w
    ensures var d := After(c, run[..j]).value.q.busy[w];
      && Opened(c, run[..j], i, w, d) && i < j && run[..j][..i] == run[..i]
      && Delivered(run, i, j, w, d.msg, d.done, run[j])
  {
    i := OpenDelivery(c, run[..j], w);
    var d := After(c, run[..j]).value.q.busy[w];
    OpenedLater(c, run[..j], i, w, d, run[j]);
    assert run[..j] + [run[j]] == run[..j + 1];
    assert run[..j + 1][i..] == run[i..j + 1];
  }

  /** A message leaves the queue only after a delivery of it that passed both `process_message`
      and `finalize_message` with every put done, or a failing delivery that was at least the
      third. */
  lemma NoMessageLost(c: Config, run: seq<QP.Event>, m: QP.MsgId)
    requires After(c, run).Some? && m in After(c, run).value.q.sent
    ensures m in After(c, run).value.q.queue
            || exists i, j, w :: PassedAndDeleted(c, run, i, j, w, m) || FailedAndDeleted(c, run, i, j, w, m)
  {
    RunsAreQueueRuns(c, run);
    QP.NoLoss(run, m);
    if m !in After(c, run).value.q.queue {
      var j: nat :| QP.Removes(run, j, m);
      Prefixes(c, run, j);
      RunsAreQueueRuns(c, run[..j]);
      var w := run[j].w;
      var i := ClosedDelivery(c, run, j, w);
      if run[j].Finish? {
        assert PassedAndDeleted(c, run, i, j, w, m);
      } else {
        assert ThirdReceipt(c, run, i, m);
        assert FailedAndDeleted(c, run, i, j, w, m);
      }
    }
  }

  // ---------------------------------------------------------------- the records

  function KeysOf(rs: seq<Record>): seq<Key> {
    seq(|rs|, i requires 0 <= i < |rs| => KeyOf(rs[i]))
  }

  /** The key of the `i`-th put of a message; the run id is not part of it. */
  function PutKeys(c: Config, m: QP.MsgId): seq<Key> {
    match PlanFor(c, m, "")
    case Puts(rs) => KeysOf(rs)
    case _ => []
  }

  /** Equal but for the run that wrote it. */
  predicate SameButRun(r: Record, s: Record) {
    r == s || (r.ItemUpdated? && s.ItemUpdated? && r.stacId == s.stacId && r.version == s.version)
  }

  lemma PlanShape(c: Config, m: QP.MsgId, runId: string)
    ensures var p, q := PlanFor(c, m, ""), PlanFor(c, m, runId);
      && (p.Raise? <==> q.Raise?) && (p.PutsError? <==> q.PutsError?)
      && (q.Puts? ==> |q.records| == |PutKeys(c, m)| == |p.records|)
      && (q.Puts? ==> forall i :: 0 <= i < |q.records| ==>
            KeyOf(q.records[i]) == PutKeys(c, m)[i] && SameButRun(q.records[i], p.records[i]))
  {
    var p, q := PlanFor(c, m, ""), PlanFor(c, m, runId);
    if q.Puts? {
      var items := ProcessMessage(c.create, c.contentOf(m)).items;
      forall i | 0 <= i < |q.records|
        ensures KeyOf(q.records[i]) == KeyOf(p.records[i]) && SameButRun(q.records[i], p.records[i])
      {
        if i < |items| {
          assert q.records[i] == ItemRecord(items[i]) == p.records[i];
        } else {
          var j := i - |items|;
          assert q.records[i] == UpdateRecord(items[j], runId) && p.records[i] == UpdateRecord(items[j], "");
        }
      }
    }
  }

  /** The puts that a delivery has done are in the store. */
  ghost predicate DeliveriesStored(c: Config, s: State) {
    forall w :: w in s.q.busy ==>
      var d := s.q.busy[w];
      d.done <= Steps(PlanFor(c, d.msg, "")) && PutKeysStored(c, s.store, d.msg, d.done)
  }

  ghost predicate PutKeysStored(c: Config, store: Store, m: QP.MsgId, done: nat) {
    forall i :: 0 <= i < |PutKeys(c, m)| && i < done ==> PutKeys(c, m)[i] in store
  }

  /** All puts of a passed message are in the store. */
  ghost predicate PassedStored(c: Config, s: State) {
    forall m :: m in s.q.passed ==>
      !PlanFor(c, m, "").Raise? && PutKeysStored(c, s.store, m, |PutKeys(c, m)|)
  }

  /** `k` with record `r` is what the `i`-th put of `m` stores. */
  ghost predicate Written(c: Config, m: QP.MsgId, i: nat, k: Key, r: Record) {
    var p := PlanFor(c, m, "");
    p.Puts? && i < |p.records| && KeyOf(p.records[i]) == k && SameButRun(r, p.records[i])
  }

  /** Every record in the store was written by some put of a received message. */
  ghost predicate StoreExplained(c: Config, s: State) {
    forall k :: k in s.store ==> ExplainedBy(c, s.q.received, k, s.store[k])
  }

  ghost predicate ExplainedBy(c: Config, received: set<QP.MsgId>, k: Key, r: Record) {
    exists m, i: nat :: m in received && Written(c, m, i, k, r)
  }

  /** A put that wrote the record under `k`. */
  lemma Writer(c: Config, s: State, k: Key) returns (m: QP.MsgId, i: nat)
    requires StoreExplained(c, s) && k in s.store
    ensures m in s.q.received && Written(c, m, i, k, s.store[k])
    ensures i < |PutKeys(c, m)| && PutKeys(c, m)[i] == k
  {
    assert ExplainedBy(c, s.q.received, k, s.store[k]);
    m, i :| m in s.q.received && Written(c, m, i, k, s.store[k]);
  }

  lemma StoreGrows(c: Config, s: State, e: QP.Event, m: QP.MsgId, done: nat)
    requires Enabled(c, s, e) && PutKeysStored(c, s.store, m, done)
    ensures PutKeysStored(c, StoreAfter(c, s, e), m, done)
  {
  }

  lemma PutStored(c: Config, s: State, w: QP.WorkerId)
    requires Enabled(c, s, QP.PutNext(w))
    requires PutKeysStored(c, s.store, s.q.busy[w].msg, s.q.busy[w].done)
    ensures PutKeysStored(c, StoreAfter(c, s, QP.PutNext(w)), s.q.busy[w].msg, s.q.busy[w].done + 1)
    ensures s.q.busy[w].done < Steps(PlanFor(c, s.q.busy[w].msg, ""))
  {
    PlanShape(c, s.q.busy[w].msg, c.runOf(w));
  }

  lemma DeliveriesStoredStep(c: Config, s: State, e: QP.Event)
    requires DeliveriesStored(c, s) && Enabled(c, s, e)
    ensures DeliveriesStored(c, Apply(c, s, e))
  {
    var s' := Apply(c, s, e);
    forall w | w in s'.q.busy
      ensures var d := s'.q.busy[w];
        d.done <= Steps(PlanFor(c, d.msg, "")) && PutKeysStored(c, s'.store, d.msg, d.done)
    {
      if e == QP.PutNext(w) {
        PutStored(c, s, w);
      } else if w in s.q.busy {
        StoreGrows(c, s, e, s.q.busy[w].msg, s.q.busy[w].done);
      }
    }
  }

  lemma PassedStoredStep(c: Config, s: State, e: QP.Event)
    requires DeliveriesStored(c, s) && PassedStored(c, s) && Enabled(c, s, e)
    ensures PassedStored(c, Apply(c, s, e))
  {
    var s' := Apply(c, s, e);
    forall m | m in s'.q.passed
      ensures !PlanFor(c, m, "").Raise? && PutKeysStored(c, s'.store, m, |PutKeys(c, m)|)
    {
      if m in s.q.passed {
        StoreGrows(c, s, e, m, |PutKeys(c, m)|);
      } else {
        PlanShape(c, m, c.runOf(e.w));
      }
    }
  }

  /** What the step puts under a key comes from the plan of the delivery. */
  lemma PutExplained(c: Config, s: State, e: QP.Event, k: Key)
    requires QP.Known(s.q) && Enabled(c, s, e)
    requires k in Apply(c, s, e).store && (k !in s.store || Apply(c, s, e).store[k] != s.store[k])
    ensures ExplainedBy(c, Apply(c, s, e).q.received, k, Apply(c, s, e).store[k])
  {
    var s', d := Apply(c, s, e), s.q.busy[e.w];
    PlanShape(c, d.msg, c.runOf(e.w));
    assert Written(c, d.msg, d.done, k, s'.store[k]);
  }

  lemma StoreExplainedStep(c: Config, s: State, e: QP.Event)
    requires QP.Known(s.q) && StoreExplained(c, s) && Enabled(c, s, e)
    ensures StoreExplained(c, Apply(c, s, e))
  {
    var s' := Apply(c, s, e);
    forall k | k in s'.store
      ensures ExplainedBy(c, s'.q.received, k, s'.store[k])
    {
      if k in s.store && s'.store[k] == s.store[k] {
        var m, i := Writer(c, s, k);
        assert m in s'.q.received;
      } else {
        PutExplained(c, s, e, k);
      }
    }
  }

  lemma {:induction false} Effects(c: Config, run: seq<QP.Event>)
    requires After(c, run).Some?
    ensures var s := After(c, run).value;
      DeliveriesStored(c, s) && PassedStored(c, s) && StoreExplained(c, s)
  {
    if run != [] {
      var front := run[..|run| - 1];
      var p := After(c, front).value;
      Effects(c, front);
      RunsAreQueueRuns(c, front);
      DeliveriesStoredStep(c, p, run[|run| - 1]);
      PassedStoredStep(c, p, run[|run| - 1]);
      StoreExplainedStep(c, p, run[|run| - 1]);
    }
  }

  // ---------------------------------------------------------------- at least once, one effect

  /** What one undisturbed delivery of `m` to an empty store leaves. */
  function CleanDelivery(c: Config, m: QP.MsgId): Store {
    match PlanFor(c, m, "")
    case Puts(rs) => PutAll(map[], rs)
    case _ => map[]
  }

  lemma {:induction false} PutAllKeys(store: Store, rs: seq<Record>, k: Key)
    ensures k in PutAll(store, rs) <==> k in store || k in KeysOf(rs)
  {
    if rs != [] {
      var front, last := rs[..|rs| - 1], rs[|rs| - 1];
      PutAllKeys(store, front, k);
      assert KeysOf(rs) == KeysOf(front) + [KeyOf(last)];
    }
  }

  lemma CleanKeys(c: Config, m: QP.MsgId, k: Key)
    ensures k in CleanDelivery(c, m) <==> k in PutKeys(c, m)
  {
    var p := PlanFor(c, m, "");
    if p.Puts? {
      PutAllKeys(map[], p.records, k);
    }
  }

  lemma PassedKeys(c: Config, s: State, m: QP.MsgId)
    requires PassedStored(c, s) && m in s.q.passed
    ensures CleanDelivery(c, m).Keys <= s.store.Keys
  {
    forall k | k in CleanDelivery(c, m)
      ensures k in s.store
    {
      CleanKeys(c, m, k);
      var i :| 0 <= i < |PutKeys(c, m)| && PutKeys(c, m)[i] == k;
      assert PutKeysStored(c, s.store, m, |PutKeys(c, m)|);
    }
  }

  lemma ReceivedKeys(c: Config, s: State, k: Key) returns (m: QP.MsgId)
    requires StoreExplained(c, s) && k in s.store
    ensures m in s.q.received && k in CleanDelivery(c, m)
  {
    var i;
    m, i := Writer(c, s, k);
    CleanKeys(c, m, k);
  }

  /** `k` is a record id of a clean delivery of one of the messages. */
  ghost predicate CleanKeyOfSome(c: Config, ms: set<QP.MsgId>, k: Key) {
    exists m :: m in ms && k in CleanDelivery(c, m)
  }

  /** However many deliveries stopped between any two puts, were repeated or ran side by side:
      the store has every record id that a clean delivery of a passed message has, and no id
      that no received message has; so when every received message has passed, the record ids
      are exactly those of one clean delivery of each. */
  lemma SingleEffect(c: Config, run: seq<QP.Event>)
    requires After(c, run).Some?
    ensures var s := After(c, run).value;
      && (forall m :: m in s.q.passed ==> CleanDelivery(c, m).Keys <= s.store.Keys)
      && (forall k :: k in s.store ==> CleanKeyOfSome(c, s.q.received, k))
      && (s.q.received <= s.q.passed ==> forall k :: k in s.store <==> CleanKeyOfSome(c, s.q.passed, k))
  {
    var s := After(c, run).value;
    Effects(c, run);
    RunsAreQueueRuns(c, run);
    forall m | m in s.q.passed
      ensures CleanDelivery(c, m).Keys <= s.store.Keys
    {
      PassedKeys(c, s, m);
    }
    forall k | k in s.store
      ensures CleanKeyOfSome(c, s.q.received, k)
    {
      var m := ReceivedKeys(c, s, k);
    }
    if s.q.received <= s.q.passed {
      assert s.q.received == s.q.passed;
    }
  }

  lemma PlanHasItem(c: Config, m: QP.MsgId, item: Item)
    requires PlanFor(c, m, "").Puts?
    requires var r := ProcessMessage(c.create, c.contentOf(m)); r.Ok? && item in r.items
    ensures ValidItem(item)
    ensures KeyOf(ItemRecord(item)) in PutKeys(c, m) && KeyOf(UpdateRecord(item, "")) in PutKeys(c, m)
  {
    var items := ProcessMessage(c.create, c.contentOf(m)).items;
    var i :| 0 <= i < |items| && items[i] == item;
    var rs := PlanFor(c, m, "").records;
    assert rs[i] == ItemRecord(item) && rs[|items| + i] == UpdateRecord(item, "");
    assert PutKeys(c, m)[i] == KeyOf(rs[i]) && PutKeys(c, m)[|items| + i] == KeyOf(rs[|items| + i]);
  }

  /** For each item of a passed message the store has a StacItem record and an ItemUpdated record
      with the item's STAC id. Their ids show the same version if and only if the version of the
      item is not null: the one shows "None", the other nothing. */
  lemma ItemsArePaired(c: Config, run: seq<QP.Event>, m: QP.MsgId, item: Item)
    requires After(c, run).Some? && m in After(c, run).value.q.passed
    requires var r := ProcessMessage(c.create, c.contentOf(m)); r.Ok? && item in r.items
    ensures ValidItem(item)
    ensures var s := After(c, run).value;
      var k, u := KeyOf(ItemRecord(item)), KeyOf(UpdateRecord(item, ""));
      && k in s.store && s.store[k].StacItem? && s.store[k].stacId == StacId(item)
      && u in s.store && s.store[u].ItemUpdated? && s.store[u].stacId == StacId(item)
      && VersionText(s.store[k].version) == VersionText(item.version)
      && (VersionText(s.store[u].version) == VersionText(s.store[k].version) <==> item.version.Some?)
  {
    var s := After(c, run).value;
    Effects(c, run);
    PlanHasItem(c, m, item);
    assert PutKeysStored(c, s.store, m, |PutKeys(c, m)|);
    StoredRecord(c, s, ItemRecord(item));
    StoredRecord(c, s, UpdateRecord(item, ""));
  }

  /** The record stored under the key of `r` has its type, STAC id and version text. */
  lemma StoredRecord(c: Config, s: State, r: Record)
    requires StoreExplained(c, s) && KeyOf(r) in s.store
    ensures var x := s.store[KeyOf(r)];
      x.stacId == r.stacId && VersionText(x.version) == VersionText(r.version) && (x.StacItem? <==> r.StacItem?)
  {
    var m, i := Writer(c, s, KeyOf(r));
    KeyDetermines(PlanFor(c, m, "").records[i], r);
  }

  /** The `i`-th put of `m` is the only one of all received messages that writes its key. */
  ghost predicate SoleWriter(c: Config, s: State, m: QP.MsgId, i: nat)
    requires i < |PutKeys(c, m)|
  {
    forall n, j :: n in s.q.received && 0 <= j < |PutKeys(c, n)| && PutKeys(c, n)[j] == PutKeys(c, m)[i] ==>
      n == m && j == i
  }

  /** The record such a put stored is, but for the run that wrote it, the one a clean delivery
      leaves. */
  lemma SoleWriterContent(c: Config, run: seq<QP.Event>, m: QP.MsgId, i: nat)
    requires After(c, run).Some? && m in After(c, run).value.q.passed
    requires i < |PutKeys(c, m)| && SoleWriter(c, After(c, run).value, m, i)
    ensures var k, s := PutKeys(c, m)[i], After(c, run).value;
      k in s.store && SameButRun(s.store[k], PlanFor(c, m, "").records[i])
  {
    var k, s := PutKeys(c, m)[i], After(c, run).value;
    Effects(c, run);
    assert PutKeysStored(c, s.store, m, |PutKeys(c, m)|);
    var n, j := Writer(c, s, k);
    assert n == m && j == i;
  }
}
