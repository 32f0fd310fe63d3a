/** One delivery of the create-items task as code: processing, finalizing and the decision to
    delete, which together are a piece of a run of `ItemStream`. */
module ItemDelivery {
  import opened Common
  import opened ItemRecords
  import opened ItemStream
  import QP = QueueProtocol
  import StreamingRun

  /** What `finalize_message` stored is what the plan of the message says. */
  lemma FinalizedAsPlanned(c: Config, store: Store, w: QP.WorkerId, m: QP.MsgId, done: nat)
    requires var r := ProcessMessage(c.create, c.contentOf(m));
      match r
      case ProcessRaises => done == 0
      case Ok(items) => if ValidItems(items) then done <= |RecordsOf(items, c.runOf(w))| else done == 0
      case Error(_) => done <= 1
    ensures done <= Steps(PlanFor(c, m, c.runOf(w)))
    ensures var r := ProcessMessage(c.create, c.contentOf(m));
      StoreWith(c, store, w, m, done) ==
      if r.Ok? && ValidItems(r.items) then PutAll(store, RecordsOf(r.items, c.runOf(w))[..done]) else store
  {
  }

  /** The body of the loop of `run` for the create-items task. `count` is the dequeue count the
      message came with, if the service reported it. An exception may also strike between the
      steps, and then nothing is handled. The receipt, the puts stored and the end, in this
      order, are possible steps of the task from `s`, and leave the records that this code
      leaves. */
  method Deliver(task: Containers, worker: StreamingRun.Worker, c: Config, ghost s: State, w: QP.WorkerId,
                 m: QP.MsgId, count: Option<nat>, hasNextVisible: bool, deleteOk: bool, errorId: string)
    returns (d: StreamingRun.Delivery, done: nat, goesOn: bool)
    requires w !in s.q.busy && m in s.q.queue && s.q.queue[m].visible && task.records == s.store
    requires count.Some? ==> count.value == s.q.queue[m].dequeueCount + 1
    modifies task, worker
    ensures d.id == m && d.dequeueCount == count && d.hasNextVisible == hasNextVisible && d.deleteOk == deleteOk
    ensures d.outcome.Passed? ==>
              !PlanFor(c, m, c.runOf(w)).Raise? && done == Steps(PlanFor(c, m, c.runOf(w)))
    ensures goesOn <==> StreamingRun.Completes(d)
    ensures worker.deleted == old(worker.deleted) + if StreamingRun.Deletes(d) then [m] else []
    ensures var after := From(c, s, Fragment(w, m, done, StreamingRun.EndOf(w, d)));
      && after.Some? && after.value.store == task.records
      && after.value.q.queue.Keys == s.q.queue.Keys - (if StreamingRun.Deletes(d) then {m} else {})
      && after.value.q.passed == s.q.passed + (if d.outcome.Passed? then {m} else {})
  {
    done := 0;
    var ok := false;
    var result := ProcessMessage(c.create, c.contentOf(m));
    if !result.ProcessRaises? {
      ok, done := task.FinalizeMessage(result, c.runOf(w), errorId);
    }
    FinalizedAsPlanned(c, s.store, w, m, done);
    var interrupted: bool := *;
    var outcome := if interrupted then StreamingRun.Interrupted
      else if ok then StreamingRun.Passed
      else StreamingRun.Raised;
    d := StreamingRun.Delivery(m, count, hasNextVisible, outcome, deleteOk);
    FragmentRuns(c, s, w, m, done, StreamingRun.EndOf(w, d));
    goesOn := worker.Handle(d);
  }

  // ---------------------------------------------------------------- a version of null

  /** Every message yields one item, whose version is null. */
  function NullVersion(): Config {
    Config((url: string) => Items([Item("c", "i", None, "")]), (w: QP.WorkerId) => "", (m: QP.MsgId) => Event("", ""))
  }

  lemma NullItem()
    ensures ProcessMessage(NullVersion().create, NullVersion().contentOf(0)).Ok?
    ensures ProcessMessage(NullVersion().create, NullVersion().contentOf(0)).items == [Item("c", "i", None, "")]
    ensures ValidItem(Item("c", "i", None, ""))
    ensures PlanFor(NullVersion(), 0, "").Puts? && Steps(PlanFor(NullVersion(), 0, "")) == 2
  {
    var item := Item("c", "i", None, "");
    ValidItemMeans(item);
    assert ValidItem(item);
  }

  /** One message, delivered once without any failure. */
  function NullRun(): seq<QP.Event> {
    [QP.Send(0)] + Fragment(0, 0, 2, QP.Finish(0, true))
  }

  lemma NullSent()
    ensures After(NullVersion(), [QP.Send(0)]).Some?
    ensures var s := After(NullVersion(), [QP.Send(0)]).value;
      0 !in s.q.busy && 0 in s.q.queue && s.q.queue[0].visible
  {
    FromSnoc(NullVersion(), START, [], QP.Send(0));
    assert [] + [QP.Send(0)] == [QP.Send(0)];
  }

  lemma NullRunPasses()
    ensures After(NullVersion(), NullRun()).Some? && 0 in After(NullVersion(), NullRun()).value.q.passed
  {
    var c := NullVersion();
    NullItem();
    NullSent();
    var s := After(c, [QP.Send(0)]).value;
    FragmentRuns(c, s, 0, 0, 2, QP.Finish(0, true));
    FromAppend(c, START, [QP.Send(0)], Fragment(0, 0, 2, QP.Finish(0, true)));
  }

  /** Its StacItem and its ItemUpdated record show different versions. */
  lemma NullVersionUnpaired()
    ensures After(NullVersion(), NullRun()).Some? && ValidItem(Item("c", "i", None, ""))
    ensures var item, store := Item("c", "i", None, ""), After(NullVersion(), NullRun()).value.store;
      var k, u := KeyOf(ItemRecord(item)), KeyOf(UpdateRecord(item, ""));
      k in store && u in store && VersionText(store[k].version) != VersionText(store[u].version)
  {
    NullItem();
    NullRunPasses();
    ItemsArePaired(NullVersion(), NullRun(), 0, Item("c", "i", None, ""));
  }

  lemma {:induction false} FromAppend(c: Config, s: State, a: seq<QP.Event>, b: seq<QP.Event>)
    requires From(c, s, a).Some? && From(c, From(c, s, a).value, b).Some?
    ensures From(c, s, a + b) == From(c, From(c, s, a).value, b)
  {
    if b == [] {
      assert a + b == a;
    } else {
      var front := b[..|b| - 1];
      FromAppend(c, s, a, front);
      FromSnoc(c, s, a + front, b[|b| - 1]);
      assert a + b == a + front + [b[|b| - 1]];
    }
  }
}
