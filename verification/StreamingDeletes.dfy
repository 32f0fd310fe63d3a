/** Which messages the loops of `StreamingTaskMixin.run` delete, in terms of how their deliveries went. */
module StreamingDeletes {
  import opened Common
  import opened StreamingRun
  import opened StreamingAttempts
  import QueueProtocol

  /** The delivery takes its message out: it passed with a next visible time, or failed with a count
      of at least 3, and the service accepted the delete. */
  predicate TakesOut(d: Delivery) {
    d.deleteOk &&
    match d.outcome
    case Passed => d.hasNextVisible
    case Raised => d.dequeueCount.Some? && d.dequeueCount.value >= 3
    case Interrupted => false
  }

  /** An exception leaves the loop: an interruption, or a refused delete. */
  predicate Escapes(d: Delivery) {
    match d.outcome
    case Passed => d.hasNextVisible && !d.deleteOk
    case Raised => d.dequeueCount.Some? && d.dequeueCount.value >= 3 && !d.deleteOk
    case Interrupted => true
  }

  lemma {:induction false} DeletedAre(ds: seq<Delivery>, m: QueueProtocol.MsgId)
    ensures m in DeletedIds(ds) <==> exists d :: d in ds && d.id == m && TakesOut(d)
  {
    if ds != [] {
      var front, last := ds[..|ds| - 1], ds[|ds| - 1];
      DeletedAre(front, m);
      assert ds == front + [last];
      assert forall d :: d in ds <==> d in front || d == last;
    }
  }

  /** The own steps of `w` are those of its loop over `ds`, with possibly one more delivery taken up. */
  ghost predicate RunsLoop(run: seq<QueueProtocol.Event>, w: QueueProtocol.WorkerId, ds: seq<Delivery>,
                           open: Option<Delivery>)
  {
    OwnSteps(run, w) == TurnSteps(w, ds) + OpenSteps(w, open)
  }

  /** Whatever the others do: `w` removes a message exactly when one of its deliveries takes it out. */
  lemma RemovedByLoop(run: seq<QueueProtocol.Event>, w: QueueProtocol.WorkerId, ds: seq<Delivery>,
                      open: Option<Delivery>, m: QueueProtocol.MsgId)
    requires QueueProtocol.After(run).Some? && RunsLoop(run, w, ds, open)
    ensures (exists i :: RemovedBy(run, i, w, m)) <==> exists d :: d in ds && d.id == m && TakesOut(d)
  {
    InterleavedLoop(QueueProtocol.START, run, w, ds, open);
    DeletionsMean(run, w, m);
    DeletedAre(ds, m);
  }

  /** Some worker has handled a delivery of `m` that takes it out. */
  ghost predicate TakenOut(loops: QueueProtocol.WorkerId -> seq<Delivery>, m: QueueProtocol.MsgId) {
    exists w, d :: d in loops(w) && d.id == m && TakesOut(d)
  }

  /** In every interleaving of loops: a sent message has left the queue if and only if one of its
      deliveries passed with a next visible time, or failed with a count of at least 3, and its delete
      was accepted. So a message that passes without a next visible time stays. */
  lemma LeavesExactly(run: seq<QueueProtocol.Event>, m: QueueProtocol.MsgId,
                      loops: QueueProtocol.WorkerId -> seq<Delivery>,
                      opens: QueueProtocol.WorkerId -> Option<Delivery>)
    requires QueueProtocol.After(run).Some? && m in QueueProtocol.After(run).value.sent
    requires forall w :: RunsLoop(run, w, loops(w), opens(w))
    ensures m !in QueueProtocol.After(run).value.queue <==> TakenOut(loops, m)
  {
    if m !in QueueProtocol.After(run).value.queue {
      QueueProtocol.NoLoss(run, m);
      var i: nat :| QueueProtocol.Removes(run, i, m);
      var w := run[i].w;
      assert RemovedBy(run, i, w, m);
      RemovedByLoop(run, w, loops(w), opens(w), m);
    }
    if TakenOut(loops, m) {
      var w, d :| d in loops(w) && d.id == m && TakesOut(d);
      RemovedByLoop(run, w, loops(w), opens(w), m);
      var i: nat :| RemovedBy(run, i, w, m);
      QueueProtocol.GoneForGood(run, i, m);
    }
  }

  ghost predicate ReceivedAt(run: seq<QueueProtocol.Event>, j: nat, m: QueueProtocol.MsgId) {
    j < |run| && run[j].Receive? && run[j].m == m
  }

  lemma {:induction false} AfterFront(run: seq<QueueProtocol.Event>, j: nat)
    requires QueueProtocol.After(run).Some? && j < |run|
    ensures QueueProtocol.After(run[..j]).Some?
    ensures QueueProtocol.Enabled(QueueProtocol.After(run[..j]).value, run[j])
  {
    var front := run[..|run| - 1];
    if j < |front| {
      assert front[..j] == run[..j];
      AfterFront(front, j);
    }
  }

  /** A removed message is not received later. */
  lemma NotReceivedLater(run: seq<QueueProtocol.Event>, i: nat, j: nat, m: QueueProtocol.MsgId)
    requires QueueProtocol.After(run).Some? && QueueProtocol.Removes(run, i, m) && i < j
    ensures !ReceivedAt(run, j, m)
  {
    if ReceivedAt(run, j, m) {
      AfterFront(run, j);
      assert run[..j][..i] == run[..i] && run[..j][i] == run[i];
      QueueProtocol.GoneForGood(run[..j], i, m);
      assert false;
    }
  }

  /** A message that passed with a next visible time and an accepted delete is out of the queue from
      some step on, and no worker receives it from then on, however the run goes on. */
  lemma PassedForGood(run: seq<QueueProtocol.Event>, w: QueueProtocol.WorkerId, ds: seq<Delivery>,
                      open: Option<Delivery>, d: Delivery)
    requires QueueProtocol.After(run).Some? && RunsLoop(run, w, ds, open)
    requires d in ds && d.outcome == Passed && d.hasNextVisible && d.deleteOk
    ensures forall more :: QueueProtocol.After(run + more).Some? ==>
              d.id !in QueueProtocol.After(run + more).value.queue
    ensures forall more, j :: QueueProtocol.After(run + more).Some? && j >= |run| ==> !ReceivedAt(run + more, j, d.id)
  {
    RemovedByLoop(run, w, ds, open, d.id);
    var i: nat :| RemovedBy(run, i, w, d.id);
    forall more | QueueProtocol.After(run + more).Some?
      ensures d.id !in QueueProtocol.After(run + more).value.queue
      ensures forall j: nat :: j >= |run| ==> !ReceivedAt(run + more, j, d.id)
    {
      assert (run + more)[..i] == run[..i] && (run + more)[i] == run[i];
      QueueProtocol.GoneForGood(run + more, i, d.id);
      forall j: nat | j >= |run|
        ensures !ReceivedAt(run + more, j, d.id)
      {
        NotReceivedLater(run + more, i, j, d.id);
      }
    }
  }

  // ---------------------------------------------------------------- the loop over the polls

  /** No exception escapes from these deliveries, and no poll fails. */
  ghost predicate Undisturbed(polls: seq<Poll>) {
    (forall p :: p in polls ==> !p.fails) && forall d :: d in Offered(polls) ==> !Escapes(d)
  }

  lemma {:induction false} AllReachable(polls: seq<Poll>)
    requires Undisturbed(polls)
    ensures Reachable(polls) == Offered(polls)
  {
    if polls != [] {
      var ds := polls[0].deliveries;
      assert polls[0] in polls;
      forall i | 0 <= i < |ds|
        ensures Completes(ds[i])
      {
        assert ds[i] in Offered(polls);
      }
      SmoothMeans(ds, |ds|);
      AllReachable(polls[1..]);
    }
  }

  lemma {:induction false} EndsAtFailingPoll(polls: seq<Poll>, i: nat)
    requires i < |polls| && polls[i].fails
    ensures |Reachable(polls)| <= |Offered(polls[..i + 1])|
  {
    var ds := polls[0].deliveries;
    SmoothMeans(ds, 0);
    assert polls[..i + 1][0] == polls[0] && polls[..i + 1][1..] == polls[1..][..i];
    if i > 0 {
      EndsAtFailingPoll(polls[1..], i - 1);
    }
  }

  lemma InPrefix<T>(a: seq<T>, b: seq<T>, n: nat)
    requires a <= b && n < |a|
    ensures b[n] in a
  {
    assert a[n] == b[n];
  }

  /** What a run handles to the end: everything offered up to the limit, if nothing disturbs it, and
      otherwise nothing from the first delivery on from which an exception escapes, and nothing after a
      poll that fails. */
  lemma HandledUnless(polls: seq<Poll>, limit: Option<int>)
    ensures Undisturbed(polls) && (Limited(limit) ==> limit.value >= |Offered(polls)|) ==>
              Handled(polls, limit) == Offered(polls)
    ensures forall n :: 0 <= n < |Offered(polls)| && Escapes(Offered(polls)[n]) ==> |Handled(polls, limit)| <= n
    ensures forall i :: 0 <= i < |polls| && polls[i].fails ==>
              |Handled(polls, limit)| <= |Offered(polls[..i + 1])|
  {
    forall i | 0 <= i < |polls| && polls[i].fails
      ensures |Reachable(polls)| <= |Offered(polls[..i + 1])|
    {
      EndsAtFailingPoll(polls, i);
    }
    if Undisturbed(polls) {
      AllReachable(polls);
    }
    ReachableMeans(polls);
    forall n | 0 <= n < |Offered(polls)| && Escapes(Offered(polls)[n])
      ensures |Handled(polls, limit)| <= n
    {
      if |Reachable(polls)| > n {
        InPrefix(Reachable(polls), Offered(polls), n);
        assert false;
      }
    }
  }

  function Ids(ds: seq<Delivery>): seq<QueueProtocol.MsgId> {
    if ds == [] then [] else Ids(ds[..|ds| - 1]) + [ds[|ds| - 1].id]
  }

  /** All messages of the polls pass, with a next visible time, and their deletes are accepted. */
  ghost predicate AllPass(polls: seq<Poll>) {
    && (forall p :: p in polls ==> !p.fails)
    && forall d :: d in Offered(polls) ==> d.outcome == Passed && d.hasNextVisible && d.deleteOk
  }

  lemma {:induction false} AllDeleted(ds: seq<Delivery>)
    requires forall d :: d in ds ==> TakesOut(d)
    ensures DeletedIds(ds) == Ids(ds)
  {
    if ds != [] {
      assert ds[|ds| - 1] in ds;
      AllDeleted(ds[..|ds| - 1]);
    }
  }

  lemma {:induction false} IdsAre(ds: seq<Delivery>, m: QueueProtocol.MsgId)
    ensures m in Ids(ds) <==> exists d :: d in ds && d.id == m
  {
    if ds != [] {
      var front, last := ds[..|ds| - 1], ds[|ds| - 1];
      IdsAre(front, m);
      assert ds == front + [last];
      assert forall d :: d in ds <==> d in front || d == last;
    }
  }

  /** A worker to which every message of the queue is handed out, and for which all pass in this way,
      records exactly their deletes, in order, and leaves the queue empty. */
  lemma EmptiesQueue(s: QueueProtocol.State, w: QueueProtocol.WorkerId, polls: seq<Poll>, limit: Option<int>)
    requires AllPass(polls) && (Limited(limit) ==> limit.value >= |Offered(polls)|)
    requires AllReceivable(s, w, Offered(polls))
    requires forall m :: m in s.queue ==> exists d :: d in Offered(polls) && d.id == m
    ensures Handled(polls, limit) == Offered(polls)
    ensures DeletedIds(Handled(polls, limit)) == Ids(Offered(polls))
    ensures QueueProtocol.From(s, Turns(s, w, Offered(polls))).Some?
    ensures QueueProtocol.From(s, Turns(s, w, Offered(polls))).value.queue == map[]
  {
    var ds := Offered(polls);
    HandledUnless(polls, limit);
    AllDeleted(ds);
    RunIsQueueRun(s, w, ds);
    forall m | m in s.queue
      ensures m in Gone(ds)
    {
      IdsAre(ds, m);
    }
  }
}
