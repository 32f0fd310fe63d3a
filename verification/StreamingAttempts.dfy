/** The bound on the attempts of a message, for workers that run the loop of `StreamingTaskMixin`. */
module StreamingAttempts {
  import opened Common
  import opened StreamingRun
  import QueueProtocol

  /** The counts with which worker `w` received its messages. */
  function Counts(run: seq<QueueProtocol.Event>, w: QueueProtocol.WorkerId): seq<Option<nat>>
    requires QueueProtocol.After(run).Some?
  {
    if run == [] then []
    else
      var front, e := run[..|run| - 1], run[|run| - 1];
      Counts(front, w) +
      if e.Receive? && e.w == w then [Some(QueueProtocol.After(front).value.queue[e.m].dequeueCount + 1)] else []
  }

  function CountsOf(ds: seq<Delivery>): seq<Option<nat>> {
    if ds == [] then [] else CountsOf(ds[..|ds| - 1]) + [ds[|ds| - 1].dequeueCount]
  }

  function OpenSteps(w: QueueProtocol.WorkerId, open: Option<Delivery>): seq<QueueProtocol.Event> {
    if open.Some? then [QueueProtocol.Receive(w, open.value.id)] else []
  }

  function OpenCount(open: Option<Delivery>): seq<Option<nat>> {
    if open.Some? then [open.value.dequeueCount] else []
  }

  /** The own steps of `w` are those of its loop over `ds`, with possibly one more delivery taken up,
      and each delivery reports the count with which the queue handed it out. */
  ghost predicate Reported(run: seq<QueueProtocol.Event>, w: QueueProtocol.WorkerId, ds: seq<Delivery>,
                           open: Option<Delivery>)
    requires QueueProtocol.After(run).Some?
  {
    && OwnSteps(run, w) == TurnSteps(w, ds) + OpenSteps(w, open)
    && Counts(run, w) == CountsOf(ds) + OpenCount(open)
  }

  /** No delete of the worker is refused. */
  ghost predicate Accepted(ds: seq<Delivery>) {
    forall d :: d in ds ==> d.deleteOk
  }

  /** The `i`-th step is a failure of `m` at `w` with a count of at least 3 that does not delete it. */
  ghost predicate LateAt(run: seq<QueueProtocol.Event>, i: nat, w: QueueProtocol.WorkerId, m: QueueProtocol.MsgId) {
    i < |run| && QueueProtocol.After(run[..i]).Some? && run[i] == QueueProtocol.Fail(w, false) &&
    var p := QueueProtocol.After(run[..i]).value;
    w in p.busy && p.busy[w].msg == m && p.busy[w].dequeueCount >= QueueProtocol.MAX_ATTEMPTS
  }

  lemma LateEarlier(run: seq<QueueProtocol.Event>, i: nat, w: QueueProtocol.WorkerId, m: QueueProtocol.MsgId)
    requires i < |run| - 1
    ensures LateAt(run, i, w, m) <==> LateAt(run[..|run| - 1], i, w, m)
  {
    assert run[..|run| - 1][..i] == run[..i];
  }

  /** What `w` holds is the open delivery, received with the count it reports. */
  ghost predicate HoldsOpen(s: QueueProtocol.State, w: QueueProtocol.WorkerId, open: Option<Delivery>) {
    if open.Some? then w in s.busy && open.value.dequeueCount == Some(s.busy[w].dequeueCount) else w !in s.busy
  }

  lemma OtherStep(p: QueueProtocol.State, e: QueueProtocol.Event, w: QueueProtocol.WorkerId, open: Option<Delivery>)
    requires QueueProtocol.Enabled(p, e) && !IsOwn(e, w) && HoldsOpen(p, w, open)
    ensures HoldsOpen(QueueProtocol.Apply(p, e), w, open)
  {
  }

  /** Taking up a delivery. */
  lemma OpenStep(run: seq<QueueProtocol.Event>, w: QueueProtocol.WorkerId, ds: seq<Delivery>, d: Delivery)
    requires QueueProtocol.After(run).Some? && run != [] && IsOwn(run[|run| - 1], w)
    requires Reported(run, w, ds, Some(d))
    ensures run[|run| - 1].Receive? && Reported(run[..|run| - 1], w, ds, None)
    ensures HoldsOpen(QueueProtocol.After(run).value, w, Some(d))
  {
    var front, e := run[..|run| - 1], run[|run| - 1];
    SnocLast(OwnSteps(front, w), e, TurnSteps(w, ds), QueueProtocol.Receive(w, d.id));
    SnocLast(Counts(front, w), Some(QueueProtocol.After(front).value.queue[e.m].dequeueCount + 1), CountsOf(ds),
             d.dequeueCount);
    assert TurnSteps(w, ds) + [] == TurnSteps(w, ds) && CountsOf(ds) + [] == CountsOf(ds);
  }

  /** Ending one. */
  lemma CloseStep(run: seq<QueueProtocol.Event>, w: QueueProtocol.WorkerId, ds: seq<Delivery>)
    requires QueueProtocol.After(run).Some? && run != [] && IsOwn(run[|run| - 1], w)
    requires Reported(run, w, ds, None)
    ensures ds != [] && run[|run| - 1] == EndOf(w, ds[|ds| - 1])
    ensures Reported(run[..|run| - 1], w, ds[..|ds| - 1], Some(ds[|ds| - 1]))
  {
    var front, e := run[..|run| - 1], run[|run| - 1];
    assert OwnSteps(run, w) == OwnSteps(front, w) + [e];
    assert TurnSteps(w, ds) + [] == TurnSteps(w, ds) && CountsOf(ds) + [] == CountsOf(ds);
    assert ds != [];
    var before, d := ds[..|ds| - 1], ds[|ds| - 1];
    SnocLast(OwnSteps(front, w), e, TurnSteps(w, before) + [QueueProtocol.Receive(w, d.id)], EndOf(w, d));
    assert Counts(front, w) + [] == Counts(front, w);
  }

  lemma NotLate(p: QueueProtocol.State, w: QueueProtocol.WorkerId, d: Delivery)
    requires HoldsOpen(p, w, Some(d)) && d.deleteOk && EndOf(w, d) == QueueProtocol.Fail(w, false)
    ensures p.busy[w].dequeueCount < QueueProtocol.MAX_ATTEMPTS
  {
  }

  /** A worker that runs the loop has no late failure. */
  lemma {:induction false} NoLateOwn(run: seq<QueueProtocol.Event>, w: QueueProtocol.WorkerId, ds: seq<Delivery>,
                                     open: Option<Delivery>, m: QueueProtocol.MsgId)
    requires QueueProtocol.After(run).Some? && Reported(run, w, ds, open) && Accepted(ds)
    ensures forall i :: !LateAt(run, i, w, m)
    ensures HoldsOpen(QueueProtocol.After(run).value, w, open)
  {
    if run == [] {
      NoOwnSteps(w, ds, open);
    } else {
      var front, e := run[..|run| - 1], run[|run| - 1];
      if !IsOwn(e, w) {
        assert Reported(front, w, ds, open);
        NoLateOwn(front, w, ds, open, m);
        OtherStep(QueueProtocol.After(front).value, e, w, open);
      } else if open.Some? {
        OpenStep(run, w, ds, open.value);
        NoLateOwn(front, w, ds, None, m);
      } else {
        CloseStep(run, w, ds);
        NoLateOwn(front, w, ds[..|ds| - 1], Some(ds[|ds| - 1]), m);
      }
      forall i: nat
        ensures !LateAt(run, i, w, m)
      {
        if i < |front| {
          LateEarlier(run, i, w, m);
        } else if LateAt(run, i, w, m) {
          assert run[..i] == front;
          NotLate(QueueProtocol.After(front).value, w, ds[|ds| - 1]);
        }
      }
    }
  }

  lemma {:induction false} LateSomewhere(run: seq<QueueProtocol.Event>, m: QueueProtocol.MsgId)
    requires QueueProtocol.After(run).Some? && QueueProtocol.LateFails(run, m) > 0
    ensures exists i, w :: LateAt(run, i, w, m)
  {
    var front, e := run[..|run| - 1], run[|run| - 1];
    if QueueProtocol.LateFails(front, m) > 0 {
      LateSomewhere(front, m);
      var i: nat, w :| LateAt(front, i, w, m);
      LateEarlier(run, i, w, m);
    } else {
      assert run[..|front|] == front;
      assert LateAt(run, |front|, e.w, m);
    }
  }

  /** When every worker runs the loop, with every count reported and no delete refused, no failure is
      late, and a message is tried and kept at most twice, in every interleaving. */
  lemma AttemptsOfLoops(run: seq<QueueProtocol.Event>, m: QueueProtocol.MsgId,
                        loops: QueueProtocol.WorkerId -> seq<Delivery>,
                        opens: QueueProtocol.WorkerId -> Option<Delivery>)
    requires QueueProtocol.After(run).Some?
    requires forall w :: Reported(run, w, loops(w), opens(w)) && Accepted(loops(w))
    ensures QueueProtocol.LateFails(run, m) == 0 && QueueProtocol.KeptFails(run, m) <= 2
  {
    if QueueProtocol.LateFails(run, m) > 0 {
      LateSomewhere(run, m);
      var i: nat, w :| LateAt(run, i, w, m);
      NoLateOwn(run, w, loops(w), opens(w), m);
      assert false;
    }
    QueueProtocol.BoundedAttempts(run, m);
  }
}
