/** Several workers on one queue with visibility timeouts (`StreamingTaskMixin.run`), as a
    state machine over their steps. */
module QueueProtocol {
  import opened Common

  type MsgId = nat
  type WorkerId = nat

  /** A message in the queue: how often it was handed out and whether it can be received. */
  datatype Queued = Queued(dequeueCount: nat, visible: bool)

  /** A delivery at a worker: the count it was received with and the puts already done. */
  datatype Delivery = Delivery(msg: MsgId, dequeueCount: nat, done: nat)

  /** The queue and the busy workers, with a record of what happened: the messages sent, those
      received, those of which a delivery passed both `process_message` and `finalize_message`,
      and the counts of the failing deliveries below 3. */
  datatype State = State(
    queue: map<MsgId, Queued>,
    busy: map<WorkerId, Delivery>,
    sent: set<MsgId>,
    received: set<MsgId>,
    passed: set<MsgId>,
    softFailures: set<(MsgId, nat)>)

  /** The steps. `deleted` tells whether a delete was issued and had effect: none is issued for
      a passed message without `next_visible_on`, and a delete with a stale receipt may or may
      not be refused. A crash covers every way a worker can stop between two steps. */
  datatype Event =
    | Send(m: MsgId)
    | Receive(w: WorkerId, m: MsgId)
    | Reappear(m: MsgId)
    | PutNext(w: WorkerId)
    | Fail(w: WorkerId, deleted: bool)
    | Finish(w: WorkerId, deleted: bool)
    | Crash(w: WorkerId)

  const MAX_ATTEMPTS: nat := 3

  predicate Enabled(s: State, e: Event) {
    match e
    case Send(m) => m !in s.sent
    case Receive(w, m) => w !in s.busy && m in s.queue && s.queue[m].visible
    case Reappear(m) => m in s.queue && !s.queue[m].visible
    case PutNext(w) => w in s.busy
    case Fail(w, deleted) => w in s.busy && (deleted ==> s.busy[w].dequeueCount >= MAX_ATTEMPTS)
    case Finish(w, _) => w in s.busy
    case Crash(w) => w in s.busy
  }

  function Remove(queue: map<MsgId, Queued>, m: MsgId, deleted: bool): map<MsgId, Queued> {
    if deleted then queue - {m} else queue
  }

  function Apply(s: State, e: Event): State
    requires Enabled(s, e)
  {
    match e
    case Send(m) => s.(queue := s.queue[m := Queued(0, true)], sent := s.sent + {m})
    case Receive(w, m) =>
      var count := s.queue[m].dequeueCount + 1;
      s.(queue := s.queue[m := Queued(count, false)],
         busy := s.busy[w := Delivery(m, count, 0)],
         received := s.received + {m})
    case Reappear(m) => s.(queue := s.queue[m := s.queue[m].(visible := true)])
    case PutNext(w) => s.(busy := s.busy[w := s.busy[w].(done := s.busy[w].done + 1)])
    case Fail(w, deleted) =>
      var d := s.busy[w];
      s.(queue := Remove(s.queue, d.msg, deleted),
         busy := s.busy - {w},
         softFailures := s.softFailures + if d.dequeueCount < MAX_ATTEMPTS then {(d.msg, d.dequeueCount)} else {})
    case Finish(w, deleted) =>
      var d := s.busy[w];
      s.(queue := Remove(s.queue, d.msg, deleted), busy := s.busy - {w}, passed := s.passed + {d.msg})
    case Crash(w) => s.(busy := s.busy - {w})
  }

  const START: State := State(map[], map[], {}, {}, {}, {})

  /** The state after the steps of `run` from `start`, if each of them was possible. */
  function From(start: State, run: seq<Event>): Option<State> {
    if run == [] then Some(start)
    else
      var e := run[|run| - 1];
      match From(start, run[..|run| - 1])
      case None => None
      case Some(p) => if Enabled(p, e) then Some(Apply(p, e)) else None
  }

  function After(run: seq<Event>): Option<State> {
    From(START, run)
  }

  // ---------------------------------------------------------------- no loss

  /** The `i`-th step deletes message `m`, for one of the two permitted reasons: a delivery
      that passed, or a failing one with a count of at least 3. */
  ghost predicate Removes(run: seq<Event>, i: nat, m: MsgId) {
    i < |run| && After(run[..i]).Some? &&
    var p := After(run[..i]).value;
    match run[i]
    case Finish(w, true) => w in p.busy && p.busy[w].msg == m
    case Fail(w, true) => w in p.busy && p.busy[w].msg == m && p.busy[w].dequeueCount >= MAX_ATTEMPTS
    case _ => false
  }

  lemma RemovesLater(run: seq<Event>, i: nat, m: MsgId)
    requires run != [] && Removes(run[..|run| - 1], i, m)
    ensures Removes(run, i, m)
  {
    assert run[..|run| - 1][..i] == run[..i];
  }

  lemma RemovesEarlier(run: seq<Event>, i: nat, m: MsgId)
    requires Removes(run, i, m) && i < |run| - 1
    ensures Removes(run[..|run| - 1], i, m)
  {
    assert run[..|run| - 1][..i] == run[..i];
  }

  /** For every interleaving of any number of workers, crashes and visibility timeouts: a sent
      message is still in the queue unless one of its deliveries deleted it for a permitted
      reason. */
  lemma {:induction false} NoLoss(run: seq<Event>, m: MsgId)
    requires After(run).Some? && m in After(run).value.sent
    ensures m in After(run).value.queue || exists i :: Removes(run, i, m)
  {
    var front, e := run[..|run| - 1], run[|run| - 1];
    var p := After(front).value;
    if m in p.sent {
      NoLoss(front, m);
      if m !in p.queue {
        var i :| Removes(front, i, m);
        RemovesLater(run, i, m);
      } else if m !in After(run).value.queue {
        assert Removes(run, |run| - 1, m);
      }
    }
  }

  // ---------------------------------------------------------------- bounded attempts

  ghost predicate Known(s: State) {
    && (forall m :: m in s.queue ==> m in s.sent)
    && (forall w :: w in s.busy ==> s.busy[w].msg in s.received)
    && s.passed <= s.received <= s.sent
  }

  /** Deliveries of one message have different counts, up to the count in the queue, and none
      of them is a count that already failed below 3. */
  ghost predicate CountsDistinct(s: State) {
    && (forall w :: w in s.busy ==> s.busy[w].dequeueCount >= 1)
    && (forall w :: w in s.busy && s.busy[w].msg in s.queue ==>
          s.busy[w].dequeueCount <= s.queue[s.busy[w].msg].dequeueCount)
    && (forall w, v :: w in s.busy && v in s.busy && w != v && s.busy[w].msg == s.busy[v].msg ==>
          s.busy[w].dequeueCount != s.busy[v].dequeueCount)
    && (forall w :: w in s.busy ==> (s.busy[w].msg, s.busy[w].dequeueCount) !in s.softFailures)
  }

  ghost predicate SoftFailuresLow(s: State) {
    && (forall f :: f in s.softFailures ==> f.0 in s.received && 1 <= f.1 < MAX_ATTEMPTS)
    && (forall f :: f in s.softFailures && f.0 in s.queue ==> f.1 <= s.queue[f.0].dequeueCount)
  }

  ghost predicate Inv(s: State) {
    Known(s) && CountsDistinct(s) && SoftFailuresLow(s)
  }

  lemma KnownStep(s: State, e: Event)
    requires Known(s) && Enabled(s, e)
    ensures Known(Apply(s, e))
  {
  }

  lemma CountsDistinctReceive(s: State, e: Event)
    requires Inv(s) && Enabled(s, e) && e.Receive?
    ensures CountsDistinct(Apply(s, e))
  {
    assert forall w | w in s.busy :: Apply(s, e).busy[w] == s.busy[w];
  }

  lemma CountsDistinctStep(s: State, e: Event)
    requires Inv(s) && Enabled(s, e)
    ensures CountsDistinct(Apply(s, e))
  {
    if e.Receive? {
      CountsDistinctReceive(s, e);
    }
  }

  lemma SoftFailuresLowStep(s: State, e: Event)
    requires Inv(s) && Enabled(s, e)
    ensures SoftFailuresLow(Apply(s, e))
  {
  }

  lemma {:induction false} Always(run: seq<Event>)
    requires After(run).Some?
    ensures Inv(After(run).value)
  {
    if run != [] {
      var p, e := After(run[..|run| - 1]).value, run[|run| - 1];
      Always(run[..|run| - 1]);
      KnownStep(p, e);
      CountsDistinctStep(p, e);
      SoftFailuresLowStep(p, e);
    }
  }

  /** A removed message never comes back. */
  lemma {:induction false} GoneForGood(run: seq<Event>, i: nat, m: MsgId)
    requires After(run).Some? && Removes(run, i, m)
    ensures m in After(run).value.sent && m !in After(run).value.queue
  {
    var front := run[..|run| - 1];
    Always(front);
    if i < |front| {
      RemovesEarlier(run, i, m);
      GoneForGood(front, i, m);
    } else {
      assert run[..i] == front;
    }
  }

  /** Whether this step is a failure of `m` with a count below 3, which never deletes it. */
  predicate IsSoftFail(p: State, e: Event, m: MsgId)
    requires Enabled(p, e)
  {
    e.Fail? && p.busy[e.w].msg == m && p.busy[e.w].dequeueCount < MAX_ATTEMPTS
  }

  function SoftFails(run: seq<Event>, m: MsgId): nat
    requires After(run).Some?
  {
    if run == [] then 0
    else
      var front := run[..|run| - 1];
      SoftFails(front, m) + if IsSoftFail(After(front).value, run[|run| - 1], m) then 1 else 0
  }

  ghost function FailedCounts(failures: set<(MsgId, nat)>, m: MsgId): set<nat> {
    set f | f in failures && f.0 == m :: f.1
  }

  lemma FailedCountsAdd(failures: set<(MsgId, nat)>, m: MsgId, f: (MsgId, nat))
    requires f !in failures
    ensures |FailedCounts(failures + {f}, m)| == |FailedCounts(failures, m)| + if f.0 == m then 1 else 0
  {
    var before, after := FailedCounts(failures, m), FailedCounts(failures + {f}, m);
    if f.0 == m {
      assert after == before + {f.1} && f.1 !in before;
    } else {
      assert after == before;
    }
  }

  lemma SoftFailStep(p: State, e: Event, m: MsgId)
    requires CountsDistinct(p) && Enabled(p, e)
    ensures |FailedCounts(Apply(p, e).softFailures, m)| ==
            |FailedCounts(p.softFailures, m)| + if IsSoftFail(p, e, m) then 1 else 0
  {
    if e.Fail? {
      var d := p.busy[e.w];
      if d.dequeueCount < MAX_ATTEMPTS {
        FailedCountsAdd(p.softFailures, m, (d.msg, d.dequeueCount));
      } else {
        assert p.softFailures + {} == p.softFailures;
      }
    }
  }

  lemma {:induction false} SoftFailsCounted(run: seq<Event>, m: MsgId)
    requires After(run).Some?
    ensures SoftFails(run, m) == |FailedCounts(After(run).value.softFailures, m)|
  {
    if run != [] {
      var front := run[..|run| - 1];
      SoftFailsCounted(front, m);
      Always(front);
      SoftFailStep(After(front).value, run[|run| - 1], m);
    } else {
      assert FailedCounts({}, m) == {};
    }
  }

  lemma LowCounts(s: State, m: MsgId)
    requires SoftFailuresLow(s)
    ensures |FailedCounts(s.softFailures, m)| <= 2
  {
    var low: set<nat> := {1, 2};
    SubsetSize(FailedCounts(s.softFailures, m), low);
  }

  /** Whether this step is a handled failure of `m` that does not delete it. */
  predicate IsKeptFail(p: State, e: Event, m: MsgId)
    requires Enabled(p, e)
  {
    e.Fail? && !e.deleted && p.busy[e.w].msg == m
  }

  function KeptFails(run: seq<Event>, m: MsgId): nat
    requires After(run).Some?
  {
    if run == [] then 0
    else
      var front := run[..|run| - 1];
      KeptFails(front, m) + if IsKeptFail(After(front).value, run[|run| - 1], m) then 1 else 0
  }

  /** Of these, the ones with a count of at least 3: no delete was issued, because the count was
      not reported, or it had no effect. */
  function LateFails(run: seq<Event>, m: MsgId): nat
    requires After(run).Some?
  {
    if run == [] then 0
    else
      var front, e := run[..|run| - 1], run[|run| - 1];
      var p := After(front).value;
      LateFails(front, m) + if IsKeptFail(p, e, m) && p.busy[e.w].dequeueCount >= MAX_ATTEMPTS then 1 else 0
  }

  lemma {:induction false} KeptOrLate(run: seq<Event>, m: MsgId)
    requires After(run).Some?
    ensures KeptFails(run, m) == SoftFails(run, m) + LateFails(run, m)
  {
    if run != [] {
      KeptOrLate(run[..|run| - 1], m);
    }
  }

  /** In any run the handled failures of a message that do not delete it are at most two and
      those with a count of at least 3; when all of the latter delete, they are at most two. */
  lemma BoundedAttempts(run: seq<Event>, m: MsgId)
    requires After(run).Some?
    ensures KeptFails(run, m) <= 2 + LateFails(run, m)
    ensures LateFails(run, m) == 0 ==> KeptFails(run, m) <= 2
  {
    KeptOrLate(run, m);
    SoftFailsCounted(run, m);
    Always(run);
    LowCounts(After(run).value, m);
  }

  /** Every failure of `m` deletes it exactly at the counts that `deletes` tells: those at which
      a delete is issued and has effect. */
  ghost predicate Follows(run: seq<Event>, m: MsgId, deletes: nat -> bool)
    requires After(run).Some?
  {
    run == [] ||
    var front := run[..|run| - 1];
    Follows(front, m, deletes) && FollowsStep(After(front).value, run[|run| - 1], m, deletes)
  }

  ghost predicate FollowsStep(p: State, e: Event, m: MsgId, deletes: nat -> bool)
    requires Enabled(p, e)
  {
    e.Fail? && p.busy[e.w].msg == m ==> e.deleted == deletes(p.busy[e.w].dequeueCount)
  }

  ghost predicate AtMostTwoKept(run: seq<Event>, m: MsgId, deletes: nat -> bool) {
    After(run).Some? && Follows(run, m, deletes) ==> KeptFails(run, m) <= 2
  }

  lemma {:induction false} NoneLate(run: seq<Event>, m: MsgId, deletes: nat -> bool)
    requires After(run).Some? && Follows(run, m, deletes)
    requires forall n: nat :: n >= MAX_ATTEMPTS ==> deletes(n)
    ensures LateFails(run, m) == 0
  {
    if run != [] {
      NoneLate(run[..|run| - 1], m, deletes);
    }
  }

  /** The bound of two holds in all runs if and only if every failure with a count of at least 3
      deletes. */
  lemma AttemptsBoundedExactly(m: MsgId, deletes: nat -> bool)
    requires forall n: nat :: deletes(n) ==> n >= MAX_ATTEMPTS
    ensures (forall run :: AtMostTwoKept(run, m, deletes)) <==> (forall n: nat :: n >= MAX_ATTEMPTS ==> deletes(n))
  {
    if forall n: nat :: n >= MAX_ATTEMPTS ==> deletes(n) {
      forall run
        ensures AtMostTwoKept(run, m, deletes)
      {
        if After(run).Some? && Follows(run, m, deletes) {
          NoneLate(run, m, deletes);
          BoundedAttempts(run, m);
        }
      }
    } else {
      var n: nat :| n >= MAX_ATTEMPTS && !deletes(n);
      var fails := seq(n, i => i < 2 || i == n - 1);
      TriesMeans(m, fails, deletes);
      ThreeFails(fails);
      assert !AtMostTwoKept(Tries(m, fails), m, deletes);
    }
  }

  /** Worker 0 receives `m` again and again; each time it fails without a delete, or stops. */
  function Tries(m: MsgId, fails: seq<bool>): seq<Event> {
    if fails == [] then [Send(m)]
    else Tries(m, fails[..|fails| - 1]) + [Receive(0, m)] + [EndOfTry(fails[|fails| - 1])] + [Reappear(m)]
  }

  function EndOfTry(fails: bool): Event {
    if fails then Fail(0, false) else Crash(0)
  }

  function Count(fails: seq<bool>): nat {
    if fails == [] then 0 else Count(fails[..|fails| - 1]) + if fails[|fails| - 1] then 1 else 0
  }

  lemma RunSnoc(run: seq<Event>, e: Event, m: MsgId, deletes: nat -> bool)
    requires After(run).Some? && Enabled(After(run).value, e)
    ensures After(run + [e]) == Some(Apply(After(run).value, e))
    ensures KeptFails(run + [e], m) == KeptFails(run, m) + if IsKeptFail(After(run).value, e, m) then 1 else 0
    ensures Follows(run + [e], m, deletes) <==>
            Follows(run, m, deletes) && FollowsStep(After(run).value, e, m, deletes)
  {
    assert (run + [e])[..|run|] == run;
  }

  /** Only `m` is in the queue, visible, after `n` deliveries; nobody is busy. */
  ghost predicate Waiting(s: State, m: MsgId, n: nat) {
    s.queue == map[m := Queued(n, true)] && s.busy == map[]
  }

  lemma TryOnce(run: seq<Event>, m: MsgId, n: nat, fails: bool, deletes: nat -> bool)
    requires After(run).Some? && Waiting(After(run).value, m, n)
    ensures var next := run + [Receive(0, m)] + [EndOfTry(fails)] + [Reappear(m)];
      && After(next).Some? && Waiting(After(next).value, m, n + 1)
      && KeptFails(next, m) == KeptFails(run, m) + (if fails then 1 else 0)
      && (Follows(run, m, deletes) && (fails ==> !deletes(n + 1)) ==> Follows(next, m, deletes))
  {
    RunSnoc(run, Receive(0, m), m, deletes);
    var received := run + [Receive(0, m)];
    RunSnoc(received, EndOfTry(fails), m, deletes);
    RunSnoc(received + [EndOfTry(fails)], Reappear(m), m, deletes);
  }

  lemma {:induction false} TriesMeans(m: MsgId, fails: seq<bool>, deletes: nat -> bool)
    ensures After(Tries(m, fails)).Some? && Waiting(After(Tries(m, fails)).value, m, |fails|)
    ensures KeptFails(Tries(m, fails), m) == Count(fails)
    ensures (forall i :: 0 <= i < |fails| && fails[i] ==> !deletes(i + 1)) ==> Follows(Tries(m, fails), m, deletes)
  {
    if fails == [] {
      RunSnoc([], Send(m), m, deletes);
      assert [] + [Send(m)] == [Send(m)];
    } else {
      var front := fails[..|fails| - 1];
      TriesMeans(m, front, deletes);
      TryOnce(Tries(m, front), m, |front|, fails[|front|], deletes);
      assert forall i | 0 <= i < |front| :: front[i] == fails[i];
    }
  }

  lemma {:induction false} CountPrefix(fails: seq<bool>, k: nat)
    requires k <= |fails|
    ensures Count(fails[..k]) <= Count(fails)
  {
    if k < |fails| {
      var front := fails[..|fails| - 1];
      assert front[..k] == fails[..k];
      CountPrefix(front, k);
    } else {
      assert fails[..k] == fails;
    }
  }

  lemma ThreeFails(fails: seq<bool>)
    requires |fails| >= 3 && fails[0] && fails[1] && fails[|fails| - 1]
    ensures Count(fails) >= 3
  {
    var front := fails[..|fails| - 1];
    assert fails[..2] == [fails[0], fails[1]] && fails[..2][..1] == [fails[0]] && fails[..1][..0] == [];
    assert Count([fails[0]]) == 1 && Count(fails[..2]) == 2;
    assert front[..2] == fails[..2];
    CountPrefix(front, 2);
  }

  lemma {:induction false} CountAll(fails: seq<bool>)
    requires forall i :: 0 <= i < |fails| ==> fails[i]
    ensures Count(fails) == |fails|
  {
    if fails != [] {
      CountAll(fails[..|fails| - 1]);
    }
  }

  /** Where failures never delete, as with a count that is not reported, a message can fail any
      number of times and is still in the queue. */
  lemma UnboundedAttempts(m: MsgId, n: nat) returns (run: seq<Event>)
    ensures After(run).Some? && m in After(run).value.queue
    ensures KeptFails(run, m) == n
  {
    var fails := seq(n, i => true);
    run := Tries(m, fails);
    TriesMeans(m, fails, (i: nat) => false);
    CountAll(fails);
  }

  // ---------------------------------------------------------------- draining

  /** The step of a run in which every delivery finishes within the visibility timeout, deletes
      have effect and nothing new arrives: a hidden message reappears only when no worker has
      it, every passed message and every third failure is deleted, and nobody crashes. */
  predicate Timely(s: State, e: Event)
    requires Enabled(s, e)
  {
    match e
    case Send(_) => false
    case Crash(_) => false
    case Reappear(m) => forall w :: w in s.busy ==> s.busy[w].msg != m
    case Fail(w, deleted) => deleted <==> s.busy[w].dequeueCount >= MAX_ATTEMPTS
    case Finish(_, deleted) => deleted
    case _ => true
  }

  /** In timely runs: a message that is being processed is hidden and has one worker, with the
      count of the queue; all others have failed fewer than 3 times. */
  ghost predicate Orderly(s: State) {
    && (forall w :: w in s.busy ==>
          var m := s.busy[w].msg;
          m in s.queue && !s.queue[m].visible && s.queue[m].dequeueCount == s.busy[w].dequeueCount <= MAX_ATTEMPTS)
    && (forall w, v :: w in s.busy && v in s.busy && s.busy[w].msg == s.busy[v].msg ==> w == v)
    && (forall m :: m in s.queue && !Held(s, m) ==> s.queue[m].dequeueCount < MAX_ATTEMPTS)
  }

  ghost predicate Held(s: State, m: MsgId) {
    exists w :: w in s.busy && s.busy[w].msg == m
  }

  lemma OrderlyStep(s: State, e: Event)
    requires Orderly(s) && Enabled(s, e) && Timely(s, e)
    ensures Orderly(Apply(s, e))
  {
    var s' := Apply(s, e);
    if e.Receive? {
      OrderlyReceive(s, e);
    } else {
      forall m | m in s'.queue && !Held(s', m)
        ensures s'.queue[m].dequeueCount < MAX_ATTEMPTS
      {
        if w :| w in s.busy && s.busy[w].msg == m {
          assert w in s'.busy ==> s'.busy[w].msg == m;
        }
      }
    }
  }

  lemma OrderlyReceive(s: State, e: Event)
    requires Orderly(s) && Enabled(s, e) && e.Receive?
    ensures Orderly(Apply(s, e))
  {
    var s' := Apply(s, e);
    assert s'.busy[e.w].msg == e.m;
    assert forall w | w in s.busy :: s'.busy[w] == s.busy[w] && s.busy[w].msg != e.m;
    assert Held(s', e.m);
    forall m | Held(s, m)
      ensures Held(s', m)
    {
      var w :| w in s.busy && s.busy[w].msg == m;
      assert s'.busy[w].msg == m;
    }
  }

  /** The attempts left: 3 less the count, over the messages in the queue. */
  ghost function AttemptsLeft(queue: map<MsgId, Queued>): int {
    if queue == map[] then 0
    else
      var m :| m in queue;
      MAX_ATTEMPTS - queue[m].dequeueCount + AttemptsLeft(queue - {m})
  }

  lemma {:induction false} AttemptsWithout(queue: map<MsgId, Queued>, m: MsgId)
    requires m in queue
    ensures AttemptsLeft(queue) == MAX_ATTEMPTS - queue[m].dequeueCount + AttemptsLeft(queue - {m})
    decreases queue.Keys
  {
    var k :| k in queue && AttemptsLeft(queue) == MAX_ATTEMPTS - queue[k].dequeueCount + AttemptsLeft(queue - {k});
    if k != m {
      AttemptsWithout(queue - {k}, m);
      AttemptsWithout(queue - {m}, k);
      assert queue - {k} - {m} == queue - {m} - {k};
    }
  }

  lemma AttemptsUpdated(queue: map<MsgId, Queued>, m: MsgId, q: Queued)
    requires m in queue
    ensures AttemptsLeft(queue[m := q]) == AttemptsLeft(queue) + queue[m].dequeueCount - q.dequeueCount
  {
    AttemptsWithout(queue, m);
    AttemptsWithout(queue[m := q], m);
    assert queue[m := q] - {m} == queue - {m};
  }

  lemma {:induction false} AttemptsNonNegative(queue: map<MsgId, Queued>)
    requires forall m :: m in queue ==> queue[m].dequeueCount <= MAX_ATTEMPTS
    ensures AttemptsLeft(queue) >= 0
    decreases queue.Keys
  {
    if queue != map[] {
      var k :| k in queue;
      AttemptsWithout(queue, k);
      AttemptsNonNegative(queue - {k});
    }
  }

  lemma {:induction false} AttemptsFresh(queue: map<MsgId, Queued>)
    requires forall m :: m in queue ==> queue[m].dequeueCount == 0
    ensures AttemptsLeft(queue) == 3 * |queue|
    decreases queue.Keys
  {
    if queue != map[] {
      var k :| k in queue;
      AttemptsWithout(queue, k);
      AttemptsFresh(queue - {k});
      assert (queue - {k}).Keys == queue.Keys - {k};
      assert |queue| == |queue.Keys| && |queue - {k}| == |(queue - {k}).Keys|;
    }
  }

  /** Each delivery takes one of the attempts left, and no step adds any. */
  lemma AttemptsStep(s: State, e: Event)
    requires Orderly(s) && Enabled(s, e) && Timely(s, e)
    ensures AttemptsLeft(Apply(s, e).queue) <= AttemptsLeft(s.queue) - if e.Receive? then 1 else 0
  {
    match e
    case Receive(w, m) => AttemptsUpdated(s.queue, m, Queued(s.queue[m].dequeueCount + 1, false));
    case Reappear(m) => AttemptsUpdated(s.queue, m, s.queue[m].(visible := true));
    case Fail(w, deleted) => AttemptsRemoved(s, w, deleted);
    case Finish(w, deleted) => AttemptsRemoved(s, w, deleted);
    case _ =>
  }

  lemma AttemptsRemoved(s: State, w: WorkerId, deleted: bool)
    requires Orderly(s) && w in s.busy
    ensures AttemptsLeft(Remove(s.queue, s.busy[w].msg, deleted)) <= AttemptsLeft(s.queue)
  {
    AttemptsWithout(s.queue, s.busy[w].msg);
  }

  function Receives(run: seq<Event>): nat {
    if run == [] then 0 else Receives(run[..|run| - 1]) + if run[|run| - 1].Receive? then 1 else 0
  }

  ghost predicate TimelyRun(start: State, run: seq<Event>) {
    From(start, run).Some? && forall i :: 0 <= i < |run| ==> TimelyAt(start, run, i)
  }

  ghost predicate TimelyAt(start: State, run: seq<Event>, i: nat)
    requires i < |run|
  {
    From(start, run[..i]).Some? && Enabled(From(start, run[..i]).value, run[i])
    && Timely(From(start, run[..i]).value, run[i])
  }

  lemma {:induction false} DrainAttempts(start: State, run: seq<Event>)
    requires Orderly(start) && TimelyRun(start, run)
    ensures Orderly(From(start, run).value)
    ensures AttemptsLeft(From(start, run).value.queue) <= AttemptsLeft(start.queue) - Receives(run)
  {
    if run != [] {
      var front, e := run[..|run| - 1], run[|run| - 1];
      assert TimelyRun(start, front) by {
        forall i | 0 <= i < |front|
          ensures TimelyAt(start, front, i)
        {
          assert TimelyAt(start, run, i);
          assert front[..i] == run[..i];
        }
      }
      DrainAttempts(start, front);
      assert TimelyAt(start, run, |run| - 1);
      OrderlyStep(From(start, front).value, e);
      AttemptsStep(From(start, front).value, e);
    }
  }

  lemma OrderlyCounts(s: State, m: MsgId)
    requires Orderly(s) && m in s.queue
    ensures s.queue[m].dequeueCount <= MAX_ATTEMPTS
  {
    if w :| w in s.busy && s.busy[w].msg == m {
      assert s.queue[m].dequeueCount == s.busy[w].dequeueCount;
    }
  }

  ghost predicate Possible(s: State, e: Event) {
    Enabled(s, e) && Timely(s, e)
  }

  /** As long as messages are left and nobody is busy, one can be received or brought back. */
  lemma NotStuck(s: State)
    requires s.busy == map[] && s.queue != map[]
    ensures exists e: Event :: (e.Receive? || e.Reappear?) && Possible(s, e)
  {
    var m :| m in s.queue;
    if s.queue[m].visible {
      assert Possible(s, Receive(0, m));
    } else {
      assert Possible(s, Reappear(m));
    }
  }

  /** `n` fresh messages are handed out at most 3n times, whatever the workers do; once all
      workers are idle and nothing can be received or brought back, the queue is empty. */
  lemma Drain(start: State, run: seq<Event>)
    requires start.busy == map[] && forall m :: m in start.queue ==> start.queue[m].dequeueCount == 0
    requires TimelyRun(start, run)
    ensures Receives(run) <= 3 * |start.queue|
    ensures var s := From(start, run).value;
      s.busy == map[] && (forall e: Event :: e.Receive? || e.Reappear? ==> !Possible(s, e)) ==> s.queue == map[]
  {
    var s := From(start, run).value;
    DrainAttempts(start, run);
    AttemptsFresh(start.queue);
    forall m | m in s.queue
      ensures s.queue[m].dequeueCount <= MAX_ATTEMPTS
    {
      OrderlyCounts(s, m);
    }
    AttemptsNonNegative(s.queue);
    if s.busy == map[] && s.queue != map[] {
      NotStuck(s);
    }
  }
}
