/** The loop of one worker: `StreamingTaskMixin.run`, with its two nested loops, the handling of
    failures, the message limit and the clean-up on every exit. */
module StreamingRun {
  import opened Common
  import QueueProtocol

  /** What became of `process_message` and `finalize_message`: an `Exception`, which is handled,
      or something like `KeyboardInterrupt`, which is not. */
  datatype Outcome = Passed | Raised | Interrupted

  /** A received message, how it went, and whether a delete, if issued, would be accepted. */
  datatype Delivery = Delivery(
    id: QueueProtocol.MsgId,
    dequeueCount: Option<nat>,
    hasNextVisible: bool,
    outcome: Outcome,
    deleteOk: bool)

  /** One `receive_messages` call: what it hands out, and whether it then raises. */
  datatype Poll = Poll(deliveries: seq<Delivery>, fails: bool)

  /** `run` returns, or an exception leaves it. A worker that is stopped while it sleeps after
      the last poll of a history counts as the latter. */
  datatype Exit = Returned | Propagated

  predicate IssuesDelete(d: Delivery) {
    match d.outcome
    case Passed => d.hasNextVisible
    case Raised => d.dequeueCount.Some? && d.dequeueCount.value >= 3
    case Interrupted => false
  }

  /** The loop goes on after this delivery: nothing escaped, not even from the delete. */
  predicate Completes(d: Delivery) {
    d.outcome != Interrupted && (IssuesDelete(d) ==> d.deleteOk)
  }

  predicate Deletes(d: Delivery) {
    IssuesDelete(d) && d.deleteOk
  }

  function DeletedIds(ds: seq<Delivery>): seq<QueueProtocol.MsgId> {
    if ds == [] then []
    else
      var front, d := ds[..|ds| - 1], ds[|ds| - 1];
      DeletedIds(front) + if Deletes(d) then [d.id] else []
  }

  lemma DeletedSnoc(ds: seq<Delivery>, d: Delivery)
    ensures DeletedIds(ds + [d]) == DeletedIds(ds) + if Deletes(d) then [d.id] else []
  {
    assert (ds + [d])[..|ds|] == ds;
  }

  /** How many deliveries, from the front, complete. */
  function Smooth(ds: seq<Delivery>): nat {
    if ds == [] || !Completes(ds[0]) then 0 else 1 + Smooth(ds[1..])
  }

  lemma {:induction false} SmoothMeans(ds: seq<Delivery>, k: nat)
    requires k <= |ds|
    ensures Smooth(ds) <= |ds|
    ensures k <= Smooth(ds) <==> forall i :: 0 <= i < k ==> Completes(ds[i])
  {
    if ds != [] && k > 0 && Completes(ds[0]) {
      SmoothMeans(ds[1..], k - 1);
      if forall i :: 0 <= i < k ==> Completes(ds[i]) {
        assert forall i | 0 <= i < k - 1 :: ds[1..][i] == ds[i + 1];
      } else {
        var i :| 0 <= i < k && !Completes(ds[i]);
        assert ds[1..][i - 1] == ds[i];
      }
    } else if ds != [] {
      SmoothMeans(ds[1..], 0);
    }
  }

  /** The deliveries that complete before something escapes, if no limit stops the loop. */
  function Reachable(polls: seq<Poll>): (r: seq<Delivery>) {
    if polls == [] then []
    else
      var ds := polls[0].deliveries;
      SmoothMeans(ds, 0);
      if Smooth(ds) < |ds| then ds[..Smooth(ds)]
      else if polls[0].fails then ds
      else ds + Reachable(polls[1..])
  }

  function Offered(polls: seq<Poll>): seq<Delivery> {
    if polls == [] then [] else polls[0].deliveries + Offered(polls[1..])
  }

  /** The loop stops by itself after `n` deliveries in exactly these cases: all are used up, the
      next one does not complete, or the poll they came from raises. */
  ghost predicate Blocked(polls: seq<Poll>, n: nat) {
    || n == |Offered(polls)|
    || (n < |Offered(polls)| && !Completes(Offered(polls)[n]))
    || exists i: nat :: i < |polls| && polls[i].fails && n == |Offered(polls[..i + 1])|
  }

  lemma BlockedLater(polls: seq<Poll>, n: nat)
    requires polls != [] && Blocked(polls[1..], n)
    ensures Blocked(polls, |polls[0].deliveries| + n)
  {
    var ds, rest := polls[0].deliveries, polls[1..];
    if i: nat :| i < |rest| && rest[i].fails && n == |Offered(rest[..i + 1])| {
      assert polls[..i + 2][1..] == rest[..i + 1];
      assert polls[i + 1].fails && |ds| + n == |Offered(polls[..i + 2])|;
    }
  }

  /** What is reachable is the front of what is offered, all of it completes, and it ends only
      where something stops the loop. */
  lemma {:induction false} ReachableMeans(polls: seq<Poll>)
    ensures Reachable(polls) <= Offered(polls)
    ensures forall d :: d in Reachable(polls) ==> Completes(d)
    ensures Blocked(polls, |Reachable(polls)|)
  {
    if polls != [] {
      var ds := polls[0].deliveries;
      SmoothMeans(ds, 0);
      SmoothMeans(ds, Smooth(ds));
      if Smooth(ds) < |ds| {
        SmoothMeans(ds, Smooth(ds) + 1);
        assert Offered(polls)[Smooth(ds)] == ds[Smooth(ds)];
      } else if polls[0].fails {
        assert polls[..1][1..] == [];
        assert |ds| == |Offered(polls[..0 + 1])|;
      } else {
        ReachableMeans(polls[1..]);
        BlockedLater(polls, |Reachable(polls[1..])|);
      }
    }
  }

  // ---------------------------------------------------------------- the limit

  /** `message_limit or math.inf`: a missing limit and 0 both mean none. */
  predicate Limited(limit: Option<int>) {
    limit.Some? && limit.value != 0
  }

  /** The deliveries a run handles to the end: the reachable ones, cut at the limit. */
  function Handled(polls: seq<Poll>, limit: Option<int>): seq<Delivery> {
    var r := Reachable(polls);
    if Limited(limit) then r[..Min(|r|, Max(limit.value, 0))] else r
  }

  function ExitOf(polls: seq<Poll>, limit: Option<int>): Exit {
    if Limited(limit) && |Reachable(polls)| >= limit.value then Returned else Propagated
  }

  /** The while condition. */
  predicate Below(count: nat, limit: Option<int>) {
    Limited(limit) ==> count < limit.value
  }

  /** With a positive limit a normal return means exactly that many deliveries, and no run
      handles more; without one, `run` never returns normally. */
  lemma LimitIsExact(polls: seq<Poll>, limit: Option<int>)
    ensures Limited(limit) && limit.value > 0 ==>
              |Handled(polls, limit)| <= limit.value
              && (ExitOf(polls, limit) == Returned <==> |Handled(polls, limit)| == limit.value)
    ensures Limited(limit) && limit.value < 0 ==> ExitOf(polls, limit) == Returned && Handled(polls, limit) == []
    ensures !Limited(limit) ==> ExitOf(polls, limit) == Propagated
    ensures Handled(polls, limit) <= Offered(polls)
    ensures ExitOf(polls, limit) == Propagated ==> Blocked(polls, |Handled(polls, limit)|)
  {
    ReachableMeans(polls);
  }

  lemma StopsAtLimit(polls: seq<Poll>, limit: Option<int>, seen: seq<Delivery>)
    requires seen <= Reachable(polls)
    requires !Below(|seen|, limit) && |seen| <= Max(limit.value, 0)
    ensures Handled(polls, limit) == seen && ExitOf(polls, limit) == Returned
  {
  }

  lemma StopsInside(polls: seq<Poll>, limit: Option<int>, seen: seq<Delivery>)
    requires seen == Reachable(polls) && Below(|seen|, limit)
    ensures Handled(polls, limit) == seen && ExitOf(polls, limit) == Propagated
  {
  }

  /** One task object. `deleted` are the accepted deletes, `cleanups` the calls of `cleanup`. */
  class Worker {
    var deleted: seq<QueueProtocol.MsgId>
    var cleanups: nat
    var messageCount: nat

    /** The body of the for loop: the try, its handler and its else branch, then the count.
        Returns whether the loop can go on. */
    method Handle(d: Delivery) returns (goesOn: bool)
      modifies this`deleted, this`messageCount
      ensures goesOn <==> Completes(d)
      ensures deleted == old(deleted) + if Deletes(d) then [d.id] else []
      ensures messageCount == old(messageCount) + if goesOn then 1 else 0
    {
      match d.outcome {
        case Interrupted =>
          return false;
        case Raised =>
          if d.dequeueCount.Some? && d.dequeueCount.value >= 3 {
            if !d.deleteOk {
              return false;
            }
            deleted := deleted + [d.id];
          }
        case Passed =>
          if d.hasNextVisible {
            if !d.deleteOk {
              return false;
            }
            deleted := deleted + [d.id];
          }
      }
      messageCount := messageCount + 1;
      return true;
    }

    /** The for loop over one poll. It handles the deliveries up to the first that does not
        complete, and breaks when the limit is hit. */
    method HandlePoll(ds: seq<Delivery>, limit: Option<int>) returns (done: nat, goesOn: bool)
      requires Below(messageCount, limit)
      modifies this`deleted, this`messageCount
      ensures done <= Smooth(ds) <= |ds|
      ensures deleted == old(deleted) + DeletedIds(ds[..done])
      ensures messageCount == old(messageCount) + done
      ensures Limited(limit) ==> messageCount <= limit.value
      ensures goesOn ==> done == Smooth(ds) == |ds| || !Below(messageCount, limit)
      ensures !goesOn ==> done == Smooth(ds) < |ds| && Below(messageCount, limit)
    {
      done, goesOn := 0, true;
      SmoothMeans(ds, 0);
      while done < |ds| && Below(messageCount, limit)
        invariant done <= |ds| && messageCount == old(messageCount) + done
        invariant done <= Smooth(ds)
        invariant deleted == old(deleted) + DeletedIds(ds[..done])
        invariant Limited(limit) ==> messageCount <= limit.value
        decreases |ds| - done
      {
        SmoothMeans(ds, done);
        SmoothMeans(ds, done + 1);
        assert ds[..done + 1] == ds[..done] + [ds[done]];
        DeletedSnoc(ds[..done], ds[done]);
        goesOn := Handle(ds[done]);
        if !goesOn {
          assert deleted == old(deleted) + DeletedIds(ds[..done]) + [];
          return;
        }
        Assoc(old(deleted), DeletedIds(ds[..done]), if Deletes(ds[done]) then [ds[done].id] else []);
        done := done + 1;
      }
    }

    /** `run`: on every exit the clean-up has been called once, the handled deliveries are
        exactly the reachable ones up to the limit, and what was deleted are those of them that
        passed with `next_visible_on` set or failed with a count of 3 or more. */
    method Run(polls: seq<Poll>, limit: Option<int>) returns (exit: Exit)
      modifies this
      ensures exit == ExitOf(polls, limit)
      ensures messageCount == |Handled(polls, limit)|
      ensures deleted == old(deleted) + DeletedIds(Handled(polls, limit))
      ensures cleanups == old(cleanups) + 1
    {
      messageCount := 0;
      exit := Loop(polls, limit);
      cleanups := cleanups + 1;
    }

    /** The while loop under the `try`. */
    method Loop(polls: seq<Poll>, limit: Option<int>) returns (exit: Exit)
      requires messageCount == 0
      modifies this`deleted, this`messageCount
      ensures exit == ExitOf(polls, limit)
      ensures messageCount == |Handled(polls, limit)|
      ensures deleted == old(deleted) + DeletedIds(Handled(polls, limit))
    {
      var i := 0;
      ghost var seen: seq<Delivery> := [];
      assert polls[0..] == polls;
      assert old(deleted) + DeletedIds([]) == old(deleted);
      while Below(messageCount, limit)
        invariant i <= |polls| && messageCount == |seen|
        invariant SoFar(polls, i, limit, seen)
        invariant deleted == old(deleted) + DeletedIds(seen)
        decreases |polls| - i
      {
        if i == |polls| {
          StopsInside(polls, limit, seen);
          return Propagated;
        }
        var ds := polls[i].deliveries;
        var done, goesOn := HandlePoll(ds, limit);
        UsePoll(polls, i, seen, done);
        Assoc(old(deleted), DeletedIds(seen), DeletedIds(ds[..done]));
        seen := seen + ds[..done];
        if !goesOn || (polls[i].fails && Below(messageCount, limit)) {
          StopsInside(polls, limit, seen);
          return Propagated;
        }
        i := i + 1;
      }
      StopsAtLimit(polls, limit, seen);
      return Returned;
    }
  }

  /** After `i` polls: what was handled is the front of what is reachable, and below the limit
      exactly the remaining polls are left. */
  ghost predicate SoFar(polls: seq<Poll>, i: nat, limit: Option<int>, seen: seq<Delivery>) {
    && i <= |polls| && seen <= Reachable(polls)
    && (Below(|seen|, limit) ==> Reachable(polls) == seen + Reachable(polls[i..]))
    && (Limited(limit) ==> |seen| <= Max(limit.value, 0))
  }

  lemma {:induction false} DeletedAppend(ds: seq<Delivery>, es: seq<Delivery>)
    ensures DeletedIds(ds + es) == DeletedIds(ds) + DeletedIds(es)
  {
    if es == [] {
      assert ds + es == ds;
    } else {
      var front := es[..|es| - 1];
      DeletedAppend(ds, front);
      assert ds + es == (ds + front) + [es[|es| - 1]];
      DeletedSnoc(ds + front, es[|es| - 1]);
    }
  }

  lemma UsePoll(polls: seq<Poll>, i: nat, seen: seq<Delivery>, done: nat)
    requires i < |polls| && Reachable(polls) == seen + Reachable(polls[i..])
    requires done <= Smooth(polls[i].deliveries) <= |polls[i].deliveries|
    ensures var ds := polls[i].deliveries;
      && seen + ds[..done] <= Reachable(polls)
      && DeletedIds(seen + ds[..done]) == DeletedIds(seen) + DeletedIds(ds[..done])
      && (done == |ds| && !polls[i].fails ==> Reachable(polls) == seen + ds[..done] + Reachable(polls[i + 1..]))
      && (done == |ds| && polls[i].fails ==> Reachable(polls) == seen + ds[..done])
      && (done == Smooth(ds) < |ds| ==> Reachable(polls) == seen + ds[..done])
  {
    var ds := polls[i].deliveries;
    DeletedAppend(seen, ds[..done]);
    assert polls[i..][1..] == polls[i + 1..];
    assert ds[..|ds|] == ds;
    assert ds[..done] <= Reachable(polls[i..]);
  }

  // ---------------------------------------------------------------- on the shared queue

  /** The step of the queue machine that ends a delivery. An escaping exception stops the worker;
      a message whose delete was refused had still passed, or failed, before that. */
  function EndOf(w: QueueProtocol.WorkerId, d: Delivery): QueueProtocol.Event {
    match d.outcome
    case Passed => QueueProtocol.Finish(w, Deletes(d))
    case Raised => QueueProtocol.Fail(w, Deletes(d))
    case Interrupted => QueueProtocol.Crash(w)
  }

  function TakeUp(s: QueueProtocol.State, w: QueueProtocol.WorkerId, d: Delivery): seq<QueueProtocol.Event> {
    if d.id in s.queue && !s.queue[d.id].visible then [QueueProtocol.Reappear(d.id), QueueProtocol.Receive(w, d.id)]
    else [QueueProtocol.Receive(w, d.id)]
  }

  /** The steps of one delivery: a hidden message becomes visible again, is received, and the
      delivery ends. */
  function Turn(s: QueueProtocol.State, w: QueueProtocol.WorkerId, d: Delivery): seq<QueueProtocol.Event> {
    TakeUp(s, w, d) + [EndOf(w, d)]
  }

  /** The queue can hand out this delivery to idle worker `w`, with the count it has seen. */
  predicate Receivable(s: QueueProtocol.State, w: QueueProtocol.WorkerId, d: Delivery) {
    d.id in s.queue && w !in s.busy
    && (d.dequeueCount.Some? ==> d.dequeueCount.value == s.queue[d.id].dequeueCount + 1)
  }

  lemma FromStep(start: QueueProtocol.State, run: seq<QueueProtocol.Event>, e: QueueProtocol.Event)
    requires QueueProtocol.From(start, run).Some? && QueueProtocol.Enabled(QueueProtocol.From(start, run).value, e)
    ensures QueueProtocol.From(start, run + [e]) == Some(QueueProtocol.Apply(QueueProtocol.From(start, run).value, e))
  {
    assert (run + [e])[..|run|] == run;
  }

  lemma FromOne(s: QueueProtocol.State, e: QueueProtocol.Event)
    requires QueueProtocol.Enabled(s, e)
    ensures QueueProtocol.From(s, [e]) == Some(QueueProtocol.Apply(s, e))
  {
    FromStep(s, [], e);
    assert [] + [e] == [e];
  }

  lemma FromTwo(s: QueueProtocol.State, e: QueueProtocol.Event, f: QueueProtocol.Event)
    requires QueueProtocol.Enabled(s, e) && QueueProtocol.Enabled(QueueProtocol.Apply(s, e), f)
    ensures QueueProtocol.From(s, [e, f]) == Some(QueueProtocol.Apply(QueueProtocol.Apply(s, e), f))
  {
    FromOne(s, e);
    FromStep(s, [e], f);
    assert [e] + [f] == [e, f];
  }

  /** Worker `w` holds the message of `d`, taken up in state `s`. */
  ghost predicate Holds(held: QueueProtocol.State, s: QueueProtocol.State, w: QueueProtocol.WorkerId, d: Delivery)
    requires d.id in s.queue
  {
    && held.queue.Keys == s.queue.Keys && held.passed == s.passed
    && w in held.busy && held.busy[w].msg == d.id
    && held.busy[w].dequeueCount == s.queue[d.id].dequeueCount + 1
  }

  lemma HoldsReceived(s: QueueProtocol.State, w: QueueProtocol.WorkerId, d: Delivery)
    requires Receivable(s, w, d) && s.queue[d.id].visible
    ensures Holds(QueueProtocol.Apply(s, QueueProtocol.Receive(w, d.id)), s, w, d)
  {
  }

  lemma TakenUp(s: QueueProtocol.State, w: QueueProtocol.WorkerId, d: Delivery)
    requires Receivable(s, w, d)
    ensures var held := QueueProtocol.From(s, TakeUp(s, w, d)); held.Some? && Holds(held.value, s, w, d)
  {
    var take := QueueProtocol.Receive(w, d.id);
    if s.queue[d.id].visible {
      FromOne(s, take);
      HoldsReceived(s, w, d);
    } else {
      var back := QueueProtocol.Reappear(d.id);
      var s' := QueueProtocol.Apply(s, back);
      FromTwo(s, back, take);
      HoldsReceived(s', w, d);
    }
  }

  lemma EndOfDelivery(held: QueueProtocol.State, w: QueueProtocol.WorkerId, d: Delivery)
    requires w in held.busy && held.busy[w].msg == d.id
    requires d.dequeueCount.Some? ==> held.busy[w].dequeueCount == d.dequeueCount.value
    ensures QueueProtocol.Enabled(held, EndOf(w, d))
    ensures var after := QueueProtocol.Apply(held, EndOf(w, d));
      && w !in after.busy
      && after.queue.Keys == held.queue.Keys - (if Deletes(d) then {d.id} else {})
      && after.passed == held.passed + (if d.outcome == Passed then {d.id} else {})
  {
  }

  /** Whatever the delivery does, its steps are steps of the queue machine: a failing delivery
      deletes only at a count of 3 or more, and exactly an accepted delete takes the message
      out. */
  lemma TurnIsPossible(s: QueueProtocol.State, w: QueueProtocol.WorkerId, d: Delivery)
    requires Receivable(s, w, d)
    ensures var after := QueueProtocol.From(s, Turn(s, w, d));
      && after.Some?
      && w !in after.value.busy
      && after.value.queue.Keys == s.queue.Keys - (if Deletes(d) then {d.id} else {})
      && after.value.passed == s.passed + (if d.outcome == Passed then {d.id} else {})
  {
    TakenUp(s, w, d);
    var held := QueueProtocol.From(s, TakeUp(s, w, d)).value;
    EndOfDelivery(held, w, d);
    FromStep(s, TakeUp(s, w, d), EndOf(w, d));
  }

  lemma {:induction false} FromAppend(s: QueueProtocol.State, a: seq<QueueProtocol.Event>, b: seq<QueueProtocol.Event>)
    requires QueueProtocol.From(s, a).Some? && QueueProtocol.From(QueueProtocol.From(s, a).value, b).Some?
    ensures QueueProtocol.From(s, a + b) == QueueProtocol.From(QueueProtocol.From(s, a).value, b)
  {
    if b == [] {
      assert a + b == a;
    } else {
      var front := b[..|b| - 1];
      FromAppend(s, a, front);
      FromStep(s, a + front, b[|b| - 1]);
      assert a + b == a + front + [b[|b| - 1]];
    }
  }

  /** Every delivery of the list can be received in the state its predecessors left. */
  ghost predicate AllReceivable(s: QueueProtocol.State, w: QueueProtocol.WorkerId, ds: seq<Delivery>)
    decreases |ds|
  {
    ds == [] ||
    (Receivable(s, w, ds[0]) &&
     var after := QueueProtocol.From(s, Turn(s, w, ds[0]));
     after.Some? && AllReceivable(after.value, w, ds[1..]))
  }

  ghost function Turns(s: QueueProtocol.State, w: QueueProtocol.WorkerId, ds: seq<Delivery>): seq<QueueProtocol.Event>
    requires AllReceivable(s, w, ds)
    decreases |ds|
  {
    if ds == [] then []
    else Turn(s, w, ds[0]) + Turns(QueueProtocol.From(s, Turn(s, w, ds[0])).value, w, ds[1..])
  }

  ghost function Gone(ds: seq<Delivery>): set<QueueProtocol.MsgId> {
    set m | m in DeletedIds(ds)
  }

  ghost function PassedIds(ds: seq<Delivery>): set<QueueProtocol.MsgId> {
    set d | d in ds && d.outcome == Passed :: d.id
  }

  lemma IdsCons(ds: seq<Delivery>)
    requires ds != []
    ensures Gone(ds) == (if Deletes(ds[0]) then {ds[0].id} else {}) + Gone(ds[1..])
    ensures PassedIds(ds) == (if ds[0].outcome == Passed then {ds[0].id} else {}) + PassedIds(ds[1..])
  {
    var first, rest := ds[0], ds[1..];
    assert ds == [first] + rest;
    DeletedAppend([first], rest);
    assert [first][..0] == [];
    assert DeletedIds([first]) == if Deletes(first) then [first.id] else [];
  }

  /** The loop of one worker is a run of the queue machine, and what it removed from the queue
      is exactly the list of deletes `Run` records. */
  lemma {:induction false} RunIsQueueRun(s: QueueProtocol.State, w: QueueProtocol.WorkerId, ds: seq<Delivery>)
    requires AllReceivable(s, w, ds)
    ensures QueueProtocol.From(s, Turns(s, w, ds)).Some?
    ensures var after := QueueProtocol.From(s, Turns(s, w, ds)).value;
      && after.queue.Keys == s.queue.Keys - Gone(ds)
      && Gone(ds) <= s.queue.Keys
      && after.passed == s.passed + PassedIds(ds)
    decreases |ds|
  {
    if ds != [] {
      var first, rest := ds[0], ds[1..];
      TurnIsPossible(s, w, first);
      var mid := QueueProtocol.From(s, Turn(s, w, first)).value;
      RunIsQueueRun(mid, w, rest);
      FromAppend(s, Turn(s, w, first), Turns(mid, w, rest));
      IdsCons(ds);
    }
  }

  // ---------------------------------------------------------------- among other workers

  /** The steps by which `w` takes up and ends deliveries. */
  predicate IsOwn(e: QueueProtocol.Event, w: QueueProtocol.WorkerId) {
    (e.Receive? || e.Fail? || e.Finish? || e.Crash?) && e.w == w
  }

  function OwnSteps(run: seq<QueueProtocol.Event>, w: QueueProtocol.WorkerId): seq<QueueProtocol.Event> {
    if run == [] then []
    else OwnSteps(run[..|run| - 1], w) + if IsOwn(run[|run| - 1], w) then [run[|run| - 1]] else []
  }

  /** The own steps of a loop that handles `ds`. */
  function TurnSteps(w: QueueProtocol.WorkerId, ds: seq<Delivery>): seq<QueueProtocol.Event> {
    if ds == [] then []
    else TurnSteps(w, ds[..|ds| - 1]) + [QueueProtocol.Receive(w, ds[|ds| - 1].id)] + [EndOf(w, ds[|ds| - 1])]
  }

  predicate DeletesFor(e: QueueProtocol.Event, w: QueueProtocol.WorkerId) {
    (e.Fail? || e.Finish?) && e.w == w && e.deleted
  }

  /** The messages that steps of `w` delete, in order. */
  function Deletions(start: QueueProtocol.State, run: seq<QueueProtocol.Event>,
                     w: QueueProtocol.WorkerId): seq<QueueProtocol.MsgId>
    requires QueueProtocol.From(start, run).Some?
  {
    if run == [] then []
    else
      var front, e := run[..|run| - 1], run[|run| - 1];
      Deletions(start, front, w) +
      if DeletesFor(e, w) then [QueueProtocol.From(start, front).value.busy[w].msg] else []
  }

  lemma SnocLast<T>(a: seq<T>, x: T, b: seq<T>, y: T)
    requires a + [x] == b + [y]
    ensures a == b && x == y
  {
    assert a == (a + [x])[..|a|] && b == (b + [y])[..|b|];
    assert (a + [x])[|a|] == x && (b + [y])[|b|] == y;
  }

  ghost predicate HoldsOnly(s: QueueProtocol.State, w: QueueProtocol.WorkerId, open: Option<Delivery>) {
    if open.Some? then w in s.busy && s.busy[w].msg == open.value.id else w !in s.busy
  }

  /** However the steps of the loop of `w` are mixed with those of others, also when a delivery
      is still open: the messages its steps delete are the recorded deletes. */
  lemma {:induction false} InterleavedLoop(start: QueueProtocol.State, run: seq<QueueProtocol.Event>,
                                           w: QueueProtocol.WorkerId, ds: seq<Delivery>, open: Option<Delivery>)
    requires QueueProtocol.From(start, run).Some? && w !in start.busy
    requires OwnSteps(run, w) ==
             TurnSteps(w, ds) + if open.Some? then [QueueProtocol.Receive(w, open.value.id)] else []
    ensures Deletions(start, run, w) == DeletedIds(ds)
    ensures HoldsOnly(QueueProtocol.From(start, run).value, w, open)
    decreases |run|, 1
  {
    if run != [] {
      var front, e := run[..|run| - 1], run[|run| - 1];
      if !IsOwn(e, w) {
        assert OwnSteps(run, w) == OwnSteps(front, w);
        InterleavedLoop(start, front, w, ds, open);
      } else if open.Some? {
        SnocLast(OwnSteps(front, w), e, TurnSteps(w, ds), QueueProtocol.Receive(w, open.value.id));
        assert TurnSteps(w, ds) + [] == TurnSteps(w, ds);
        InterleavedLoop(start, front, w, ds, None);
      } else {
        LastTurn(start, run, w, ds);
      }
    } else {
      NoOwnSteps(w, ds, open);
    }
  }

  lemma NoOwnSteps(w: QueueProtocol.WorkerId, ds: seq<Delivery>, open: Option<Delivery>)
    requires TurnSteps(w, ds) + (if open.Some? then [QueueProtocol.Receive(w, open.value.id)] else []) == []
    ensures ds == [] && open.None?
  {
  }

  lemma {:induction false} LastTurn(start: QueueProtocol.State, run: seq<QueueProtocol.Event>,
                                    w: QueueProtocol.WorkerId, ds: seq<Delivery>)
    requires QueueProtocol.From(start, run).Some? && w !in start.busy
    requires run != [] && IsOwn(run[|run| - 1], w) && OwnSteps(run, w) == TurnSteps(w, ds)
    ensures Deletions(start, run, w) == DeletedIds(ds)
    ensures w !in QueueProtocol.From(start, run).value.busy
    decreases |run|, 0
  {
    var front, e := run[..|run| - 1], run[|run| - 1];
    assert ds != [];
    var before, d := ds[..|ds| - 1], ds[|ds| - 1];
    SnocLast(OwnSteps(front, w), e, TurnSteps(w, before) + [QueueProtocol.Receive(w, d.id)], EndOf(w, d));
    InterleavedLoop(start, front, w, before, Some(d));
  }

  /** The `i`-th step is one of `w` that removes `m`, for one of the two permitted reasons. */
  ghost predicate RemovedBy(run: seq<QueueProtocol.Event>, i: nat, w: QueueProtocol.WorkerId, m: QueueProtocol.MsgId) {
    QueueProtocol.Removes(run, i, m) && DeletesFor(run[i], w)
  }

  lemma {:induction false} DeletionsMean(run: seq<QueueProtocol.Event>, w: QueueProtocol.WorkerId,
                                         m: QueueProtocol.MsgId)
    requires QueueProtocol.After(run).Some?
    ensures m in Deletions(QueueProtocol.START, run, w) <==> exists i :: RemovedBy(run, i, w, m)
  {
    if run != [] {
      var front := run[..|run| - 1];
      DeletionsMean(front, w, m);
      if i: nat :| RemovedBy(front, i, w, m) {
        QueueProtocol.RemovesLater(run, i, m);
        assert RemovedBy(run, i, w, m);
      }
      if i: nat :| RemovedBy(run, i, w, m) {
        if i < |front| {
          QueueProtocol.RemovesEarlier(run, i, m);
          assert RemovedBy(front, i, w, m);
        } else {
          assert run[..i] == front;
        }
      }
      LastDeletion(run, w, m);
    }
  }

  lemma LastDeletion(run: seq<QueueProtocol.Event>, w: QueueProtocol.WorkerId, m: QueueProtocol.MsgId)
    requires QueueProtocol.After(run).Some? && run != []
    ensures var front, e := run[..|run| - 1], run[|run| - 1];
      RemovedBy(run, |front|, w, m) <==>
      DeletesFor(e, w) && QueueProtocol.After(front).value.busy[w].msg == m
  {
    assert run[..|run| - 1] == run[..|run[..|run| - 1]|];
  }

  /** In every run of the shared queue in which the steps of `w` are those of its loop over `ds`,
      with any steps of others in between: `w` removes exactly the messages of the deletes that
      `Run` records, each for a permitted reason and for good. */
  lemma RemovedForAReason(run: seq<QueueProtocol.Event>, w: QueueProtocol.WorkerId, ds: seq<Delivery>,
                          m: QueueProtocol.MsgId)
    requires QueueProtocol.After(run).Some? && OwnSteps(run, w) == TurnSteps(w, ds)
    ensures m in Gone(ds) <==> exists i :: RemovedBy(run, i, w, m)
    ensures m in Gone(ds) ==> m !in QueueProtocol.After(run).value.queue
  {
    assert TurnSteps(w, ds) + [] == TurnSteps(w, ds);
    InterleavedLoop(QueueProtocol.START, run, w, ds, None);
    DeletionsMean(run, w, m);
    if i: nat :| RemovedBy(run, i, w, m) {
      QueueProtocol.GoneForGood(run, i, m);
    }
  }

  // ---------------------------------------------------------------- a count that is not reported

  /** `n` failing deliveries of `m` without a dequeue count. */
  function Uncounted(m: QueueProtocol.MsgId, n: nat): seq<Delivery> {
    if n == 0 then [] else [Delivery(m, None, true, Raised, true)] + Uncounted(m, n - 1)
  }

  /** A delivery without a delete before others. */
  lemma OneMoreKept(s: QueueProtocol.State, w: QueueProtocol.WorkerId, d: Delivery, ds: seq<Delivery>)
    requires Receivable(s, w, d) && !Deletes(d) && Gone(ds) == {}
    requires QueueProtocol.From(s, Turn(s, w, d)).Some?
    requires AllReceivable(QueueProtocol.From(s, Turn(s, w, d)).value, w, ds)
    ensures AllReceivable(s, w, [d] + ds) && Gone([d] + ds) == {}
  {
    assert ([d] + ds)[1..] == ds;
    IdsCons([d] + ds);
  }

  /** Such deliveries can go on forever: none of them deletes, so the bound on the attempts does
      not hold for them. */
  lemma {:induction false} UncountedStay(s: QueueProtocol.State, w: QueueProtocol.WorkerId,
                                         m: QueueProtocol.MsgId, n: nat)
    requires m in s.queue && w !in s.busy
    ensures AllReceivable(s, w, Uncounted(m, n))
    ensures Gone(Uncounted(m, n)) == {}
    decreases n
  {
    if n > 0 {
      var d := Delivery(m, None, true, Raised, true);
      TurnIsPossible(s, w, d);
      UncountedStay(QueueProtocol.From(s, Turn(s, w, d)).value, w, m, n - 1);
      OneMoreKept(s, w, d, Uncounted(m, n - 1));
    }
  }
}
