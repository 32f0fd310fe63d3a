/** Queueing prepared chunks and flushing them in groups (`ingest_ndjsons`). */
module NdjsonIngest {
  import opened Common
  import opened NdjsonText
  import opened NdjsonPool
  import opened PgStac
  import opened PgStacTheorems
  import opened NdjsonLoad

  /** How the call ends: normally, with `IngestFailedException`, with the exception of a
      preparation, or with that of deleting a file that is no longer there. */
  datatype Exit = Finished | IngestFailed | PreparationFailed | UnlinkFailed

  /** The flushes so far: their chunks, what they read of each, how each ended, and the uris of
      those that succeeded and failed. */
  datatype Log = Log(
    flushes: seq<seq<Prepared>>,
    texts: seq<seq<string>>,
    oks: seq<bool>,
    success: seq<string>,
    failed: seq<string>)

  function LineSum(chunks: seq<Prepared>): nat {
    if chunks == [] then 0 else LineSum(chunks[..|chunks| - 1]) + chunks[|chunks| - 1].lineCount
  }

  function Uris(chunks: seq<Prepared>): seq<string> {
    seq(|chunks|, i requires 0 <= i < |chunks| => chunks[i].uri)
  }

  /** The uris of the flushes that ended with `ok`, in order. */
  function UrisWhere(flushes: seq<seq<Prepared>>, oks: seq<bool>, ok: bool): seq<string>
    requires |flushes| == |oks|
  {
    if flushes == [] then []
    else
      UrisWhere(flushes[..|flushes| - 1], oks[..|oks| - 1], ok) +
      if oks[|oks| - 1] == ok then Uris(flushes[|flushes| - 1]) else []
  }

  /** A flush that reached the target with its last chunk. */
  ghost predicate FullFlush(flush: seq<Prepared>, target: int) {
    && flush != []
    && LineSum(flush) >= target
    && (|flush| > 1 ==> LineSum(flush[..|flush| - 1]) < target)
  }

  /** Chunks queued below the target. */
  ghost predicate Queued(group: seq<Prepared>, target: int) {
    group != [] ==> LineSum(group) < target
  }

  /** All flushes but possibly a last one were full; that one is what was left in the queue. */
  ghost predicate FlushedInBatches(flushes: seq<seq<Prepared>>, target: int) {
    && (forall i :: 0 <= i < |flushes| - 1 ==> FullFlush(flushes[i], target))
    && (flushes != [] ==>
          var last := flushes[|flushes| - 1];
          FullFlush(last, target) || (last != [] && Queued(last, target)))
  }

  /** The flush results: each flush succeeded or failed as a whole. */
  ghost predicate Recorded(log: Log) {
    && |log.flushes| == |log.texts| == |log.oks|
    && log.success == UrisWhere(log.flushes, log.oks, true)
    && log.failed == UrisWhere(log.flushes, log.oks, false)
  }

  /** `any(failed_ndjsons)`: some uri is not the empty string. */
  ghost predicate AnyTruthy(uris: seq<string>) {
    exists u :: u in uris && u != ""
  }

  // ---------------------------------------------------------------- conservation

  /** A flush puts its uris into one of the two lists. */
  lemma OneList<T>(good: seq<T>, bad: seq<T>, uris: seq<T>, ok: bool)
    ensures multiset(good + if ok then uris else []) + multiset(bad + if !ok then uris else [])
         == multiset(good) + multiset(bad) + multiset(uris)
  {
    if ok {
      assert bad + [] == bad;
    } else {
      assert good + [] == good;
    }
  }

  lemma {:induction false} UrisOfFlatten(flushes: seq<seq<Prepared>>, oks: seq<bool>)
    requires |flushes| == |oks|
    ensures multiset(UrisWhere(flushes, oks, true)) + multiset(UrisWhere(flushes, oks, false))
         == multiset(Uris(Flatten(flushes)))
  {
    if flushes != [] {
      var front, last := flushes[..|flushes| - 1], flushes[|flushes| - 1];
      var okFront, ok := oks[..|oks| - 1], oks[|oks| - 1];
      UrisOfFlatten(front, okFront);
      OneList(UrisWhere(front, okFront, true), UrisWhere(front, okFront, false), Uris(last), ok);
      assert Uris(Flatten(front) + last) == Uris(Flatten(front)) + Uris(last);
    }
  }

  /** Every prepared chunk of the call is pending, flushed or queued, each in one place. */
  ghost predicate Balance(all: multiset<Prepared>, pending: multiset<Prepared>, flushes: seq<seq<Prepared>>,
                          group: seq<Prepared>)
  {
    pending + multiset(Flatten(flushes) + group) == all
  }

  // ---------------------------------------------------------------- what the flushes load

  /** The lines of the file that a flush writes for the database when it has read these texts. */
  function FlushLines(texts: seq<string>): seq<string> {
    FileLines(Concatenated(PreparedTexts(texts)))
  }

  /** What was read for a group: a text for each of its first chunks, taken from the chunk's file. When
      no two chunks of the call share a file, none is missing. */
  ghost predicate ReadFrom(src: Source, all: multiset<Prepared>, group: seq<Prepared>, texts: seq<string>) {
    && |texts| <= |group|
    && (PathsDiffer(all) ==> |texts| == |group|)
    && AllWritten(src, all, group, texts)
  }

  ghost predicate AllWritten(src: Source, all: multiset<Prepared>, group: seq<Prepared>, texts: seq<string>)
    requires |texts| <= |group|
  {
    forall i :: 0 <= i < |texts| ==> WrittenBy(src, all, group[i].preparedPath, texts[i])
  }

  /** One flush: a successful one read all its files, could parse every line and ingested the items,
      a failed one ingested at most a part of those before the first line that raises. */
  ghost predicate Step(before: Table, after: Table, src: Source, all: multiset<Prepared>, group: seq<Prepared>,
                       texts: seq<string>, ok: bool, n: nat)
    requires n > 0
  {
    && ReadFrom(src, all, group, texts)
    && if ok then
         && |texts| == |group|
         && ParseAll(src.idOf, FlushLines(texts)).Some?
         && after == Ingested(before, ParseAll(src.idOf, FlushLines(texts)).value, n)
       else PartIngested(before, ParsedFront(src.idOf, FlushLines(texts)), n, after)
  }

  /** The flushes one after the other lead from `before` to `after`. */
  ghost predicate Steps(before: Table, after: Table, src: Source, all: multiset<Prepared>,
                        flushes: seq<seq<Prepared>>, texts: seq<seq<string>>, oks: seq<bool>, n: nat)
    requires n > 0 && |flushes| == |texts| == |oks|
    decreases |flushes|
  {
    if flushes == [] then after == before
    else
      var k := |flushes| - 1;
      exists mid ::
        && Steps(before, mid, src, all, flushes[..k], texts[..k], oks[..k], n)
        && Step(mid, after, src, all, flushes[k], texts[k], oks[k], n)
  }

  /** What the database shows: its rows, and how the calls of its loader ended so far. */
  datatype Shown = Shown(table: Table, outcomes: seq<Outcome>)

  ghost function ShownBy(db: PgStac): Shown
    reads db
  {
    Shown(db.table, db.outcomes)
  }

  ghost predicate RefusedSince(before: seq<Outcome>, after: seq<Outcome>) {
    exists i :: |before| <= i < |after| && !after[i].Loaded?
  }

  /** A flush fails only for a reason: a file is missing, a line raises, the group size is negative or the
      database refused a load. */
  ghost predicate HasReason(before: Shown, after: Shown, src: Source, target: int, group: seq<Prepared>,
                            texts: seq<string>)
  {
    || |texts| < |group| || ParseAll(src.idOf, FlushLines(texts)).None?
    || target < 0 || RefusedSince(before.outcomes, after.outcomes)
  }

  ghost predicate Explained(before: Shown, after: Shown, src: Source, all: multiset<Prepared>, target: int, log: Log)
    requires Recorded(log)
  {
    && before.outcomes <= after.outcomes
    && forall k :: 0 <= k < |log.oks| ==>
         ReadFrom(src, all, log.flushes[k], log.texts[k])
         && (log.oks[k] || HasReason(before, after, src, target, log.flushes[k], log.texts[k]))
  }

  lemma ExplainedSnoc(before: Shown, mid: Shown, after: Shown, src: Source, all: multiset<Prepared>, target: int,
                      log: Log, group: seq<Prepared>, texts: seq<string>, ok: bool)
    requires Recorded(log) && Explained(before, mid, src, all, target, log)
    requires mid.outcomes <= after.outcomes && ReadFrom(src, all, group, texts)
    requires ok || HasReason(mid, after, src, target, group, texts)
    requires Recorded(Extended(log, group, texts, ok))
    ensures Explained(before, after, src, all, target, Extended(log, group, texts, ok))
  {
    var next := Extended(log, group, texts, ok);
    RefusedLater(before.outcomes, mid.outcomes, after.outcomes);
    forall k | 0 <= k < |next.oks|
      ensures ReadFrom(src, all, next.flushes[k], next.texts[k])
      ensures next.oks[k] || HasReason(before, after, src, target, next.flushes[k], next.texts[k])
    {
      if k < |log.oks| {
        assert next.flushes[k] == log.flushes[k] && next.texts[k] == log.texts[k] && next.oks[k] == log.oks[k];
      }
    }
  }

  lemma RefusedLater(before: seq<Outcome>, mid: seq<Outcome>, after: seq<Outcome>)
    requires before <= mid <= after
    ensures RefusedSince(before, mid) || RefusedSince(mid, after) ==> RefusedSince(before, after)
  {
    if i :| |before| <= i < |mid| && !mid[i].Loaded? {
      assert after[i] == mid[i];
    }
  }

  /** Where the flushes led, and why those that failed did. */
  ghost predicate Loads(before: Shown, after: Shown, src: Source, all: multiset<Prepared>, target: int, log: Log)
    requires Recorded(log)
  {
    && Explained(before, after, src, all, target, log)
    && (target > 0 ==> Steps(before.table, after.table, src, all, log.flushes, log.texts, log.oks, target))
  }

  /** The log after one more flush. */
  function Extended(log: Log, group: seq<Prepared>, texts: seq<string>, ok: bool): Log {
    Log(log.flushes + [group], log.texts + [texts], log.oks + [ok], log.success + (if ok then Uris(group) else []),
        log.failed + (if ok then [] else Uris(group)))
  }

  lemma RecordedSnoc(log: Log, group: seq<Prepared>, texts: seq<string>, ok: bool)
    requires Recorded(log)
    ensures Recorded(Extended(log, group, texts, ok))
  {
    var next := Extended(log, group, texts, ok);
    assert next.flushes[..|log.flushes|] == log.flushes && next.oks[..|log.oks|] == log.oks;
    assert log.success + [] == log.success && log.failed + [] == log.failed;
  }

  lemma LoadsSnoc(before: Shown, mid: Shown, after: Shown, src: Source, all: multiset<Prepared>, target: int,
                  log: Log, group: seq<Prepared>, texts: seq<string>, ok: bool)
    requires Recorded(log) && Loads(before, mid, src, all, target, log)
    requires target > 0 ==> Step(mid.table, after.table, src, all, group, texts, ok, target)
    requires mid.outcomes <= after.outcomes && ReadFrom(src, all, group, texts)
    requires ok || HasReason(mid, after, src, target, group, texts)
    requires Recorded(Extended(log, group, texts, ok))
    ensures Loads(before, after, src, all, target, Extended(log, group, texts, ok))
  {
    var next, k := Extended(log, group, texts, ok), |log.flushes|;
    ExplainedSnoc(before, mid, after, src, all, target, log, group, texts, ok);
    assert next.flushes[..k] == log.flushes && next.texts[..k] == log.texts && next.oks[..k] == log.oks;
    assert next.flushes[k] == group && next.texts[k] == texts && next.oks[k] == ok;
  }

  // ---------------------------------------------------------------- the call

  /** The chunks of a queue have been taken over and are not deleted. */
  ghost predicate Ready(src: Source, all: multiset<Prepared>, p: Pool, group: seq<Prepared>) {
    PoolOk(src, all, p) && multiset(group) <= p.held
  }

  lemma HeldHasFile(src: Source, all: multiset<Prepared>, p: Pool, group: seq<Prepared>, i: nat)
    requires Ready(src, all, p, group) && i < |group|
    ensures PathsDiffer(all) ==> group[i].preparedPath in p.files
  {
    assert group[i] in multiset(group);
    assert group[i] in multiset(DoneChunks(p.completed)) + p.held;
  }

  lemma ProgressedTwice(src: Source, all: multiset<Prepared>, p: Pool, q: Pool, r: Pool)
    requires Progressed(src, all, p, q) && Progressed(src, all, q, r)
    ensures Progressed(src, all, p, r)
  {
  }

  lemma ProgressedReady(src: Source, all: multiset<Prepared>, p: Pool, q: Pool, group: seq<Prepared>)
    requires Ready(src, all, p, group) && Progressed(src, all, p, q)
    ensures Ready(src, all, q, group)
  {
  }

  /** The files of a front of the group were read, and the next one is there if `found`. */
  ghost predicate Reading(src: Source, all: multiset<Prepared>, group: seq<Prepared>, texts: seq<string>,
                          found: bool)
  {
    && |texts| <= |group| && AllWritten(src, all, group, texts)
    && (!found ==> !PathsDiffer(all))
  }

  lemma ReadingSnoc(src: Source, all: multiset<Prepared>, group: seq<Prepared>, texts: seq<string>, text: string)
    requires Reading(src, all, group, texts, true) && |texts| < |group|
    requires WrittenBy(src, all, group[|texts|].preparedPath, text)
    ensures Reading(src, all, group, texts + [text], true)
  {
  }

  lemma FileText(src: Source, all: multiset<Prepared>, p: Pool, path: string)
    requires PoolOk(src, all, p) && path in p.files
    ensures p.files[path] != "" && WrittenBy(src, all, path, p.files[path][..|p.files[path]| - 1])
  {
    assert Holds(src, all, path, p.files[path]);
  }

  /** Opens and reads the file of a queued chunk, if it is there, while other processes go on. */
  method ReadFile(src: Source, ghost all: multiset<Prepared>, p: Pool, group: seq<Prepared>, i: nat)
    returns (q: Pool, found: bool, text: string)
    requires Ready(src, all, p, group) && i < |group|
    ensures Ready(src, all, q, group) && Progressed(src, all, p, q)
    ensures if found then WrittenBy(src, all, group[i].preparedPath, text) else !PathsDiffer(all)
  {
    var path := group[i].preparedPath;
    q := Progress(src, all, p);
    ProgressedReady(src, all, p, q, group);
    HeldHasFile(src, all, q, group, i);
    found, text := path in q.files, "";
    if found {
      FileText(src, all, q, path);
      text := q.files[path][..|q.files[path]| - 1];
    }
  }

  /** Reads the files of the queued chunks, up to one that is not there. */
  method ReadFiles(src: Source, ghost all: multiset<Prepared>, p: Pool, group: seq<Prepared>)
    returns (q: Pool, texts: seq<string>)
    requires Ready(src, all, p, group)
    ensures Ready(src, all, q, group) && Progressed(src, all, p, q)
    ensures ReadFrom(src, all, group, texts)
  {
    q, texts := p, [];
    var found, text := true, "";
    while |texts| < |group| && found
      invariant Ready(src, all, q, group) && Progressed(src, all, p, q)
      invariant Reading(src, all, group, texts, found)
      decreases |group| - |texts| + if found then 1 else 0
    {
      var r := q;
      q, found, text := ReadFile(src, all, r, group, |texts|);
      ProgressedTwice(src, all, p, r, q);
      if found {
        ReadingSnoc(src, all, group, texts, text);
        texts := texts + [text];
      }
    }
  }

  /** Hands what was read to the database, if nothing is missing. */
  method LoadRead(db: PgStac, src: Source, ghost all: multiset<Prepared>, target: int, group: seq<Prepared>,
                  texts: seq<string>)
    returns (ok: bool)
    requires ReadFrom(src, all, group, texts)
    modifies db
    ensures target > 0 ==> Step(old(db.table), db.table, src, all, group, texts, ok, target)
    ensures old(db.outcomes) <= db.outcomes
    ensures ok || HasReason(old(ShownBy(db)), ShownBy(db), src, target, group, texts)
  {
    ok := |texts| == |group|;
    if ok {
      ok := IngestItemPaths(db, src.idOf, PreparedTexts(texts), target);
    } else if target > 0 {
      NothingIngested(db.table, ParsedFront(src.idOf, FlushLines(texts)), target);
    }
  }

  /** `flush`: hands the queued chunks to the database, which may fail, and records their uris. */
  method Flush(db: PgStac, ghost before: Shown, src: Source, ghost all: multiset<Prepared>, p: Pool, target: int,
               group: seq<Prepared>, log0: Log)
    returns (q: Pool, log: Log)
    requires Ready(src, all, p, group)
    requires Recorded(log0) && Loads(before, ShownBy(db), src, all, target, log0)
    modifies db
    ensures Progressed(src, all, p, q)
    ensures log.flushes == log0.flushes + [group]
    ensures Recorded(log) && Loads(before, ShownBy(db), src, all, target, log)
  {
    ghost var mid := ShownBy(db);
    var texts;
    q, texts := ReadFiles(src, all, p, group);
    var ok := LoadRead(db, src, all, target, group, texts);
    log := Extended(log0, group, texts, ok);
    RecordedSnoc(log0, group, texts, ok);
    LoadsSnoc(before, mid, ShownBy(db), src, all, target, log0, group, texts, ok);
  }

  /** Deleting the file of the first chunk of a group leaves those of the others. */
  lemma UnlinkedReady(src: Source, all: multiset<Prepared>, p: Pool, group: seq<Prepared>)
    requires Ready(src, all, p, group) && group != []
    ensures Ready(src, all, Unlinked(p, group[0]), group[1..]) && SamePending(p, Unlinked(p, group[0]))
    ensures PathsDiffer(all) ==> group[0].preparedPath in p.files
  {
    FirstHeld(group, p.held);
    UnlinkedKeeps(src, all, p, group[0]);
  }

  /** Deletes the file of the first chunk, if it is there, while other processes go on. */
  method UnlinkFirst(src: Source, ghost all: multiset<Prepared>, p: Pool, group: seq<Prepared>)
    returns (q: Pool, missing: bool)
    requires Ready(src, all, p, group) && group != []
    ensures Ready(src, all, q, if missing then group else group[1..]) && SamePending(p, q)
    ensures missing ==> !PathsDiffer(all)
  {
    q := Progress(src, all, p);
    ProgressedReady(src, all, p, q, group);
    UnlinkedReady(src, all, q, group);
    missing := group[0].preparedPath !in q.files;
    if !missing {
      q := Unlinked(q, group[0]);
    }
  }

  lemma FirstHeld<T>(group: seq<T>, held: multiset<T>)
    requires group != [] && multiset(group) <= held
    ensures group[0] in held
    ensures multiset(group[1..]) <= held - multiset{group[0]}
    ensures multiset(group[1..]) <= held
  {
    assert group == [group[0]] + group[1..];
  }

  /** Deletes the files of a group, up to one that is not there. */
  method Unlink(src: Source, ghost all: multiset<Prepared>, p: Pool, group: seq<Prepared>)
    returns (q: Pool, missing: bool)
    requires Ready(src, all, p, group)
    ensures PoolOk(src, all, q) && SamePending(p, q)
    ensures missing ==> !PathsDiffer(all)
  {
    q, missing := p, false;
    for i := 0 to |group|
      invariant Ready(src, all, q, group[i..]) && SamePending(p, q)
    {
      q, missing := UnlinkFirst(src, all, q, group[i..]);
      if missing {
        return;
      }
      assert group[i..][1..] == group[i + 1..];
    }
  }

  /** The state between two completed futures. */
  ghost predicate LoopState(src: Source, all: multiset<Prepared>, target: int, p: Pool, log: Log,
                            group: seq<Prepared>, lines: int)
  {
    && Ready(src, all, p, group)
    && Recorded(log)
    && (forall f :: f in log.flushes ==> FullFlush(f, target))
    && Queued(group, target)
    && lines == LineSum(group)
    && Balance(all, p.Pending(), log.flushes, group)
  }

  lemma LineSumSnoc(group: seq<Prepared>, chunk: Prepared)
    ensures LineSum(group + [chunk]) == LineSum(group) + chunk.lineCount
  {
    assert (group + [chunk])[..|group|] == group;
  }

  /** A chunk that brings the queue to the target makes it a full flush. */
  lemma ReachesTarget(group: seq<Prepared>, chunk: Prepared, target: int)
    requires Queued(group, target) && LineSum(group + [chunk]) >= target
    ensures FullFlush(group + [chunk], target)
  {
    assert (group + [chunk])[..|group|] == group;
  }

  lemma LastFlush(target: int, flushes: seq<seq<Prepared>>, group: seq<Prepared>)
    requires forall f :: f in flushes ==> FullFlush(f, target)
    requires Queued(group, target)
    ensures FlushedInBatches(flushes, target)
    ensures group != [] ==> FlushedInBatches(flushes + [group], target)
  {
    forall i | 0 <= i < |flushes|
      ensures FullFlush(flushes[i], target)
    {
      assert flushes[i] in flushes;
    }
  }

  /** The loop has taken over the chunk but not queued it. */
  ghost predicate Taking(src: Source, all: multiset<Prepared>, target: int, p: Pool, log: Log,
                         group: seq<Prepared>, lines: int, taken: multiset<Prepared>)
  {
    && PoolOk(src, all, p) && multiset(group) + taken <= p.held
    && Recorded(log)
    && (forall f :: f in log.flushes ==> FullFlush(f, target))
    && Queued(group, target)
    && lines == LineSum(group)
    && Balance(all, p.Pending() + taken, log.flushes, group)
  }

  lemma NextTakes(src: Source, all: multiset<Prepared>, target: int, p: Pool, q: Pool, log: Log,
                  group: seq<Prepared>, lines: int, f: Future)
    requires LoopState(src, all, target, p, log, group, lines) && Advanced(src, all, p, q, f)
    ensures Taking(src, all, target, q, log, group, lines, multiset(ChunkIn(f)))
    ensures !f.Done? ==> LoopState(src, all, target, q, log, group, lines)
  {
    if !f.Done? {
      assert q.Pending() + multiset(ChunkIn(f)) == q.Pending();
    }
  }

  lemma QueueBalances(all: multiset<Prepared>, pending: multiset<Prepared>, flushes: seq<seq<Prepared>>,
                      group: seq<Prepared>, chunk: Prepared)
    requires Balance(all, pending + multiset{chunk}, flushes, group)
    ensures Balance(all, pending, flushes, group + [chunk])
  {
    Assoc(Flatten(flushes), group, [chunk]);
    assert multiset(Flatten(flushes) + group + [chunk]) == multiset(Flatten(flushes) + group) + multiset{chunk};
  }

  lemma FlushBalances(all: multiset<Prepared>, pending: multiset<Prepared>, flushes: seq<seq<Prepared>>,
                      group: seq<Prepared>)
    requires Balance(all, pending, flushes, group)
    ensures Balance(all, pending, flushes + [group], [])
  {
    FlattenSnoc(flushes, group);
    assert Flatten(flushes) + group + [] == Flatten(flushes) + group;
  }

  /** Queueing the chunk below the target. */
  lemma QueueKeeps(src: Source, all: multiset<Prepared>, target: int, p: Pool, log: Log, group: seq<Prepared>,
                   lines: int, chunk: Prepared)
    requires Taking(src, all, target, p, log, group, lines, multiset{chunk}) && lines + chunk.lineCount < target
    ensures LoopState(src, all, target, p, log, group + [chunk], lines + chunk.lineCount)
  {
    LineSumSnoc(group, chunk);
    QueueBalances(all, p.Pending(), log.flushes, group, chunk);
  }

  lemma FlushedBalance(all: multiset<Prepared>, p: Pool, q: Pool, flushes: seq<seq<Prepared>>,
                       group: seq<Prepared>, chunk: Prepared)
    requires Balance(all, p.Pending() + multiset{chunk}, flushes, group) && SamePending(p, q)
    ensures Balance(all, q.Pending(), flushes + [group + [chunk]], [])
  {
    QueueBalances(all, p.Pending(), flushes, group, chunk);
    FlushBalances(all, p.Pending(), flushes, group + [chunk]);
  }

  lemma AllFull(flushes: seq<seq<Prepared>>, group: seq<Prepared>, lines: int, chunk: Prepared, target: int)
    requires forall f :: f in flushes ==> FullFlush(f, target)
    requires Queued(group, target) && lines == LineSum(group) && lines + chunk.lineCount >= target
    ensures forall f :: f in flushes + [group + [chunk]] ==> FullFlush(f, target)
  {
    LineSumSnoc(group, chunk);
    ReachesTarget(group, chunk, target);
  }

  /** Flushing the queue with the chunk that reaches the target. */
  lemma FlushKeeps(src: Source, all: multiset<Prepared>, target: int, p: Pool, log: Log, group: seq<Prepared>,
                   lines: int, chunk: Prepared, q: Pool, log': Log)
    requires forall f :: f in log.flushes ==> FullFlush(f, target)
    requires Queued(group, target) && lines == LineSum(group) && lines + chunk.lineCount >= target
    requires Balance(all, p.Pending() + multiset{chunk}, log.flushes, group)
    requires PoolOk(src, all, q) && SamePending(p, q)
    requires Recorded(log') && log'.flushes == log.flushes + [group + [chunk]]
    ensures LoopState(src, all, target, q, log', [], 0)
  {
    AllFull(log.flushes, group, lines, chunk, target);
    FlushedBalance(all, p, q, log.flushes, group, chunk);
  }

  lemma TakenHeld(src: Source, all: multiset<Prepared>, target: int, p: Pool, log: Log, group: seq<Prepared>,
                  lines: int, chunk: Prepared)
    requires Taking(src, all, target, p, log, group, lines, multiset{chunk})
    ensures Ready(src, all, p, group + [chunk]) && Recorded(log)
  {
    assert multiset(group + [chunk]) == multiset(group) + multiset{chunk};
  }

  /** Flushes a group and deletes its files. */
  method FlushAndUnlink(db: PgStac, ghost before: Shown, src: Source, ghost all: multiset<Prepared>, p: Pool,
                        target: int, group: seq<Prepared>, log0: Log)
    returns (q: Pool, log: Log, missing: bool)
    requires Ready(src, all, p, group)
    requires Recorded(log0) && Loads(before, ShownBy(db), src, all, target, log0)
    modifies db
    ensures PoolOk(src, all, q) && SamePending(p, q)
    ensures log.flushes == log0.flushes + [group]
    ensures Recorded(log) && Loads(before, ShownBy(db), src, all, target, log)
    ensures missing ==> !PathsDiffer(all)
  {
    q, log := Flush(db, before, src, all, p, target, group, log0);
    q, missing := Unlink(src, all, q, group);
  }

  /** Queues one prepared chunk, flushes when the target is reached, and deletes what was flushed. */
  method QueueChunk(db: PgStac, ghost before: Shown, src: Source, ghost all: multiset<Prepared>, p: Pool,
                    chunk: Prepared, target: int, log0: Log, group0: seq<Prepared>, lines0: int)
    returns (q: Pool, log: Log, insertGroup: seq<Prepared>, lineCount: int, missing: bool)
    requires Taking(src, all, target, p, log0, group0, lines0, multiset{chunk})
    requires Loads(before, ShownBy(db), src, all, target, log0)
    modifies db
    ensures LoopState(src, all, target, q, log, insertGroup, lineCount) && SamePending(p, q)
    ensures Loads(before, ShownBy(db), src, all, target, log)
    ensures if lines0 + chunk.lineCount < target then log == log0 && insertGroup == group0 + [chunk]
            else log.flushes == log0.flushes + [group0 + [chunk]] && insertGroup == []
    ensures missing ==> !PathsDiffer(all)
  {
    insertGroup := group0 + [chunk];
    lineCount := lines0 + chunk.lineCount;
    if lineCount >= target {
      TakenHeld(src, all, target, p, log0, group0, lines0, chunk);
      q, log, missing := FlushAndUnlink(db, before, src, all, p, target, insertGroup, log0);
      FlushKeeps(src, all, target, p, log0, group0, lines0, chunk, q, log);
      insertGroup := [];
      lineCount := 0;
    } else {
      QueueKeeps(src, all, target, p, log0, group0, lines0, chunk);
      q, log, missing := p, log0, false;
    }
  }

  lemma StartLoop(src: Source, all: multiset<Prepared>, target: int, p: Pool)
    requires PoolOk(src, all, p) && p.Pending() == all
    ensures LoopState(src, all, target, p, Log([], [], [], [], []), [], 0)
    ensures LineSum([]) == 0
  {
    assert Flatten<Prepared>([]) + [] == [];
  }

  /** Waits for the next future and queues its chunk, if it has one. */
  method ConsumeNext(db: PgStac, ghost before: Shown, src: Source, ghost all: multiset<Prepared>, p: Pool,
                     target: int, log0: Log, group0: seq<Prepared>, lines0: int)
    returns (q: Pool, log: Log, insertGroup: seq<Prepared>, lineCount: int, raised: bool, missing: bool)
    requires LoopState(src, all, target, p, log0, group0, lines0) && p.Unread() > 0
    requires Loads(before, ShownBy(db), src, all, target, log0)
    modifies db
    ensures LoopState(src, all, target, q, log, insertGroup, lineCount)
    ensures Loads(before, ShownBy(db), src, all, target, log)
    ensures q.Unread() < p.Unread()
    ensures if raised then p.RaisePending() else q.RaisePending() == p.RaisePending()
    ensures missing ==> !PathsDiffer(all)
  {
    var r, future := Next(src, all, p);
    NextTakes(src, all, target, p, r, log0, group0, lines0, future);
    raised := future.Raised?;
    if future.Done? {
      q, log, insertGroup, lineCount, missing :=
        QueueChunk(db, before, src, all, r, future.chunk, target, log0, group0, lines0);
    } else {
      q, log, insertGroup, lineCount, missing := r, log0, group0, lines0, false;
    }
  }

  lemma NothingPending(p: Pool)
    requires p.Unread() == 0
    ensures p.Pending() == multiset{} && !p.RaisePending()
  {
  }

  /** The loop over the completed preparations. The order of completion is that in which the
      processes of the pool finish and are read; a failed preparation, or a file to be deleted that
      is not there, ends the loop with its exception. */
  method ConsumeFutures(db: PgStac, src: Source, ghost all: multiset<Prepared>, p0: Pool, target: int)
    returns (p: Pool, log: Log, insertGroup: seq<Prepared>, raised: bool, missing: bool)
    requires PoolOk(src, all, p0) && p0.Pending() == all
    modifies db
    ensures LoopState(src, all, target, p, log, insertGroup, LineSum(insertGroup))
    ensures Loads(old(ShownBy(db)), ShownBy(db), src, all, target, log)
    ensures raised ==> p0.RaisePending()
    ensures missing ==> !PathsDiffer(all)
    ensures !raised && !missing ==> p.Pending() == multiset{} && !p0.RaisePending()
  {
    p, log, insertGroup := p0, Log([], [], [], [], []), [];
    raised, missing := false, false;
    var lineCount := 0;
    StartLoop(src, all, target, p);
    while p.Unread() > 0 && !raised && !missing
      invariant LoopState(src, all, target, p, log, insertGroup, lineCount)
      invariant Loads(old(ShownBy(db)), ShownBy(db), src, all, target, log)
      invariant if raised then p0.RaisePending() else p.RaisePending() == p0.RaisePending()
      invariant missing ==> !PathsDiffer(all)
      decreases p.Unread()
    {
      p, log, insertGroup, lineCount, raised, missing :=
        ConsumeNext(db, old(ShownBy(db)), src, all, p, target, log, insertGroup, lineCount);
    }
    if !raised && !missing {
      NothingPending(p);
    }
  }

  /** `ingest_ndjsons`. `queued` and `pending` are what an early end left in the queue and unread. */
  method IngestNdjsons(db: PgStac, src: Source, uris: seq<string>, fates: seq<Fate>, target: int)
    returns (exit: Exit, log: Log, queued: seq<Prepared>, ghost pending: multiset<Prepared>)
    requires |uris| == |fates|
    modifies db
    ensures Recorded(log) && Loads(old(ShownBy(db)), ShownBy(db), src, Chunks(src, uris, fates), target, log)
    ensures FlushedInBatches(log.flushes, target) && Queued(queued, target)
    ensures Balance(Chunks(src, uris, fates), pending, log.flushes, queued)
    ensures exit.IngestFailed? <==> exists u :: u in log.failed && u != ""
    ensures exit.UnlinkFailed? ==> !PathsDiffer(Chunks(src, uris, fates))
    ensures exit.PreparationFailed? ==> Raises in fates
    ensures PathsDiffer(Chunks(src, uris, fates)) && Raises in fates ==> exit.IngestFailed? || exit.PreparationFailed?
    ensures exit.Finished? ==> Raises !in fates
    ensures exit.Finished? || (PathsDiffer(Chunks(src, uris, fates)) && Raises !in fates) ==>
              queued == [] && pending == multiset{}
  {
    ghost var all := Chunks(src, uris, fates);
    var raised, missing;
    var p := Submitted(src, uris, fates);
    SubmittedOk(src, uris, fates);
    SubmittedPending(src, uris, fates);
    p, log, queued, raised, missing := ConsumeFutures(db, src, all, p, target);
    pending := p.Pending();
    LastFlush(target, log.flushes, queued);
    if !raised && !missing && |queued| > 0 {
      FlushBalances(all, pending, log.flushes, queued);
      p, log := Flush(db, old(ShownBy(db)), src, all, p, target, queued, log);
      queued := [];
    }
    var anyFailed := exists u :: u in log.failed && u != "";
    exit := if anyFailed then IngestFailed
            else if missing then UnlinkFailed
            else if raised then PreparationFailed
            else Finished;
  }

  // ---------------------------------------------------------------- what follows

  lemma {:induction false} LineSumConcat(a: seq<Prepared>, b: seq<Prepared>)
    ensures LineSum(a + b) == LineSum(a) + LineSum(b)
  {
    if b == [] {
      assert a + b == a;
    } else {
      LineSumConcat(a, b[..|b| - 1]);
      assert (a + b)[..|a + b| - 1] == a + b[..|b| - 1];
    }
  }

  lemma OneMoreMultiple(k: nat, n: int)
    ensures (k + 1) * n == k * n + n
  {
  }

  lemma {:induction false} FullFlushLines(flushes: seq<seq<Prepared>>, target: int)
    requires forall i :: 0 <= i < |flushes| ==> FullFlush(flushes[i], target)
    ensures |flushes| * target <= LineSum(Flatten(flushes))
  {
    if flushes != [] {
      var front, last := flushes[..|flushes| - 1], flushes[|flushes| - 1];
      FullFlushLines(front, target);
      LineSumConcat(Flatten(front), last);
      assert FullFlush(last, target);
      OneMoreMultiple(|front|, target);
    }
  }

  /** The number of flushes is at most the lines flushed divided by the target, plus one. */
  lemma FlushCount(flushes: seq<seq<Prepared>>, target: nat)
    requires target > 0 && FlushedInBatches(flushes, target)
    ensures |flushes| <= LineSum(Flatten(flushes)) / target + 1
  {
    if flushes != [] {
      var front, last := flushes[..|flushes| - 1], flushes[|flushes| - 1];
      FullFlushLines(front, target);
      LineSumConcat(Flatten(front), last);
      var total := LineSum(Flatten(flushes));
      QuotientBound(|front|, target, total);
    }
  }

  lemma QuotientBound(k: nat, n: nat, total: nat)
    requires n > 0 && k * n <= total
    ensures k <= total / n
  {
    var q := total / n;
    assert total == q * n + total % n;
    if q < k {
      MulLess(q, k, n);
    }
  }

  lemma {:induction false} MulLess(q: nat, k: nat, n: nat)
    requires q < k
    ensures q * n + n <= k * n
  {
    assert k * n == (k - 1) * n + n;
    if q < k - 1 {
      MulLess(q, k - 1, n);
    }
  }

  /** No flush, and so no queue, holds more than the target less one plus its last chunk. */
  lemma FlushSize(flush: seq<Prepared>, target: int)
    requires target > 0 && (FullFlush(flush, target) || (flush != [] && Queued(flush, target)))
    ensures LineSum(flush) <= target - 1 + flush[|flush| - 1].lineCount
  {
  }

  /** If every preparation succeeds and the call gets to its end, then in every completion order the
      success and failure lists together are a permutation of the uris, and the call raises
      `IngestFailedException` exactly when a non-empty uri failed. */
  lemma UrisConserved(src: Source, uris: seq<string>, fates: seq<Fate>, log: Log)
    requires |uris| == |fates| && forall f :: f in fates ==> f.Prepares?
    requires Recorded(log) && Balance(Chunks(src, uris, fates), multiset{}, log.flushes, [])
    ensures multiset(log.success) + multiset(log.failed) == multiset(uris)
    ensures (forall u :: u in uris ==> u != "") ==> (AnyTruthy(log.failed) <==> log.failed != [])
  {
    var chunks, flat := DoneChunks(Outcomes(src, uris, fates)), Flatten(log.flushes);
    UrisOfFlatten(log.flushes, log.oks);
    DoneAll(src, uris, fates);
    assert flat + [] == flat;
    SameUris(flat, chunks);
    FailedAreUris(log.success, log.failed, uris);
  }

  lemma FailedAreUris(success: seq<string>, failed: seq<string>, uris: seq<string>)
    requires multiset(success) + multiset(failed) == multiset(uris)
    ensures (forall u :: u in uris ==> u != "") ==> (AnyTruthy(failed) <==> failed != [])
  {
    forall u | u in failed
      ensures u in uris
    {
      assert u in multiset(success) + multiset(failed);
    }
    if failed != [] {
      assert failed[0] in failed;
    }
  }

  lemma {:induction false} DoneAll(src: Source, uris: seq<string>, fates: seq<Fate>)
    requires |uris| == |fates| && forall f :: f in fates ==> f.Prepares?
    ensures Uris(DoneChunks(Outcomes(src, uris, fates))) == uris
  {
    if uris != [] {
      var k := |uris| - 1;
      DoneAll(src, uris[..k], fates[..k]);
      OutcomesSnoc(src, uris, fates);
      assert fates[k] in fates;
      assert uris == uris[..k] + [uris[k]];
    }
  }

  lemma UrisRemoveAt(s: seq<Prepared>, i: nat)
    requires i < |s|
    ensures multiset(Uris(s)) == multiset(Uris(RemoveAt(s, i))) + multiset{s[i].uri}
  {
    assert Uris(RemoveAt(s, i)) == RemoveAt(Uris(s), i);
    RemoveAtMultiset(Uris(s), i);
  }

  lemma Cancel<T>(p: multiset<T>, q: multiset<T>, r: multiset<T>)
    requires p + r == q + r
    ensures p == q
  {
    assert p == p + r - r && q == q + r - r;
  }

  /** Permutations have permuted uris. */
  lemma {:induction false} SameUris(a: seq<Prepared>, b: seq<Prepared>)
    requires multiset(a) == multiset(b)
    ensures multiset(Uris(a)) == multiset(Uris(b))
  {
    if a == [] {
      assert |multiset(b)| == |b|;
    } else {
      assert a[0] in multiset(b);
      var i :| 0 <= i < |b| && b[i] == a[0];
      RemoveAtMultiset(a, 0);
      RemoveAtMultiset(b, i);
      UrisRemoveAt(a, 0);
      UrisRemoveAt(b, i);
      Cancel(multiset(RemoveAt(a, 0)), multiset(RemoveAt(b, i)), multiset{a[0]});
      SameUris(RemoveAt(a, 0), RemoveAt(b, i));
    }
  }
}
