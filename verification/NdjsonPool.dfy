/** The preparation of chunk files in the background: the processes of `ingest_ndjsons`, the files
    they write and the futures they complete. */
module NdjsonPool {
  import opened Common
  import opened NdjsonText

  datatype Prepared = PreparedNdjson(uri: string, preparedPath: string, lineCount: nat)

  /** What a submitted preparation turns out to be. */
  datatype Future = Done(chunk: Prepared) | Cancelled | Raised

  /** What becomes of the preparation of a uri. */
  datatype Fate = Prepares | Cancels | Raises

  /** The text behind each uri, the file it is prepared in, and the id in the JSON of a line, None
      where parsing the line or finding the id raises. The file depends on the last part of a uri
      only, so different uris may share it. */
  datatype Source = Source(pathOf: string -> string, textOf: string -> string, idOf: string -> Option<string>)

  /** What `prepare_chunk` returns for a uri. */
  function ChunkOf(src: Source, uri: string): Prepared {
    PreparedNdjson(uri, src.pathOf(uri), |Lines(src.textOf(uri))|)
  }

  function Outcome(src: Source, uri: string, fate: Fate): Future {
    match fate
    case Prepares => Done(ChunkOf(src, uri))
    case Cancels => Cancelled
    case Raises => Raised
  }

  /** The futures of the submitted preparations, by what they will turn out to be. */
  function Outcomes(src: Source, uris: seq<string>, fates: seq<Fate>): seq<Future>
    requires |uris| == |fates|
  {
    seq(|uris|, i requires 0 <= i < |uris| => Outcome(src, uris[i], fates[i]))
  }

  function DoneChunks(futures: seq<Future>): seq<Prepared> {
    if futures == [] then []
    else
      DoneChunks(futures[..|futures| - 1]) +
      if futures[|futures| - 1].Done? then [futures[|futures| - 1].chunk] else []
  }

  lemma {:induction false} DoneConcat(a: seq<Future>, b: seq<Future>)
    ensures DoneChunks(a + b) == DoneChunks(a) + DoneChunks(b)
  {
    if b == [] {
      assert a + b == a;
    } else {
      DoneConcat(a, b[..|b| - 1]);
      assert (a + b)[..|a + b| - 1] == a + b[..|b| - 1];
    }
  }

  lemma DoneParts(a: seq<Future>, x: seq<Future>, b: seq<Future>)
    ensures multiset(DoneChunks(a + x + b)) == multiset(DoneChunks(a + b)) + multiset(DoneChunks(x))
  {
    DoneConcat(a, x);
    DoneConcat(a + x, b);
    DoneConcat(a, b);
  }

  /** The chunk of a future, if it has one. */
  function ChunkIn(f: Future): seq<Prepared> {
    if f.Done? then [f.chunk] else []
  }

  lemma DoneOne(f: Future)
    ensures DoneChunks([f]) == ChunkIn(f)
  {
    assert [f][..0] == [];
  }

  lemma DoneSnoc(futures: seq<Future>, f: Future)
    ensures DoneChunks(futures + [f]) == DoneChunks(futures) + ChunkIn(f)
  {
    assert (futures + [f])[..|futures|] == futures;
  }

  lemma DoneRemove(pending: seq<Future>, i: nat)
    requires i < |pending|
    ensures multiset(DoneChunks(pending)) == multiset(DoneChunks(RemoveAt(pending, i))) + multiset(ChunkIn(pending[i]))
  {
    var a, x, b := pending[..i], pending[i], pending[i + 1..];
    ThreeParts(pending, i);
    DoneParts(a, [x], b);
    DoneOne(x);
  }

  lemma ThreeParts<T>(s: seq<T>, i: nat)
    requires i < |s|
    ensures s[..i] + [s[i]] + s[i + 1..] == s
  {
  }

  // ---------------------------------------------------------------- shared files

  /** No two of the chunks are prepared in one file. */
  ghost predicate PathsDiffer(chunks: multiset<Prepared>) {
    forall c, d :: TwoOf(chunks, c, d) ==> c.preparedPath != d.preparedPath
  }

  ghost predicate TwoOf(chunks: multiset<Prepared>, c: Prepared, d: Prepared) {
    multiset{c, d} <= chunks
  }

  /** `text` is that of a chunk of the call that is prepared at the path. */
  ghost predicate WrittenBy(src: Source, all: multiset<Prepared>, path: string, text: string) {
    exists c :: c in all && c.preparedPath == path && text == src.textOf(c.uri)
  }

  /** What a file holds: the text of a chunk of the call that is prepared in it, and a newline. */
  ghost predicate Holds(src: Source, all: multiset<Prepared>, path: string, content: string) {
    content != "" && content[|content| - 1] == NL && WrittenBy(src, all, path, content[..|content| - 1])
  }

  ghost predicate FilesHold(src: Source, all: multiset<Prepared>, files: map<string, string>) {
    forall path :: path in files ==> Holds(src, all, path, files[path])
  }

  /** The chunks that are prepared, or read and not yet deleted, have their files. */
  ghost predicate Present(files: map<string, string>, chunks: multiset<Prepared>) {
    forall c :: c in chunks ==> c.preparedPath in files
  }

  /** What is kept of the files: `running`, `completed` and `held` are the chunks whose file is still
      to be written, written but not read by the main loop, and taken over by it and not deleted. */
  ghost predicate FilesOk(src: Source, all: multiset<Prepared>, files: map<string, string>,
                          running: multiset<Prepared>, completed: multiset<Prepared>, held: multiset<Prepared>)
  {
    && running + completed + held <= all
    && (forall c :: c in all ==> c == ChunkOf(src, c.uri))
    && FilesHold(src, all, files)
    && (PathsDiffer(all) ==> Present(files, completed + held))
  }

  lemma WriteHolds(src: Source, all: multiset<Prepared>, files: map<string, string>, c: Prepared)
    requires FilesHold(src, all, files) && c in all
    ensures FilesHold(src, all, files[c.preparedPath := src.textOf(c.uri) + [NL]])
  {
    var text := src.textOf(c.uri);
    assert (text + [NL])[..|text + [NL]| - 1] == text;
    assert WrittenBy(src, all, c.preparedPath, text);
  }

  lemma WriteKeeps(src: Source, all: multiset<Prepared>, files: map<string, string>,
                   running: multiset<Prepared>, completed: multiset<Prepared>, held: multiset<Prepared>, c: Prepared)
    requires FilesOk(src, all, files, running + multiset{c}, completed, held)
    ensures FilesOk(src, all, files[c.preparedPath := src.textOf(c.uri) + [NL]], running, completed + multiset{c}, held)
  {
    assert c in running + multiset{c} + completed + held;
    assert running + multiset{c} + completed + held == running + (completed + multiset{c}) + held;
    WriteHolds(src, all, files, c);
    assert forall d :: d in completed + multiset{c} + held ==> d == c || d in completed + held;
  }

  lemma TakeKeeps(src: Source, all: multiset<Prepared>, files: map<string, string>,
                  running: multiset<Prepared>, completed: multiset<Prepared>, held: multiset<Prepared>, c: Prepared)
    requires FilesOk(src, all, files, running, completed + multiset{c}, held)
    ensures FilesOk(src, all, files, running, completed, held + multiset{c})
    ensures c in all
  {
    assert completed + multiset{c} + held == completed + (held + multiset{c});
    assert running + (completed + multiset{c}) + held == running + completed + (held + multiset{c});
    assert c in running + completed + (held + multiset{c});
  }

  /** Deleting the file of a held chunk takes away no other chunk's file when none share one. */
  lemma UnlinkKeeps(src: Source, all: multiset<Prepared>, files: map<string, string>,
                    running: multiset<Prepared>, completed: multiset<Prepared>, held: multiset<Prepared>, c: Prepared)
    requires FilesOk(src, all, files, running, completed, held) && c in held
    ensures PathsDiffer(all) ==> c.preparedPath in files
    ensures FilesOk(src, all, files - {c.preparedPath}, running, completed, held - multiset{c})
  {
    assert c in completed + held;
    assert running + completed + (held - multiset{c}) <= running + completed + held;
    if PathsDiffer(all) {
      forall d | d in completed + (held - multiset{c})
        ensures d.preparedPath in files - {c.preparedPath}
      {
        assert d in completed + held;
        TwoInAll(all, running, completed, held, c, d);
      }
    }
  }

  lemma TwoInAll(all: multiset<Prepared>, running: multiset<Prepared>, completed: multiset<Prepared>,
                 held: multiset<Prepared>, c: Prepared, d: Prepared)
    requires running + completed + held <= all && c in held && d in completed + (held - multiset{c})
    ensures TwoOf(all, c, d)
  {
    assert multiset{c, d} == multiset{c} + multiset{d};
    assert held == multiset{c} + (held - multiset{c});
    assert multiset{d} <= completed + (held - multiset{c});
    assert multiset{c} + multiset{d} <= completed + held;
  }

  /** The processes and their directory. `running` have not written their file yet; `completed` have
      not been read by the main loop; `held` are the chunks that the main loop has taken over and
      whose file it has not deleted. */
  datatype Pool = Pool(
    files: map<string, string>,
    running: seq<Future>,
    completed: seq<Future>,
    held: multiset<Prepared>)
  {
    /** The prepared chunks that the main loop has not read. */
    function Pending(): multiset<Prepared> {
      multiset(DoneChunks(running)) + multiset(DoneChunks(completed))
    }

    predicate RaisePending() {
      Raised in running || Raised in completed
    }

    /** The futures that the main loop has not read. */
    function Unread(): nat {
      |running| + |completed|
    }
  }

  /** `all` are the chunks of the call. */
  ghost predicate PoolOk(src: Source, all: multiset<Prepared>, p: Pool) {
    FilesOk(src, all, p.files, multiset(DoneChunks(p.running)), multiset(DoneChunks(p.completed)), p.held)
  }

  /** All processes have been submitted, and none has finished. */
  function Submitted(src: Source, uris: seq<string>, fates: seq<Fate>): Pool
    requires |uris| == |fates|
  {
    Pool(map[], Outcomes(src, uris, fates), [], multiset{})
  }

  /** The files after a preparation that turned out to be `f`: its own file is written over
      whatever was there. */
  function FilesAfter(src: Source, files: map<string, string>, f: Future): map<string, string> {
    if f.Done? then files[f.chunk.preparedPath := src.textOf(f.chunk.uri) + [NL]] else files
  }

  /** The `i`-th running process has finished. */
  function Completed(src: Source, p: Pool, i: nat): Pool
    requires i < |p.running|
  {
    Pool(FilesAfter(src, p.files, p.running[i]), RemoveAt(p.running, i), p.completed + [p.running[i]], p.held)
  }

  /** The main loop has read the `k`-th completed future. */
  function Taken(p: Pool, k: nat): Pool
    requires k < |p.completed|
  {
    p.(completed := RemoveAt(p.completed, k), held := p.held + multiset(ChunkIn(p.completed[k])))
  }

  /** The main loop has deleted the file of a chunk. */
  function Unlinked(p: Pool, c: Prepared): Pool {
    p.(files := p.files - {c.preparedPath}, held := p.held - multiset{c})
  }

  lemma CompletedKeeps(src: Source, all: multiset<Prepared>, p: Pool, i: nat)
    requires i < |p.running| && PoolOk(src, all, p)
    ensures PoolOk(src, all, Completed(src, p, i))
  {
    var f := p.running[i];
    DoneRemove(p.running, i);
    DoneSnoc(p.completed, f);
    if f.Done? {
      assert multiset(ChunkIn(f)) == multiset{f.chunk};
      WriteKeeps(src, all, p.files, multiset(DoneChunks(RemoveAt(p.running, i))), multiset(DoneChunks(p.completed)),
                 p.held, f.chunk);
    }
  }

  lemma CompletedPending(src: Source, p: Pool, i: nat)
    requires i < |p.running|
    ensures Completed(src, p, i).Pending() == p.Pending()
    ensures Completed(src, p, i).RaisePending() == p.RaisePending()
    ensures Completed(src, p, i).Unread() == p.Unread()
  {
    DoneRemove(p.running, i);
    DoneSnoc(p.completed, p.running[i]);
    RaisedMoves(p.running, i, p.completed);
  }

  lemma TakenKeeps(src: Source, all: multiset<Prepared>, p: Pool, k: nat)
    requires k < |p.completed| && PoolOk(src, all, p)
    ensures PoolOk(src, all, Taken(p, k))
  {
    var f := p.completed[k];
    DoneRemove(p.completed, k);
    if f.Done? {
      assert multiset(ChunkIn(f)) == multiset{f.chunk};
      TakeKeeps(src, all, p.files, multiset(DoneChunks(p.running)), multiset(DoneChunks(RemoveAt(p.completed, k))),
                p.held, f.chunk);
    } else {
      assert p.held + multiset(ChunkIn(f)) == p.held;
    }
  }

  lemma TakenPending(p: Pool, k: nat)
    requires k < |p.completed|
    ensures p.Pending() == Taken(p, k).Pending() + multiset(ChunkIn(p.completed[k]))
    ensures p.completed[k].Raised? ==> p.RaisePending()
    ensures !p.completed[k].Raised? ==> Taken(p, k).RaisePending() == p.RaisePending()
  {
    DoneRemove(p.completed, k);
    RaisedLeaves(p.completed, k);
  }

  /** `os.unlink` on the file of a held chunk finds it, unless two chunks shared it. */
  lemma UnlinkedKeeps(src: Source, all: multiset<Prepared>, p: Pool, c: Prepared)
    requires PoolOk(src, all, p) && c in p.held
    ensures PoolOk(src, all, Unlinked(p, c))
    ensures PathsDiffer(all) ==> c.preparedPath in p.files
  {
    UnlinkKeeps(src, all, p.files, multiset(DoneChunks(p.running)), multiset(DoneChunks(p.completed)), p.held, c);
  }

  lemma OutcomesSnoc(src: Source, uris: seq<string>, fates: seq<Fate>)
    requires |uris| == |fates| > 0
    ensures var k := |uris| - 1;
      DoneChunks(Outcomes(src, uris, fates)) ==
      DoneChunks(Outcomes(src, uris[..k], fates[..k])) + ChunkIn(Outcome(src, uris[k], fates[k]))
  {
    var k := |uris| - 1;
    var futures := Outcomes(src, uris, fates);
    assert futures[..k] == Outcomes(src, uris[..k], fates[..k]);
  }

  /** The chunks of a call: those of the uris whose preparation succeeds. */
  function Chunks(src: Source, uris: seq<string>, fates: seq<Fate>): multiset<Prepared>
    requires |uris| == |fates|
  {
    multiset(DoneChunks(Outcomes(src, uris, fates)))
  }

  lemma SubmittedOk(src: Source, uris: seq<string>, fates: seq<Fate>)
    requires |uris| == |fates|
    ensures PoolOk(src, Chunks(src, uris, fates), Submitted(src, uris, fates))
  {
    OutcomeChunks(src, uris, fates);
  }

  lemma SubmittedPending(src: Source, uris: seq<string>, fates: seq<Fate>)
    requires |uris| == |fates|
    ensures Submitted(src, uris, fates).Pending() == Chunks(src, uris, fates)
    ensures Submitted(src, uris, fates).RaisePending() <==> Raises in fates
  {
    var futures := Outcomes(src, uris, fates);
    assert DoneChunks([]) == [];
    if Raises in fates {
      var i :| 0 <= i < |fates| && fates[i] == Raises;
      assert futures[i] == Raised;
    }
  }

  /** One process finishes. */
  method Complete(src: Source, p: Pool, i: nat) returns (p': Pool)
    requires i < |p.running|
    ensures p' == Completed(src, p, i)
  {
    var f := p.running[i];
    var files := p.files;
    if f.Done? {
      var prepared, lineCount := PrepareChunk(src.textOf(f.chunk.uri));
      files := files[f.chunk.preparedPath := prepared];
    }
    p' := Pool(files, RemoveAt(p.running, i), p.completed + [f], p.held);
  }

  /** The main loop has as much to read from `q` as from `p`. */
  ghost predicate SamePending(p: Pool, q: Pool) {
    q.Pending() == p.Pending() && q.RaisePending() == p.RaisePending() && q.Unread() == p.Unread()
  }

  /** `q` comes from `p` when some processes finish. */
  ghost predicate Progressed(src: Source, all: multiset<Prepared>, p: Pool, q: Pool) {
    (PoolOk(src, all, p) ==> PoolOk(src, all, q)) && SamePending(p, q) && q.held == p.held
  }

  lemma CompletedProgressed(src: Source, all: multiset<Prepared>, p: Pool, q: Pool, i: nat)
    requires Progressed(src, all, p, q) && i < |q.running|
    ensures Progressed(src, all, p, Completed(src, q, i))
  {
    CompletedPending(src, q, i);
    if PoolOk(src, all, p) {
      CompletedKeeps(src, all, q, i);
    }
  }

  /** Any number of processes finish, in any order. */
  method Progress(src: Source, ghost all: multiset<Prepared>, p: Pool) returns (q: Pool)
    ensures Progressed(src, all, p, q)
  {
    q := p;
    var steps: nat := *;
    while steps > 0 && q.running != []
      invariant Progressed(src, all, p, q)
      decreases |q.running|
    {
      var i: nat :| i < |q.running|;
      CompletedProgressed(src, all, p, q, i);
      q := Complete(src, q, i);
      steps := steps - 1;
    }
  }

  /** `q` comes from `p` when some processes finish and the main loop reads a future. */
  ghost predicate Advanced(src: Source, all: multiset<Prepared>, p: Pool, q: Pool, f: Future) {
    && (PoolOk(src, all, p) ==> PoolOk(src, all, q))
    && p.Pending() == q.Pending() + multiset(ChunkIn(f)) && q.held == p.held + multiset(ChunkIn(f))
    && q.Unread() < p.Unread()
    && (if f.Raised? then p.RaisePending() else p.RaisePending() == q.RaisePending())
  }

  lemma TakenAdvances(src: Source, all: multiset<Prepared>, p: Pool, r: Pool, k: nat)
    requires Progressed(src, all, p, r) && k < |r.completed|
    ensures Advanced(src, all, p, Taken(r, k), r.completed[k])
  {
    TakenPending(r, k);
    if PoolOk(src, all, r) {
      TakenKeeps(src, all, r, k);
    }
  }

  /** The next future of `as_completed`: waits until one is completed, and takes any that is. */
  method Next(src: Source, ghost all: multiset<Prepared>, p: Pool) returns (q: Pool, f: Future)
    requires p.Unread() > 0
    ensures Advanced(src, all, p, q, f)
  {
    var r := Progress(src, all, p);
    if r.completed == [] {
      var i: nat :| i < |r.running|;
      CompletedProgressed(src, all, p, r, i);
      r := Complete(src, r, i);
    }
    var k: nat :| k < |r.completed|;
    f := r.completed[k];
    q := Taken(r, k);
    TakenAdvances(src, all, p, r, k);
  }

  lemma {:induction false} ChunksOfOutcomes(src: Source, futures: seq<Future>)
    requires forall f :: f in futures && f.Done? ==> f.chunk == ChunkOf(src, f.chunk.uri)
    ensures forall c :: c in DoneChunks(futures) ==> c == ChunkOf(src, c.uri)
  {
    if futures != [] {
      var front, last := futures[..|futures| - 1], futures[|futures| - 1];
      assert last in futures && forall f :: f in front ==> f in futures;
      ChunksOfOutcomes(src, front);
    }
  }

  lemma OutcomeChunks(src: Source, uris: seq<string>, fates: seq<Fate>)
    requires |uris| == |fates|
    ensures forall c :: c in multiset(DoneChunks(Outcomes(src, uris, fates))) ==> c == ChunkOf(src, c.uri)
    ensures multiset(DoneChunks([])) == multiset{}
  {
    ChunksOfOutcomes(src, Outcomes(src, uris, fates));
  }

  lemma RaisedMoves(running: seq<Future>, i: nat, completed: seq<Future>)
    requires i < |running|
    ensures Raised in running || Raised in completed <==>
            Raised in RemoveAt(running, i) || Raised in completed + [running[i]]
  {
    ThreeParts(running, i);
    assert Raised in running <==> Raised in running[..i] || Raised == running[i] || Raised in running[i + 1..];
  }

  lemma RaisedLeaves(completed: seq<Future>, k: nat)
    requires k < |completed|
    ensures completed[k].Raised? ==> Raised in completed
    ensures !completed[k].Raised? ==> (Raised in completed <==> Raised in RemoveAt(completed, k))
  {
    ThreeParts(completed, k);
    assert Raised in completed <==>
           Raised in completed[..k] || Raised == completed[k] || Raised in completed[k + 1..];
  }
}
