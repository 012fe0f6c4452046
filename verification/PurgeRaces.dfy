/**
 Purging one table while other requests write to it and other purges run on it. A write is a row
 write and, later, its count; every `purgeEvery` counts start one more purge. A purge is a bounded
 number of batches, each a select of expired keys and, later, a delete of those of them that are
 expired then; it ends early after a batch that is not full. Anything may happen between two steps.
 */
module PurgeRaces {
  import opened Basics
  import opened Purge

  type JobId = nat

  /** A purge in flight. History: `owes`, how many of its quota of keys it has not yet selected. */
  datatype Job = Job(batchesLeft: nat, batch: set<Key>, owes: nat)

  /**
   `uncounted` is the number of writes whose count is still to come. History: `marked` are the keys
   selected by a purge in flight and not written since, `peak` the larger of the starting size and
   the most live rows any batch that was not full found, and `lost` how often a purge selected a
   key that was marked already.
   */
  datatype State = State(
    now: int,
    rows: Rows,
    since: nat,
    uncounted: nat,
    jobs: map<JobId, Job>,
    marked: set<Key>,
    peak: nat,
    lost: nat)

  datatype Step =
    | Tick(to: int)
    | Put(key: Key, deadline: Option<int>)         // create, claim or counter upsert
    | CountWrite(job: JobId)
    | Touch(key: Key, deadline: Option<int>)       // update, modify or extend of a live row
    | Remove(key: Key)
    | Select(job: JobId, batch: set<Key>)
    | DeleteBatch(job: JobId)

  function Init(rows: Rows): State { State(0, rows, 0, 0, map[], {}, |rows|, 0) }

  function Batches(cfg: Config): nat
    requires cfg.batchSize > 0
  {
    (cfg.purgeEvery + cfg.batchSize - 1) / cfg.batchSize
  }

  /** What the select may return: expired keys, all of them unless the batch is full. */
  predicate IsBatch(cfg: Config, s: State, batch: set<Key>) {
    batch <= Expired(s.rows, s.now) && |batch| <= cfg.batchSize &&
    (|batch| < cfg.batchSize ==> batch == Expired(s.rows, s.now))
  }

  predicate Enabled(cfg: Config, s: State, e: Step) {
    match e
    case Tick(to) => s.now <= to
    case Put(_, _) => true
    case CountWrite(job) => 0 < s.uncounted && job !in s.jobs
    case Touch(key, _) => key in s.rows && !Dead(s.rows[key], s.now)
    case Remove(_) => true
    case Select(job, batch) =>
      job in s.jobs && s.jobs[job].batch == {} && 0 < s.jobs[job].batchesLeft && IsBatch(cfg, s, batch)
    case DeleteBatch(job) => job in s.jobs && s.jobs[job].batch != {}
  }

  /** A purge with its next batch; one that is not full is its last. */
  function WithBatch(cfg: Config, job: Job, batch: set<Key>): Job
    requires 0 < job.batchesLeft
  {
    var short := |batch| < cfg.batchSize;
    Job(if short then 0 else job.batchesLeft - 1, batch,
        if short || job.owes <= |batch| then 0 else job.owes - |batch|)
  }

  function Selecting(cfg: Config, s: State, id: JobId, batch: set<Key>): State
    requires id in s.jobs && 0 < s.jobs[id].batchesLeft
  {
    var short := |batch| < cfg.batchSize;
    s.(jobs := if batch == {} then s.jobs - {id} else s.jobs[id := WithBatch(cfg, s.jobs[id], batch)],
       lost := s.lost + |batch * s.marked|,
       marked := s.marked + batch,
       peak := if short then Max(s.peak, |Live(s.rows, s.now)|) else s.peak)
  }

  function Deleting(s: State, id: JobId): State
    requires id in s.jobs
  {
    var job := s.jobs[id];
    s.(rows := s.rows - (job.batch * Expired(s.rows, s.now)),
       marked := s.marked - job.batch,
       jobs := if job.batchesLeft == 0 then s.jobs - {id} else s.jobs[id := job.(batch := {})])
  }

  function Counting(cfg: Config, s: State, id: JobId): State
    requires cfg.batchSize > 0 && 0 < s.uncounted
  {
    var t := s.(uncounted := s.uncounted - 1);
    if cfg.purgeEvery == 0 then t
    else if s.since + 1 < cfg.purgeEvery then t.(since := s.since + 1)
    else t.(since := 0, jobs := s.jobs[id := Job(Batches(cfg), {}, cfg.purgeEvery)])
  }

  function Next(cfg: Config, s: State, e: Step): State
    requires cfg.batchSize > 0
  {
    if !Enabled(cfg, s, e) then s else
    match e
    case Tick(to) => s.(now := to)
    case Put(key, deadline) =>
      s.(rows := s.rows[key := deadline], uncounted := s.uncounted + 1, marked := s.marked - {key})
    case CountWrite(job) => Counting(cfg, s, job)
    case Touch(key, deadline) => s.(rows := s.rows[key := deadline])
    case Remove(key) => s.(rows := s.rows - {key})
    case Select(job, batch) => Selecting(cfg, s, job, batch)
    case DeleteBatch(job) => Deleting(s, job)
  }

  function After(cfg: Config, rows: Rows, run: seq<Step>): State
    requires cfg.batchSize > 0
  {
    if run == [] then Init(rows) else Next(cfg, After(cfg, rows, run[..|run| - 1]), run[|run| - 1])
  }

  // ---- what the purges in flight still owe -------------------------------------------------------

  ghost function Owing(jobs: map<JobId, Job>): nat {
    if jobs == map[] then 0
    else
      var id :| id in jobs;
      jobs[id].owes + Owing(jobs - {id})
  }

  lemma {:induction false} OwingTakesOut(jobs: map<JobId, Job>, id: JobId)
    requires id in jobs
    ensures Owing(jobs) == jobs[id].owes + Owing(jobs - {id})
    decreases |jobs|
  {
    var k :| k in jobs && Owing(jobs) == jobs[k].owes + Owing(jobs - {k});
    if k != id {
      OwingTakesOut(jobs - {k}, id);
      OwingTakesOut(jobs - {id}, k);
      assert jobs - {k} - {id} == jobs - {id} - {k};
    }
  }

  lemma OwingUpdate(jobs: map<JobId, Job>, id: JobId, job: Job)
    ensures Owing(jobs[id := job]) == job.owes + Owing(jobs - {id})
  {
    OwingTakesOut(jobs[id := job], id);
    assert jobs[id := job] - {id} == jobs - {id};
  }

  // ---- the invariant -------------------------------------------------------------------------------

  /** The rows no purge in flight is about to delete. */
  function Unmarked(s: State): set<Key> { s.rows.Keys - s.marked }

  ghost predicate JobOk(cfg: Config, job: Job) {
    job.owes <= Product(job.batchesLeft, cfg.batchSize) && (job.batch == {} ==> 0 < job.batchesLeft)
  }

  ghost predicate Held(s: State, k: Key, id: JobId) { id in s.jobs && k in s.jobs[id].batch }

  /** What is marked is expired, or gone, and some purge in flight has it in its batch. */
  ghost predicate MarkOk(s: State, k: Key) {
    (k in s.rows ==> Dead(s.rows[k], s.now)) && exists id :: Held(s, k, id)
  }

  ghost predicate MarksOk(s: State) { forall k :: k in s.marked ==> MarkOk(s, k) }

  ghost predicate Bounded(s: State) {
    |Unmarked(s)| <= s.peak + s.since + s.uncounted + Owing(s.jobs) + s.lost
  }

  ghost predicate Inv(cfg: Config, s: State) {
    && (forall id :: id in s.jobs ==> JobOk(cfg, s.jobs[id]))
    && MarksOk(s) && Bounded(s)
    && (cfg.purgeEvery > 0 ==> s.since < cfg.purgeEvery)
  }

  /** Marks carry over when the marked rows stay as they were, or go, and the batches remain. */
  lemma MarksCarry(s: State, t: State)
    requires MarksOk(s) && t.marked <= s.marked && s.now <= t.now
    requires forall k :: k in t.marked && k in t.rows ==> k in s.rows && t.rows[k] == s.rows[k]
    requires forall id, k :: Held(s, k, id) && k in t.marked ==> Held(t, k, id)
    ensures MarksOk(t)
  {
    forall k | k in t.marked ensures MarkOk(t, k) {
      assert MarkOk(s, k);
      var id :| Held(s, k, id);
      assert Held(t, k, id);
    }
  }

  lemma PutKeeps(cfg: Config, s: State, key: Key, deadline: Option<int>)
    requires cfg.batchSize > 0 && Inv(cfg, s)
    ensures Inv(cfg, Next(cfg, s, Put(key, deadline)))
  {
    var t := Next(cfg, s, Put(key, deadline));
    SubsetSize(Unmarked(t), Unmarked(s) + {key});
    MarksCarry(s, t);
  }

  /** A step that adds no row and leaves the purges and what is marked alone. */
  lemma QuietKeeps(cfg: Config, s: State, t: State)
    requires Inv(cfg, s) && t == s.(rows := t.rows, now := t.now) && s.now <= t.now
    requires t.rows.Keys <= s.rows.Keys
    requires forall k :: k in s.marked && k in t.rows ==> t.rows[k] == s.rows[k]
    ensures Inv(cfg, t)
  {
    SubsetSize(Unmarked(t), Unmarked(s));
    MarksCarry(s, t);
  }

  lemma OwingFresh(jobs: map<JobId, Job>, id: JobId, job: Job)
    requires id !in jobs
    ensures Owing(jobs[id := job]) == job.owes + Owing(jobs)
  {
    OwingUpdate(jobs, id, job);
    assert jobs - {id} == jobs;
  }

  /** Starting a purge answers as many writes as it owes keys. */
  lemma StartBounded(s: State, t: State, id: JobId, job: Job)
    requires Bounded(s) && id !in s.jobs && 0 < s.uncounted && s.since + 1 <= job.owes
    requires t == s.(uncounted := s.uncounted - 1, since := 0, jobs := s.jobs[id := job])
    ensures Bounded(t)
  {
    OwingFresh(s.jobs, id, job);
    assert Unmarked(t) == Unmarked(s);
  }

  lemma CountBounded(cfg: Config, s: State, id: JobId)
    requires cfg.batchSize > 0 && cfg.purgeEvery > 0 && Inv(cfg, s) && Enabled(cfg, s, CountWrite(id))
    ensures Bounded(Counting(cfg, s, id))
  {
    if s.since + 1 >= cfg.purgeEvery {
      StartBounded(s, Counting(cfg, s, id), id, Job(Batches(cfg), {}, cfg.purgeEvery));
    }
  }

  lemma NewJobOk(cfg: Config)
    requires cfg.batchSize > 0 && cfg.purgeEvery > 0
    ensures JobOk(cfg, Job(Batches(cfg), {}, cfg.purgeEvery))
  {
    BatchesCover(cfg, Batches(cfg));
    assert Product(0, cfg.batchSize) == 0;
  }

  lemma CountKeepsMarks(cfg: Config, s: State, id: JobId)
    requires cfg.batchSize > 0 && MarksOk(s) && 0 < s.uncounted && id !in s.jobs
    ensures MarksOk(Counting(cfg, s, id))
  {
    MarksCarry(s, Counting(cfg, s, id));
  }

  lemma CountKeepsJobs(cfg: Config, s: State, id: JobId)
    requires cfg.batchSize > 0 && cfg.purgeEvery > 0 && 0 < s.uncounted && id !in s.jobs
    requires forall k :: k in s.jobs ==> JobOk(cfg, s.jobs[k])
    ensures forall k :: k in Counting(cfg, s, id).jobs ==> JobOk(cfg, Counting(cfg, s, id).jobs[k])
  {
    NewJobOk(cfg);
  }

  lemma CountKeeps(cfg: Config, s: State, id: JobId)
    requires cfg.batchSize > 0 && cfg.purgeEvery > 0 && Inv(cfg, s) && Enabled(cfg, s, CountWrite(id))
    ensures Inv(cfg, Counting(cfg, s, id))
  {
    CountBounded(cfg, s, id);
    CountKeepsMarks(cfg, s, id);
    CountKeepsJobs(cfg, s, id);
  }

  /** What a select leaves unmarked: the rest after a full batch, live rows only after a short one. */
  lemma SelectUnmarked(cfg: Config, s: State, id: JobId, batch: set<Key>)
    requires id in s.jobs && 0 < s.jobs[id].batchesLeft && IsBatch(cfg, s, batch)
    ensures var t := Selecting(cfg, s, id, batch);
            && |Unmarked(t)| + |batch| <= |Unmarked(s)| + |batch * s.marked|
            && (|batch| < cfg.batchSize ==> |Unmarked(t)| <= t.peak)
  {
    var t := Selecting(cfg, s, id, batch);
    MarkMore(s.rows.Keys, s.marked, batch);
    if |batch| < cfg.batchSize {
      forall k | k in Unmarked(t) ensures k in Live(s.rows, s.now).Keys {
        assert k !in Expired(s.rows, s.now);
      }
      SubsetSize(Unmarked(t), Live(s.rows, s.now).Keys);
    }
  }

  lemma MarkMore(keys: set<Key>, marked: set<Key>, batch: set<Key>)
    requires batch <= keys
    ensures |keys - (marked + batch)| + |batch| <= |keys - marked| + |batch * marked|
  {
    var added := batch - marked;
    assert keys - (marked + batch) == (keys - marked) - added;
    assert batch == added + batch * marked;
    assert added <= keys - marked;
  }

  lemma SelectBounded(cfg: Config, s: State, id: JobId, batch: set<Key>)
    requires cfg.batchSize > 0 && Inv(cfg, s) && Enabled(cfg, s, Select(id, batch))
    ensures Bounded(Selecting(cfg, s, id, batch))
  {
    var t := Selecting(cfg, s, id, batch);
    SelectUnmarked(cfg, s, id, batch);
    if |batch| == cfg.batchSize {
      OwingTakesOut(s.jobs, id);
      OwingUpdate(s.jobs, id, t.jobs[id]);
    }
  }

  lemma BatchedJobOk(cfg: Config, job: Job, batch: set<Key>)
    requires cfg.batchSize > 0 && JobOk(cfg, job) && 0 < job.batchesLeft && batch != {} && |batch| <= cfg.batchSize
    ensures JobOk(cfg, WithBatch(cfg, job, batch))
  {
    assert Product(job.batchesLeft, cfg.batchSize) == Product(job.batchesLeft - 1, cfg.batchSize) + cfg.batchSize;
  }

  lemma SelectKeepsMark(cfg: Config, s: State, id: JobId, batch: set<Key>, k: Key)
    requires Inv(cfg, s) && Enabled(cfg, s, Select(id, batch)) && (k in s.marked || k in batch)
    ensures MarkOk(Selecting(cfg, s, id, batch), k)
  {
    var t := Selecting(cfg, s, id, batch);
    if k in batch {
      assert k in Expired(s.rows, s.now) && Held(t, k, id);
    } else {
      assert MarkOk(s, k);
      var j :| Held(s, k, j);
      assert j != id && Held(t, k, j);
    }
  }

  lemma SelectKeeps(cfg: Config, s: State, id: JobId, batch: set<Key>)
    requires cfg.batchSize > 0 && Inv(cfg, s) && Enabled(cfg, s, Select(id, batch))
    ensures Inv(cfg, Selecting(cfg, s, id, batch))
  {
    SelectBounded(cfg, s, id, batch);
    forall k | k in Selecting(cfg, s, id, batch).marked ensures MarkOk(Selecting(cfg, s, id, batch), k) {
      SelectKeepsMark(cfg, s, id, batch, k);
    }
    assert JobOk(cfg, s.jobs[id]);
    if batch != {} {
      BatchedJobOk(cfg, s.jobs[id], batch);
    }
  }

  lemma DeleteBounded(cfg: Config, s: State, id: JobId)
    requires Inv(cfg, s) && Enabled(cfg, s, DeleteBatch(id))
    ensures Bounded(Deleting(s, id))
  {
    var t, job := Deleting(s, id), s.jobs[id];
    forall k | k in job.batch && k in s.marked ensures k !in t.rows {
      assert MarkOk(s, k);
      if k in s.rows {
        assert k in Expired(s.rows, s.now);
      }
    }
    SubsetSize(Unmarked(t), Unmarked(s));
    assert JobOk(cfg, s.jobs[id]);
    OwingTakesOut(s.jobs, id);
    if job.batchesLeft == 0 {
      assert Product(0, cfg.batchSize) == 0;
    } else {
      OwingUpdate(s.jobs, id, t.jobs[id]);
    }
  }

  lemma DeleteKeepsMark(s: State, id: JobId, k: Key)
    requires MarkOk(s, k) && id in s.jobs && k !in s.jobs[id].batch
    ensures MarkOk(Deleting(s, id), k)
  {
    var j :| Held(s, k, j);
    assert Held(Deleting(s, id), k, j);
  }

  lemma DeleteKeepsMarks(cfg: Config, s: State, id: JobId)
    requires Inv(cfg, s) && Enabled(cfg, s, DeleteBatch(id))
    ensures MarksOk(Deleting(s, id))
  {
    forall k | k in Deleting(s, id).marked ensures MarkOk(Deleting(s, id), k) {
      DeleteKeepsMark(s, id, k);
    }
  }

  lemma DeleteKeepsJobs(cfg: Config, s: State, id: JobId)
    requires Inv(cfg, s) && Enabled(cfg, s, DeleteBatch(id))
    ensures forall k :: k in Deleting(s, id).jobs ==> JobOk(cfg, Deleting(s, id).jobs[k])
  {
    assert JobOk(cfg, s.jobs[id]);
  }

  lemma DeleteKeeps(cfg: Config, s: State, id: JobId)
    requires Inv(cfg, s) && Enabled(cfg, s, DeleteBatch(id))
    ensures Inv(cfg, Deleting(s, id))
  {
    DeleteBounded(cfg, s, id);
    DeleteKeepsMarks(cfg, s, id);
    DeleteKeepsJobs(cfg, s, id);
  }

  lemma StepKeeps(cfg: Config, s: State, e: Step)
    requires cfg.batchSize > 0 && cfg.purgeEvery > 0 && Inv(cfg, s)
    ensures Inv(cfg, Next(cfg, s, e))
  {
    if Enabled(cfg, s, e) {
      if e.Put? {
        PutKeeps(cfg, s, e.key, e.deadline);
      } else if e.CountWrite? {
        CountKeeps(cfg, s, e.job);
      } else if e.Select? {
        SelectKeeps(cfg, s, e.job, e.batch);
      } else if e.DeleteBatch? {
        DeleteKeeps(cfg, s, e.job);
      } else {
        QuietKeeps(cfg, s, Next(cfg, s, e));
      }
    }
  }

  lemma {:induction false} RunKeeps(cfg: Config, rows: Rows, run: seq<Step>)
    requires cfg.batchSize > 0 && cfg.purgeEvery > 0
    ensures Inv(cfg, After(cfg, rows, run))
  {
    if run == [] {
      assert Unmarked(Init(rows)) == rows.Keys;
    } else {
      RunKeeps(cfg, rows, run[..|run| - 1]);
      StepKeeps(cfg, After(cfg, rows, run[..|run| - 1]), run[|run| - 1]);
    }
  }

  // ---- main results ----------------------------------------------------------------------------------

  /**
   Purging under concurrency: whatever writes, purges and other requests interleave, the rows that
   no purge is about to delete number at most the peak, the writes not yet answered by a purge, what
   the purges in flight still owe, and the selections lost to overlapping purges.
   */
  lemma PurgingKeepsUp(cfg: Config, rows: Rows, run: seq<Step>)
    requires cfg.batchSize > 0 && cfg.purgeEvery > 0
    ensures var s := After(cfg, rows, run);
            s.since < cfg.purgeEvery &&
            |s.rows.Keys - s.marked| <= s.peak + s.since + s.uncounted + Owing(s.jobs) + s.lost
  {
    RunKeeps(cfg, rows, run);
  }

  /** With no purge in flight nothing is marked or owed: the bound is on the whole table. */
  lemma AtRestKeptUp(cfg: Config, rows: Rows, run: seq<Step>)
    requires cfg.batchSize > 0 && cfg.purgeEvery > 0 && After(cfg, rows, run).jobs == map[]
    ensures var s := After(cfg, rows, run);
            |s.rows| < s.peak + cfg.purgeEvery + s.uncounted + s.lost
  {
    var s := After(cfg, rows, run);
    RunKeeps(cfg, rows, run);
    assert forall k :: k in s.marked ==> MarkOk(s, k);
    assert s.marked == {};
    assert Unmarked(s) == s.rows.Keys;
  }

  /** At most one purge of the table is in flight at a time. */
  ghost predicate OneAtATime(cfg: Config, rows: Rows, run: seq<Step>)
    requires cfg.batchSize > 0
  {
    forall i :: 0 <= i <= |run| ==> |After(cfg, rows, run[..i]).jobs| <= 1
  }

  /** A purge that is alone finds nothing marked when it selects. */
  lemma AloneFindsNoMarks(s: State, id: JobId)
    requires MarksOk(s) && |s.jobs| <= 1 && id in s.jobs && s.jobs[id].batch == {}
    ensures s.marked == {}
  {
    assert |s.jobs.Keys - {id}| == 0;
    assert s.jobs.Keys == {id};
    assert forall k, j :: !Held(s, k, j);
    assert forall k :: k in s.marked ==> MarkOk(s, k);
  }

  lemma LostOnlyBySelect(cfg: Config, s: State, e: Step)
    requires cfg.batchSize > 0 && MarksOk(s) && |s.jobs| <= 1
    ensures Next(cfg, s, e).lost == s.lost
  {
    if e.Select? && Enabled(cfg, s, e) {
      AloneFindsNoMarks(s, e.job);
      assert e.batch * s.marked == {};
    }
  }

  lemma {:induction false} OneAtATimeLosesNothing(cfg: Config, rows: Rows, run: seq<Step>)
    requires cfg.batchSize > 0 && cfg.purgeEvery > 0 && OneAtATime(cfg, rows, run)
    ensures After(cfg, rows, run).lost == 0
  {
    if run == [] {
    } else {
      var front := run[..|run| - 1];
      forall i | 0 <= i <= |front| ensures |After(cfg, rows, front[..i]).jobs| <= 1 {
        assert front[..i] == run[..i];
      }
      OneAtATimeLosesNothing(cfg, rows, front);
      RunKeeps(cfg, rows, front);
      assert front[..|front|] == front;
      LostOnlyBySelect(cfg, After(cfg, rows, front), run[|run| - 1]);
    }
  }

  /**
   Purges that never overlap keep up, with writes of other requests before, during and after them:
   with none in flight the table exceeds the peak by less than the purge interval and the writes
   whose count is still to come.
   */
  lemma OneAtATimeKeepsUp(cfg: Config, rows: Rows, run: seq<Step>)
    requires cfg.batchSize > 0 && cfg.purgeEvery > 0 && OneAtATime(cfg, rows, run)
    requires After(cfg, rows, run).jobs == map[]
    ensures var s := After(cfg, rows, run);
            |s.rows| < s.peak + cfg.purgeEvery + s.uncounted
  {
    OneAtATimeLosesNothing(cfg, rows, run);
    AtRestKeptUp(cfg, rows, run);
  }

  // ---- overlapping purges ------------------------------------------------------------------------------

  const ONE_BY_ONE := Config(1, 1)

  lemma Grown(cfg: Config, rows: Rows, run: seq<Step>, e: Step)
    requires cfg.batchSize > 0
    ensures After(cfg, rows, run + [e]) == Next(cfg, After(cfg, rows, run), e)
  {
    assert (run + [e])[..|run|] == run;
  }

  function KeyOf(i: nat): Key { seq(i, _ => 'k') }

  function KeysUpTo(n: nat): set<Key> { set i | 0 <= i < n :: KeyOf(i) }

  function RowsUpTo(n: nat): Rows { map k | k in KeysUpTo(n) :: Some(1) }

  /** Of `n` purges the first `k` have selected the first row. */
  function Jobs(n: nat, k: nat): map<JobId, Job> {
    map id: nat | id < n :: JobOf(k, id)
  }

  function JobOf(k: nat, id: JobId): Job { if id < k then Job(0, {KeyOf(0)}, 0) else Job(1, {}, 1) }

  lemma KeyIsNew(n: nat)
    ensures KeyOf(n) !in KeysUpTo(n) && KeysUpTo(n + 1) == KeysUpTo(n) + {KeyOf(n)}
  {
    forall i: nat | i < n ensures KeyOf(i) != KeyOf(n) {
      assert |KeyOf(i)| == i;
    }
  }

  lemma {:induction false} KeysCount(n: nat)
    ensures |KeysUpTo(n)| == n
  {
    if n == 0 {
      assert KeysUpTo(0) == {};
    } else {
      KeyIsNew(n - 1);
      KeysCount(n - 1);
    }
  }

  /** One more step of a run whose state is known. */
  lemma Onward(run: seq<Step>, s: State, e: Step, t: State)
    requires After(ONE_BY_ONE, map[], run) == s && Next(ONE_BY_ONE, s, e) == t
    ensures After(ONE_BY_ONE, map[], run + [e]) == t
  {
    Grown(ONE_BY_ONE, map[], run, e);
  }

  function Written(n: nat): State { State(0, RowsUpTo(n), 0, 0, Jobs(n, 0), {}, 0, 0) }

  /** The next row is written and not yet counted. */
  function HalfWritten(n: nat): State { State(0, RowsUpTo(n + 1), 0, 1, Jobs(n, 0), {}, 0, 0) }

  lemma OneMorePut(run: seq<Step>, n: nat)
    requires After(ONE_BY_ONE, map[], run) == Written(n)
    ensures After(ONE_BY_ONE, map[], run + [Put(KeyOf(n), Some(1))]) == HalfWritten(n)
  {
    PutOne(n);
    Onward(run, Written(n), Put(KeyOf(n), Some(1)), HalfWritten(n));
  }

  lemma PutOne(n: nat)
    ensures Next(ONE_BY_ONE, Written(n), Put(KeyOf(n), Some(1))) == HalfWritten(n)
  {
    KeyIsNew(n);
    assert RowsUpTo(n)[KeyOf(n) := Some(1)] == RowsUpTo(n + 1);
  }

  lemma OneMoreCount(run: seq<Step>, n: nat)
    requires After(ONE_BY_ONE, map[], run) == HalfWritten(n)
    ensures After(ONE_BY_ONE, map[], run + [CountWrite(n)]) == Written(n + 1)
  {
    CountOne(n);
    Onward(run, HalfWritten(n), CountWrite(n), Written(n + 1));
  }

  lemma CountOne(n: nat)
    ensures Next(ONE_BY_ONE, HalfWritten(n), CountWrite(n)) == Written(n + 1)
  {
    assert Batches(ONE_BY_ONE) == 1;
    assert Jobs(n, 0)[n := Job(1, {}, 1)] == Jobs(n + 1, 0);
  }

  /** `n` rows of one millisecond written and counted, each with a purge that has not selected yet. */
  lemma {:induction false} AfterWrites(n: nat) returns (run: seq<Step>)
    ensures After(ONE_BY_ONE, map[], run) == Written(n)
  {
    if n == 0 {
      run := [];
      NothingWritten();
    } else {
      run := AfterWrites(n - 1);
      OneMorePut(run, n - 1);
      run := run + [Put(KeyOf(n - 1), Some(1))];
      OneMoreCount(run, n - 1);
      run := run + [CountWrite(n - 1)];
    }
  }

  lemma NothingWritten()
    ensures Init(map[]) == Written(0)
  {
    assert RowsUpTo(0) == map[] && Jobs(0, 0) == map[];
  }

  function Selected(n: nat, k: nat): State {
    State(5, RowsUpTo(n), 0, 0, Jobs(n, k), if k == 0 then {} else {KeyOf(0)}, 0, if k == 0 then 0 else k - 1)
  }

  lemma OneMoreSelect(run: seq<Step>, n: nat, k: nat)
    requires k < n && After(ONE_BY_ONE, map[], run) == Selected(n, k)
    ensures After(ONE_BY_ONE, map[], run + [Select(k, {KeyOf(0)})]) == Selected(n, k + 1)
  {
    SelectOne(n, k);
    Onward(run, Selected(n, k), Select(k, {KeyOf(0)}), Selected(n, k + 1));
  }

  lemma SelectOne(n: nat, k: nat)
    requires k < n
    ensures Next(ONE_BY_ONE, Selected(n, k), Select(k, {KeyOf(0)})) == Selected(n, k + 1)
  {
    var s := Selected(n, k);
    assert KeyOf(0) in KeysUpTo(n);
    assert KeyOf(0) in Expired(s.rows, s.now);
    assert {KeyOf(0)} * s.marked == s.marked;
    assert Jobs(n, k)[k := Job(0, {KeyOf(0)}, 0)] == Jobs(n, k + 1);
  }

  /** After expiry, each of `k` purges selects the first row. */
  lemma {:induction false} AfterSelects(n: nat, k: nat) returns (run: seq<Step>)
    requires k <= n
    ensures After(ONE_BY_ONE, map[], run) == Selected(n, k)
  {
    if k == 0 {
      run := AfterWrites(n);
      Onward(run, Written(n), Tick(5), Selected(n, 0));
      run := run + [Tick(5)];
    } else {
      run := AfterSelects(n, k - 1);
      OneMoreSelect(run, n, k - 1);
      run := run + [Select(k - 1, {KeyOf(0)})];
    }
  }

  function Deleted(n: nat, k: nat): State
    requires 0 < n
  {
    State(5, if k == 0 then RowsUpTo(n) else RowsUpTo(n) - {KeyOf(0)}, 0, 0,
          map id: nat | k <= id < n :: JobOf(n, id), if k == 0 then {KeyOf(0)} else {}, 0, n - 1)
  }

  lemma OneMoreDelete(run: seq<Step>, n: nat, k: nat) returns (more: seq<Step>)
    requires k < n && After(ONE_BY_ONE, map[], run) == Deleted(n, k)
    ensures After(ONE_BY_ONE, map[], more) == Deleted(n, k + 1)
  {
    DeleteOne(n, k);
    Onward(run, Deleted(n, k), DeleteBatch(k), Deleted(n, k + 1));
    more := run + [DeleteBatch(k)];
  }

  lemma DeleteOne(n: nat, k: nat)
    requires k < n
    ensures Next(ONE_BY_ONE, Deleted(n, k), DeleteBatch(k)) == Deleted(n, k + 1)
  {
    var s := Deleted(n, k);
    assert KeyOf(0) in KeysUpTo(n);
    assert {KeyOf(0)} * Expired(s.rows, s.now) == if k == 0 then {KeyOf(0)} else {};
    assert s.jobs - {k} == Deleted(n, k + 1).jobs;
    assert s.marked - {KeyOf(0)} == {};
  }

  /** Then the purges delete it, one after the other, all but the first in vain. */
  lemma {:induction false} AfterDeletes(n: nat, k: nat) returns (run: seq<Step>)
    requires k <= n && 0 < n
    ensures After(ONE_BY_ONE, map[], run) == Deleted(n, k)
  {
    if k == 0 {
      AllSelected(n);
      run := AfterSelects(n, n);
    } else {
      run := AfterDeletes(n, k - 1);
      run := OneMoreDelete(run, n, k - 1);
    }
  }

  lemma AllSelected(n: nat)
    requires 0 < n
    ensures Selected(n, n) == Deleted(n, 0)
  {
    assert Selected(n, n).jobs == Deleted(n, 0).jobs;
  }

  /**
   Overlapping purges do fall behind, by as much as they overlap: for every `n` there is a run from
   an empty table that ends with no purge in flight, no write unanswered and nothing live seen by
   any purge, and with `n` expired rows left behind.
   */
  lemma OverlapFallsBehind(n: nat) returns (run: seq<Step>)
    ensures var s := After(ONE_BY_ONE, map[], run);
            s.jobs == map[] && s.since == s.uncounted == s.peak == 0 && s.lost == n == |s.rows|
  {
    run := AfterDeletes(n + 1, n + 1);
    AllDeletedCount(n);
  }

  lemma AllDeletedCount(n: nat)
    ensures Deleted(n + 1, n + 1).jobs == map[] && |Deleted(n + 1, n + 1).rows| == n
  {
    assert KeyOf(0) in KeysUpTo(n + 1);
    assert Deleted(n + 1, n + 1).rows.Keys == KeysUpTo(n + 1) - {KeyOf(0)};
    KeysCount(n + 1);
  }

  // ---- purging is invisible ------------------------------------------------------------------------

  /** The rows as the requests wrote them, purges left out. */
  function Unpurged(cfg: Config, rows: Rows, run: seq<Step>): Rows
    requires cfg.batchSize > 0
  {
    if run == [] then rows
    else
      var front, e := run[..|run| - 1], run[|run| - 1];
      var kept := Unpurged(cfg, rows, front);
      match e
      case Put(key, deadline) => kept[key := deadline]
      case Touch(key, deadline) =>
        if key in kept && !Dead(kept[key], After(cfg, rows, front).now) then kept[key := deadline] else kept
      case Remove(key) => kept - {key}
      case Tick(_) => kept
      case CountWrite(_) => kept
      case Select(_, _) => kept
      case DeleteBatch(_) => kept
  }

  /** The same rows are live in both, with the same deadlines. */
  ghost predicate SameLive(a: Rows, b: Rows, now: int) {
    forall key :: (key in a && !Dead(a[key], now)) || (key in b && !Dead(b[key], now)) ==>
      key in a && key in b && a[key] == b[key]
  }

  lemma DeletingSparesLive(s: State, id: JobId, kept: Rows)
    requires id in s.jobs && SameLive(s.rows, kept, s.now)
    ensures SameLive(Deleting(s, id).rows, kept, s.now)
  {
  }

  /** No purge, whatever it selects and whatever is written in between, takes a live row. */
  lemma {:induction false} LiveRowsStay(cfg: Config, rows: Rows, run: seq<Step>)
    requires cfg.batchSize > 0
    ensures SameLive(After(cfg, rows, run).rows, Unpurged(cfg, rows, run), After(cfg, rows, run).now)
  {
    if run == [] {
    } else {
      var s, e := After(cfg, rows, run[..|run| - 1]), run[|run| - 1];
      LiveRowsStay(cfg, rows, run[..|run| - 1]);
      if e.DeleteBatch? && e.job in s.jobs {
        DeletingSparesLive(s, e.job, Unpurged(cfg, rows, run[..|run| - 1]));
      }
    }
  }
}
