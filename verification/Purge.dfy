/**
 Automatic purging of a database store. Rows of the two tables carry a deadline in milliseconds
 (a counter may have none) and stay in the table once expired, until some purge deletes them.
 Every `purgeEvery` counted writes one purge runs over each table, deleting expired rows in
 batches and stopping after just enough batches to cover that many writes.

 The class follows the code's loops; every call it makes on the tables is shown to be one step of
 the relation `Step`, and the bound on the tables' sizes is proved over every trace of such steps.
 */
module Purge {
  import opened Basics

  type Key = string
  type Rows = map<Key, Option<int>>

  datatype Config = Config(purgeEvery: nat, batchSize: nat)

  // ---- rows and sweeping ---------------------------------------------------------------------

  predicate Dead(deadline: Option<int>, now: int) { deadline.Some? && deadline.value <= now }

  function Expired(rows: Rows, now: int): set<Key> { set k | k in rows && Dead(rows[k], now) }

  function Live(rows: Rows, now: int): Rows { map k | k in rows && !Dead(rows[k], now) :: rows[k] }

  /** `left` is `rows` less some keys, all of them expired by `now`. */
  ghost predicate OnlyExpiredGone(rows: Rows, left: Rows, now: int) {
    && (forall k :: k in left ==> k in rows && left[k] == rows[k])
    && (forall k :: k in rows && k !in left ==> Dead(rows[k], now))
  }

  ghost predicate Drained(rows: Rows, now: int) { forall k :: k in rows ==> !Dead(rows[k], now) }

  /**
   What a purge running from `start` to `end` does to a table: it deletes nothing but expired
   rows, and either leaves none that had expired when it started or deletes at least `quota`.
   */
  ghost predicate Swept(rows: Rows, left: Rows, start: int, end: int, quota: nat) {
    OnlyExpiredGone(rows, left, end) && (Drained(left, start) || |left| + quota <= |rows|)
  }

  lemma {:induction false} SubmapSize(small: Rows, big: Rows)
    requires forall k :: k in small ==> k in big
    ensures |small| <= |big|
  {
    SubsetSize(small.Keys, big.Keys);
  }

  /** A drained table holds no more than the rows that were live when the purge started. */
  lemma DrainedIsLive(rows: Rows, left: Rows, start: int, end: int)
    requires OnlyExpiredGone(rows, left, end) && Drained(left, start)
    ensures |left| <= |Live(rows, start)|
  {
    SubmapSize(left, Live(rows, start));
  }

  // ---- steps and traces ------------------------------------------------------------------------

  datatype Which = Store | Counters

  datatype Tables = Tables(store: Rows, counters: Rows) {
    function Of(which: Which): Rows { if which.Store? then store else counters }

    function Put(which: Which, key: Key, deadline: Option<int>): Tables {
      if which.Store? then this.(store := store[key := deadline]) else this.(counters := counters[key := deadline])
    }
  }

  datatype View = View(tables: Tables, since: nat, now: int)

  /** A counted write leaves the tables as `written`, at `start`; a purge may follow. */
  datatype Event = Counted(written: Tables, start: int) | Quiet

  predicate Purges(cfg: Config, v: View, e: Event) {
    e.Counted? && v.since + 1 == cfg.purgeEvery
  }

  /** The rows differ in at most one key. */
  ghost predicate OneRowTouched(before: Rows, after: Rows) {
    exists key :: before - {key} == after - {key}
  }

  ghost predicate NoRowAdded(before: Rows, after: Rows) {
    forall k :: k in after ==> k in before
  }

  ghost predicate Step(cfg: Config, v: View, e: Event, w: View) {
    v.now <= w.now &&
    match e
    case Quiet => w.since == v.since && forall t :: NoRowAdded(v.tables.Of(t), w.tables.Of(t))
    case Counted(written, start) =>
      && v.now <= start <= w.now
      && (forall t :: OneRowTouched(v.tables.Of(t), written.Of(t)))
      && if Purges(cfg, v, e)
         then w.since == 0 &&
              forall t :: Swept(written.Of(t), w.tables.Of(t), start, w.now, cfg.purgeEvery)
         else w.since == (if cfg.purgeEvery == 0 then v.since else v.since + 1) && w.tables == written
  }

  ghost predicate Trace(cfg: Config, views: seq<View>, events: seq<Event>) {
    && |views| == |events| + 1
    && views[0].since == 0
    && forall i :: 0 <= i < |events| ==> Step(cfg, views[i], events[i], views[i + 1])
  }

  /** The larger of the table's starting size and the most live rows at any of the first `n` purges. */
  function Peak(cfg: Config, views: seq<View>, events: seq<Event>, n: nat, t: Which): nat
    requires n <= |events| < |views|
  {
    if n == 0 then |views[0].tables.Of(t)|
    else
      var peak := Peak(cfg, views, events, n - 1, t);
      var e := events[n - 1];
      if Purges(cfg, views[n - 1], e) then Max(peak, |Live(e.written.Of(t), e.start)|) else peak
  }

  lemma TouchedSize(before: Rows, after: Rows)
    requires OneRowTouched(before, after)
    ensures |after| <= |before| + 1
  {
    var key :| before - {key} == after - {key};
    forall k | k in after.Keys ensures k in before.Keys + {key} {
      if k != key {
        assert k in after - {key};
      }
    }
    SubsetSize(after.Keys, before.Keys + {key});
  }

  lemma StepKeepsUp(cfg: Config, v: View, e: Event, w: View, t: Which, peak: nat)
    requires cfg.purgeEvery > 0 && Step(cfg, v, e, w)
    requires v.since < cfg.purgeEvery && |v.tables.Of(t)| <= peak + v.since
    ensures w.since < cfg.purgeEvery
    ensures |w.tables.Of(t)| <=
            (if Purges(cfg, v, e) then Max(peak, |Live(e.written.Of(t), e.start)|) else peak) + w.since
  {
    match e
    case Quiet => SubmapSize(w.tables.Of(t), v.tables.Of(t));
    case Counted(written, start) =>
      TouchedSize(v.tables.Of(t), written.Of(t));
      if Purges(cfg, v, e) && Drained(w.tables.Of(t), start) {
        DrainedIsLive(written.Of(t), w.tables.Of(t), start, w.now);
      }
  }

  lemma {:induction false} TraceKeepsUp(cfg: Config, views: seq<View>, events: seq<Event>, n: nat, t: Which)
    requires cfg.purgeEvery > 0 && Trace(cfg, views, events) && n <= |events|
    ensures views[n].since < cfg.purgeEvery
    ensures |views[n].tables.Of(t)| <= Peak(cfg, views, events, n, t) + views[n].since
  {
    if n == 0 {
    } else {
      TraceKeepsUp(cfg, views, events, n - 1, t);
      StepKeepsUp(cfg, views[n - 1], events[n - 1], views[n], t, Peak(cfg, views, events, n - 1, t));
    }
  }

  /**
   Purging keeps up: right after an automatic purge a table is no larger than its start or the
   most live rows any purge so far found, and between purges it exceeds that by less than
   `purgeEvery`, for every purge interval and batch size and every trace.
   */
  lemma PurgingKeepsUp(cfg: Config, views: seq<View>, events: seq<Event>, n: nat, t: Which)
    requires cfg.purgeEvery > 0 && Trace(cfg, views, events) && n <= |events|
    ensures |views[n].tables.Of(t)| < Peak(cfg, views, events, n, t) + cfg.purgeEvery
    ensures n > 0 && Purges(cfg, views[n - 1], events[n - 1]) ==>
              |views[n].tables.Of(t)| <= Peak(cfg, views, events, n, t)
  {
    TraceKeepsUp(cfg, views, events, n, t);
    if n > 0 {
      assert Step(cfg, views[n - 1], events[n - 1], views[n]);
    }
  }

  // ---- the store ---------------------------------------------------------------------------------

  /** `n * m`, by repeated addition. */
  function Product(n: nat, m: nat): nat { if n == 0 then 0 else Product(n - 1, m) + m }

  lemma {:induction false} ProductIs(n: nat, m: nat)
    ensures Product(n, m) == n * m
  {
    if n == 0 {
    } else {
      ProductIs(n - 1, m);
    }
  }

  lemma BatchesCover(cfg: Config, batches: nat)
    requires cfg.batchSize > 0 && batches == (cfg.purgeEvery + cfg.batchSize - 1) / cfg.batchSize
    ensures cfg.purgeEvery <= Product(batches, cfg.batchSize)
  {
    var n := cfg.purgeEvery + cfg.batchSize - 1;
    ProductIs(batches, cfg.batchSize);
    assert n == cfg.batchSize * (n / cfg.batchSize) + n % cfg.batchSize;
  }

  class Table {
    var rows: Rows

    constructor (initial: Rows)
      ensures rows == initial
    {
      rows := initial;
    }

    /** Some expired keys: all of them, or `limit` of them if there are more. */
    method SelectExpired(now: int, limit: nat) returns (batch: set<Key>)
      ensures batch <= Expired(rows, now) && |batch| <= limit
      ensures |batch| < limit ==> batch == Expired(rows, now)
      ensures forall k :: k in batch ==> k in rows && rows[k].Some? && rows[k].value <= now
    {
      var expired := Expired(rows, now);
      batch := {};
      while |batch| < limit && batch != expired
        invariant batch <= expired && |batch| <= limit
        decreases expired - batch
      {
        assert expired - batch != {};
        var key :| key in expired - batch;
        batch := batch + {key};
      }
    }

    /** Deletes those of the keys that are expired. */
    method DeleteExpired(keys: set<Key>, now: int) returns (deleted: nat)
      modifies this
      ensures rows == old(rows) - (keys * Expired(old(rows), now))
      ensures deleted == |old(rows)| - |rows|
    {
      var gone := keys * Expired(rows, now);
      var before := rows;
      rows := rows - gone;
      assert rows.Keys == before.Keys - gone;
      deleted := |gone|;
    }
  }

  class DatabaseStore {
    const store: Table
    const counters: Table
    const cfg: Config
    var writesSincePurge: nat
    var now: int

    ghost predicate Valid()
      reads this
    {
      store != counters && cfg.batchSize > 0 && (cfg.purgeEvery > 0 ==> writesSincePurge < cfg.purgeEvery)
    }

    ghost function Seen(): View
      reads this, store, counters
    {
      View(Tables(store.rows, counters.rows), writesSincePurge, now)
    }

    ghost function Of(t: Which): Table { if t.Store? then store else counters }

    constructor (cfg: Config, store: Table, counters: Table)
      requires store != counters && cfg.batchSize > 0
      ensures Valid() && this.cfg == cfg && this.store == store && this.counters == counters
      ensures writesSincePurge == 0
    {
      this.cfg := cfg;
      this.store := store;
      this.counters := counters;
      writesSincePurge := 0;
      now := 0;
    }

    /** The clock never goes back. */
    method ReadClock() returns (t: int)
      modifies this`now
      ensures old(now) <= now == t
    {
      t := *;
      if t < now {
        t := now;
      }
      now := t;
    }

    /** One batch: `selected` keys found expired, all of them deleted. */
    method PurgeBatch(table: Table, batchSize: nat) returns (selected: nat, deleted: nat)
      modifies table, this`now
      ensures old(now) <= now && selected == deleted <= batchSize
      ensures OnlyExpiredGone(old(table.rows), table.rows, now)
      ensures deleted == |old(table.rows)| - |table.rows|
      ensures selected < batchSize ==> Drained(table.rows, old(now))
    {
      var t := ReadClock();
      var batch := table.SelectExpired(t, batchSize);
      if batch == {} {
        if batchSize > 0 {
          NoneExpired(table.rows, old(now), t);
        }
        return 0, 0;
      }
      t := ReadClock();
      ghost var before := table.rows;
      deleted := table.DeleteExpired(batch, t);
      AllDeleted(before, table.rows, batch, t);
      selected := |batch|;
    }

    /**
     The purge of one table. Without a batch limit it terminates and leaves no row that had
     expired when it started.
     */
    method PurgeTable(table: Table, batchSize: nat, maxBatches: Option<nat>) returns (deleted: nat)
      requires batchSize > 0
      modifies table, this`now
      ensures old(now) <= now
      ensures OnlyExpiredGone(old(table.rows), table.rows, now)
      ensures deleted == |old(table.rows)| - |table.rows|
      ensures Drained(table.rows, old(now)) ||
              (maxBatches.Some? && deleted == Product(maxBatches.value, batchSize))
    {
      deleted := 0;
      var batches: nat := 0;
      while maxBatches.None? || batches < maxBatches.value
        invariant old(now) <= now && OnlyExpiredGone(old(table.rows), table.rows, now)
        invariant deleted == |old(table.rows)| - |table.rows| == Product(batches, batchSize)
        invariant maxBatches.Some? ==> batches <= maxBatches.value
        decreases |table.rows|
      {
        batches := batches + 1;
        ghost var asked := now;
        var selected, gone := PurgeBatch(table, batchSize);
        DrainedEarlier(table.rows, old(now), asked);
        if selected == 0 {
          return deleted;
        }
        deleted := deleted + gone;
        if selected < batchSize {
          return deleted;
        }
      }
    }

    method PurgeExpired(batchSize: Option<nat>) returns (deleted: nat)
      requires Valid()
      modifies store, counters, this`now
      ensures Valid() && old(now) <= now
      ensures forall t :: Drained(Of(t).rows, old(now)) && OnlyExpiredGone(old(Of(t).rows), Of(t).rows, now)
      ensures forall t, k :: k in Of(t).rows && Of(t).rows[k].Some? ==> old(now) < Of(t).rows[k].value
      ensures deleted == |old(store.rows)| - |store.rows| + |old(counters.rows)| - |counters.rows|
    {
      var size := if batchSize.Some? && batchSize.value != 0 then batchSize.value else cfg.batchSize;
      deleted := PurgeTable(store, size, None);
      var more := PurgeTable(counters, size, None);
      deleted := deleted + more;
    }

    /** Counts a write; every `purgeEvery` of them, purges both tables within the quota. */
    method NoteWrite()
      requires Valid()
      modifies this`writesSincePurge, this`now, store, counters
      ensures Valid() && old(now) <= now
      ensures old(writesSincePurge) + 1 >= cfg.purgeEvery > 0 ==>
                writesSincePurge == 0 &&
                forall t :: Swept(old(Of(t).rows), Of(t).rows, old(now), now, cfg.purgeEvery)
      ensures !(old(writesSincePurge) + 1 >= cfg.purgeEvery > 0) ==>
                store.rows == old(store.rows) && counters.rows == old(counters.rows) &&
                writesSincePurge == old(writesSincePurge) + if cfg.purgeEvery == 0 then 0 else 1
    {
      if cfg.purgeEvery == 0 {
        return;
      }
      writesSincePurge := writesSincePurge + 1;
      if writesSincePurge < cfg.purgeEvery {
        return;
      }
      writesSincePurge := 0;
      var batches := (cfg.purgeEvery + cfg.batchSize - 1) / cfg.batchSize;
      BatchesCover(cfg, batches);
      var _ := PurgeTable(store, cfg.batchSize, Some(batches));
      var _ := PurgeTable(counters, cfg.batchSize, Some(batches));
    }

    /** A create, a successful claim or a counter upsert: one row written, then counted. */
    method Write(t: Which, key: Key, deadline: Option<int>)
      requires Valid()
      modifies this`writesSincePurge, this`now, store, counters
      ensures Valid()
      ensures Step(cfg, old(Seen()), Counted(old(Seen()).tables.Put(t, key, deadline), old(now)), Seen())
    {
      var table := if t.Store? then store else counters;
      table.rows := table.rows[key := deadline];
      ghost var before, written := old(Seen()), Seen().tables;
      forall u ensures OneRowTouched(before.tables.Of(u), written.Of(u)) {
        assert before.tables.Of(u) - {key} == written.Of(u) - {key};
      }
      NoteWrite();
      forall u ensures Of(u).rows == Seen().tables.Of(u) { }
    }

    /** A delete of one key, live or not. */
    method Remove(t: Which, key: Key)
      requires Valid()
      modifies store, counters
      ensures Step(cfg, old(Seen()), Quiet, Seen())
      ensures forall u :: Of(u).rows == if u == t then old(Of(u).rows) - {key} else old(Of(u).rows)
    {
      var table := if t.Store? then store else counters;
      table.rows := table.rows - {key};
    }
  }

  lemma NoneExpired(rows: Rows, earlier: int, now: int)
    requires Expired(rows, now) == {} && earlier <= now
    ensures Drained(rows, earlier)
  {
    forall k | k in rows ensures !Dead(rows[k], earlier) {
      assert k !in Expired(rows, now);
    }
  }

  lemma DrainedEarlier(rows: Rows, earlier: int, later: int)
    requires earlier <= later
    ensures Drained(rows, later) ==> Drained(rows, earlier)
  {
  }

  /** A batch selected as expired is still expired at the delete, so all of it goes. */
  lemma AllDeleted(before: Rows, after: Rows, batch: set<Key>, now: int)
    requires batch <= Expired(before, now) && after == before - (batch * Expired(before, now))
    ensures after == before - batch && |after| == |before| - |batch|
  {
    assert batch * Expired(before, now) == batch;
    assert after.Keys == before.Keys - batch;
    assert |before.Keys - batch| == |before.Keys| - |batch|;
  }
}
