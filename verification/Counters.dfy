/**
 The rate limiter's counters: a plain expiring map, and the two backends that implement it.

 Times are integer milliseconds and expiries whole seconds, as the callers pass them. The
 memory backend keeps a counter alive at its deadline and rounds a remaining time down; the
 database backend drops it at its deadline and rounds up.
 */
module Counters {
  import opened Basics

  datatype Backend = Memory | Database

  /** A counter's value and, if it has one, the instant it expires. */
  datatype Cell = Cell(count: int, deadline: Option<int>)

  predicate Alive(b: Backend, c: Cell, now: int) {
    match c.deadline
    case None => true
    case Some(d) => if b.Memory? then now <= d else now < d
  }

  // ---- the plain expiring map: a dead cell is as good as none -------------------------

  function Look<K>(b: Backend, m: map<K, Cell>, k: K, now: int): Option<Cell> {
    if k in m && Alive(b, m[k], now) then Some(m[k]) else None
  }

  function Armed(expiry: Option<nat>, now: int): Option<int> {
    match expiry
    case None => None
    case Some(seconds) => Some(now + seconds * 1000)
  }

  /** `increment`: the expiry is armed when the counter starts, or has none. */
  function Bump<K>(b: Backend, m: map<K, Cell>, k: K, amount: int, expiry: Option<nat>, now: int): map<K, Cell> {
    match Look(b, m, k, now)
    case None => m[k := Cell(amount, Armed(expiry, now))]
    case Some(c) =>
      m[k := Cell(c.count + amount, if c.deadline.None? then Armed(expiry, now) else c.deadline)]
  }

  /** `increment_and_refresh_ttl`: the expiry is armed on every call. */
  function Refresh<K>(b: Backend, m: map<K, Cell>, k: K, amount: int, expiry: Option<nat>, now: int): map<K, Cell> {
    match Look(b, m, k, now)
    case None => m[k := Cell(amount, Armed(expiry, now))]
    case Some(c) =>
      m[k := Cell(c.count + amount, if expiry.None? then c.deadline else Armed(expiry, now))]
  }

  function Count<K>(b: Backend, m: map<K, Cell>, k: K, now: int): Option<int> {
    match Look(b, m, k, now)
    case None => None
    case Some(c) => Some(c.count)
  }

  /** `get_ttl`: whole seconds left, zero when absent or without an expiry. */
  function Ttl<K>(b: Backend, m: map<K, Cell>, k: K, now: int): nat {
    match Look(b, m, k, now)
    case None => 0
    case Some(c) => if c.deadline.None? then 0 else Seconds(b, c.deadline.value - now)
  }

  function Seconds(b: Backend, millis: int): nat {
    if millis <= 0 then 0
    else if b.Memory? then millis / 1000
    else (millis + 999) / 1000
  }

  /** Two maps no caller can tell apart at `now`. */
  ghost predicate Same<K(!new)>(b: Backend, m: map<K, Cell>, n: map<K, Cell>, now: int) {
    forall k :: Look(b, m, k, now) == Look(b, n, k, now)
  }

  lemma SameJoins<K(!new)>(b: Backend, m: map<K, Cell>, n: map<K, Cell>, o: map<K, Cell>, now: int)
    requires Same(b, m, n, now) && Same(b, n, o, now)
    ensures Same(b, m, o, now)
  {
    forall k ensures Look(b, m, k, now) == Look(b, o, k, now) {
      assert Look(b, m, k, now) == Look(b, n, k, now);
    }
  }

  /** Nor at any later instant. */
  lemma SameLater<K(!new)>(b: Backend, m: map<K, Cell>, n: map<K, Cell>, now: int, later: int)
    requires Same(b, m, n, now) && now <= later
    ensures Same(b, m, n, later)
  {
    forall k ensures Look(b, m, k, later) == Look(b, n, k, later) {
      assert Look(b, m, k, now) == Look(b, n, k, now);
    }
  }

  lemma BumpCongruent<K(!new)>(
    b: Backend, m: map<K, Cell>, n: map<K, Cell>, k: K, amount: int, expiry: Option<nat>, now: int)
    requires Same(b, m, n, now)
    ensures Same(b, Bump(b, m, k, amount, expiry, now), Bump(b, n, k, amount, expiry, now), now)
  {
    var m', n' := Bump(b, m, k, amount, expiry, now), Bump(b, n, k, amount, expiry, now);
    forall j ensures Look(b, m', j, now) == Look(b, n', j, now) {
      assert Look(b, m, j, now) == Look(b, n, j, now) && Look(b, m, k, now) == Look(b, n, k, now);
    }
  }

  lemma RefreshCongruent<K(!new)>(
    b: Backend, m: map<K, Cell>, n: map<K, Cell>, k: K, amount: int, expiry: Option<nat>, now: int)
    requires Same(b, m, n, now)
    ensures Same(b, Refresh(b, m, k, amount, expiry, now), Refresh(b, n, k, amount, expiry, now), now)
  {
    var m', n' := Refresh(b, m, k, amount, expiry, now), Refresh(b, n, k, amount, expiry, now);
    forall j ensures Look(b, m', j, now) == Look(b, n', j, now) {
      assert Look(b, m, j, now) == Look(b, n, j, now) && Look(b, m, k, now) == Look(b, n, k, now);
    }
  }

  lemma DropCongruent<K(!new)>(b: Backend, m: map<K, Cell>, n: map<K, Cell>, k: K, now: int)
    requires Same(b, m, n, now)
    ensures Same(b, m - {k}, n - {k}, now)
  {
    forall j ensures Look(b, m - {k}, j, now) == Look(b, n - {k}, j, now) {
      assert Look(b, m, j, now) == Look(b, n, j, now);
    }
  }

  lemma BumpElsewhere<K>(b: Backend, m: map<K, Cell>, k: K, amount: int, expiry: Option<nat>, now: int, j: K, t: int)
    requires j != k
    ensures Look(b, Bump(b, m, k, amount, expiry, now), j, t) == Look(b, m, j, t)
  {
  }

  lemma RefreshElsewhere<K>(b: Backend, m: map<K, Cell>, k: K, amount: int, expiry: Option<nat>, now: int, j: K, t: int)
    requires j != k
    ensures Look(b, Refresh(b, m, k, amount, expiry, now), j, t) == Look(b, m, j, t)
  {
  }

  // ---- the memory backend -------------------------------------------------------------

  const MEMORY_SWEEP_EVERY_INCREMENTS: nat := 256

  class MemoryCounters<K(==, !new)> {
    var counts: map<K, int>
    var deadlines: map<K, int>
    var incrementsSinceSweep: nat

    ghost predicate Valid()
      reads this
    {
      deadlines.Keys <= counts.Keys
    }

    /** The two dictionaries read as one map of cells, dead ones included. */
    function Cells(): map<K, Cell>
      reads this
    {
      map k | k in counts :: Cell(counts[k], if k in deadlines then Some(deadlines[k]) else None)
    }

    constructor ()
      ensures Valid() && Cells() == map[]
    {
      counts, deadlines, incrementsSinceSweep := map[], map[], 0;
    }

    method Gc(key: K, now: int)
      requires Valid()
      modifies this
      ensures Valid() && Same(Memory, Cells(), old(Cells()), now)
      ensures key in counts <==> Look(Memory, old(Cells()), key, now).Some?
      ensures incrementsSinceSweep == old(incrementsSinceSweep)
    {
      if key in deadlines && deadlines[key] < now {
        counts := counts - {key};
        deadlines := deadlines - {key};
      }
    }

    method MaybeSweep(now: int)
      requires Valid()
      modifies this
      ensures Valid() && Same(Memory, Cells(), old(Cells()), now)
      ensures forall k :: Look(Memory, old(Cells()), k, now).Some? ==> k in counts
    {
      incrementsSinceSweep := incrementsSinceSweep + 1;
      if incrementsSinceSweep < MEMORY_SWEEP_EVERY_INCREMENTS {
        return;
      }
      incrementsSinceSweep := 0;
      var expired := set k | k in deadlines && deadlines[k] < now;
      while expired != {}
        invariant Valid() && Same(Memory, Cells(), old(Cells()), now)
        invariant forall k :: k in expired ==> k in deadlines && deadlines[k] < now
        invariant forall k :: Look(Memory, old(Cells()), k, now).Some? ==> k in counts
        decreases expired
      {
        var key :| key in expired;
        assert Look(Memory, Cells(), key, now).None?;
        counts := counts - {key};
        deadlines := deadlines - {key};
        expired := expired - {key};
      }
    }

    /** The count moves; the expiry is armed if there is none, or (`refresh`) anyway. */
    method Move(key: K, amount: int, expiry: Option<nat>, refresh: bool, now: int)
      requires Valid() && (key in counts <==> Look(Memory, Cells(), key, now).Some?)
      modifies this
      ensures Valid()
      ensures Cells() == if refresh then Refresh(Memory, old(Cells()), key, amount, expiry, now)
                         else Bump(Memory, old(Cells()), key, amount, expiry, now)
    {
      counts := counts[key := (if key in counts then counts[key] else 0) + amount];
      if expiry.Some? && (refresh || key !in deadlines) {
        deadlines := deadlines[key := now + expiry.value * 1000];
      }
      assert Cells() == old(Cells())[key := Cells()[key]];
    }

    method SweepThenRead(key: K, now: int) returns (count: int)
      requires Valid() && Look(Memory, Cells(), key, now).Some?
      modifies this
      ensures Valid() && Same(Memory, Cells(), old(Cells()), now)
      ensures Some(count) == Count(Memory, old(Cells()), key, now)
    {
      MaybeSweep(now);
      assert Look(Memory, Cells(), key, now) == Look(Memory, old(Cells()), key, now);
      count := counts[key];
    }

    method Increment(key: K, amount: int, expiry: Option<nat>, now: int) returns (count: int)
      requires Valid()
      modifies this
      ensures Valid()
      ensures Same(Memory, Cells(), Bump(Memory, old(Cells()), key, amount, expiry, now), now)
      ensures Some(count) == Count(Memory, Bump(Memory, old(Cells()), key, amount, expiry, now), key, now)
    {
      ghost var before := Cells();
      Gc(key, now);
      ghost var bumped := Bump(Memory, Cells(), key, amount, expiry, now);
      BumpCongruent(Memory, Cells(), before, key, amount, expiry, now);
      Move(key, amount, expiry, false, now);
      count := SweepThenRead(key, now);
      SameJoins(Memory, Cells(), bumped, Bump(Memory, before, key, amount, expiry, now), now);
    }

    method IncrementAndRefreshTtl(key: K, amount: int, expiry: Option<nat>, now: int) returns (count: int)
      requires Valid()
      modifies this
      ensures Valid()
      ensures Same(Memory, Cells(), Refresh(Memory, old(Cells()), key, amount, expiry, now), now)
      ensures Some(count) == Count(Memory, Refresh(Memory, old(Cells()), key, amount, expiry, now), key, now)
    {
      ghost var before := Cells();
      Gc(key, now);
      ghost var raised := Refresh(Memory, Cells(), key, amount, expiry, now);
      RefreshCongruent(Memory, Cells(), before, key, amount, expiry, now);
      Move(key, amount, expiry, true, now);
      count := SweepThenRead(key, now);
      SameJoins(Memory, Cells(), raised, Refresh(Memory, before, key, amount, expiry, now), now);
    }

    method GetCount(key: K, now: int) returns (count: Option<int>)
      requires Valid()
      modifies this
      ensures Valid() && Same(Memory, Cells(), old(Cells()), now)
      ensures count == Count(Memory, old(Cells()), key, now)
      ensures count.Some? ==> key in counts
    {
      Gc(key, now);
      assert Look(Memory, Cells(), key, now) == Look(Memory, old(Cells()), key, now);
      count := if key in counts then Some(counts[key]) else None;
    }

    method GetTtl(key: K, now: int) returns (seconds: nat)
      requires Valid()
      modifies this
      ensures Valid() && Same(Memory, Cells(), old(Cells()), now)
      ensures seconds == Ttl(Memory, old(Cells()), key, now)
    {
      Gc(key, now);
      assert Look(Memory, Cells(), key, now) == Look(Memory, old(Cells()), key, now);
      if key !in deadlines {
        return 0;
      }
      seconds := if deadlines[key] <= now then 0 else (deadlines[key] - now) / 1000;
    }

    /** Drops the key without collecting it first, so a dead key still counts as having existed. */
    method Delete(key: K, ghost now: int) returns (existed: bool)
      requires Valid()
      modifies this
      ensures Valid() && Same(Memory, Cells(), old(Cells()) - {key}, now)
      ensures existed == (key in old(counts))
    {
      existed := key in counts;
      counts := counts - {key};
      deadlines := deadlines - {key};
    }
  }

  // ---- the database backend -----------------------------------------------------------

  /** How a dialect performs the upsert on an existing row. */
  datatype Dialect = ReturningUpsert | MySqlUpsert | UpdateThenInsert

  predicate Expired(c: Cell, now: int) { c.deadline.Some? && c.deadline.value <= now }

  function NewCount(c: Cell, amount: int, now: int): int {
    if Expired(c, now) then amount else c.count + amount
  }

  /** The `expires_at` expression of `increment` (`refresh` false) and of its refreshing twin. */
  function NewDeadline(c: Cell, refresh: bool, armed: Option<int>, now: int): Option<int> {
    if refresh then
      if armed.Some? then armed else if Expired(c, now) then None else c.deadline
    else
      if Expired(c, now) then armed else if c.deadline.None? then armed else c.deadline
  }

  /** Both columns computed from the row as it was: PostgreSQL and SQLite. */
  function AtOnce(c: Cell, amount: int, refresh: bool, armed: Option<int>, now: int): Cell {
    Cell(NewCount(c, amount, now), NewDeadline(c, refresh, armed, now))
  }

  /** MySQL assigns left to right, each expression seeing the columns already assigned. */
  function CountThenDeadline(c: Cell, amount: int, refresh: bool, armed: Option<int>, now: int): Cell {
    var first := c.(count := NewCount(c, amount, now));
    first.(deadline := NewDeadline(first, refresh, armed, now))
  }

  function DeadlineThenCount(c: Cell, amount: int, refresh: bool, armed: Option<int>, now: int): Cell {
    var first := c.(deadline := NewDeadline(c, refresh, armed, now));
    first.(count := NewCount(first, amount, now))
  }

  /** Why the source lists the count first: that order agrees with simultaneous assignment ... */
  lemma LeftToRightAgrees(c: Cell, amount: int, refresh: bool, armed: Option<int>, now: int)
    ensures CountThenDeadline(c, amount, refresh, armed, now) == AtOnce(c, amount, refresh, armed, now)
  {
  }

  /** ... and the other order agrees exactly when the row had not expired, held nothing, or stays expired. */
  lemma OtherOrderAgreesIff(c: Cell, amount: int, refresh: bool, armed: Option<int>, now: int)
    ensures DeadlineThenCount(c, amount, refresh, armed, now) == AtOnce(c, amount, refresh, armed, now)
            <==> (c.count == 0 ||
                  Expired(c, now) == (var d := NewDeadline(c, refresh, armed, now); d.Some? && d.value <= now))
  {
  }

  class DatabaseCounters<K(==, !new)> {
    var rows: map<K, Cell>

    constructor ()
      ensures rows == map[]
    {
      rows := map[];
    }

    method Upsert(key: K, amount: int, refresh: bool, expiry: Option<nat>, dialect: Dialect, now: int)
      returns (count: int)
      modifies this
      ensures Same(Database, rows,
                   if refresh then Refresh(Database, old(rows), key, amount, expiry, now)
                   else Bump(Database, old(rows), key, amount, expiry, now), now)
      ensures Some(count) == Answer(Database, old(rows), Add(key, amount, expiry, refresh, now))
      ensures rows.Keys == old(rows).Keys + {key}
    {
      var armed := Armed(expiry, now);
      var start := Cell(amount, armed);
      if key !in rows {
        rows := rows[key := start];
      } else {
        match dialect {
          case ReturningUpsert => rows := rows[key := AtOnce(rows[key], amount, refresh, armed, now)];
          case MySqlUpsert => rows := rows[key := CountThenDeadline(rows[key], amount, refresh, armed, now)];
          case UpdateThenInsert => rows := rows[key := AtOnce(rows[key], amount, refresh, armed, now)];
        }
      }
      count := rows[key].count;
    }

    method GetCount(key: K, now: int) returns (count: Option<int>)
      ensures count == Count(Database, rows, key, now)
    {
      if key in rows && (rows[key].deadline.None? || rows[key].deadline.value > now) {
        count := Some(rows[key].count);
      } else {
        count := None;
      }
    }

    method GetTtl(key: K, now: int) returns (seconds: nat)
      ensures seconds == Ttl(Database, rows, key, now)
    {
      if key !in rows || rows[key].deadline.None? || rows[key].deadline.value <= now {
        return 0;
      }
      seconds := (rows[key].deadline.value - now + 999) / 1000;
    }

    method Delete(key: K, now: int) returns (existed: bool)
      modifies this
      ensures rows == old(rows) - {key}
      ensures existed == Look(Database, old(rows), key, now).Some?
    {
      existed := key in rows && (rows[key].deadline.None? || rows[key].deadline.value > now);
      rows := rows - {key};
    }

    /** A purge may take any expired rows; no caller can tell. */
    method Purge(victims: set<K>, now: int)
      requires forall k :: k in victims && k in rows ==> Expired(rows[k], now)
      modifies this
      ensures rows == old(rows) - victims && Same(Database, rows, old(rows), now)
    {
      rows := rows - victims;
    }
  }

  // ---- either backend -------------------------------------------------------------------

  /** The backend a limiter or policy is configured with: one of the two. */
  class CounterBackend<K(==, !new)> {
    const kind: Backend
    const dialect: Dialect
    const memory: MemoryCounters<K>
    const database: DatabaseCounters<K>

    constructor (kind: Backend, dialect: Dialect)
      ensures this.kind == kind && Valid() && Cells() == map[] && fresh(memory) && fresh(database)
    {
      this.kind, this.dialect := kind, dialect;
      memory := new MemoryCounters<K>();
      database := new DatabaseCounters<K>();
    }

    ghost predicate Valid()
      reads memory
    {
      memory.Valid()
    }

    ghost function Cells(): map<K, Cell>
      reads memory, database
    {
      if kind.Memory? then memory.Cells() else database.rows
    }

    method Increment(key: K, amount: int, expiry: Option<nat>, now: int) returns (count: int)
      requires Valid()
      modifies memory, database
      ensures Valid()
      ensures Same(kind, Cells(), Bump(kind, old(Cells()), key, amount, expiry, now), now)
      ensures Some(count) == Answer(kind, old(Cells()), Add(key, amount, expiry, false, now))
    {
      if kind.Memory? {
        count := memory.Increment(key, amount, expiry, now);
      } else {
        count := database.Upsert(key, amount, false, expiry, dialect, now);
      }
    }

    method IncrementAndRefreshTtl(key: K, amount: int, expiry: Option<nat>, now: int) returns (count: int)
      requires Valid()
      modifies memory, database
      ensures Valid()
      ensures Same(kind, Cells(), Refresh(kind, old(Cells()), key, amount, expiry, now), now)
      ensures Some(count) == Answer(kind, old(Cells()), Add(key, amount, expiry, true, now))
    {
      if kind.Memory? {
        count := memory.IncrementAndRefreshTtl(key, amount, expiry, now);
      } else {
        count := database.Upsert(key, amount, true, expiry, dialect, now);
      }
    }

    method GetCount(key: K, now: int) returns (count: Option<int>)
      requires Valid()
      modifies memory
      ensures Valid() && Same(kind, Cells(), old(Cells()), now)
      ensures count == Count(kind, old(Cells()), key, now) == Count(kind, Cells(), key, now)
    {
      if kind.Memory? {
        count := memory.GetCount(key, now);
        assert Look(Memory, memory.Cells(), key, now) == Look(Memory, old(memory.Cells()), key, now);
      } else {
        count := database.GetCount(key, now);
      }
    }

    method GetTtl(key: K, now: int) returns (seconds: nat)
      requires Valid()
      modifies memory
      ensures Valid() && Same(kind, Cells(), old(Cells()), now)
      ensures seconds == Ttl(kind, old(Cells()), key, now)
    {
      if kind.Memory? {
        seconds := memory.GetTtl(key, now);
      } else {
        seconds := database.GetTtl(key, now);
      }
    }

    /** The answer is sure to be yes for a live counter only. */
    method Delete(key: K, now: int) returns (existed: bool)
      requires Valid()
      modifies memory, database
      ensures Valid() && Same(kind, Cells(), old(Cells()) - {key}, now)
      ensures Look(kind, old(Cells()), key, now).Some? ==> existed
    {
      if kind.Memory? {
        existed := memory.Delete(key, now);
      } else {
        existed := database.Delete(key, now);
      }
    }
  }

  // ---- whole runs -----------------------------------------------------------------------

  datatype Op<K> =
    | Add(key: K, amount: int, expiry: Option<nat>, refresh: bool, at: int)
    | Ask(key: K, at: int)
    | Drop(key: K, at: int)

  function Effect<K>(b: Backend, m: map<K, Cell>, op: Op<K>): map<K, Cell> {
    match op
    case Add(k, amount, expiry, refresh, now) =>
      if refresh then Refresh(b, m, k, amount, expiry, now) else Bump(b, m, k, amount, expiry, now)
    case Ask(_, _) => m
    case Drop(k, _) => m - {k}
  }

  /** What the operation answers: the count after an add, the count found, nothing for a drop. */
  function Answer<K>(b: Backend, m: map<K, Cell>, op: Op<K>): Option<int> {
    match op
    case Add(k, amount, _, _, now) =>
      Some(match Look(b, m, k, now) case None => amount case Some(c) => c.count + amount)
    case Ask(k, now) => Count(b, m, k, now)
    case Drop(_, _) => None
  }

  function Answers<K>(b: Backend, m: map<K, Cell>, ops: seq<Op<K>>): seq<Option<int>>
    decreases ops
  {
    if ops == [] then [] else [Answer(b, m, ops[0])] + Answers(b, Effect(b, m, ops[0]), ops[1..])
  }

  predicate ClockMoves<K>(now: int, ops: seq<Op<K>>)
    decreases ops
  {
    ops == [] || (now <= ops[0].at && ClockMoves(ops[0].at, ops[1..]))
  }

  lemma EffectCongruent<K(!new)>(b: Backend, m: map<K, Cell>, n: map<K, Cell>, op: Op<K>)
    requires Same(b, m, n, op.at)
    ensures Same(b, Effect(b, m, op), Effect(b, n, op), op.at)
    ensures Answer(b, m, op) == Answer(b, n, op)
  {
    match op
    case Add(k, amount, expiry, refresh, now) =>
      BumpCongruent(b, m, n, k, amount, expiry, now);
      RefreshCongruent(b, m, n, k, amount, expiry, now);
      assert Look(b, m, k, now) == Look(b, n, k, now);
    case Ask(k, now) => assert Look(b, m, k, now) == Look(b, n, k, now);
    case Drop(k, now) => DropCongruent(b, m, n, k, now);
  }

  lemma {:induction false} RunCongruent<K(!new)>(
    b: Backend, m: map<K, Cell>, n: map<K, Cell>, now: int, ops: seq<Op<K>>)
    requires Same(b, m, n, now) && ClockMoves(now, ops)
    ensures Answers(b, m, ops) == Answers(b, n, ops)
    decreases ops
  {
    if ops == [] {
    } else {
      SameLater(b, m, n, now, ops[0].at);
      EffectCongruent(b, m, n, ops[0]);
      RunCongruent(b, Effect(b, m, ops[0]), Effect(b, n, ops[0]), ops[0].at, ops[1..]);
    }
  }

  /** One operation on the memory backend. */
  method MemoryOp<K(==, !new)>(backend: MemoryCounters<K>, op: Op<K>) returns (answer: Option<int>)
    requires backend.Valid()
    modifies backend
    ensures backend.Valid() && answer == Answer(Memory, old(backend.Cells()), op)
    ensures Same(Memory, backend.Cells(), Effect(Memory, old(backend.Cells()), op), op.at)
  {
    match op {
      case Add(k, amount, expiry, refresh, at) =>
        var count;
        if refresh {
          count := backend.IncrementAndRefreshTtl(k, amount, expiry, at);
        } else {
          count := backend.Increment(k, amount, expiry, at);
        }
        answer := Some(count);
      case Ask(k, at) => answer := backend.GetCount(k, at);
      case Drop(k, at) =>
        var _ := backend.Delete(k, at);
        answer := None;
    }
  }

  /** Lazy collection and sweeping are invisible: the memory backend answers as the plain map. */
  method RunMemory<K(==, !new)>(ops: seq<Op<K>>) returns (answers: seq<Option<int>>)
    requires ops != [] ==> ClockMoves(ops[0].at, ops)
    ensures answers == Answers(Memory, map[], ops)
  {
    var backend := new MemoryCounters<K>();
    answers := [];
    ghost var now := if ops == [] then 0 else ops[0].at;
    for i := 0 to |ops|
      invariant backend.Valid() && fresh(backend) && ClockMoves(now, ops[i..])
      invariant Answers(Memory, map[], ops) == answers + Answers(Memory, backend.Cells(), ops[i..])
    {
      ghost var before := backend.Cells();
      assert ops[i..][0] == ops[i] && ops[i..][1..] == ops[i + 1..];
      var answer := MemoryOp(backend, ops[i]);
      RunCongruent(Memory, backend.Cells(), Effect(Memory, before, ops[i]), ops[i].at, ops[i + 1..]);
      answers := answers + [answer];
      now := ops[i].at;
    }
  }

  /** One operation on the database backend, in the given dialect. */
  method DatabaseOp<K(==, !new)>(backend: DatabaseCounters<K>, dialect: Dialect, op: Op<K>)
    returns (answer: Option<int>)
    modifies backend
    ensures answer == Answer(Database, old(backend.rows), op)
    ensures Same(Database, backend.rows, Effect(Database, old(backend.rows), op), op.at)
  {
    match op {
      case Add(k, amount, expiry, refresh, at) =>
        var count := backend.Upsert(k, amount, refresh, expiry, dialect, at);
        answer := Some(count);
      case Ask(k, at) => answer := backend.GetCount(k, at);
      case Drop(k, at) =>
        var _ := backend.Delete(k, at);
        answer := None;
    }
  }

  /** So does the database upsert, in whatever dialect each operation happens to run. */
  method RunDatabase<K(==, !new)>(ops: seq<Op<K>>, dialects: seq<Dialect>) returns (answers: seq<Option<int>>)
    requires ops != [] ==> ClockMoves(ops[0].at, ops)
    requires |dialects| == |ops|
    ensures answers == Answers(Database, map[], ops)
  {
    var backend := new DatabaseCounters<K>();
    answers := [];
    ghost var now := if ops == [] then 0 else ops[0].at;
    for i := 0 to |ops|
      invariant fresh(backend) && ClockMoves(now, ops[i..])
      invariant Answers(Database, map[], ops) == answers + Answers(Database, backend.rows, ops[i..])
    {
      ghost var before := backend.rows;
      assert ops[i..][0] == ops[i] && ops[i..][1..] == ops[i + 1..];
      var answer := DatabaseOp(backend, dialects[i], ops[i]);
      RunCongruent(Database, backend.rows, Effect(Database, before, ops[i]), ops[i].at, ops[i + 1..]);
      answers := answers + [answer];
      now := ops[i].at;
    }
  }

  /** No operation of the run falls exactly on the deadline of a counter it could see. */
  ghost predicate OffDeadlines<K(!new)>(m: map<K, Cell>, ops: seq<Op<K>>)
    decreases ops
  {
    ops == [] ||
    ((forall k :: k in m ==> m[k].deadline != Some(ops[0].at)) &&
     OffDeadlines(Effect(Memory, m, ops[0]), ops[1..]))
  }

  /** Off the deadlines the two backends' readings of liveness coincide, and so do all answers. */
  lemma {:induction false} BackendsAgree<K(!new)>(m: map<K, Cell>, ops: seq<Op<K>>)
    requires OffDeadlines(m, ops)
    ensures Answers(Memory, m, ops) == Answers(Database, m, ops)
    decreases ops
  {
    if ops == [] {
    } else {
      var op := ops[0];
      assert Look(Memory, m, op.key, op.at) == Look(Database, m, op.key, op.at);
      assert Effect(Memory, m, op) == Effect(Database, m, op);
      BackendsAgree(Effect(Memory, m, op), ops[1..]);
    }
  }
}
