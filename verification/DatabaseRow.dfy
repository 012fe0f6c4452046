/**
 One key of the database-backed store, as seen by any number of concurrent callers.

 A row carries a value, a version and an expiry in epoch milliseconds; an expired row reads
 as absent and stays until something removes it. Each SQL statement (or single-statement
 transaction) is one atomic step. `modify` is a read followed by an update guarded by the
 version it read, tried at most fifty times; all its reads judge liveness by the clock of the
 call's start, its guarded updates by the clock of the moment. `get_and_delete` is either one
 DELETE ... RETURNING or a read followed by a delete guarded by the value it read.

 `V` is the type of stored values, `C` of changes, and `apply` what a change does to a
 value. The log and the incarnation are history variables: the log lists the committed
 writes and removals in commit order, and the incarnation counts insertions.
 */
module DatabaseRow {
  import opened Basics

  type CallId = nat

  const MAX_TRIES: nat := 50

  datatype Row<V> = Row(value: V, version: nat, expiresAt: int, incarnation: nat)

  datatype Removal = Deleted | Purged | Lapsed | Consumed(caller: CallId)

  datatype Entry<V, C> =
    | Inserted(value: V, claimed: bool)
    | Put(value: V)
    | Changed(caller: CallId, change: C)
    | Removed(why: Removal, value: V)

  /**
   A refused try: the length of the log at its read and at its refusal, the clock at the refusal,
   and the deadline of the row if it was still there at the version read.
   */
  datatype Fail = Fail(read: nat, refused: nat, at: int, deadline: Option<int>)

  /** A `modify` call: the clock and the log length at its start, and its refused tries. */
  datatype Attempt<C> = Attempt(change: C, cutoff: int, begun: nat, fails: seq<Fail>)

  datatype Call<V, C> =
    | Trying(attempt: Attempt<C>)
    | Holding(attempt: Attempt<C>, read: nat, value: V, version: nat, incarnation: nat)
    | Returned(value: V)
    | GaveUp(attempt: Attempt<C>, ended: nat)
    | NotFound(attempt: Attempt<C>, ended: nat)
    | Peeked(value: V)
    | Handed(value: V)
    | Missing

  datatype State<V, C> = State(
    now: int,
    row: Option<Row<V>>,
    log: seq<Entry<V, C>>,
    insertions: nat,
    calls: map<CallId, Call<V, C>>)

  datatype Step<V, C> =
    | Tick(to: int)
    | Create(value: V, ttl: nat)
    | Update(value: V, ttl: nat, reset: bool)
    | Extend(ttl: nat)
    | Claim(value: V, ttl: nat)
    | Delete
    | Purge
    | ConsumeReturning(c: CallId)
    | Peek(c: CallId)
    | ConsumePeeked(c: CallId)
    | StartModify(c: CallId, change: C)
    | Read(c: CallId)
    | Commit(c: CallId, ttl: nat, reset: bool)

  predicate Live<V, C>(s: State<V, C>) {
    s.row.Some? && s.now < s.row.value.expiresAt
  }

  function Inserting<V, C>(s: State<V, C>, value: V, ttl: nat, claimed: bool): State<V, C> {
    s.(row := Some(Row(value, 1, s.now + ttl * 1000, s.insertions + 1)),
       log := s.log + [Inserted(value, claimed)], insertions := s.insertions + 1)
  }

  function Removing<V, C>(s: State<V, C>, why: Removal): State<V, C>
    requires s.row.Some?
  {
    s.(row := None, log := s.log + [Removed(why, s.row.value.value)])
  }

  /** `set_if_absent`: drop an expired row and insert, unless a live row holds the key. */
  function Claiming<V, C>(s: State<V, C>, value: V, ttl: nat): State<V, C> {
    if Live(s) then s
    else if s.row.Some? then Inserting(Removing(s, Lapsed), value, ttl, true)
    else Inserting(s, value, ttl, true)
  }

  /** The read compares the row's deadline with the clock of the call's start. */
  function Reading<V, C>(s: State<V, C>, c: CallId): State<V, C>
    requires c in s.calls && s.calls[c].Trying?
  {
    var attempt := s.calls[c].attempt;
    if s.row.None? || s.row.value.expiresAt <= attempt.cutoff
    then s.(calls := s.calls[c := NotFound(attempt, |s.log|)])
    else
      var r := s.row.value;
      s.(calls := s.calls[c := Holding(attempt, |s.log|, r.value, r.version, r.incarnation)])
  }

  /** Whether the guarded update of `c` would match the row. */
  predicate Accepts<V, C>(s: State<V, C>, c: CallId) {
    c in s.calls && s.calls[c].Holding? && Live(s) && s.row.value.version == s.calls[c].version
  }

  function Refusal<V, C>(s: State<V, C>, c: CallId): Fail
    requires c in s.calls && s.calls[c].Holding?
  {
    Fail(s.calls[c].read, |s.log|, s.now,
         if s.row.Some? && s.row.value.version == s.calls[c].version then Some(s.row.value.expiresAt) else None)
  }

  function Committing<V, C>(apply: (C, V) -> V, s: State<V, C>, c: CallId, ttl: nat, reset: bool): State<V, C>
    requires c in s.calls && s.calls[c].Holding?
  {
    var call := s.calls[c];
    if Accepts(s, c) then
      var v := apply(call.attempt.change, call.value);
      var r := s.row.value;
      var until := if reset then s.now + ttl * 1000 else r.expiresAt;
      s.(row := Some(Row(v, call.version + 1, until, r.incarnation)),
         log := s.log + [Changed(c, call.attempt.change)],
         calls := s.calls[c := Returned(v)])
    else
      var tried := call.attempt.(fails := call.attempt.fails + [Refusal(s, c)]);
      s.(calls := s.calls[c := if |tried.fails| < MAX_TRIES then Trying(tried) else GaveUp(tried, |s.log|)])
  }

  predicate Enabled<V, C>(s: State<V, C>, e: Step<V, C>) {
    match e
    case Tick(to) => s.now <= to
    case ConsumeReturning(c) => c !in s.calls
    case Peek(c) => c !in s.calls
    case ConsumePeeked(c) => c in s.calls && s.calls[c].Peeked?
    case StartModify(c, _) => c !in s.calls
    case Read(c) => c in s.calls && s.calls[c].Trying?
    case Commit(c, _, _) => c in s.calls && s.calls[c].Holding?
    case _ => true
  }

  function Next<V(==), C>(apply: (C, V) -> V, s: State<V, C>, e: Step<V, C>): State<V, C> {
    if !Enabled(s, e) then s else
    match e
    case Tick(to) => s.(now := to)
    case Create(value, ttl) =>
      if s.row.None? then Inserting(s, value, ttl, false)
      else s.(row := Some(Row(value, s.row.value.version + 1, s.now + ttl * 1000, s.row.value.incarnation)),
              log := s.log + [Put(value)])
    case Update(value, ttl, reset) =>
      if !Live(s) then s
      else s.(row := Some(Row(value, s.row.value.version + 1,
                              if reset then s.now + ttl * 1000 else s.row.value.expiresAt,
                              s.row.value.incarnation)),
              log := s.log + [Put(value)])
    case Extend(ttl) =>
      if !Live(s) then s else s.(row := Some(s.row.value.(expiresAt := s.now + ttl * 1000)))
    case Claim(value, ttl) => Claiming(s, value, ttl)
    case Delete => if s.row.Some? then Removing(s, Deleted) else s
    case Purge => if s.row.Some? && !Live(s) then Removing(s, Purged) else s
    case ConsumeReturning(c) =>
      if !Live(s) then s.(calls := s.calls[c := Missing])
      else Removing(s, Consumed(c)).(calls := s.calls[c := Handed(s.row.value.value)])
    case Peek(c) =>
      s.(calls := s.calls[c := if Live(s) then Peeked(s.row.value.value) else Missing])
    case ConsumePeeked(c) =>
      if Live(s) && s.row.value.value == s.calls[c].value
      then Removing(s, Consumed(c)).(calls := s.calls[c := Handed(s.calls[c].value)])
      else s.(calls := s.calls[c := Missing])
    case StartModify(c, change) => s.(calls := s.calls[c := Trying(Attempt(change, s.now, |s.log|, []))])
    case Read(c) => Reading(s, c)
    case Commit(c, ttl, reset) => Committing(apply, s, c, ttl, reset)
  }

  function After<V(==), C>(apply: (C, V) -> V, run: seq<Step<V, C>>): State<V, C> {
    if run == [] then State(0, None, [], 0, map[])
    else Next(apply, After(apply, run[..|run| - 1]), run[|run| - 1])
  }

  lemma Snoc<V, C>(apply: (C, V) -> V, run: seq<Step<V, C>>, e: Step<V, C>)
    ensures After(apply, run + [e]) == Next(apply, After(apply, run), e)
  {
    assert (run + [e])[..|run|] == run;
  }

  // ---- what the log says --------------------------------------------------------------

  datatype Replayed<V> = Gone | Holds(value: V, version: nat)

  /** The committed entries applied in commit order, each to the value before it. */
  function Replay<V, C>(apply: (C, V) -> V, log: seq<Entry<V, C>>): Replayed<V> {
    if log == [] then Gone else
    var before := Replay(apply, log[..|log| - 1]);
    match log[|log| - 1]
    case Inserted(v, _) => Holds(v, 1)
    case Put(v) => Holds(v, if before.Holds? then before.version + 1 else 1)
    case Changed(_, change) =>
      if before.Holds? then Holds(apply(change, before.value), before.version + 1) else Gone
    case Removed(_, _) => Gone
  }

  function Count<V, C>(p: Entry<V, C> -> bool, log: seq<Entry<V, C>>): nat {
    if log == [] then 0
    else Count(p, log[..|log| - 1]) + (if p(log[|log| - 1]) then 1 else 0)
  }

  lemma CountSnoc<V, C>(p: Entry<V, C> -> bool, log: seq<Entry<V, C>>, e: Entry<V, C>)
    ensures Count(p, log + [e]) == Count(p, log) + (if p(e) then 1 else 0)
  {
    assert (log + [e])[..|log|] == log;
  }

  predicate IsInsertion<V, C>(e: Entry<V, C>) { e.Inserted? }

  predicate IsRemoval<V, C>(e: Entry<V, C>) { e.Removed? }

  predicate IsConsumption<V, C>(e: Entry<V, C>) { e.Removed? && e.why.Consumed? }

  // ---- no lost update -----------------------------------------------------------------

  /** A try is refused because a write or removal came between, or because the row had expired. */
  ghost predicate Explained(f: Fail) {
    f.read < f.refused || (f.deadline.Some? && f.deadline.value <= f.at)
  }

  /** The tries of a call follow one another in the log, and each refusal is explained. */
  ghost predicate Accounted<C>(a: Attempt<C>, ended: nat) {
    && a.begun <= ended
    && (forall i :: 0 <= i < |a.fails| ==>
          a.begun <= a.fails[i].read <= a.fails[i].refused <= ended && Explained(a.fails[i]))
    && (forall i, j :: 0 <= i < j < |a.fails| ==> a.fails[i].refused <= a.fails[j].read)
  }

  /** Nothing was committed since the call began, and its first guarded update was refused. */
  predicate Alone<C>(a: Attempt<C>, ended: nat) { ended == a.begun && a.fails != [] }

  /** The row a call has met alone: expired, and with the deadline it had at the first refusal. */
  ghost predicate MetAlone<V, C>(s: State<V, C>, a: Attempt<C>)
    requires a.fails != []
  {
    s.row.Some? && !Live(s) && a.fails[0].deadline == Some(s.row.value.expiresAt)
  }

  ghost predicate CallOk<V, C>(s: State<V, C>, c: CallId)
    requires c in s.calls
  {
    match s.calls[c]
    case Trying(a) => |a.fails| < MAX_TRIES && Accounted(a, |s.log|) && (Alone(a, |s.log|) ==> MetAlone(s, a))
    case Holding(a, read, value, version, incarnation) =>
      && |a.fails| < MAX_TRIES && Accounted(a, read) && read <= |s.log| && incarnation <= s.insertions
      && (read == |s.log| ==>
            s.row.Some? && s.row.value.version == version && s.row.value.incarnation == incarnation)
      && (Alone(a, |s.log|) ==> MetAlone(s, a) && a.cutoff < s.row.value.expiresAt)
      && (s.row.Some? && s.row.value.incarnation == incarnation ==>
            version <= s.row.value.version &&
            (version == s.row.value.version ==> value == s.row.value.value))
    case GaveUp(a, ended) =>
      |a.fails| == MAX_TRIES && Accounted(a, ended) && ended <= |s.log| &&
      (Alone(a, ended) ==> a.fails[0].deadline.Some? && a.cutoff < a.fails[0].deadline.value)
    case NotFound(a, ended) =>
      |a.fails| < MAX_TRIES && Accounted(a, ended) && ended <= |s.log| &&
      (Alone(a, ended) ==> a.fails[0].deadline.Some? && a.fails[0].deadline.value <= a.cutoff)
    case _ => true
  }

  ghost predicate Inv<V, C>(s: State<V, C>) {
    (s.row.Some? ==> s.row.value.incarnation == s.insertions) &&
    forall c :: c in s.calls ==> CallOk(s, c)
  }

  /** What any step may do to the row: it never goes back in version or in incarnation. */
  ghost predicate Evolves<V, C>(s: State<V, C>, t: State<V, C>) {
    && |s.log| <= |t.log| && s.insertions <= t.insertions
    && (t.row.Some? ==> t.row.value.incarnation == t.insertions)
    && (|t.log| == |s.log| ==>
          (Live(t) ==> Live(s)) && s.row.Some? == t.row.Some? &&
          (s.row.Some? ==> t.row.value.(expiresAt := 0) == s.row.value.(expiresAt := 0)) &&
          (s.row.Some? && !Live(s) ==> t.row == s.row))
    && (t.row.Some? && t.row.value.incarnation <= s.insertions ==>
          s.row.Some? && s.row.value.version <= t.row.value.version &&
          (s.row.value.version == t.row.value.version ==> s.row.value.value == t.row.value.value))
  }

  lemma StepEvolves<V, C>(apply: (C, V) -> V, s: State<V, C>, e: Step<V, C>)
    requires Inv(s)
    ensures Evolves(s, Next(apply, s, e))
  {
    if e.Commit? && Enabled(s, e) {
      assert CallOk(s, e.c);
    }
  }

  lemma CallCarries<V, C>(s: State<V, C>, t: State<V, C>, c: CallId)
    requires Inv(s) && Evolves(s, t)
    requires c in s.calls && c in t.calls && t.calls[c] == s.calls[c]
    ensures CallOk(t, c)
  {
    assert CallOk(s, c);
  }

  lemma ReadKeeps<V, C>(s: State<V, C>, c: CallId)
    requires Inv(s) && c in s.calls && s.calls[c].Trying?
    ensures CallOk(Reading(s, c), c)
  {
    assert CallOk(s, c);
  }

  /** A refused try is explained and comes after the ones before it. */
  lemma RefusalAccounted<V, C>(s: State<V, C>, c: CallId)
    requires Inv(s) && c in s.calls && s.calls[c].Holding? && !Accepts(s, c)
    ensures var a := s.calls[c].attempt;
            var tried := a.(fails := a.fails + [Refusal(s, c)]);
            Accounted(tried, |s.log|) && Explained(Refusal(s, c))
  {
    assert CallOk(s, c);
    var a, f := s.calls[c].attempt, Refusal(s, c);
    var fails := a.fails + [f];
    assert Explained(f);
    assert forall i :: 0 <= i < |a.fails| ==> fails[i] == a.fails[i];
  }

  lemma CommitKeeps<V, C>(apply: (C, V) -> V, s: State<V, C>, c: CallId, ttl: nat, reset: bool)
    requires Inv(s) && c in s.calls && s.calls[c].Holding?
    ensures CallOk(Committing(apply, s, c, ttl, reset), c)
  {
    assert CallOk(s, c);
    if !Accepts(s, c) {
      RefusalAccounted(s, c);
    }
  }

  lemma StepKeeps<V, C>(apply: (C, V) -> V, s: State<V, C>, e: Step<V, C>)
    requires Inv(s)
    ensures Inv(Next(apply, s, e))
  {
    var t := Next(apply, s, e);
    StepEvolves(apply, s, e);
    forall c | c in t.calls ensures CallOk(t, c) {
      if c in s.calls && t.calls[c] == s.calls[c] {
        CallCarries(s, t, c);
      } else if e.Read? {
        ReadKeeps(s, c);
      } else if e.Commit? {
        CommitKeeps(apply, s, c, e.ttl, e.reset);
      }
    }
  }

  lemma {:induction false} RunKeeps<V, C>(apply: (C, V) -> V, run: seq<Step<V, C>>)
    ensures Inv(After(apply, run))
  {
    if run == [] {
    } else {
      RunKeeps(apply, run[..|run| - 1]);
      StepKeeps(apply, After(apply, run[..|run| - 1]), run[|run| - 1]);
    }
  }

  /** The guarded update of `c` would match a row inserted after `c` read its predecessor. */
  predicate StaleMatch<V, C>(s: State<V, C>, e: Step<V, C>) {
    e.Commit? && Accepts(s, e.c) && s.calls[e.c].incarnation != s.row.value.incarnation
  }

  ghost predicate NoStaleMatch<V, C>(apply: (C, V) -> V, run: seq<Step<V, C>>) {
    forall i :: 0 <= i < |run| ==> !StaleMatch(After(apply, run[..i]), run[i])
  }

  ghost predicate Faithful<V, C>(apply: (C, V) -> V, s: State<V, C>) {
    Replay(apply, s.log) ==
      if s.row.Some? then Holds(s.row.value.value, s.row.value.version) else Gone
  }

  /** The row an entry leaves behind, given the one before it. */
  ghost predicate Leaves<V, C>(apply: (C, V) -> V, before: Option<Row<V>>, entry: Entry<V, C>, after: Option<Row<V>>) {
    match entry
    case Inserted(v, _) => after.Some? && after.value.value == v && after.value.version == 1
    case Put(v) =>
      before.Some? && after.Some? && after.value.value == v && after.value.version == before.value.version + 1
    case Changed(_, change) =>
      before.Some? && after.Some? && after.value.value == apply(change, before.value.value) &&
      after.value.version == before.value.version + 1
    case Removed(_, _) => after.None?
  }

  lemma AppendFaithful<V, C>(apply: (C, V) -> V, s: State<V, C>, t: State<V, C>, entry: Entry<V, C>)
    requires Faithful(apply, s) && t.log == s.log + [entry] && Leaves(apply, s.row, entry, t.row)
    ensures Faithful(apply, t)
  {
    assert t.log[..|s.log|] == s.log;
  }

  lemma CommitFaithful<V, C>(apply: (C, V) -> V, s: State<V, C>, c: CallId, ttl: nat, reset: bool)
    requires Faithful(apply, s) && c in s.calls && s.calls[c].Holding? && CallOk(s, c)
    requires !StaleMatch(s, Commit(c, ttl, reset))
    ensures Faithful(apply, Committing(apply, s, c, ttl, reset))
  {
    if Accepts(s, c) {
      AppendFaithful(apply, s, Committing(apply, s, c, ttl, reset), Changed(c, s.calls[c].attempt.change));
    }
  }

  /** A claim over a lapsed row removes it and inserts its own. */
  lemma ClaimFaithful<V, C>(apply: (C, V) -> V, s: State<V, C>, value: V, ttl: nat)
    requires Faithful(apply, s)
    ensures Faithful(apply, Claiming(s, value, ttl))
  {
    if !Live(s) {
      var cleared := if s.row.Some? then Removing(s, Lapsed) else s;
      if s.row.Some? {
        AppendFaithful(apply, s, cleared, Removed(Lapsed, s.row.value.value));
      }
      AppendFaithful(apply, cleared, Inserting(cleared, value, ttl, true), Inserted(value, true));
    }
  }

  lemma StepFaithful<V, C>(apply: (C, V) -> V, s: State<V, C>, e: Step<V, C>)
    requires Inv(s) && Faithful(apply, s) && !StaleMatch(s, e)
    ensures Faithful(apply, Next(apply, s, e))
  {
    var t := Next(apply, s, e);
    if e.Commit? {
      if Enabled(s, e) {
        assert CallOk(s, e.c);
        CommitFaithful(apply, s, e.c, e.ttl, e.reset);
      }
    } else if e.Claim? {
      ClaimFaithful(apply, s, e.value, e.ttl);
    } else if t.log != s.log {
      AppendFaithful(apply, s, t, t.log[|s.log|]);
    }
  }

  /**
   No lost update: as long as no guarded update matched a re-inserted row, the stored value
   and version are exactly the committed writes applied one after another.
   */
  lemma {:induction false} NoLostUpdate<V, C>(apply: (C, V) -> V, run: seq<Step<V, C>>)
    requires NoStaleMatch(apply, run)
    ensures Faithful(apply, After(apply, run))
  {
    if run == [] {
    } else {
      var before := run[..|run| - 1];
      forall i | 0 <= i < |before| ensures !StaleMatch(After(apply, before[..i]), before[i]) {
        assert before[..i] == run[..i];
      }
      NoLostUpdate(apply, before);
      RunKeeps(apply, before);
      StepFaithful(apply, After(apply, before), run[|run| - 1]);
    }
  }

  lemma {:induction false} InsertionsGrow<V, C>(apply: (C, V) -> V, run: seq<Step<V, C>>, i: nat)
    requires i <= |run|
    ensures After(apply, run[..i]).insertions <= After(apply, run).insertions
    decreases |run|
  {
    if i == |run| {
      assert run[..i] == run;
    } else {
      InsertionsGrow(apply, run[..|run| - 1], i);
      assert run[..|run| - 1][..i] == run[..i];
    }
  }

  /** A key inserted at most once in a run is never matched by a stale guarded update. */
  lemma NotReinsertedLosesNothing<V, C>(apply: (C, V) -> V, run: seq<Step<V, C>>)
    requires After(apply, run).insertions <= 1
    ensures Faithful(apply, After(apply, run))
  {
    forall i | 0 <= i < |run| ensures !StaleMatch(After(apply, run[..i]), run[i]) {
      InsertionsGrow(apply, run, i);
      ReadsSomeIncarnation(apply, run[..i]);
      RunKeeps(apply, run[..i]);
    }
    NoLostUpdate(apply, run);
  }

  /** A held value was read from a row that had been inserted. */
  lemma {:induction false} ReadsSomeIncarnation<V, C>(apply: (C, V) -> V, run: seq<Step<V, C>>)
    ensures forall c :: c in After(apply, run).calls && After(apply, run).calls[c].Holding? ==>
              0 < After(apply, run).calls[c].incarnation
    ensures After(apply, run).row.Some? ==> 0 < After(apply, run).row.value.incarnation
  {
    if run == [] {
    } else {
      ReadsSomeIncarnation(apply, run[..|run| - 1]);
      StepReadsSome(apply, After(apply, run[..|run| - 1]), run[|run| - 1]);
    }
  }

  lemma StepReadsSome<V, C>(apply: (C, V) -> V, s: State<V, C>, e: Step<V, C>)
    requires forall c :: c in s.calls && s.calls[c].Holding? ==> 0 < s.calls[c].incarnation
    requires s.row.Some? ==> 0 < s.row.value.incarnation
    ensures var t := Next(apply, s, e);
            && (forall c :: c in t.calls && t.calls[c].Holding? ==> 0 < t.calls[c].incarnation)
            && (t.row.Some? ==> 0 < t.row.value.incarnation)
  {
  }

  /**
   What a successful `modify` wrote: on the row it read, its change applied to the value
   current at its commit, at the next version.
   */
  lemma CommitAppliesToCurrent<V, C>(apply: (C, V) -> V, run: seq<Step<V, C>>, e: Step<V, C>)
    requires e.Commit? && Accepts(After(apply, run), e.c)
    requires !StaleMatch(After(apply, run), e)
    ensures var s, t := After(apply, run), After(apply, run + [e]);
            t.row.Some? &&
            t.row.value.value == apply(s.calls[e.c].attempt.change, s.row.value.value) &&
            t.row.value.version == s.row.value.version + 1 &&
            t.calls[e.c] == Returned(t.row.value.value)
  {
    RunKeeps(apply, run);
    Snoc(apply, run, e);
    assert CallOk(After(apply, run), e.c);
  }

  /**
   Exactly when an accepted guarded update keeps the stored value faithful to the log: it read
   the row it matched, or its change makes the same of both values.
   */
  lemma AcceptedCommitFaithfulIff<V, C>(apply: (C, V) -> V, s: State<V, C>, e: Step<V, C>)
    requires Inv(s) && Faithful(apply, s) && e.Commit? && Accepts(s, e.c)
    ensures Faithful(apply, Next(apply, s, e)) <==>
            (s.calls[e.c].incarnation == s.row.value.incarnation ||
             apply(s.calls[e.c].attempt.change, s.calls[e.c].value) ==
             apply(s.calls[e.c].attempt.change, s.row.value.value))
  {
    var t := Next(apply, s, e);
    assert CallOk(s, e.c);
    assert t.log[..|s.log|] == s.log;
  }

  /**
   The version restarts at one with a re-inserted row, so a guarded update read from the old
   row can match the new one and drop its value: a consume and a fresh claim between the read
   and the commit lose the claimed value.
   */
  lemma ReinsertionLosesAnUpdate() returns (run: seq<Step<int, int>>)
    ensures var s := After(Add, run);
            s.row == Some(Row(101, 2, 60_000, 2)) && Replay(Add, s.log) == Holds(501, 2)
  {
    run := [Claim(100, 60), StartModify(0, 1), Read(0), Delete, Claim(500, 60), Commit(0, 60, true)];
    HeldAcrossReinsertion(run[..5]);
    assert run == run[..5] + [run[5]];
    Snoc(Add, run[..5], run[5]);
    var log := After(Add, run).log;
    assert log == [Inserted(100, true), Removed(Deleted, 100), Inserted(500, true), Changed(0, 1)];
    assert log[..3] == [Inserted(100, true), Removed(Deleted, 100), Inserted(500, true)];
  }

  function Add(change: int, value: int): int { change + value }

  lemma HeldBeforeRemoval(run: seq<Step<int, int>>)
    requires run == [Claim(100, 60), StartModify(0, 1), Read(0)]
    ensures After(Add, run) ==
            State(0, Some(Row(100, 1, 60_000, 1)), [Inserted(100, true)], 1,
                  map[0 := Holding(Attempt(1, 0, 1, []), 1, 100, 1, 1)])
  {
    assert run[..0] == [] && run[..1] == run[..0] + [run[0]];
    assert run[..2] == run[..1] + [run[1]] && run == run[..2] + [run[2]];
    Snoc(Add, run[..0], run[0]);
    assert After(Add, run[..1]) == State(0, Some(Row(100, 1, 60_000, 1)), [Inserted(100, true)], 1, map[]);
    Snoc(Add, run[..1], run[1]);
    assert After(Add, run[..2]).calls == map[0 := Trying(Attempt(1, 0, 1, []))];
    Snoc(Add, run[..2], run[2]);
    assert After(Add, run).calls[0] == Holding(Attempt(1, 0, 1, []), 1, 100, 1, 1);
  }

  lemma HeldAcrossReinsertion(run: seq<Step<int, int>>)
    requires run == [Claim(100, 60), StartModify(0, 1), Read(0), Delete, Claim(500, 60)]
    ensures After(Add, run) ==
            State(0, Some(Row(500, 1, 60_000, 2)),
                  [Inserted(100, true), Removed(Deleted, 100), Inserted(500, true)], 2,
                  map[0 := Holding(Attempt(1, 0, 1, []), 1, 100, 1, 1)])
  {
    assert run[..4] == run[..3] + [run[3]] && run == run[..4] + [run[4]];
    HeldBeforeRemoval(run[..3]);
    Snoc(Add, run[..3], run[3]);
    Snoc(Add, run[..4], run[4]);
  }

  // ---- giving up --------------------------------------------------------------------------

  /**
   Why a `modify` gives up: fifty tries one after another, each overtaken by a write or removal of
   its own between its read and its guarded update, or met at that update by an expired row.
   */
  lemma GivingUpExplained<V, C>(apply: (C, V) -> V, run: seq<Step<V, C>>, c: CallId)
    requires c in After(apply, run).calls && After(apply, run).calls[c].GaveUp?
    ensures var fails := After(apply, run).calls[c].attempt.fails;
            && |fails| == 50
            && (forall i :: 0 <= i < 50 ==>
                  fails[i].read < fails[i].refused <= |After(apply, run).log| ||
                  (fails[i].deadline.Some? && fails[i].deadline.value <= fails[i].at))
            && (forall i, j :: 0 <= i < j < 50 ==> fails[i].refused <= fails[j].read)
  {
    RunKeeps(apply, run);
    assert CallOk(After(apply, run), c);
  }

  /**
   With nothing committed between its start and its end, a call that found the row at first gives
   up if and only if the row had expired by its first guarded update at a deadline after the
   call's start. Otherwise it was refused once, by a row cut short to that start, and found
   nothing at its second read.
   */
  lemma GivesUpAloneIff<V, C>(apply: (C, V) -> V, run: seq<Step<V, C>>, c: CallId)
    requires var s := After(apply, run);
             c in s.calls && (s.calls[c].GaveUp? || s.calls[c].NotFound?) &&
             s.calls[c].ended == s.calls[c].attempt.begun
    ensures var call := After(apply, run).calls[c];
            call.GaveUp? <==>
            call.attempt.fails != [] && call.attempt.fails[0].deadline.Some? &&
            call.attempt.cutoff < call.attempt.fails[0].deadline.value <= call.attempt.fails[0].at
  {
    RunKeeps(apply, run);
    assert CallOk(After(apply, run), c);
  }

  /** A refusal with nothing committed since the read is the row's expiry, and nothing else. */
  lemma RefusedAloneIffExpired<V, C>(apply: (C, V) -> V, run: seq<Step<V, C>>, e: Step<V, C>)
    requires e.Commit? && Enabled(After(apply, run), e)
    requires After(apply, run).calls[e.c].read == |After(apply, run).log|
    ensures var s := After(apply, run);
            s.row.Some? &&
            (After(apply, run + [e]).calls[e.c].Returned? <==> s.now < s.row.value.expiresAt)
  {
    RunKeeps(apply, run);
    Snoc(apply, run, e);
    assert CallOk(After(apply, run), e.c);
  }

  function LoneFails(tries: nat): (fails: seq<Fail>)
    ensures |fails| == tries
  {
    seq(tries, _ => Fail(1, 1, 60_000, Some(60_000)))
  }

  /** The lone run's state: the row is expired, and `call` is the one call there is. */
  function LoneState(call: Call<int, int>): State<int, int> {
    State(60_000, Some(Row(100, 1, 60_000, 1)), [Inserted(100, true)], 1, map[0 := call])
  }

  lemma LoneCommit(run: seq<Step<int, int>>, tries: nat)
    requires After(Add, run) == LoneState(Holding(Attempt(1, 0, 1, LoneFails(tries)), 1, 100, 1, 1))
    ensures After(Add, run + [Commit(0, 60, true)]) == LoneState(Tried(tries + 1))
  {
    Snoc(Add, run, Commit(0, 60, true));
    assert LoneFails(tries) + [Fail(1, 1, 60_000, Some(60_000))] == LoneFails(tries + 1);
    var t := After(Add, run + [Commit(0, 60, true)]);
    assert t.calls == map[0 := t.calls[0]];
  }

  /** A lone caller: a row of one minute, read, and then `tries` guarded updates after its expiry. */
  lemma {:induction false} LoneTries(tries: nat) returns (run: seq<Step<int, int>>)
    requires 1 <= tries <= MAX_TRIES
    ensures After(Add, run) == LoneState(Tried(tries))
  {
    if tries == 1 {
      run := [Claim(100, 60), StartModify(0, 1), Read(0)];
      HeldBeforeRemoval(run);
      LoneExpiry(run);
      LoneCommit(run + [Tick(60_000)], 0);
      run := run + [Tick(60_000)] + [Commit(0, 60, true)];
    } else {
      run := LoneTries(tries - 1);
      LoneRead(run, tries - 1);
      LoneCommit(run + [Read(0)], tries - 1);
      run := run + [Read(0)] + [Commit(0, 60, true)];
    }
  }

  /** The call after its refused tries. */
  function Tried(tries: nat): Call<int, int> {
    var a := Attempt(1, 0, 1, LoneFails(tries));
    if tries < MAX_TRIES then Trying(a) else GaveUp(a, 1)
  }

  lemma LoneExpiry(run: seq<Step<int, int>>)
    requires After(Add, run) ==
             State(0, Some(Row(100, 1, 60_000, 1)), [Inserted(100, true)], 1,
                   map[0 := Holding(Attempt(1, 0, 1, []), 1, 100, 1, 1)])
    ensures After(Add, run + [Tick(60_000)]) == LoneState(Holding(Attempt(1, 0, 1, LoneFails(0)), 1, 100, 1, 1))
  {
    Snoc(Add, run, Tick(60_000));
    assert LoneFails(0) == [];
  }

  lemma LoneRead(run: seq<Step<int, int>>, tries: nat)
    requires After(Add, run) == LoneState(Trying(Attempt(1, 0, 1, LoneFails(tries))))
    ensures After(Add, run + [Read(0)]) == LoneState(Holding(Attempt(1, 0, 1, LoneFails(tries)), 1, 100, 1, 1))
  {
    Snoc(Add, run, Read(0));
    var t := After(Add, run + [Read(0)]);
    assert t.calls == map[0 := t.calls[0]];
  }

  /**
   The documented reason for giving up is a writer in a tight loop. A lone caller whose row
   expires between its first read and its first guarded update gives up all the same.
   */
  lemma LoneCallerGivesUp() returns (run: seq<Step<int, int>>)
    ensures After(Add, run) == LoneState(GaveUp(Attempt(1, 0, 1, LoneFails(50)), 1))
    ensures forall i :: 0 <= i < 50 ==> LoneFails(50)[i] == Fail(1, 1, 60_000, Some(60_000))
  {
    run := LoneTries(50);
  }

  // ---- claim once, consume once -------------------------------------------------------

  /** Conservation: every insertion is accounted for by a removal or by the row still there. */
  ghost predicate Balanced<V, C>(s: State<V, C>) {
    Count(IsInsertion, s.log) == Count(IsRemoval, s.log) + (if s.row.Some? then 1 else 0)
  }

  lemma AppendBalanced<V, C>(s: State<V, C>, t: State<V, C>, entry: Entry<V, C>)
    requires Balanced(s) && t.log == s.log + [entry]
    requires entry.Inserted? ==> s.row.None? && t.row.Some?
    requires entry.Removed? ==> s.row.Some? && t.row.None?
    requires !entry.Inserted? && !entry.Removed? ==> s.row.Some? == t.row.Some?
    ensures Balanced(t)
  {
    CountSnoc(IsInsertion, s.log, entry);
    CountSnoc(IsRemoval, s.log, entry);
  }

  lemma StepBalanced<V, C>(apply: (C, V) -> V, s: State<V, C>, e: Step<V, C>)
    requires Balanced(s)
    ensures Balanced(Next(apply, s, e))
  {
    var t := Next(apply, s, e);
    if t.log != s.log {
      if e.Claim? && s.row.Some? {
        var cleared := Removing(s, Lapsed);
        AppendBalanced(s, cleared, Removed(Lapsed, s.row.value.value));
        AppendBalanced(cleared, t, Inserted(e.value, true));
      } else {
        AppendBalanced(s, t, t.log[|s.log|]);
      }
    }
  }

  lemma {:induction false} ConsumptionsNeverExceed<V, C>(log: seq<Entry<V, C>>)
    ensures Count(IsConsumption, log) <= Count(IsRemoval, log)
  {
    if log == [] {
    } else {
      ConsumptionsNeverExceed(log[..|log| - 1]);
    }
  }

  lemma {:induction false} InsertionsBalance<V, C>(apply: (C, V) -> V, run: seq<Step<V, C>>)
    ensures Balanced(After(apply, run))
    ensures var s := After(apply, run); Count(IsConsumption, s.log) <= Count(IsInsertion, s.log)
  {
    if run == [] {
    } else {
      InsertionsBalance(apply, run[..|run| - 1]);
      StepBalanced(apply, After(apply, run[..|run| - 1]), run[|run| - 1]);
    }
    ConsumptionsNeverExceed(After(apply, run).log);
  }

  /** Between two successful claims of the key, in any run, it was removed or had expired. */
  ghost predicate ClaimsSeparated<V, C>(log: seq<Entry<V, C>>) {
    forall i, j ::
      (0 <= i < j < |log| && log[i].Inserted? && log[j].Inserted?) ==>
        exists k :: i < k < j && log[k].Removed?
  }

  /** After the last insertion with no removal behind it, the row is there. */
  ghost predicate TailHeld<V, C>(s: State<V, C>) {
    s.row.None? ==>
      forall i :: (0 <= i < |s.log| && s.log[i].Inserted?) ==>
        exists k :: i < k < |s.log| && s.log[k].Removed?
  }

  lemma StepSeparates<V, C>(apply: (C, V) -> V, s: State<V, C>, e: Step<V, C>)
    requires ClaimsSeparated(s.log) && TailHeld(s)
    ensures ClaimsSeparated(Next(apply, s, e).log) && TailHeld(Next(apply, s, e))
  {
    var t := Next(apply, s, e);
    if t.log != s.log {
      if e.Claim? && s.row.Some? {
        var u := Removing(s, Lapsed);
        GrowSeparated(s, u);
        GrowSeparated(u, t);
      } else {
        GrowSeparated(s, t);
      }
    }
  }

  /** One committed entry that inserts only where no row is, or removes one. */
  lemma GrowSeparated<V, C>(s: State<V, C>, t: State<V, C>)
    requires ClaimsSeparated(s.log) && TailHeld(s)
    requires |t.log| == |s.log| + 1 && t.log[..|s.log|] == s.log
    requires t.log[|s.log|].Inserted? ==> s.row.None? && t.row.Some?
    requires !t.log[|s.log|].Inserted? ==> (t.row.None? ==> t.log[|s.log|].Removed?)
    ensures ClaimsSeparated(t.log) && TailHeld(t)
  {
    forall i | 0 <= i < |s.log| ensures t.log[i] == s.log[i] {
      assert t.log[..|s.log|][i] == s.log[i];
    }
    forall i, j | 0 <= i < j < |t.log| && t.log[i].Inserted? && t.log[j].Inserted?
      ensures exists k :: i < k < j && t.log[k].Removed?
    {
      if j < |s.log| {
        var k :| i < k < j && s.log[k].Removed?;
        assert t.log[k].Removed?;
      } else {
        var k :| i < k < |s.log| && s.log[k].Removed?;
        assert t.log[k].Removed?;
      }
    }
    if t.row.None? {
      forall i | 0 <= i < |t.log| && t.log[i].Inserted?
        ensures exists k :: i < k < |t.log| && t.log[k].Removed?
      {
        assert t.log[|s.log|].Removed?;
      }
    }
  }

  lemma {:induction false} ClaimOnce<V, C>(apply: (C, V) -> V, run: seq<Step<V, C>>)
    ensures ClaimsSeparated(After(apply, run).log) && TailHeld(After(apply, run))
  {
    if run == [] {
    } else {
      ClaimOnce(apply, run[..|run| - 1]);
      StepSeparates(apply, After(apply, run[..|run| - 1]), run[|run| - 1]);
    }
  }

  /** The log position where `c` consumed the row, if it did. */
  ghost predicate ConsumedAt<V, C>(s: State<V, C>, c: CallId, k: nat) {
    k < |s.log| && s.log[k].Removed? && s.log[k].why == Consumed(c)
  }

  /**
   Exactly once: a value is handed to a call exactly when that call's own delete removed the
   row holding it, and no other log entry is that call's.
   */
  ghost predicate HandoutsMatch<V, C>(s: State<V, C>) {
    && (forall c :: c in s.calls && s.calls[c].Handed? ==>
          exists k: nat :: ConsumedAt(s, c, k) && s.log[k].value == s.calls[c].value)
    && (forall c, k: nat :: ConsumedAt(s, c, k) ==> c in s.calls && s.calls[c].Handed?)
    && (forall c, k: nat, m: nat :: ConsumedAt(s, c, k) && ConsumedAt(s, c, m) ==> k == m)
  }

  /** How one step may touch handouts: by appending the one consumption of a new caller. */
  ghost predicate HandoutStep<V, C>(s: State<V, C>, t: State<V, C>) {
    && |s.log| <= |t.log|
    && (forall i :: 0 <= i < |s.log| ==> t.log[i] == s.log[i])
    && (forall c :: c in s.calls && s.calls[c].Handed? ==> c in t.calls && t.calls[c] == s.calls[c])
    && (forall i :: |s.log| <= i < |t.log| && t.log[i].Removed? && t.log[i].why.Consumed? ==>
          i == |s.log| && t.log[i].why.caller in t.calls &&
          t.calls[t.log[i].why.caller] == Handed(t.log[i].value) &&
          !(t.log[i].why.caller in s.calls && s.calls[t.log[i].why.caller].Handed?))
    && (forall c :: c in t.calls && t.calls[c].Handed? && !(c in s.calls && s.calls[c].Handed?) ==>
          |s.log| < |t.log| && t.log[|s.log|] == Removed(Consumed(c), t.calls[c].value))
  }

  lemma ConsumeIsHandoutStep<V, C>(apply: (C, V) -> V, s: State<V, C>, e: Step<V, C>)
    requires e.ConsumeReturning? || e.ConsumePeeked?
    ensures HandoutStep(s, Next(apply, s, e))
  {
  }

  lemma OtherIsHandoutStep<V, C>(apply: (C, V) -> V, s: State<V, C>, e: Step<V, C>)
    requires !e.ConsumeReturning? && !e.ConsumePeeked?
    ensures HandoutStep(s, Next(apply, s, e))
  {
    OtherLogs(apply, s, e);
    OtherHandsNothing(apply, s, e);
  }

  lemma OtherLogs<V, C>(apply: (C, V) -> V, s: State<V, C>, e: Step<V, C>)
    requires !e.ConsumeReturning? && !e.ConsumePeeked?
    ensures var t := Next(apply, s, e);
            && |s.log| <= |t.log| && (forall i :: 0 <= i < |s.log| ==> t.log[i] == s.log[i])
            && (forall i :: |s.log| <= i < |t.log| && t.log[i].Removed? ==> !t.log[i].why.Consumed?)
  {
  }

  lemma OtherHandsNothing<V, C>(apply: (C, V) -> V, s: State<V, C>, e: Step<V, C>)
    requires !e.ConsumeReturning? && !e.ConsumePeeked?
    ensures var t := Next(apply, s, e);
            && (forall c :: c in s.calls && s.calls[c].Handed? ==> c in t.calls && t.calls[c] == s.calls[c])
            && (forall c :: c in t.calls && t.calls[c].Handed? ==> c in s.calls && s.calls[c] == t.calls[c])
  {
  }

  lemma StepIsHandoutStep<V, C>(apply: (C, V) -> V, s: State<V, C>, e: Step<V, C>)
    ensures HandoutStep(s, Next(apply, s, e))
  {
    if e.ConsumeReturning? || e.ConsumePeeked? {
      ConsumeIsHandoutStep(apply, s, e);
    } else {
      OtherIsHandoutStep(apply, s, e);
    }
  }

  lemma StepHandouts<V, C>(s: State<V, C>, t: State<V, C>)
    requires HandoutsMatch(s) && HandoutStep(s, t)
    ensures HandoutsMatch(t)
  {
    forall c | c in t.calls && t.calls[c].Handed?
      ensures exists k: nat :: ConsumedAt(t, c, k) && t.log[k].value == t.calls[c].value
    {
      if c in s.calls && s.calls[c].Handed? {
        var k: nat :| ConsumedAt(s, c, k) && s.log[k].value == s.calls[c].value;
        assert ConsumedAt(t, c, k);
      } else {
        assert ConsumedAt(t, c, |s.log|);
      }
    }
    forall c, k: nat | ConsumedAt(t, c, k) ensures c in t.calls && t.calls[c].Handed? {
      if k < |s.log| {
        assert ConsumedAt(s, c, k);
      }
    }
    forall c, k: nat, m: nat | ConsumedAt(t, c, k) && ConsumedAt(t, c, m) ensures k == m {
      if k < |s.log| {
        assert ConsumedAt(s, c, k);
      }
      if m < |s.log| {
        assert ConsumedAt(s, c, m);
      }
    }
  }

  lemma {:induction false} ConsumeOnce<V, C>(apply: (C, V) -> V, run: seq<Step<V, C>>)
    ensures HandoutsMatch(After(apply, run))
  {
    if run == [] {
    } else {
      ConsumeOnce(apply, run[..|run| - 1]);
      StepIsHandoutStep(apply, After(apply, run[..|run| - 1]), run[|run| - 1]);
      StepHandouts(After(apply, run[..|run| - 1]), After(apply, run));
    }
  }
}
