/**
 Sessions and CSRF tokens over two expiring in-memory stores, one process, one clock instant per
 call. The classes follow the code; each of their methods is tied to a function on `Db`, the live
 contents of the two stores, and the session cap and the aligned expiry are proved of those
 functions and of every run of them. Ids are fresh random values and storage keys injective in
 them, so an id stands for its key.
 */
module SessionManager {
  import opened Basics

  type Key = string
  type UserId = string

  // ---- expiring tables ---------------------------------------------------------------------

  datatype Entry<+V> = Entry(value: V, deadline: int)

  type Table<V> = map<Key, Entry<V>>

  /** An entry is still live at its deadline. */
  function LiveAt<V>(table: Table<V>, now: int): Table<V> {
    map k | k in table && now <= table[k].deadline :: table[k]
  }

  const SWEEP_EVERY_WRITES: nat := 256

  class MemoryStorage<V> {
    var data: map<Key, V>
    var expiry: map<Key, int>
    var writesSinceSweep: nat

    ghost predicate Valid()
      reads this
    {
      data.Keys == expiry.Keys
    }

    /** The live entries. */
    ghost function View(now: int): Table<V>
      requires Valid()
      reads this
    {
      map k | k in data && now <= expiry[k] :: Entry(data[k], expiry[k])
    }

    lemma ViewLater(now: int, later: int)
      requires Valid() && now <= later
      ensures View(later) == LiveAt(View(now), later)
    {
    }

    constructor ()
      ensures Valid() && data == map[] && forall now :: View(now) == map[]
    {
      data, expiry, writesSinceSweep := map[], map[], 0;
    }

    method CheckExpiry(key: Key, now: int) returns (removed: bool)
      requires Valid()
      modifies this
      ensures Valid() && View(now) == old(View(now))
      ensures removed <==> key in old(data) && old(expiry)[key] < now
      ensures !removed ==> data == old(data) && expiry == old(expiry)
      ensures removed ==> data == old(data) - {key} && expiry == old(expiry) - {key}
    {
      if key in expiry && expiry[key] < now {
        data, expiry := data - {key}, expiry - {key};
        return true;
      }
      return false;
    }

    /** The occasional sweep changes nothing that is live. */
    method MaybeSweep(now: int)
      requires Valid()
      modifies this
      ensures Valid() && View(now) == old(View(now))
      ensures data.Keys <= old(data.Keys)
    {
      writesSinceSweep := writesSinceSweep + 1;
      if writesSinceSweep < SWEEP_EVERY_WRITES {
        return;
      }
      writesSinceSweep := 0;
      var stale := set k | k in expiry && expiry[k] < now;
      while stale != {}
        invariant Valid() && View(now) == old(View(now)) && data.Keys <= old(data.Keys)
        invariant forall k :: k in stale && k in expiry ==> expiry[k] < now
        decreases stale
      {
        var key :| key in stale;
        data, expiry := data - {key}, expiry - {key};
        stale := stale - {key};
      }
    }

    method Create(key: Key, value: V, ttl: nat, now: int)
      requires Valid()
      modifies this
      ensures Valid() && View(now) == old(View(now))[key := Entry(value, now + ttl)]
    {
      data, expiry := data[key := value], expiry[key := now + ttl];
      assert View(now) == old(View(now))[key := Entry(value, now + ttl)];
      MaybeSweep(now);
    }

    method Get(key: Key, now: int) returns (r: Option<V>)
      requires Valid()
      modifies this
      ensures Valid() && View(now) == old(View(now))
      ensures r == if key in View(now) then Some(View(now)[key].value) else None
    {
      var removed := CheckExpiry(key, now);
      if removed || key !in data {
        return None;
      }
      return Some(data[key]);
    }

    /** `ttl` is `None` when the write keeps the deadline. */
    method Update(key: Key, value: V, ttl: Option<nat>, now: int) returns (ok: bool)
      requires Valid()
      modifies this
      ensures Valid() && (ok <==> key in old(View(now)))
      ensures View(now) ==
              if !ok then old(View(now))
              else old(View(now))[key := Entry(value, if ttl.Some? then now + ttl.value
                                                       else old(View(now))[key].deadline)]
    {
      var removed := CheckExpiry(key, now);
      if removed || key !in data {
        return false;
      }
      data := data[key := value];
      if ttl.Some? {
        expiry := expiry[key := now + ttl.value];
      }
      return true;
    }

    /** Deletes the entry; the answer also counts an expired one not evicted yet. */
    method Delete(key: Key, now: int) returns (existed: bool)
      requires Valid()
      modifies this
      ensures Valid() && View(now) == old(View(now)) - {key}
      ensures existed <==> key in old(data)
      ensures data == old(data) - {key}
    {
      existed := key in data;
      data, expiry := data - {key}, expiry - {key};
    }

    method Extend(key: Key, ttl: nat, now: int) returns (ok: bool)
      requires Valid()
      modifies this
      ensures Valid() && (ok <==> key in old(View(now)))
      ensures View(now) ==
              if ok then old(View(now))[key := Entry(old(View(now))[key].value, now + ttl)] else old(View(now))
    {
      var removed := CheckExpiry(key, now);
      if removed || key !in data {
        return false;
      }
      expiry := expiry[key := now + ttl];
      return true;
    }

    /** Every live key, once each. */
    method Keys(now: int) returns (keys: seq<Key>)
      requires Valid()
      modifies this
      ensures Valid() && View(now) == old(View(now))
      ensures forall k :: k in keys <==> k in View(now)
      ensures forall i, j :: 0 <= i < j < |keys| ==> keys[i] != keys[j]
    {
      keys := [];
      var todo := data.Keys;
      while todo != {}
        invariant Valid() && View(now) == old(View(now))
        invariant forall k :: k in keys ==> k in View(now) && k !in todo
        invariant forall k :: k in View(now) ==> k in todo || k in keys
        invariant forall i, j :: 0 <= i < j < |keys| ==> keys[i] != keys[j]
        decreases todo
      {
        var key :| key in todo;
        todo := todo - {key};
        var found := Get(key, now);
        if found.Some? {
          keys := keys + [key];
        }
      }
    }
  }

  // ---- the stores' live contents ------------------------------------------------------------

  datatype Session = Session(user: UserId, created: int, lastActivity: int, remember: bool, csrfId: Option<Key>)

  datatype Config = Config(
    csrf: bool, maxSessions: nat, timeout: nat, rememberTimeout: nat, absoluteTimeout: Option<nat>)

  /** `tokens` maps a CSRF token to the session it is bound to. */
  datatype Db = Db(sessions: Table<Session>, tokens: Table<Key>)

  function TimeoutFor(cfg: Config, remember: bool): nat {
    if remember then cfg.rememberTimeout else cfg.timeout
  }

  function At(db: Db, now: int): Db { Db(LiveAt(db.sessions, now), LiveAt(db.tokens, now)) }

  function UserKeys(db: Db, user: UserId): set<Key> {
    set k | k in db.sessions && db.sessions[k].value.user == user
  }

  /** The CSRF tokens the given sessions name. */
  function Named(db: Db, keys: set<Key>): set<Key> {
    set k | k in keys && k in db.sessions && db.sessions[k].value.csrfId.Some? :: db.sessions[k].value.csrfId.value
  }

  function Dropped(cfg: Config, db: Db, gone: set<Key>): Db {
    Db(db.sessions - gone, if cfg.csrf then db.tokens - Named(db, gone) else db.tokens)
  }

  function Opened(cfg: Config, db: Db, sid: Key, user: UserId, remember: bool, token: Key, ttl: nat, now: int): Db {
    Db(db.sessions[sid := Entry(Session(user, now, now, remember, if cfg.csrf then Some(token) else None), now + ttl)],
       if cfg.csrf then db.tokens[token := Entry(sid, now + ttl)] else db.tokens)
  }

  function SlidToken(cfg: Config, tokens: Table<Key>, id: Option<Key>, deadline: int): Table<Key> {
    if cfg.csrf && id.Some? && id.value in tokens then tokens[id.value := tokens[id.value].(deadline := deadline)]
    else tokens
  }

  predicate IdleExpired(cfg: Config, s: Session, now: int) {
    s.lastActivity < now - TimeoutFor(cfg, s.remember)
  }

  predicate TooOld(cfg: Config, s: Session, now: int) {
    cfg.absoluteTimeout.Some? && s.created < now - cfg.absoluteTimeout.value
  }

  /** The session as a request may use it. */
  predicate Usable(cfg: Config, db: Db, sid: Key, now: int) {
    && sid in db.sessions
    && !IdleExpired(cfg, db.sessions[sid].value, now) && !TooOld(cfg, db.sessions[sid].value, now)
  }

  function Validated(cfg: Config, db: Db, sid: Key, updateActivity: bool, now: int): Db {
    if sid !in db.sessions then db
    else if !Usable(cfg, db, sid, now) then Dropped(cfg, db, {sid})
    else if !updateActivity then db
    else
      var s := db.sessions[sid].value;
      var deadline := now + TimeoutFor(cfg, s.remember);
      Db(db.sessions[sid := Entry(s.(lastActivity := now), deadline)],
         SlidToken(cfg, db.tokens, s.csrfId, deadline))
  }

  function Rotated(cfg: Config, db: Db, sid: Key, token: Key, ttl: Option<nat>, now: int): Db {
    if !cfg.csrf || sid !in db.sessions then db
    else
      var s := db.sessions[sid].value;
      var deadline := now + if ttl.Some? then ttl.value else TimeoutFor(cfg, s.remember);
      var issued := db.tokens[token := Entry(sid, deadline)];
      Db(db.sessions[sid := Entry(s.(csrfId := Some(token)), deadline)],
         if s.csrfId.Some? then issued - {s.csrfId.value} else issued)
  }

  // ---- what the limit may evict ---------------------------------------------------------------

  function Excess(cfg: Config, active: nat): nat {
    if active < cfg.maxSessions then 0 else if cfg.maxSessions == 0 then active else active - cfg.maxSessions + 1
  }

  /** Just enough of the user's sessions, none more recently active than one that stays. */
  ghost predicate Evicts(cfg: Config, db: Db, user: UserId, gone: set<Key>) {
    var mine := UserKeys(db, user);
    && gone <= mine && |gone| == Excess(cfg, |mine|)
    && forall e, k :: e in gone && k in mine && k !in gone ==>
         db.sessions[e].value.lastActivity <= db.sessions[k].value.lastActivity
  }

  // ---- the cap and the aligned expiry -----------------------------------------------------------

  /** Every live session names a live CSRF token bound to it, with the session's own deadline. */
  ghost predicate Aligned(cfg: Config, db: Db) {
    cfg.csrf ==> forall k :: k in db.sessions ==>
      var named := db.sessions[k].value.csrfId;
      named.Some? && named.value in db.tokens && db.tokens[named.value] == Entry(k, db.sessions[k].deadline)
  }

  /** At most `maxSessions` live sessions a user; a limit of zero still lets the newest one live. */
  ghost predicate Capped(cfg: Config, db: Db) {
    forall user :: |UserKeys(db, user)| <= if cfg.maxSessions == 0 then 1 else cfg.maxSessions
  }

  ghost predicate Inv(cfg: Config, db: Db) { Aligned(cfg, db) && Capped(cfg, db) }

  /** Losing sessions, or changing nothing about whose they are, keeps the cap. */
  lemma FewerKeepsCap(cfg: Config, db: Db, after: Db)
    requires Capped(cfg, db)
    requires forall k :: k in after.sessions ==>
               k in db.sessions && after.sessions[k].value.user == db.sessions[k].value.user
    ensures Capped(cfg, after)
  {
    forall user ensures |UserKeys(after, user)| <= if cfg.maxSessions == 0 then 1 else cfg.maxSessions {
      SubsetSize(UserKeys(after, user), UserKeys(db, user));
    }
  }

  lemma TimeKeeps(cfg: Config, db: Db, now: int)
    requires Inv(cfg, db)
    ensures Inv(cfg, At(db, now))
  {
    FewerKeepsCap(cfg, db, At(db, now));
  }

  lemma DroppedKeeps(cfg: Config, db: Db, gone: set<Key>)
    requires Inv(cfg, db)
    ensures Inv(cfg, Dropped(cfg, db, gone))
  {
    FewerKeepsCap(cfg, db, Dropped(cfg, db, gone));
  }

  lemma ValidatedKeeps(cfg: Config, db: Db, sid: Key, updateActivity: bool, now: int)
    requires Inv(cfg, db)
    ensures Inv(cfg, Validated(cfg, db, sid, updateActivity, now))
  {
    DroppedKeeps(cfg, db, {sid});
    FewerKeepsCap(cfg, db, Validated(cfg, db, sid, updateActivity, now));
  }

  /** Without a time to live of its own, a rotation takes the session's. */
  lemma DefaultTtl(cfg: Config, db: Db, sid: Key, token: Key, ttl: Option<nat>, now: int)
    requires sid in db.sessions
    ensures var seconds := if ttl.Some? then ttl.value else TimeoutFor(cfg, db.sessions[sid].value.remember);
            Rotated(cfg, db, sid, token, Some(seconds), now) == Rotated(cfg, db, sid, token, ttl, now)
  {
  }

  lemma RotatedKeeps(cfg: Config, db: Db, sid: Key, token: Key, ttl: Option<nat>, now: int)
    requires Inv(cfg, db) && token !in db.tokens
    ensures Inv(cfg, Rotated(cfg, db, sid, token, ttl, now))
  {
    FewerKeepsCap(cfg, db, Rotated(cfg, db, sid, token, ttl, now));
  }

  lemma OpenedAligned(
    cfg: Config, db: Db, sid: Key, user: UserId, remember: bool, token: Key, ttl: nat, now: int)
    requires Aligned(cfg, db) && sid !in db.sessions && token !in db.tokens
    ensures Aligned(cfg, Opened(cfg, db, sid, user, remember, token, ttl, now))
  {
  }

  lemma OpenedCount(
    cfg: Config, db: Db, sid: Key, user: UserId, remember: bool, token: Key, ttl: nat, now: int, u: UserId)
    requires sid !in db.sessions
    ensures |UserKeys(Opened(cfg, db, sid, user, remember, token, ttl, now), u)| ==
            |UserKeys(db, u)| + if u == user then 1 else 0
  {
    var after := Opened(cfg, db, sid, user, remember, token, ttl, now);
    assert UserKeys(after, u) == UserKeys(db, u) + if u == user then {sid} else {};
  }

  lemma EvictedCount(cfg: Config, db: Db, user: UserId, gone: set<Key>)
    requires Evicts(cfg, db, user, gone)
    ensures |UserKeys(Dropped(cfg, db, gone), user)| < if cfg.maxSessions == 0 then 1 else cfg.maxSessions
  {
    assert UserKeys(Dropped(cfg, db, gone), user) == UserKeys(db, user) - gone;
  }

  lemma OpenedKeeps(
    cfg: Config, db: Db, sid: Key, user: UserId, remember: bool, token: Key, ttl: nat, now: int, gone: set<Key>)
    requires Inv(cfg, db) && Evicts(cfg, db, user, gone) && sid !in db.sessions && token !in db.tokens
    ensures Inv(cfg, Opened(cfg, Dropped(cfg, db, gone), sid, user, remember, token, ttl, now))
  {
    var kept := Dropped(cfg, db, gone);
    DroppedKeeps(cfg, db, gone);
    EvictedCount(cfg, db, user, gone);
    OpenedAligned(cfg, kept, sid, user, remember, token, ttl, now);
    var after := Opened(cfg, kept, sid, user, remember, token, ttl, now);
    forall u ensures |UserKeys(after, u)| <= if cfg.maxSessions == 0 then 1 else cfg.maxSessions {
      OpenedCount(cfg, kept, sid, user, remember, token, ttl, now, u);
    }
  }

  // ---- runs -----------------------------------------------------------------------------------------

  datatype Op =
    | Login(sid: Key, user: UserId, remember: bool, token: Key, ttl: Option<nat>,
            presented: Option<Key>, gone: set<Key>)
    | Validate(sid: Key, updateActivity: bool)
    | Rotate(sid: Key, token: Key, ttl: Option<nat>)
    | Revoke(sid: Key, owner: Option<UserId>)
    | RevokeAll(user: UserId, exclude: Option<Key>)

  datatype Timed = Timed(op: Op, now: int)

  function Presented(cfg: Config, db: Db, presented: Option<Key>): Db {
    if presented.Some? && presented.value in db.sessions then Dropped(cfg, db, {presented.value}) else db
  }

  function Revoked(cfg: Config, db: Db, sid: Key, owner: Option<UserId>): Db {
    if sid in db.sessions && (owner.None? || owner.value == db.sessions[sid].value.user)
    then Dropped(cfg, db, {sid}) else db
  }

  function RevokedAll(cfg: Config, db: Db, user: UserId, exclude: Option<Key>): Db {
    Dropped(cfg, db, UserKeys(db, user) - Spared(exclude))
  }

  function LoggedIn(cfg: Config, db: Db, op: Op, now: int): Db
    requires op.Login?
  {
    var ttl := if op.ttl.Some? then op.ttl.value else TimeoutFor(cfg, op.remember);
    var kept := Dropped(cfg, Presented(cfg, db, op.presented), op.gone);
    Opened(cfg, kept, op.sid, op.user, op.remember, op.token, ttl, now)
  }

  /** New ids are unused, and a login evicts what the limit says. */
  ghost predicate Legal(cfg: Config, db: Db, op: Op) {
    match op
    case Login(sid, user, _, token, _, presented, gone) =>
      sid !in db.sessions && token !in db.tokens && Evicts(cfg, Presented(cfg, db, presented), user, gone)
    case Rotate(_, token, _) => token !in db.tokens
    case _ => true
  }

  function Next(cfg: Config, db: Db, op: Op, now: int): Db {
    match op
    case Login(_, _, _, _, _, _, _) => LoggedIn(cfg, db, op, now)
    case Validate(sid, updateActivity) => Validated(cfg, db, sid, updateActivity, now)
    case Rotate(sid, token, ttl) => Rotated(cfg, db, sid, token, ttl, now)
    case Revoke(sid, owner) => Revoked(cfg, db, sid, owner)
    case RevokeAll(user, exclude) => RevokedAll(cfg, db, user, exclude)
  }

  function After(cfg: Config, run: seq<Timed>): Db {
    if run == [] then Db(map[], map[])
    else
      var last := run[|run| - 1];
      Next(cfg, At(After(cfg, run[..|run| - 1]), last.now), last.op, last.now)
  }

  ghost predicate LegalRun(cfg: Config, run: seq<Timed>) {
    forall i :: 0 <= i < |run| ==> Legal(cfg, At(After(cfg, run[..i]), run[i].now), run[i].op)
  }

  lemma StepKeeps(cfg: Config, db: Db, op: Op, now: int)
    requires Inv(cfg, db) && Legal(cfg, db, op)
    ensures Inv(cfg, Next(cfg, db, op, now))
  {
    match op
    case Login(sid, user, remember, token, ttl, presented, gone) =>
      var before := Presented(cfg, db, presented);
      if presented.Some? {
        DroppedKeeps(cfg, db, {presented.value});
      }
      OpenedKeeps(cfg, before, sid, user, remember, token,
                  if ttl.Some? then ttl.value else TimeoutFor(cfg, remember), now, gone);
    case Validate(sid, updateActivity) => ValidatedKeeps(cfg, db, sid, updateActivity, now);
    case Rotate(sid, token, ttl) => RotatedKeeps(cfg, db, sid, token, ttl, now);
    case Revoke(sid, owner) => DroppedKeeps(cfg, db, {sid});
    case RevokeAll(user, exclude) =>
      DroppedKeeps(cfg, db, UserKeys(db, user) - Spared(exclude));
  }

  /**
   After any run of logins, activity, rotations and revocations, and at any later moment, every
   user is within the cap and every live session's CSRF token is live with the same deadline.
   */
  lemma {:induction false} RunKeeps(cfg: Config, run: seq<Timed>, later: int)
    requires LegalRun(cfg, run)
    ensures Inv(cfg, At(After(cfg, run), later))
  {
    if run == [] {
    } else {
      var front, last := run[..|run| - 1], run[|run| - 1];
      forall i | 0 <= i < |front| ensures Legal(cfg, At(After(cfg, front[..i]), front[i].now), front[i].op) {
        assert front[..i] == run[..i];
      }
      RunKeeps(cfg, front, last.now);
      StepKeeps(cfg, At(After(cfg, front), last.now), last.op, last.now);
    }
    TimeKeeps(cfg, After(cfg, run), later);
  }

  /**
   What a login may end: the session presented with it, and sessions of its own user none of which
   was more recently active than one of theirs that stays. What it does not end it leaves as it was.
   */
  ghost predicate EndsLeastRecent(before: Db, after: Db, user: UserId, presented: Option<Key>) {
    && (forall k :: k in before.sessions && k in after.sessions ==> after.sessions[k] == before.sessions[k])
    && (forall ended :: ended in before.sessions && ended !in after.sessions && presented != Some(ended) ==>
          before.sessions[ended].value.user == user &&
          forall kept :: kept in UserKeys(before, user) && kept in after.sessions ==>
            before.sessions[ended].value.lastActivity <= before.sessions[kept].value.lastActivity)
  }

  lemma LoginEndsLeastRecent(cfg: Config, db: Db, op: Op, now: int)
    requires op.Login? && Legal(cfg, db, op)
    ensures EndsLeastRecent(db, Next(cfg, db, op, now), op.user, op.presented)
  {
    var before, after := Presented(cfg, db, op.presented), Next(cfg, db, op, now);
    forall ended, kept | ended in db.sessions && ended !in after.sessions && op.presented != Some(ended) &&
                         kept in UserKeys(db, op.user) && kept in after.sessions
      ensures db.sessions[ended].value.lastActivity <= db.sessions[kept].value.lastActivity
    {
      assert kept in UserKeys(before, op.user) && kept !in op.gone;
    }
  }

  // ---- sorting by activity ----------------------------------------------------------------------

  datatype Held = Held(sid: Key, session: Session)

  function Insert(h: Held, sorted: seq<Held>): seq<Held> {
    if sorted == [] || h.session.lastActivity < sorted[0].session.lastActivity then [h] + sorted
    else [sorted[0]] + Insert(h, sorted[1..])
  }

  function SortedByActivity(held: seq<Held>): seq<Held> {
    if held == [] then [] else Insert(held[|held| - 1], SortedByActivity(held[..|held| - 1]))
  }

  ghost predicate Ascending(held: seq<Held>) {
    forall i, j :: 0 <= i < j < |held| ==> held[i].session.lastActivity <= held[j].session.lastActivity
  }

  ghost predicate DistinctSids(held: seq<Held>) {
    forall i, j :: 0 <= i < j < |held| ==> held[i].sid != held[j].sid
  }

  lemma {:induction false} InsertHolds(h: Held, sorted: seq<Held>)
    ensures forall x :: x in Insert(h, sorted) <==> x == h || x in sorted
    ensures |Insert(h, sorted)| == |sorted| + 1
  {
    if sorted == [] {
    } else {
      InsertHolds(h, sorted[1..]);
      assert sorted == [sorted[0]] + sorted[1..];
    }
  }

  lemma {:induction false} InsertSorts(h: Held, sorted: seq<Held>)
    requires Ascending(sorted) && DistinctSids(sorted) && forall x :: x in sorted ==> x.sid != h.sid
    ensures Ascending(Insert(h, sorted)) && DistinctSids(Insert(h, sorted))
  {
    if sorted != [] && sorted[0].session.lastActivity <= h.session.lastActivity {
      var rest := sorted[1..];
      InsertSorts(h, rest);
      InsertHolds(h, rest);
      var r := Insert(h, rest);
      forall j | 0 <= j < |r|
        ensures sorted[0].session.lastActivity <= r[j].session.lastActivity && sorted[0].sid != r[j].sid
      {
        assert r[j] in r;
        if r[j] != h {
          var n :| 0 <= n < |rest| && rest[n] == r[j];
        }
      }
    }
  }

  lemma {:induction false} SortSorts(held: seq<Held>)
    requires DistinctSids(held)
    ensures var sorted := SortedByActivity(held);
            Ascending(sorted) && DistinctSids(sorted) && |sorted| == |held| &&
            forall x :: x in sorted <==> x in held
  {
    if held == [] {
    } else {
      var front, h := held[..|held| - 1], held[|held| - 1];
      assert held == front + [h];
      SortSorts(front);
      InsertHolds(h, SortedByActivity(front));
      InsertSorts(h, SortedByActivity(front));
    }
  }

  function Sids(held: seq<Held>): set<Key> { set h | h in held :: h.sid }

  lemma SidsHave(held: seq<Held>, i: nat)
    requires i < |held|
    ensures held[i].sid in Sids(held)
  {
    assert held[i] in held;
  }

  lemma SidsSnoc(held: seq<Held>, h: Held)
    ensures Sids(held + [h]) == Sids(held) + {h.sid}
  {
  }

  lemma {:induction false} SidsCount(held: seq<Held>)
    requires DistinctSids(held)
    ensures |Sids(held)| == |held|
  {
    if held == [] {
    } else {
      var front, h := held[..|held| - 1], held[|held| - 1];
      assert held == front + [h];
      SidsCount(front);
      SidsSnoc(front, h);
      assert h.sid !in Sids(front);
    }
  }

  /** The sessions are live as they were read. */
  ghost predicate AllLive(db: Db, held: seq<Held>) {
    forall h :: h in held ==> h.sid in db.sessions && h.session == db.sessions[h.sid].value
  }

  lemma DroppedNone(cfg: Config, db: Db)
    ensures Dropped(cfg, db, {}) == db
  {
  }

  lemma SidsAreUserKeys(db: Db, user: UserId, active: seq<Held>)
    requires forall h :: h in active <==>
               h.sid in db.sessions && h.session == db.sessions[h.sid].value && h.session.user == user
    ensures Sids(active) == UserKeys(db, user)
  {
    forall k | k in UserKeys(db, user) ensures k in Sids(active) {
      assert Held(k, db.sessions[k].value) in active;
    }
  }

  /** The front of the sorted list is what the limit may evict. */
  lemma FrontIsEvictable(cfg: Config, db: Db, user: UserId, active: seq<Held>, n: nat)
    requires Ascending(active) && DistinctSids(active) && n == Excess(cfg, |active|)
    requires forall h :: h in active <==>
               h.sid in db.sessions && h.session == db.sessions[h.sid].value && h.session.user == user
    ensures n <= |active| && Evicts(cfg, db, user, Sids(active[..n]))
    ensures DistinctSids(active[..n]) && AllLive(db, active[..n])
  {
    var mine, gone := UserKeys(db, user), Sids(active[..n]);
    SidsAreUserKeys(db, user, active);
    SidsCount(active);
    SidsCount(active[..n]);
    forall e, k | e in gone && k in mine && k !in gone
      ensures db.sessions[e].value.lastActivity <= db.sessions[k].value.lastActivity
    {
      FrontIsOlder(db, user, active, n, e, k);
    }
  }

  lemma FrontIsOlder(db: Db, user: UserId, active: seq<Held>, n: nat, e: Key, k: Key)
    requires Ascending(active) && n <= |active| && e in Sids(active[..n])
    requires forall h :: h in active <==>
               h.sid in db.sessions && h.session == db.sessions[h.sid].value && h.session.user == user
    requires k in UserKeys(db, user) && k !in Sids(active[..n])
    ensures e in db.sessions && db.sessions[e].value.lastActivity <= db.sessions[k].value.lastActivity
  {
    forall i | 0 <= i < n ensures active[i].sid in Sids(active[..n]) {
      SidsHave(active[..n], i);
    }
    var i :| 0 <= i < n && active[i].sid == e;
    var j := PositionOf(db, user, active, k);
    assert active[i] in active;
  }

  /** Where in the list one of the user's sessions stands. */
  lemma PositionOf(db: Db, user: UserId, active: seq<Held>, k: Key) returns (j: nat)
    requires k in UserKeys(db, user)
    requires forall h :: h in active <==>
               h.sid in db.sessions && h.session == db.sessions[h.sid].value && h.session.user == user
    ensures j < |active| && active[j] == Held(k, db.sessions[k].value)
  {
    var held := Held(k, db.sessions[k].value);
    assert held in active;
    j :| 0 <= j < |active| && active[j] == held;
  }

  // ---- the manager ----------------------------------------------------------------------------------

  class Manager {
    const cfg: Config
    const storage: MemoryStorage<Session>
    const csrf: MemoryStorage<Key>

    constructor (cfg: Config, storage: MemoryStorage<Session>, csrf: MemoryStorage<Key>)
      ensures this.cfg == cfg && this.storage == storage && this.csrf == csrf
    {
      this.cfg, this.storage, this.csrf := cfg, storage, csrf;
    }

    ghost predicate Valid()
      reads storage, csrf
    {
      storage.Valid() && csrf.Valid()
    }

    ghost function Seen(now: int): Db
      requires Valid()
      reads storage, csrf
    {
      Db(storage.View(now), csrf.View(now))
    }

    /** Between calls only time passes. */
    lemma SeenLater(now: int, later: int)
      requires Valid() && now <= later
      ensures Seen(later) == At(Seen(now), later)
    {
      storage.ViewLater(now, later);
      csrf.ViewLater(now, later);
    }

    method Terminate(key: Key, session: Session, now: int) returns (deleted: bool)
      requires Valid() && key in storage.View(now) && storage.View(now)[key].value == session
      modifies storage, csrf
      ensures Valid() && Seen(now) == Dropped(cfg, old(Seen(now)), {key})
      ensures deleted
    {
      ghost var before := Seen(now);
      deleted := storage.Delete(key, now);
      if session.csrfId.Some? && cfg.csrf {
        var _ := csrf.Delete(session.csrfId.value, now);
        assert Named(before, {key}) == {session.csrfId.value};
      } else if cfg.csrf {
        assert Named(before, {key}) == {};
      }
    }

    method Revoke(sid: Key, owner: Option<UserId>, now: int) returns (revoked: bool)
      requires Valid()
      modifies storage, csrf
      ensures Valid() && Seen(now) == Revoked(cfg, old(Seen(now)), sid, owner)
      ensures revoked <==> Seen(now) != old(Seen(now))
    {
      var session := storage.Get(sid, now);
      if session.None? || (owner.Some? && session.value.user != owner.value) {
        return false;
      }
      revoked := Terminate(sid, session.value, now);
      assert sid !in Seen(now).sessions;
    }

    method UserSessions(user: UserId, now: int) returns (active: seq<Held>)
      requires Valid()
      modifies storage
      ensures Valid() && Seen(now) == old(Seen(now)) && DistinctSids(active)
      ensures forall h :: h in active <==>
                h.sid in Seen(now).sessions && h.session == Seen(now).sessions[h.sid].value && h.session.user == user
    {
      active := [];
      var keys := storage.Keys(now);
      var i := 0;
      while i < |keys|
        invariant 0 <= i <= |keys| && Valid() && Seen(now) == old(Seen(now)) && DistinctSids(active)
        invariant forall h :: h in active <==>
                    h.sid in keys[..i] && h.sid in Seen(now).sessions &&
                    h.session == Seen(now).sessions[h.sid].value && h.session.user == user
      {
        var session := storage.Get(keys[i], now);
        assert keys[..i + 1] == keys[..i] + [keys[i]];
        if session.Some? && session.value.user == user {
          active := active + [Held(keys[i], session.value)];
        }
        i := i + 1;
      }
    }

    method TerminateUnless(h: Held, exclude: Option<Key>, now: int) returns (ended: nat)
      requires Valid() && h.sid in Seen(now).sessions && Seen(now).sessions[h.sid].value == h.session
      modifies storage, csrf
      ensures Valid() && ended == if exclude == Some(h.sid) then 0 else 1
      ensures Seen(now) == if ended == 0 then old(Seen(now)) else Dropped(cfg, old(Seen(now)), {h.sid})
    {
      if exclude == Some(h.sid) {
        return 0;
      }
      var _ := Terminate(h.sid, h.session, now);
      return 1;
    }

    /** Terminates the listed sessions, all of them live, but for `exclude`. */
    method TerminateEach(held: seq<Held>, exclude: Option<Key>, now: int) returns (terminated: nat)
      requires Valid() && DistinctSids(held) && AllLive(Seen(now), held)
      modifies storage, csrf
      ensures Valid() && (Seen(now), terminated) == Ended(cfg, old(Seen(now)), held, |held|, exclude)
    {
      ghost var before := Seen(now);
      terminated := 0;
      var i := 0;
      while i < |held|
        invariant 0 <= i <= |held| && Valid()
        invariant (Seen(now), terminated) == Ended(cfg, before, held, i, exclude)
      {
        EndedSpares(cfg, before, held, i, exclude, held[i].sid);
        var ended := TerminateUnless(held[i], exclude, now);
        terminated := terminated + ended;
        i := i + 1;
      }
    }

    method TerminateThese(held: seq<Held>, now: int)
      requires Valid() && DistinctSids(held) && AllLive(Seen(now), held)
      modifies storage, csrf
      ensures Valid() && Seen(now) == Dropped(cfg, old(Seen(now)), Sids(held))
    {
      EndedIsDropped(cfg, Seen(now), held, None);
      assert Sids(held) - Spared(None) == Sids(held);
      var _ := TerminateEach(held, None, now);
    }

    method EnforceSessionLimit(user: UserId, now: int) returns (ghost gone: set<Key>)
      requires Valid()
      modifies storage, csrf
      ensures Valid() && Evicts(cfg, old(Seen(now)), user, gone)
      ensures Seen(now) == Dropped(cfg, old(Seen(now)), gone)
    {
      var active := UserSessions(user, now);
      SortSorts(active);
      ghost var n := Excess(cfg, |active|);
      FrontIsEvictable(cfg, Seen(now), user, SortedByActivity(active), n);
      gone := Sids(SortedByActivity(active)[..n]);
      if |active| >= cfg.maxSessions {
        active := SortedByActivity(active);
        var excess := |active| - cfg.maxSessions + 1;
        var evicted := if excess < |active| then active[..excess] else active;
        assert evicted == active[..n];
        TerminateThese(evicted, now);
      } else {
        DroppedNone(cfg, Seen(now));
      }
    }

    method Open(user: UserId, remember: bool, seconds: nat, sid: Key, token: Key, now: int)
      requires Valid()
      modifies storage, csrf
      ensures Valid() && Seen(now) == Opened(cfg, old(Seen(now)), sid, user, remember, token, seconds, now)
    {
      if cfg.csrf {
        csrf.Create(token, sid, seconds, now);
      }
      storage.Create(sid, Session(user, now, now, remember, if cfg.csrf then Some(token) else None), seconds, now);
    }

    /** A login, under ids the generator has not produced before. */
    method CreateSession(
      user: UserId, remember: bool, ttl: Option<nat>, presented: Option<Key>, sid: Key, token: Key, now: int)
      returns (csrfToken: Option<Key>, ghost op: Op)
      requires Valid() && sid !in storage.View(now) && token !in csrf.View(now)
      modifies storage, csrf
      ensures Valid() && op.Login? && op == Login(sid, user, remember, token, ttl, presented, op.gone)
      ensures Legal(cfg, old(Seen(now)), op) && Seen(now) == Next(cfg, old(Seen(now)), op, now)
      ensures sid in Seen(now).sessions && Seen(now).sessions[sid].value.user == user
      ensures csrfToken == Seen(now).sessions[sid].value.csrfId
      ensures EndsLeastRecent(old(Seen(now)), Seen(now), user, presented)
    {
      ghost var before := Seen(now);
      if presented.Some? {
        var _ := Revoke(presented.value, None, now);
      }
      assert Seen(now) == Presented(cfg, before, presented);
      ghost var gone := EnforceSessionLimit(user, now);
      op := Login(sid, user, remember, token, ttl, presented, gone);
      var seconds := if ttl.Some? then ttl.value else TimeoutFor(cfg, remember);
      Open(user, remember, seconds, sid, token, now);
      csrfToken := if cfg.csrf then Some(token) else None;
      LoginEndsLeastRecent(cfg, before, op, now);
    }

    method ValidateSession(sid: Key, updateActivity: bool, now: int) returns (r: Option<Session>)
      requires Valid()
      modifies storage, csrf
      ensures Valid() && Seen(now) == Validated(cfg, old(Seen(now)), sid, updateActivity, now)
      ensures r.Some? <==> Usable(cfg, old(Seen(now)), sid, now)
      ensures r.Some? ==> sid in Seen(now).sessions && r.value == Seen(now).sessions[sid].value
    {
      var found := storage.Get(sid, now);
      if found.None? {
        return None;
      }
      var session := found.value;
      if IdleExpired(cfg, session, now) || TooOld(cfg, session, now) {
        var _ := Terminate(sid, session, now);
        return None;
      }
      if !updateActivity {
        return Some(session);
      }
      var ttl := TimeoutFor(cfg, session.remember);
      var touched := session.(lastActivity := now);
      var _ := storage.Update(sid, touched, Some(ttl), now);
      if touched.csrfId.Some? && cfg.csrf {
        var _ := csrf.Extend(touched.csrfId.value, ttl, now);
      }
      return Some(touched);
    }

    /** The new token is written, installed on the session, and the one it replaced deleted. */
    method Install(sid: Key, session: Session, seconds: nat, token: Key, now: int)
      requires Valid() && cfg.csrf && sid in Seen(now).sessions && Seen(now).sessions[sid].value == session
      modifies storage, csrf
      ensures Valid() && Seen(now) == Rotated(cfg, old(Seen(now)), sid, token, Some(seconds), now)
    {
      ghost var before := Seen(now);
      csrf.Create(token, sid, seconds, now);
      var _ := storage.Update(sid, session.(csrfId := Some(token)), Some(seconds), now);
      assert storage.View(now) == Rotated(cfg, before, sid, token, Some(seconds), now).sessions;
      if session.csrfId.Some? {
        var _ := csrf.Delete(session.csrfId.value, now);
      }
      assert csrf.View(now) == Rotated(cfg, before, sid, token, Some(seconds), now).tokens;
    }

    method RegenerateCsrfToken(sid: Key, ttl: Option<nat>, token: Key, now: int) returns (r: Option<Key>)
      requires Valid() && token !in csrf.View(now)
      modifies storage, csrf
      ensures Valid() && Seen(now) == Rotated(cfg, old(Seen(now)), sid, token, ttl, now)
      ensures r == if cfg.csrf && sid in old(Seen(now)).sessions then Some(token) else None
    {
      if !cfg.csrf {
        return None;
      }
      var found := storage.Get(sid, now);
      if found.None? {
        return None;
      }
      var seconds := if ttl.Some? then ttl.value else TimeoutFor(cfg, found.value.remember);
      DefaultTtl(cfg, Seen(now), sid, token, ttl, now);
      Install(sid, found.value, seconds, token, now);
      return Some(token);
    }

    method TerminateAllUserSessions(user: UserId, exclude: Option<Key>, now: int) returns (terminated: nat)
      requires Valid()
      modifies storage, csrf
      ensures Valid() && Seen(now) == RevokedAll(cfg, old(Seen(now)), user, exclude)
      ensures terminated == |UserKeys(old(Seen(now)), user) - Spared(exclude)|
    {
      var active := UserSessions(user, now);
      SidsAreUserKeys(Seen(now), user, active);
      EndedIsDropped(cfg, Seen(now), active, exclude);
      terminated := TerminateEach(active, exclude, now);
    }
  }

  function Spared(exclude: Option<Key>): set<Key> { if exclude.Some? then {exclude.value} else {} }

  /** The stores after the first `i` terminations, one at a time, and how many there were. */
  function Ended(cfg: Config, db: Db, held: seq<Held>, i: nat, exclude: Option<Key>): (Db, nat)
    requires i <= |held|
  {
    if i == 0 then (db, 0)
    else
      var (before, n) := Ended(cfg, db, held, i - 1, exclude);
      var sid := held[i - 1].sid;
      if exclude == Some(sid) then (before, n) else (Dropped(cfg, before, {sid}), n + 1)
  }

  lemma {:induction false} EndedSpares(cfg: Config, db: Db, held: seq<Held>, i: nat, exclude: Option<Key>, k: Key)
    requires i <= |held| && k in db.sessions && forall j :: 0 <= j < i ==> held[j].sid != k
    ensures var kept := Ended(cfg, db, held, i, exclude).0.sessions;
            k in kept && kept[k] == db.sessions[k]
  {
    if i == 0 {
    } else {
      EndedSpares(cfg, db, held, i - 1, exclude, k);
    }
  }

  function Chosen(held: seq<Held>, i: nat, exclude: Option<Key>): set<Key>
    requires i <= |held|
  {
    if i == 0 then {}
    else Chosen(held, i - 1, exclude) + if exclude == Some(held[i - 1].sid) then {} else {held[i - 1].sid}
  }

  lemma {:induction false} ChosenAre(held: seq<Held>, i: nat, exclude: Option<Key>)
    requires i <= |held|
    ensures Chosen(held, i, exclude) == Sids(held[..i]) - Spared(exclude)
  {
    if i == 0 {
    } else {
      ChosenAre(held, i - 1, exclude);
      assert held[..i] == held[..i - 1] + [held[i - 1]];
      assert Sids(held[..i]) == Sids(held[..i - 1]) + {held[i - 1].sid};
    }
  }

  lemma NotYetChosen(held: seq<Held>, i: nat, exclude: Option<Key>)
    requires DistinctSids(held) && i < |held|
    ensures held[i].sid !in Chosen(held, i, exclude)
  {
    ChosenAre(held, i, exclude);
  }

  lemma ChosenGrows(held: seq<Held>, i: nat, exclude: Option<Key>)
    requires 0 < i <= |held| && held[i - 1].sid !in Chosen(held, i - 1, exclude)
    ensures |Chosen(held, i, exclude)| ==
            |Chosen(held, i - 1, exclude)| + if exclude == Some(held[i - 1].sid) then 0 else 1
  {
    var here := Chosen(held, i - 1, exclude);
    assert here + {} == here;
  }

  lemma {:induction false} EndedCount(cfg: Config, db: Db, held: seq<Held>, i: nat, exclude: Option<Key>)
    requires DistinctSids(held) && i <= |held|
    ensures Ended(cfg, db, held, i, exclude).1 == |Chosen(held, i, exclude)|
  {
    if i == 0 {
    } else {
      EndedCount(cfg, db, held, i - 1, exclude);
      NotYetChosen(held, i - 1, exclude);
      ChosenGrows(held, i, exclude);
    }
  }

  lemma {:induction false} EndedSoFar(cfg: Config, db: Db, held: seq<Held>, i: nat, exclude: Option<Key>)
    requires DistinctSids(held) && i <= |held|
    ensures Ended(cfg, db, held, i, exclude).0 == Dropped(cfg, db, Chosen(held, i, exclude))
  {
    if i == 0 {
      DroppedNone(cfg, db);
    } else {
      EndedSoFar(cfg, db, held, i - 1, exclude);
      var here, next, sid := Chosen(held, i - 1, exclude), Chosen(held, i, exclude), held[i - 1].sid;
      NotYetChosen(held, i - 1, exclude);
      if exclude == Some(sid) {
        assert next == here;
      } else {
        assert next == here + {sid};
        DroppedMore(cfg, db, here, sid);
      }
    }
  }

  /** One at a time comes to the same as all at once. */
  lemma EndedIsDropped(cfg: Config, db: Db, held: seq<Held>, exclude: Option<Key>)
    requires DistinctSids(held)
    ensures var gone := Sids(held) - Spared(exclude);
            Ended(cfg, db, held, |held|, exclude) == (Dropped(cfg, db, gone), |gone|)
  {
    EndedSoFar(cfg, db, held, |held|, exclude);
    EndedCount(cfg, db, held, |held|, exclude);
    ChosenAre(held, |held|, exclude);
    assert held[..|held|] == held;
  }

  lemma DroppedMore(cfg: Config, db: Db, gone: set<Key>, k: Key)
    requires k !in gone
    ensures Dropped(cfg, Dropped(cfg, db, gone), {k}) == Dropped(cfg, db, gone + {k})
  {
    var once := Dropped(cfg, db, gone);
    assert Named(db, gone + {k}) == Named(db, gone) + Named(once, {k});
    assert db.tokens - (Named(db, gone) + Named(once, {k})) == (db.tokens - Named(db, gone)) - Named(once, {k});
  }

  // ---- runs of the manager ------------------------------------------------------------------------

  lemma LegalSnoc(cfg: Config, run: seq<Timed>, last: Timed)
    requires LegalRun(cfg, run) && Legal(cfg, At(After(cfg, run), last.now), last.op)
    ensures LegalRun(cfg, run + [last])
    ensures After(cfg, run + [last]) == Next(cfg, At(After(cfg, run), last.now), last.op, last.now)
  {
    var all := run + [last];
    assert all[..|run|] == run;
    forall i | 0 <= i < |all| ensures Legal(cfg, At(After(cfg, all[..i]), all[i].now), all[i].op) {
      if i < |run| {
        assert all[..i] == run[..i];
      }
    }
  }

  lemma AtLater(db: Db, now: int, later: int)
    requires now <= later
    ensures At(At(db, now), later) == At(db, later)
  {
  }

  /** One request: the operation it came to, or none if a new id was already in use. */
  method Handle(manager: Manager, request: Timed) returns (ghost op: Option<Op>)
    requires manager.Valid()
    modifies manager.storage, manager.csrf
    ensures manager.Valid()
    ensures op.None? ==> manager.Seen(request.now) == old(manager.Seen(request.now))
    ensures op.Some? ==>
              Legal(manager.cfg, old(manager.Seen(request.now)), op.value) &&
              manager.Seen(request.now) ==
                Next(manager.cfg, old(manager.Seen(request.now)), op.value, request.now)
  {
    var now := request.now;
    op := Some(request.op);
    match request.op {
      case Login(sid, user, remember, token, ttl, presented, _) =>
        var held := manager.storage.Get(sid, now);
        var issued := manager.csrf.Get(token, now);
        if held.None? && issued.None? {
          var _, login := manager.CreateSession(user, remember, ttl, presented, sid, token, now);
          op := Some(login);
        } else {
          op := None;
        }
      case Validate(sid, updateActivity) =>
        var _ := manager.ValidateSession(sid, updateActivity, now);
      case Rotate(sid, token, ttl) =>
        var issued := manager.csrf.Get(token, now);
        if issued.None? {
          var _ := manager.RegenerateCsrfToken(sid, ttl, token, now);
        } else {
          op := None;
        }
      case Revoke(sid, owner) =>
        var _ := manager.Revoke(sid, owner, now);
      case RevokeAll(user, exclude) =>
        var _ := manager.TerminateAllUserSessions(user, exclude, now);
    }
  }

  /**
   Any sequence of requests on a new manager, the clock never going back: what its stores hold is
   what the run of the operations gives, so the cap and the aligned expiry hold of the stores.
   */
  method RunManager(cfg: Config, requests: seq<Timed>) returns (manager: Manager, ghost run: seq<Timed>)
    requires forall i, j :: 0 <= i < j < |requests| ==> requests[i].now <= requests[j].now
    ensures manager.Valid() && manager.cfg == cfg
    ensures LegalRun(cfg, run)
    ensures requests != [] ==>
              var now := requests[|requests| - 1].now;
              manager.Seen(now) == At(After(cfg, run), now) && Inv(cfg, manager.Seen(now))
  {
    var storage := new MemoryStorage<Session>();
    var csrf := new MemoryStorage<Key>();
    manager := new Manager(cfg, storage, csrf);
    run := HandleAll(manager, requests);
  }

  method HandleAll(manager: Manager, requests: seq<Timed>) returns (ghost run: seq<Timed>)
    requires manager.Valid() && forall now :: manager.Seen(now) == Db(map[], map[])
    requires forall i, j :: 0 <= i < j < |requests| ==> requests[i].now <= requests[j].now
    modifies manager.storage, manager.csrf
    ensures manager.Valid() && LegalRun(manager.cfg, run)
    ensures requests != [] ==>
              var now := requests[|requests| - 1].now;
              manager.Seen(now) == At(After(manager.cfg, run), now) && Inv(manager.cfg, manager.Seen(now))
  {
    run := [];
    ghost var now := if requests == [] then 0 else requests[0].now;
    for i := 0 to |requests|
      invariant manager.Valid() && LegalRun(manager.cfg, run)
      invariant 0 < i ==> now == requests[i - 1].now
      invariant i == 0 && requests != [] ==> now == requests[0].now
      invariant manager.Seen(now) == At(After(manager.cfg, run), now)
    {
      run := HandleNext(manager, run, now, requests[i]);
      now := requests[i].now;
    }
    RunKeeps(manager.cfg, run, now);
  }

  /** One more request: the run of operations grows by what it came to. */
  method HandleNext(manager: Manager, ghost run: seq<Timed>, ghost now: int, request: Timed)
    returns (ghost longer: seq<Timed>)
    requires manager.Valid() && LegalRun(manager.cfg, run) && now <= request.now
    requires manager.Seen(now) == At(After(manager.cfg, run), now)
    modifies manager.storage, manager.csrf
    ensures manager.Valid() && LegalRun(manager.cfg, longer)
    ensures manager.Seen(request.now) == At(After(manager.cfg, longer), request.now)
  {
    manager.SeenLater(now, request.now);
    AtLater(After(manager.cfg, run), now, request.now);
    longer := run;
    ghost var op := Handle(manager, request);
    if op.Some? {
      LegalSnoc(manager.cfg, run, Timed(op.value, request.now));
      longer := run + [Timed(op.value, request.now)];
      manager.SeenLater(request.now, request.now);
    }
  }

}
