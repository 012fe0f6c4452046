/**
 What the operations of a run say about each session, without looking at the stores: who opened it
 and when, when it was last touched, how long it is remembered, how long it lives, and which CSRF token is
 its own. The stored sessions and tokens are what that trace says, and so is every answer.
 */
module SessionTrace {
  import opened Basics
  import opened SessionManager

  datatype Trace = Trace(
    user: UserId, born: int, touched: int, remember: bool, deadline: int, token: Option<Key>)

  /** The idle window a session's remember flag calls for. */
  function Window(cfg: Config, remember: bool): nat { if remember then cfg.rememberTimeout else cfg.timeout }

  /** Touched no longer ago than its window, and opened no longer ago than the absolute timeout. */
  predicate Within(cfg: Config, t: Trace, now: int) {
    && now <= t.touched + Window(cfg, t.remember)
    && (cfg.absoluteTimeout.Some? ==> now <= t.born + cfg.absoluteTimeout.value)
  }

  function Lasting(cfg: Config, ttl: Option<nat>, remember: bool): nat {
    if ttl.Some? then ttl.value else Window(cfg, remember)
  }

  /** A login opens, an answered validation with activity touches, and a rotation gives a new token. */
  function TraceNext(cfg: Config, live: set<Key>, trace: map<Key, Trace>, op: Op, now: int): map<Key, Trace> {
    match op
    case Login(sid, user, remember, token, ttl, _, _) =>
      trace[sid := Trace(user, now, now, remember, now + Lasting(cfg, ttl, remember),
                         if cfg.csrf then Some(token) else None)]
    case Validate(sid, updateActivity) =>
      if updateActivity && sid in live && sid in trace && Within(cfg, trace[sid], now)
      then trace[sid := trace[sid].(touched := now, deadline := now + Window(cfg, trace[sid].remember))]
      else trace
    case Rotate(sid, token, ttl) =>
      if cfg.csrf && sid in live && sid in trace
      then trace[sid := trace[sid].(deadline := now + Lasting(cfg, ttl, trace[sid].remember), token := Some(token))]
      else trace
    case Revoke(_, _) => trace
    case RevokeAll(_, _) => trace
  }

  function LiveKeys(cfg: Config, run: seq<Timed>, now: int): set<Key> { At(After(cfg, run), now).sessions.Keys }

  function TraceOf(cfg: Config, run: seq<Timed>): map<Key, Trace> {
    if run == [] then map[]
    else
      var front, last := run[..|run| - 1], run[|run| - 1];
      TraceNext(cfg, LiveKeys(cfg, front, last.now), TraceOf(cfg, front), last.op, last.now)
  }

  // ---- the stores are what the trace says ---------------------------------------------------------

  ghost predicate SessionAs(entry: Entry<Session>, t: Trace) {
    entry == Entry(Session(t.user, t.born, t.touched, t.remember, t.token), t.deadline)
  }

  ghost predicate Traced(db: Db, trace: map<Key, Trace>) {
    forall k :: k in db.sessions ==> k in trace && SessionAs(db.sessions[k], trace[k])
  }

  /** Every token belongs to a live session and is the one it names. */
  ghost predicate NoOrphans(db: Db) {
    forall token :: token in db.tokens ==>
      db.tokens[token].value in db.sessions &&
      db.sessions[db.tokens[token].value].value.csrfId == Some(token)
  }

  lemma StepTraced(cfg: Config, db: Db, trace: map<Key, Trace>, op: Op, now: int)
    requires Traced(db, trace)
    ensures Traced(Next(cfg, db, op, now), TraceNext(cfg, db.sessions.Keys, trace, op, now))
  {
    match op
    case Login(_, _, _, _, _, _, _) =>
    case Validate(sid, _) =>
      if sid in db.sessions {
        assert SessionAs(db.sessions[sid], trace[sid]);
      }
    case Rotate(sid, _, _) =>
      if sid in db.sessions {
        assert SessionAs(db.sessions[sid], trace[sid]);
      }
    case Revoke(_, _) =>
    case RevokeAll(_, _) =>
  }

  lemma {:induction false} RunTraced(cfg: Config, run: seq<Timed>)
    ensures Traced(After(cfg, run), TraceOf(cfg, run))
  {
    if run == [] {
    } else {
      var front, last := run[..|run| - 1], run[|run| - 1];
      RunTraced(cfg, front);
      StepTraced(cfg, At(After(cfg, front), last.now), TraceOf(cfg, front), last.op, last.now);
    }
  }

  lemma AtNoOrphans(cfg: Config, db: Db, now: int)
    requires cfg.csrf && Aligned(cfg, db) && NoOrphans(db)
    ensures NoOrphans(At(db, now))
  {
  }

  lemma DroppedNoOrphans(cfg: Config, db: Db, gone: set<Key>)
    requires cfg.csrf && Aligned(cfg, db) && NoOrphans(db)
    ensures NoOrphans(Dropped(cfg, db, gone))
  {
    assert forall token :: token in db.tokens && db.tokens[token].value in gone ==> token in Named(db, gone);
  }

  lemma PresentedNoOrphans(cfg: Config, db: Db, presented: Option<Key>)
    requires cfg.csrf && Inv(cfg, db) && NoOrphans(db)
    ensures Inv(cfg, Presented(cfg, db, presented)) && NoOrphans(Presented(cfg, db, presented))
  {
    if presented.Some? {
      DroppedKeeps(cfg, db, {presented.value});
      DroppedNoOrphans(cfg, db, {presented.value});
    }
  }

  lemma LoginNoOrphans(cfg: Config, db: Db, op: Op, now: int)
    requires cfg.csrf && op.Login? && Inv(cfg, db) && NoOrphans(db) && Legal(cfg, db, op)
    ensures NoOrphans(Next(cfg, db, op, now))
  {
    PresentedNoOrphans(cfg, db, op.presented);
    DroppedNoOrphans(cfg, Presented(cfg, db, op.presented), op.gone);
  }

  lemma StepNoOrphans(cfg: Config, db: Db, op: Op, now: int)
    requires cfg.csrf && Inv(cfg, db) && NoOrphans(db) && Legal(cfg, db, op)
    ensures NoOrphans(Next(cfg, db, op, now))
  {
    match op
    case Login(_, _, _, _, _, _, _) => LoginNoOrphans(cfg, db, op, now);
    case Validate(sid, _) => DroppedNoOrphans(cfg, db, {sid});
    case Rotate(_, _, _) =>
    case Revoke(sid, _) => DroppedNoOrphans(cfg, db, {sid});
    case RevokeAll(user, exclude) => DroppedNoOrphans(cfg, db, UserKeys(db, user) - Spared(exclude));
  }

  /**
   In every run the tokens that validate are exactly those the live sessions name: none is left behind
   by a rotation, a termination, an eviction or an expiry.
   */
  lemma {:induction false} RunNoOrphans(cfg: Config, run: seq<Timed>, later: int)
    requires cfg.csrf && LegalRun(cfg, run)
    ensures NoOrphans(At(After(cfg, run), later)) && Inv(cfg, After(cfg, run))
  {
    if run == [] {
      assert After(cfg, run) == Db(map[], map[]);
      NothingHeld(cfg);
    } else {
      var front, last := run[..|run| - 1], run[|run| - 1];
      LegalFront(cfg, run);
      RunNoOrphans(cfg, front, last.now);
      RunKeeps(cfg, front, last.now);
      StepKeeps(cfg, At(After(cfg, front), last.now), last.op, last.now);
      StepNoOrphans(cfg, At(After(cfg, front), last.now), last.op, last.now);
      AtNoOrphans(cfg, After(cfg, run), later);
    }
  }

  lemma NothingHeld(cfg: Config)
    ensures Inv(cfg, Db(map[], map[]))
  {
    forall user ensures |UserKeys(Db(map[], map[]), user)| == 0 {
      assert UserKeys(Db(map[], map[]), user) == {};
    }
  }

  lemma LegalFront(cfg: Config, run: seq<Timed>)
    requires LegalRun(cfg, run) && run != []
    ensures var front, last := run[..|run| - 1], run[|run| - 1];
            LegalRun(cfg, front) && Legal(cfg, At(After(cfg, front), last.now), last.op)
  {
    var front := run[..|run| - 1];
    forall i | 0 <= i < |front| ensures Legal(cfg, At(After(cfg, front[..i]), front[i].now), front[i].op) {
      assert front[..i] == run[..i];
    }
  }

  // ---- answers ------------------------------------------------------------------------------------------

  /**
   A validation returns the session exactly if it is stored and live, was touched no longer ago than its
   window, and was opened no longer ago than the absolute timeout.
   */
  lemma ValidationAnswered(cfg: Config, run: seq<Timed>, sid: Key, now: int)
    ensures var db := At(After(cfg, run), now);
            Usable(cfg, db, sid, now) <==>
              sid in db.sessions && sid in TraceOf(cfg, run) && Within(cfg, TraceOf(cfg, run)[sid], now)
  {
    RunTraced(cfg, run);
    var db := At(After(cfg, run), now);
    if sid in db.sessions {
      assert SessionAs(db.sessions[sid], TraceOf(cfg, run)[sid]);
    }
  }

  /** Which live sessions an operation ends. */
  ghost predicate Ends(cfg: Config, trace: map<Key, Trace>, op: Op, k: Key, now: int)
    requires k in trace
  {
    match op
    case Login(_, _, _, _, _, presented, gone) => presented == Some(k) || k in gone
    case Validate(sid, _) => k == sid && !Within(cfg, trace[k], now)
    case Rotate(_, _, _) => false
    case Revoke(sid, owner) => k == sid && (owner.None? || owner.value == trace[k].user)
    case RevokeAll(user, exclude) => trace[k].user == user && exclude != Some(k)
  }

  lemma StepEnds(cfg: Config, db: Db, trace: map<Key, Trace>, op: Op, k: Key, now: int)
    requires k in db.sessions && k in trace && SessionAs(db.sessions[k], trace[k])
    requires op.Login? ==> op.sid != k
    ensures k !in Next(cfg, db, op, now).sessions <==> Ends(cfg, trace, op, k, now)
  {
  }

  /** An operation ends exactly those sessions. */
  lemma EndsAnswered(cfg: Config, run: seq<Timed>, last: Timed, k: Key)
    requires var db := At(After(cfg, run), last.now);
             k in db.sessions && (last.op.Login? ==> last.op.sid != k)
    ensures k in TraceOf(cfg, run) &&
            (k !in After(cfg, run + [last]).sessions <==> Ends(cfg, TraceOf(cfg, run), last.op, k, last.now))
  {
    var db := At(After(cfg, run), last.now);
    RunTraced(cfg, run);
    StepEnds(cfg, db, TraceOf(cfg, run), last.op, k, last.now);
    assert (run + [last])[..|run|] == run;
  }

  /** What a login evicts for the limit was touched no later than any session of the user that it keeps. */
  lemma LoginEvictsLeastRecentlyTouched(cfg: Config, run: seq<Timed>, last: Timed, ended: Key, kept: Key)
    requires var db := At(After(cfg, run), last.now);
             && last.op.Login? && Legal(cfg, db, last.op) && kept in UserKeys(db, last.op.user)
             && ended in db.sessions && last.op.presented != Some(ended)
    requires var after := After(cfg, run + [last]);
             ended !in after.sessions && kept in after.sessions
    ensures var trace := TraceOf(cfg, run);
            && ended in trace && kept in trace && trace[ended].user == last.op.user
            && trace[ended].touched <= trace[kept].touched
  {
    var db := At(After(cfg, run), last.now);
    RunTraced(cfg, run);
    assert forall k :: k in {ended, kept} ==> SessionAs(db.sessions[k], TraceOf(cfg, run)[k]);
    assert (run + [last])[..|run|] == run;
    LoginEndsLeastRecent(cfg, db, last.op, last.now);
  }

  // ---- a session in use is never ended as idle ---------------------------------------------------------

  /** No login and no rotation of the run asked for a time to live of its own. */
  predicate NoOverrides(run: seq<Timed>) {
    forall i :: 0 <= i < |run| ==>
      (run[i].op.Login? ==> run[i].op.ttl.None?) && (run[i].op.Rotate? ==> run[i].op.ttl.None?)
  }

  ghost predicate CoversWindow(cfg: Config, trace: map<Key, Trace>, now: int) {
    forall k :: k in trace ==>
      trace[k].touched <= now && trace[k].touched + Window(cfg, trace[k].remember) <= trace[k].deadline
  }

  ghost predicate ClockMoves(run: seq<Timed>) {
    forall i, j :: 0 <= i < j < |run| ==> run[i].now <= run[j].now
  }

  lemma StepCoversWindow(cfg: Config, live: set<Key>, trace: map<Key, Trace>, last: Timed, later: int)
    requires CoversWindow(cfg, trace, last.now) && NoOverrides([last]) && last.now <= later
    ensures CoversWindow(cfg, TraceNext(cfg, live, trace, last.op, last.now), later)
  {
    assert last in [last] && [last][0] == last;
  }

  lemma {:induction false} RunCoversWindow(cfg: Config, run: seq<Timed>, later: int)
    requires NoOverrides(run) && ClockMoves(run) && (run != [] ==> run[|run| - 1].now <= later)
    ensures CoversWindow(cfg, TraceOf(cfg, run), later)
  {
    if run == [] {
    } else {
      var front, last := run[..|run| - 1], run[|run| - 1];
      RunCoversWindow(cfg, front, last.now);
      StepCoversWindow(cfg, LiveKeys(cfg, front, last.now), TraceOf(cfg, front), last, later);
    }
  }

  /**
   A session stored by the last operation and asked for within its window is still live, is returned,
   and stays: one touched at gaps within its window is never ended as idle.
   */
  lemma NeverEndedAsIdle(cfg: Config, run: seq<Timed>, sid: Key, now: int)
    requires NoOverrides(run) && ClockMoves(run) && (run != [] ==> run[|run| - 1].now <= now)
    requires sid in After(cfg, run).sessions && sid in TraceOf(cfg, run) && Within(cfg, TraceOf(cfg, run)[sid], now)
    ensures var db := At(After(cfg, run), now);
            sid in db.sessions && Usable(cfg, db, sid, now) &&
            sid in After(cfg, run + [Timed(Validate(sid, true), now)]).sessions
  {
    RunTraced(cfg, run);
    RunCoversWindow(cfg, run, now);
    assert SessionAs(After(cfg, run).sessions[sid], TraceOf(cfg, run)[sid]);
    ValidationAnswered(cfg, run, sid, now);
    assert (run + [Timed(Validate(sid, true), now)])[..|run|] == run;
  }
}
