/**
 The Redis session backend as a two-write protocol.

 A session lives under two keys: a record (a value with a deadline) and an entry in its
 owner's index (a set of ids with one deadline for the whole set). No transaction spans
 both, so `create` writes the index and then the record, `update` and `modify` write the
 record and then the index, and `delete` drops the record and then the entry. Each Redis
 command or MULTI is one atomic step here, and the steps of any number of callers
 interleave freely. An enumeration lists the index first and probes each listed id later, so a
 probe may find the entry already gone. Times are milliseconds; a key is gone once the clock reaches its
 deadline.
 */
module RedisIndex {
  import opened Basics

  type SessionId = nat
  type UserId = nat
  type CallId = nat

  const BUFFER: int := 3_600_000
  const HALF_BUFFER: int := 1_800_000

  datatype Index = Index(members: set<SessionId>, deadline: int)

  /** What a call that is part way through still has to do. */
  datatype Call =
    | Creating(sid: SessionId, ttl: nat, since: int)    // index written, record to come
    | Reindexing(sid: SessionId, ttl: nat, since: int)  // record written, index to come
    | Unindexing(sid: SessionId)                        // record deleted, entry to drop
    | Pruning(sid: SessionId)                           // no record found, entry to drop

  /**
   `suspect` is a history variable: the sessions whose record was found missing by a probe
   that ran between their own index write and record write, and that no index write
   covering the record has followed since that probe was acted on.
   */
  datatype State = State(
    now: int,
    records: map<SessionId, int>,
    owner: map<SessionId, UserId>,
    index: map<UserId, Index>,
    calls: map<CallId, Call>,
    suspect: set<SessionId>)

  datatype Step =
    | Tick(to: int)
    | CreateIndex(c: CallId, sid: SessionId, user: UserId, ttl: nat)
    | CreateRecord(c: CallId)
    | WriteRecord(c: CallId, sid: SessionId, ttl: nat, reset: bool)
    | Reindex(c: CallId)
    | DeleteRecord(c: CallId, sid: SessionId, ownerKnown: bool)
    | Probe(c: CallId, sid: SessionId)
    | DropEntry(c: CallId)

  const INIT := State(0, map[], map[], map[], map[], {})

  function Millis(ttl: nat): int { ttl * 1000 }

  predicate RecordLive(s: State, sid: SessionId) {
    sid in s.records && s.now < s.records[sid]
  }

  predicate IndexLive(s: State, user: UserId) {
    user in s.index && s.now < s.index[user].deadline
  }

  /** `sid` is a member of its owner's live index: what enumeration relies on. */
  predicate Indexed(s: State, sid: SessionId) {
    sid in s.owner && IndexLive(s, s.owner[sid]) && sid in s.index[s.owner[sid]].members
  }

  /** SADD, EXPIRE NX, EXPIRE GT in one MULTI: the deadline only ever grows. */
  function WithEntry(s: State, sid: SessionId, user: UserId, ttl: nat): map<UserId, Index> {
    var until := s.now + Millis(ttl) + BUFFER;
    if IndexLive(s, user)
    then s.index[user := Index(s.index[user].members + {sid}, Max(s.index[user].deadline, until))]
    else s.index[user := Index({sid}, until)]
  }

  /** SREM, which deletes the key with its last member. */
  function WithoutEntry(s: State, sid: SessionId, user: UserId): map<UserId, Index> {
    if !IndexLive(s, user) then s.index
    else if s.index[user].members <= {sid} then s.index - {user}
    else s.index[user := s.index[user].(members := s.index[user].members - {sid})]
  }

  predicate BeingCreated(s: State, sid: SessionId) {
    exists c :: c in s.calls && s.calls[c].Creating? && s.calls[c].sid == sid
  }

  predicate BeingPruned(s: State, sid: SessionId) {
    exists c :: c in s.calls && s.calls[c].Pruning? && s.calls[c].sid == sid
  }

  /** Session ids and call ids are fresh; both writes of a call fall within half the buffer. */
  predicate Enabled(s: State, e: Step) {
    match e
    case Tick(to) =>
      s.now <= to &&
      forall c :: c in s.calls && (s.calls[c].Creating? || s.calls[c].Reindexing?) ==>
        to < s.calls[c].since + HALF_BUFFER
    case CreateIndex(c, sid, user, ttl) => c !in s.calls && sid !in s.owner && 0 < ttl
    case CreateRecord(c) => c in s.calls && s.calls[c].Creating?
    case WriteRecord(c, sid, ttl, _) => c !in s.calls && sid in s.owner && 0 < ttl
    case Reindex(c) => c in s.calls && s.calls[c].Reindexing?
    case DeleteRecord(c, sid, _) => c !in s.calls && sid in s.owner
    case Probe(c, sid) => c !in s.calls && sid in s.owner
    case DropEntry(c) => c in s.calls && (s.calls[c].Unindexing? || s.calls[c].Pruning?)
  }

  function Reindexed(s: State, c: CallId): State
    requires c in s.calls && s.calls[c].Reindexing? && s.calls[c].sid in s.owner
  {
    var call := s.calls[c];
    var index := WithEntry(s, call.sid, s.owner[call.sid], call.ttl);
    var covered := call.sid in s.records && !BeingPruned(s, call.sid) &&
                   s.records[call.sid] + HALF_BUFFER <= index[s.owner[call.sid]].deadline;
    s.(index := index, calls := s.calls - {c},
       suspect := if covered then s.suspect - {call.sid} else s.suspect)
  }

  /** One atomic step; a step that is not enabled changes nothing. */
  function Next(s: State, e: Step): State {
    if !Enabled(s, e) then s else
    match e
    case Tick(to) => s.(now := to)
    case CreateIndex(c, sid, user, ttl) =>
      s.(index := WithEntry(s, sid, user, ttl), owner := s.owner[sid := user],
         calls := s.calls[c := Creating(sid, ttl, s.now)])
    case CreateRecord(c) =>
      s.(records := s.records[s.calls[c].sid := s.now + Millis(s.calls[c].ttl)],
         calls := s.calls - {c})
    case WriteRecord(c, sid, ttl, reset) =>
      if !RecordLive(s, sid) then s
      else s.(records := if reset then s.records[sid := s.now + Millis(ttl)] else s.records,
              calls := s.calls[c := Reindexing(sid, ttl, s.now)])
    case Reindex(c) => if s.calls[c].sid in s.owner then Reindexed(s, c) else s
    case DeleteRecord(c, sid, ownerKnown) =>
      if !RecordLive(s, sid) then s
      else s.(records := s.records - {sid},
              calls := if ownerKnown then s.calls[c := Unindexing(sid)] else s.calls)
    case Probe(c, sid) =>
      if RecordLive(s, sid) then s
      else s.(calls := s.calls[c := Pruning(sid)],
              suspect := if BeingCreated(s, sid) then s.suspect + {sid} else s.suspect)
    case DropEntry(c) =>
      var sid := s.calls[c].sid;
      if sid !in s.owner then s
      else s.(index := WithoutEntry(s, sid, s.owner[sid]), calls := s.calls - {c})
  }

  function After(run: seq<Step>): State {
    if run == [] then INIT else Next(After(run[..|run| - 1]), run[|run| - 1])
  }

  // ---- the invariant ------------------------------------------------------------------

  function IndexDeadline(s: State, sid: SessionId): int
    requires Indexed(s, sid)
  {
    s.index[s.owner[sid]].deadline
  }

  /** A pending index write is on its way that will outlast the record as it stands. */
  predicate RescueComing(s: State, sid: SessionId, c: CallId)
    requires sid in s.records
  {
    c in s.calls && s.calls[c].Reindexing? && s.calls[c].sid == sid &&
    s.records[sid] <= s.calls[c].since + Millis(s.calls[c].ttl)
  }

  /** The index is sure to live until the pending write of `c` has happened. */
  predicate HoldsUntil(s: State, sid: SessionId, c: CallId)
    requires Indexed(s, sid)
  {
    c in s.calls && s.calls[c].Reindexing? && s.calls[c].sid == sid &&
    s.calls[c].since + HALF_BUFFER <= IndexDeadline(s, sid)
  }

  /**
   Why a live record's index entry cannot lapse first: either the index already outlives the
   record by half the buffer, or an index write that will is pending and the index outlives
   some pending write's slack.
   */
  ghost predicate Covered(s: State, sid: SessionId)
    requires sid in s.records
  {
    Indexed(s, sid) &&
    (|| s.records[sid] + HALF_BUFFER <= IndexDeadline(s, sid)
     || ((exists r :: RescueComing(s, sid, r)) && (exists q :: HoldsUntil(s, sid, q))))
  }

  ghost predicate CallOk(s: State, c: CallId)
    requires c in s.calls
  {
    var call := s.calls[c];
    call.sid in s.owner &&
    match call
    case Creating(sid, ttl, since) =>
      since <= s.now < since + HALF_BUFFER && sid !in s.records &&
      (sid in s.suspect ||
       (Indexed(s, sid) && since + Millis(ttl) + BUFFER <= IndexDeadline(s, sid)))
    case Reindexing(_, _, since) => since <= s.now < since + HALF_BUFFER
    case Unindexing(sid) => sid !in s.records && !BeingCreated(s, sid)
    case Pruning(sid) => sid in s.suspect || (!RecordLive(s, sid) && !BeingCreated(s, sid))
  }

  ghost predicate OneCreator(s: State) {
    forall c, d ::
      (c in s.calls && d in s.calls && s.calls[c].Creating? && s.calls[d].Creating? &&
       s.calls[c].sid == s.calls[d].sid) ==> c == d
  }

  ghost predicate Inv(s: State) {
    && s.records.Keys <= s.owner.Keys
    && OneCreator(s)
    && (forall c :: c in s.calls ==> CallOk(s, c))
    && (forall sid :: RecordLive(s, sid) ==> sid in s.suspect || Covered(s, sid))
  }

  // ---- every step keeps the invariant -------------------------------------------------

  lemma TickKeeps(s: State, to: int)
    requires Inv(s) && Enabled(s, Tick(to))
    ensures Inv(Next(s, Tick(to)))
  {
    var t := Next(s, Tick(to));
    forall c | c in t.calls ensures CallOk(t, c) {
      assert CallOk(s, c);
      assert BeingCreated(t, t.calls[c].sid) == BeingCreated(s, t.calls[c].sid);
    }
    forall sid | RecordLive(t, sid) ensures sid in t.suspect || Covered(t, sid) {
      assert RecordLive(s, sid);
      if sid !in s.suspect {
        if s.records[sid] + HALF_BUFFER > IndexDeadline(s, sid) {
          var r :| RescueComing(s, sid, r);
          var q :| HoldsUntil(s, sid, q);
          assert RescueComing(t, sid, r) && HoldsUntil(t, sid, q);
        }
      }
    }
  }

  /** An index write keeps every other entry that a live session or a creation relies on. */
  lemma WithEntryKeeps(s: State, t: State, sid: SessionId, user: UserId, ttl: nat, other: SessionId)
    requires t.index == WithEntry(s, sid, user, ttl) && t.now == s.now
    requires Indexed(s, other) && other in t.owner && t.owner[other] == s.owner[other]
    ensures Indexed(t, other) && IndexDeadline(s, other) <= IndexDeadline(t, other)
  {
  }

  lemma WithoutEntryKeeps(s: State, t: State, sid: SessionId, user: UserId, other: SessionId)
    requires t.index == WithoutEntry(s, sid, user) && t.now == s.now
    requires Indexed(s, other) && other in t.owner && t.owner[other] == s.owner[other]
    requires other != sid
    ensures Indexed(t, other) && IndexDeadline(s, other) == IndexDeadline(t, other)
  {
    assert s.owner[other] == user ==> other in s.index[user].members - {sid};
  }

  /** Cover carries over when the index deadline did not shrink and the pending writes remain. */
  lemma CoverCarries(s: State, t: State, sid: SessionId)
    requires sid in s.records && Covered(s, sid)
    requires sid in t.records && t.records[sid] == s.records[sid]
    requires Indexed(t, sid) && IndexDeadline(s, sid) <= IndexDeadline(t, sid)
    requires forall c :: c in s.calls && s.calls[c].Reindexing? && s.calls[c].sid == sid ==>
               c in t.calls && t.calls[c] == s.calls[c]
    ensures Covered(t, sid)
  {
    if s.records[sid] + HALF_BUFFER > IndexDeadline(s, sid) {
      var r :| RescueComing(s, sid, r);
      var q :| HoldsUntil(s, sid, q);
      assert RescueComing(t, sid, r) && HoldsUntil(t, sid, q);
    }
  }

  lemma CreateIndexKeeps(s: State, c: CallId, sid: SessionId, user: UserId, ttl: nat)
    requires Inv(s) && Enabled(s, CreateIndex(c, sid, user, ttl))
    ensures Inv(Next(s, CreateIndex(c, sid, user, ttl)))
  {
    var t := Next(s, CreateIndex(c, sid, user, ttl));
    forall d | d in t.calls ensures CallOk(t, d) {
      if d != c {
        assert CallOk(s, d);
        if Indexed(s, s.calls[d].sid) {
          WithEntryKeeps(s, t, sid, user, ttl, s.calls[d].sid);
        }
        if BeingCreated(t, t.calls[d].sid) {
          var w :| w in t.calls && t.calls[w].Creating? && t.calls[w].sid == t.calls[d].sid;
          assert w != c;
          assert BeingCreated(s, t.calls[d].sid);
        }
      }
    }
    forall other | RecordLive(t, other) ensures other in t.suspect || Covered(t, other) {
      assert RecordLive(s, other);
      if other !in s.suspect {
        WithEntryKeeps(s, t, sid, user, ttl, other);
        CoverCarries(s, t, other);
      }
    }
  }

  lemma CreateRecordKeeps(s: State, c: CallId)
    requires Inv(s) && Enabled(s, CreateRecord(c))
    ensures Inv(Next(s, CreateRecord(c)))
  {
    var t := Next(s, CreateRecord(c));
    var sid := s.calls[c].sid;
    assert CallOk(s, c);
    assert BeingCreated(s, sid);
    forall d | d in t.calls ensures CallOk(t, d) {
      assert CallOk(s, d);
      if BeingCreated(t, t.calls[d].sid) {
        assert BeingCreated(s, t.calls[d].sid);
      }
    }
    forall other | RecordLive(t, other) ensures other in t.suspect || Covered(t, other) {
      if other != sid && other !in s.suspect {
        assert RecordLive(s, other);
        CoverCarries(s, t, other);
      }
    }
  }

  lemma WriteRecordKeeps(s: State, c: CallId, sid: SessionId, ttl: nat, reset: bool)
    requires Inv(s) && Enabled(s, WriteRecord(c, sid, ttl, reset))
    ensures Inv(Next(s, WriteRecord(c, sid, ttl, reset)))
  {
    var t := Next(s, WriteRecord(c, sid, ttl, reset));
    if RecordLive(s, sid) {
      forall d | d in t.calls ensures CallOk(t, d) {
        if d != c {
          assert CallOk(s, d);
          if BeingCreated(t, t.calls[d].sid) {
            var w :| w in t.calls && t.calls[w].Creating? && t.calls[w].sid == t.calls[d].sid;
            assert w != c;
            assert BeingCreated(s, t.calls[d].sid);
          }
        }
      }
      forall other | RecordLive(t, other) ensures other in t.suspect || Covered(t, other) {
        assert RecordLive(s, other);
        if other !in s.suspect {
          if other != sid || !reset {
            CoverCarries(s, t, other);
          } else {
            ResetCovers(s, c, sid, ttl);
          }
        }
      }
    }
  }

  /** A write that moves the deadline announces the index write that will cover it. */
  lemma ResetCovers(s: State, c: CallId, sid: SessionId, ttl: nat)
    requires Inv(s) && Enabled(s, WriteRecord(c, sid, ttl, true)) && RecordLive(s, sid) && sid !in s.suspect
    ensures Covered(Next(s, WriteRecord(c, sid, ttl, true)), sid)
  {
    var t := Next(s, WriteRecord(c, sid, ttl, true));
    assert RescueComing(t, sid, c);
    if s.records[sid] + HALF_BUFFER <= IndexDeadline(s, sid) {
      assert HoldsUntil(t, sid, c);
    } else {
      var q :| HoldsUntil(s, sid, q);
      assert HoldsUntil(t, sid, q);
    }
  }

  /** The rescue itself: the pending write either covers the record or hands over to another. */
  lemma ReindexCovers(s: State, c: CallId)
    requires Inv(s) && Enabled(s, Reindex(c))
    requires RecordLive(s, s.calls[c].sid) && s.calls[c].sid !in s.suspect
    ensures Covered(Next(s, Reindex(c)), s.calls[c].sid)
  {
    var t := Next(s, Reindex(c));
    var call := s.calls[c];
    assert CallOk(s, c);
    WithEntryKeeps(s, t, call.sid, s.owner[call.sid], call.ttl, call.sid);
    if t.records[call.sid] + HALF_BUFFER > IndexDeadline(t, call.sid) {
      var r :| RescueComing(s, call.sid, r);
      var q :| HoldsUntil(s, call.sid, q);
      assert CallOk(s, r);
      assert r != c;
      assert RescueComing(t, call.sid, r);
      if q != c {
        assert HoldsUntil(t, call.sid, q);
      } else {
        assert HoldsUntil(t, call.sid, r);
      }
    }
  }

  lemma ReindexKeeps(s: State, c: CallId)
    requires Inv(s) && Enabled(s, Reindex(c))
    ensures Inv(Next(s, Reindex(c)))
  {
    var t := Next(s, Reindex(c));
    var call := s.calls[c];
    assert CallOk(s, c);
    forall d | d in t.calls ensures CallOk(t, d) {
      assert CallOk(s, d);
      var sid := t.calls[d].sid;
      if Indexed(s, sid) {
        WithEntryKeeps(s, t, call.sid, s.owner[call.sid], call.ttl, sid);
      }
      if BeingCreated(t, sid) {
        assert BeingCreated(s, sid);
      }
      if t.calls[d].Pruning? {
        assert BeingPruned(s, sid);
      }
    }
    forall other | RecordLive(t, other) ensures other in t.suspect || Covered(t, other) {
      assert RecordLive(s, other);
      if other !in s.suspect {
        if other == call.sid {
          ReindexCovers(s, c);
        } else {
          WithEntryKeeps(s, t, call.sid, s.owner[call.sid], call.ttl, other);
          CoverCarries(s, t, other);
        }
      }
    }
  }

  lemma DeleteRecordKeeps(s: State, c: CallId, sid: SessionId, ownerKnown: bool)
    requires Inv(s) && Enabled(s, DeleteRecord(c, sid, ownerKnown))
    ensures Inv(Next(s, DeleteRecord(c, sid, ownerKnown)))
  {
    var t := Next(s, DeleteRecord(c, sid, ownerKnown));
    if RecordLive(s, sid) {
      forall d | d in t.calls ensures CallOk(t, d) {
        if BeingCreated(t, t.calls[d].sid) {
          var w :| w in t.calls && t.calls[w].Creating? && t.calls[w].sid == t.calls[d].sid;
          assert CallOk(s, w);
          assert BeingCreated(s, t.calls[d].sid);
        }
        if d in s.calls {
          assert CallOk(s, d);
        }
      }
      forall other | RecordLive(t, other) ensures other in t.suspect || Covered(t, other) {
        assert RecordLive(s, other);
        if other !in s.suspect {
          CoverCarries(s, t, other);
        }
      }
    }
  }

  lemma ProbeKeeps(s: State, c: CallId, sid: SessionId)
    requires Inv(s) && Enabled(s, Probe(c, sid))
    ensures Inv(Next(s, Probe(c, sid)))
  {
    var t := Next(s, Probe(c, sid));
    if !RecordLive(s, sid) {
      forall d | d in t.calls ensures CallOk(t, d) {
        if BeingCreated(t, t.calls[d].sid) {
          var w :| w in t.calls && t.calls[w].Creating? && t.calls[w].sid == t.calls[d].sid;
          assert w != c;
          assert BeingCreated(s, t.calls[d].sid);
        }
        if d != c {
          assert CallOk(s, d);
        }
      }
      forall other | RecordLive(t, other) ensures other in t.suspect || Covered(t, other) {
        assert RecordLive(s, other);
        if other !in s.suspect {
          CoverCarries(s, t, other);
        }
      }
    }
  }

  lemma DropEntryKeeps(s: State, c: CallId)
    requires Inv(s) && Enabled(s, DropEntry(c))
    ensures Inv(Next(s, DropEntry(c)))
  {
    var t := Next(s, DropEntry(c));
    var sid := s.calls[c].sid;
    assert CallOk(s, c);
    forall d | d in t.calls ensures CallOk(t, d) {
      assert CallOk(s, d);
      var other := t.calls[d].sid;
      if BeingCreated(t, other) {
        assert BeingCreated(s, other);
      }
      if t.calls[d].Creating? && other !in s.suspect {
        assert BeingCreated(s, other);
        WithoutEntryKeeps(s, t, sid, s.owner[sid], other);
      }
    }
    forall other | RecordLive(t, other) ensures other in t.suspect || Covered(t, other) {
      assert RecordLive(s, other);
      if other !in s.suspect {
        WithoutEntryKeeps(s, t, sid, s.owner[sid], other);
        CoverCarries(s, t, other);
      }
    }
  }

  lemma StepKeeps(s: State, e: Step)
    requires Inv(s)
    ensures Inv(Next(s, e))
  {
    if Enabled(s, e) {
      match e
      case Tick(to) => TickKeeps(s, to);
      case CreateIndex(c, sid, user, ttl) => CreateIndexKeeps(s, c, sid, user, ttl);
      case CreateRecord(c) => CreateRecordKeeps(s, c);
      case WriteRecord(c, sid, ttl, reset) => WriteRecordKeeps(s, c, sid, ttl, reset);
      case Reindex(c) => ReindexKeeps(s, c);
      case DeleteRecord(c, sid, known) => DeleteRecordKeeps(s, c, sid, known);
      case Probe(c, sid) => ProbeKeeps(s, c, sid);
      case DropEntry(c) => DropEntryKeeps(s, c);
    }
  }

  lemma {:induction false} RunKeeps(run: seq<Step>)
    ensures Inv(After(run))
  {
    if run == [] {
    } else {
      RunKeeps(run[..|run| - 1]);
      StepKeeps(After(run[..|run| - 1]), run[|run| - 1]);
    }
  }

  // ---- main results -------------------------------------------------------------------

  predicate NoProbes(run: seq<Step>) {
    forall i :: 0 <= i < |run| ==> !run[i].Probe?
  }

  lemma {:induction false} NoProbesNoSuspects(run: seq<Step>)
    requires NoProbes(run)
    ensures After(run).suspect == {}
  {
    if run == [] {
    } else {
      NoProbesNoSuspects(run[..|run| - 1]);
    }
  }

  /**
   Creates, updates, modifies and deletes alone, in any interleaving: a live session is never
   missing from its owner's live index.
   */
  lemma LiveIsIndexed(run: seq<Step>, sid: SessionId)
    requires NoProbes(run) && RecordLive(After(run), sid)
    ensures Indexed(After(run), sid)
  {
    RunKeeps(run);
    NoProbesNoSuspects(run);
  }

  /** The probe at position `i` ran inside the creation of `sid`, before its record existed. */
  ghost predicate ProbedInCreation(run: seq<Step>, i: nat, sid: SessionId) {
    i < |run| && run[i].Probe? && run[i].sid == sid &&
    BeingCreated(After(run[..i]), sid) && !RecordLive(After(run[..i]), sid)
  }

  lemma {:induction false} SuspectWasProbed(run: seq<Step>, sid: SessionId)
    requires sid in After(run).suspect
    ensures exists i: nat :: ProbedInCreation(run, i, sid)
  {
    var last := |run| - 1;
    var before := run[..last];
    if sid in After(before).suspect {
      SuspectWasProbed(before, sid);
      var i: nat :| ProbedInCreation(before, i, sid);
      assert before[..i] == run[..i];
      assert ProbedInCreation(run, i, sid);
    } else {
      assert ProbedInCreation(run, last, sid);
    }
  }

  /** With pruning added, the one way for a live session to go missing from its index. */
  lemma MissingWasProbedInCreation(run: seq<Step>, sid: SessionId)
    requires RecordLive(After(run), sid) && !Indexed(After(run), sid)
    ensures exists i: nat :: ProbedInCreation(run, i, sid)
  {
    RunKeeps(run);
    SuspectWasProbed(run, sid);
  }

  /**
   The repair: the index write of an update that moved the session's deadline, completing once
   the prune has been acted on, puts the session back under the full guarantee.
   */
  lemma UpdateRepairs(run: seq<Step>, c: CallId)
    requires var s := After(run);
             c in s.calls && s.calls[c].Reindexing? && RecordLive(s, s.calls[c].sid) &&
             RescueComing(s, s.calls[c].sid, c) && !BeingPruned(s, s.calls[c].sid)
    ensures var s := After(run);
            var t := After(run + [Reindex(c)]);
            Indexed(t, s.calls[c].sid) && s.calls[c].sid !in t.suspect
  {
    RunKeeps(run);
    assert (run + [Reindex(c)])[..|run|] == run;
    assert CallOk(After(run), c);
  }

  /** Out of suspicion, a session stays in the index until a new probe inside a creation. */
  lemma {:induction false} RepairedStaysIndexed(run: seq<Step>, more: seq<Step>, sid: SessionId)
    requires sid in After(run).owner && !BeingCreated(After(run), sid)
    requires sid !in After(run).suspect && RecordLive(After(run + more), sid)
    ensures Indexed(After(run + more), sid)
  {
    NeverCreatedAgain(run, more, sid);
    RunKeeps(run + more);
  }

  lemma {:induction false} NeverCreatedAgain(run: seq<Step>, more: seq<Step>, sid: SessionId)
    requires sid in After(run).owner && !BeingCreated(After(run), sid)
    requires sid !in After(run).suspect
    ensures var t := After(run + more);
            sid in t.owner && !BeingCreated(t, sid) && sid !in t.suspect
  {
    if more == [] {
      assert run + more == run;
    } else {
      var all := run + more;
      assert all[..|all| - 1] == run + more[..|more| - 1];
      NeverCreatedAgain(run, more[..|more| - 1], sid);
      StepNeverCreates(After(all[..|all| - 1]), all[|all| - 1], sid);
    }
  }

  lemma StepNeverCreates(s: State, e: Step, sid: SessionId)
    requires sid in s.owner && !BeingCreated(s, sid) && sid !in s.suspect
    ensures var t := Next(s, e); sid in t.owner && !BeingCreated(t, sid) && sid !in t.suspect
  {
  }

  // ---- where the class's promise stops --------------------------------------------------

  /** If nothing but time goes on, the session is at some moment live and not indexed. */
  ghost predicate Lapses(s: State, sid: SessionId) {
    exists t :: s.now <= t && RecordLive(s.(now := t), sid) && !Indexed(s.(now := t), sid)
  }

  lemma LapsesIff(s: State, sid: SessionId)
    requires RecordLive(s, sid) && Indexed(s, sid)
    ensures Lapses(s, sid) <==> IndexDeadline(s, sid) < s.records[sid]
  {
    if IndexDeadline(s, sid) < s.records[sid] {
      var t := IndexDeadline(s, sid);
      assert RecordLive(s.(now := t), sid) && !Indexed(s.(now := t), sid);
    }
  }

  function Extended(s: State, sid: SessionId, ttl: nat): State {
    s.(records := s.records[sid := s.now + Millis(ttl)])
  }

  /**
   `extend` moves a record's deadline and writes no index: the extended record outlives its index
   entry exactly when the new deadline is past the index's.
   */
  lemma ExtendOutlivesIndex(s: State, sid: SessionId, ttl: nat)
    requires RecordLive(s, sid) && Indexed(s, sid) && 0 < ttl
    ensures Lapses(Extended(s, sid, ttl), sid) <==> IndexDeadline(s, sid) < s.now + Millis(ttl)
  {
    LapsesIff(Extended(s, sid, ttl), sid);
  }

  /** A session of one minute, extended at once by an hour and two minutes. */
  lemma ExtendOutlivesIndexInARun(run: seq<Step>)
    requires run == [CreateIndex(0, 7, 1, 60), CreateRecord(0)]
    ensures Indexed(After(run), 7) && Lapses(Extended(After(run), 7, 3_720), 7)
  {
    var s1 := Next(INIT, run[0]);
    assert s1 == State(0, map[], map[7 := 1], map[1 := Index({7}, 3_660_000)], map[0 := Creating(7, 60, 0)], {});
    assert run[..0] == [] && run[..1] == run[..0] + [run[0]] && run == run[..1] + [run[1]];
    Snoc(run[..0], run[0]);
    Snoc(run[..1], run[1]);
    ExtendOutlivesIndex(After(run), 7, 3_720);
  }

  /**
   Exactly when the index write of an update or modify is too short for a live session: the record
   has more time left than the write's time to live plus the buffer, and the owner's index was not
   already good for longer. A write that resets the deadline never leaves that much; one that keeps
   it does so for a record with a longer life than the storage's default.
   */
  lemma RepairLapsesIff(run: seq<Step>, c: CallId)
    requires var s := After(run);
             c in s.calls && s.calls[c].Reindexing? && RecordLive(s, s.calls[c].sid)
    ensures var s, t := After(run), After(run + [Reindex(c)]);
            var Reindexing(sid, ttl, _) := s.calls[c];
            && Indexed(t, sid) && sid in s.owner
            && (Lapses(t, sid) <==> IndexDeadline(t, sid) < s.records[sid])
            && (Lapses(t, sid) <==>
                  s.now + Millis(ttl) + BUFFER < s.records[sid] &&
                  (IndexLive(s, s.owner[sid]) ==> s.index[s.owner[sid]].deadline < s.records[sid]))
            && (RescueComing(s, sid, c) ==> !Lapses(t, sid))
  {
    RunKeeps(run);
    Snoc(run, Reindex(c));
    assert CallOk(After(run), c);
    LapsesIff(After(run + [Reindex(c)]), After(run).calls[c].sid);
  }

  /**
   A repair by a write that keeps the record's deadline can be too short: the index takes the
   storage's default time to live, and a remembered session's record may outlive it.
   */
  lemma KeepTtlRepairIsShort() returns (run: seq<Step>, sid: SessionId)
    ensures RecordLive(After(run), sid) && !Indexed(After(run), sid)
    ensures |run| > 0 && run[|run| - 1].Tick?
    ensures Indexed(After(run[..|run| - 1]), sid) && After(run[..|run| - 1]).calls == map[]
  {
    sid := 7;
    var steps := [] + [CreateIndex(0, 7, 1, 2_592_000)] + [Probe(1, 7)] + [CreateRecord(0)] + [DropEntry(1)];
    PrunedInCreation(steps);
    var s4 := After(steps);
    var s5 := Next(s4, WriteRecord(2, 7, 1_800, false));
    assert s5 == s4.(calls := map[2 := Reindexing(7, 1_800, 0)]);
    var s6 := Next(s5, Reindex(2));
    assert s6.index == map[1 := Index({7}, 5_400_000)] && s6.calls == map[];
    Snoc(steps, WriteRecord(2, 7, 1_800, false));
    Snoc(steps + [WriteRecord(2, 7, 1_800, false)], Reindex(2));
    run := steps + [WriteRecord(2, 7, 1_800, false)] + [Reindex(2)] + [Tick(5_400_000)];
    assert run[..|run| - 1] == steps + [WriteRecord(2, 7, 1_800, false)] + [Reindex(2)];
  }

  lemma Snoc(run: seq<Step>, e: Step)
    ensures After(run + [e]) == Next(After(run), e)
  {
    assert (run + [e])[..|run|] == run;
  }

  /** One more step of a run whose state is known. */
  lemma Onward(run: seq<Step>, s: State, e: Step, t: State)
    requires After(run) == s && Next(s, e) == t
    ensures After(run + [e]) == t
  {
    Snoc(run, e);
  }

  /** A prune that lands inside a creation ... */
  lemma ProbedInCreationState(run: seq<Step>)
    requires run == [] + [CreateIndex(0, 7, 1, 2_592_000)] + [Probe(1, 7)]
    ensures After(run) == State(0, map[], map[7 := 1], map[1 := Index({7}, 2_595_600_000)],
                                map[0 := Creating(7, 2_592_000, 0), 1 := Pruning(7)], {7})
  {
    var s1 := State(0, map[], map[7 := 1], map[1 := Index({7}, 2_595_600_000)],
                    map[0 := Creating(7, 2_592_000, 0)], {});
    Onward([], INIT, CreateIndex(0, 7, 1, 2_592_000), s1);
    assert BeingCreated(s1, 7) by { assert s1.calls[0].Creating?; }
    Snoc([] + [CreateIndex(0, 7, 1, 2_592_000)], Probe(1, 7));
  }

  /** ... leaves the session live and no index naming it. */
  lemma PrunedInCreation(run: seq<Step>)
    requires run == [] + [CreateIndex(0, 7, 1, 2_592_000)] + [Probe(1, 7)] + [CreateRecord(0)] + [DropEntry(1)]
    ensures After(run) == State(0, map[7 := 2_592_000_000], map[7 := 1], map[], map[], {7})
  {
    var probed := [] + [CreateIndex(0, 7, 1, 2_592_000)] + [Probe(1, 7)];
    ProbedInCreationState(probed);
    var s3 := State(0, map[7 := 2_592_000_000], map[7 := 1], map[1 := Index({7}, 2_595_600_000)],
                    map[1 := Pruning(7)], {7});
    Onward(probed, After(probed), CreateRecord(0), s3);
    Snoc(probed + [CreateRecord(0)], DropEntry(1));
  }
}
