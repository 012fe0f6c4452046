/**
 What each call of the Redis session backend leaves behind when it is run to its end with the
 steps of any other calls in between: a created or updated session is live for exactly the time it was
 given, and a deleted or pruned one is neither live nor listed, ever again.
 */
module RedisAnswers {
  import opened Basics
  import opened RedisIndex

  predicate StepOf(e: Step, c: CallId) { !e.Tick? && e.c == c }

  ghost predicate OfOthers(steps: seq<Step>, c: CallId) {
    forall i :: 0 <= i < |steps| ==> !StepOf(steps[i], c)
  }

  lemma {:induction false} CallKept(run: seq<Step>, others: seq<Step>, c: CallId)
    requires OfOthers(others, c) && c in After(run).calls
    ensures c in After(run + others).calls && After(run + others).calls[c] == After(run).calls[c]
  {
    if others == [] {
      assert run + others == run;
    } else {
      var n := |others| - 1;
      CallKept(run, others[..n], c);
      assert run + others == (run + others[..n]) + [others[n]];
      OtherKeepsCall(After(run + others[..n]), others[n], c);
      Snoc(run + others[..n], others[n]);
    }
  }

  lemma OtherKeepsCall(s: State, e: Step, c: CallId)
    requires !StepOf(e, c) && c in s.calls
    ensures c in Next(s, e).calls && Next(s, e).calls[c] == s.calls[c]
  {
  }

  // ---- created and updated -----------------------------------------------------------------------

  /** The step writes, moves or deletes the record of `sid`. */
  predicate Rewrites(s: State, e: Step, sid: SessionId) {
    match e
    case CreateRecord(c) => c in s.calls && s.calls[c].sid == sid
    case WriteRecord(_, other, _, reset) => other == sid && reset
    case DeleteRecord(_, other, _) => other == sid
    case Tick(_) => false
    case CreateIndex(_, _, _, _) => false
    case Reindex(_) => false
    case Probe(_, _) => false
    case DropEntry(_) => false
  }

  function DeadlineOf(s: State, sid: SessionId): Option<int> {
    if sid in s.records then Some(s.records[sid]) else None
  }

  /** Nothing else touches a record: no step on another session, no index write, no probe, no time. */
  lemma RecordFrame(run: seq<Step>, e: Step, sid: SessionId)
    requires !Rewrites(After(run), e, sid)
    ensures DeadlineOf(After(run + [e]), sid) == DeadlineOf(After(run), sid)
  {
    Snoc(run, e);
  }

  /**
   A creation run to its end: the session is the user's, is live for exactly the time it was given,
   counted from its record write, and the index was made good for that time and the buffer.
   */
  lemma CreateAnswered(run: seq<Step>, c: CallId, sid: SessionId, user: UserId, ttl: nat, others: seq<Step>)
    requires Enabled(After(run), CreateIndex(c, sid, user, ttl)) && OfOthers(others, c)
    ensures var listed := After(run + [CreateIndex(c, sid, user, ttl)]);
            Indexed(listed, sid) && listed.owner[sid] == user && !RecordLive(listed, sid) &&
            IndexDeadline(listed, sid) >= listed.now + Millis(ttl) + BUFFER
    ensures var before := run + [CreateIndex(c, sid, user, ttl)] + others;
            var s, t := After(before), After(before + [CreateRecord(c)]);
            RecordLive(t, sid) && t.now == s.now && t.records == s.records[sid := s.now + Millis(ttl)]
  {
    RunKeeps(run);
    var creating := run + [CreateIndex(c, sid, user, ttl)];
    Snoc(run, CreateIndex(c, sid, user, ttl));
    CallKept(creating, others, c);
    Snoc(creating + others, CreateRecord(c));
  }

  /** An update is answered for a live session only, and gives it exactly the time asked for, or keeps its deadline. */
  lemma UpdateAnswered(run: seq<Step>, c: CallId, sid: SessionId, ttl: nat, reset: bool)
    requires Enabled(After(run), WriteRecord(c, sid, ttl, reset))
    ensures var s, t := After(run), After(run + [WriteRecord(c, sid, ttl, reset)]);
            var until := if reset then Some(s.now + Millis(ttl)) else DeadlineOf(s, sid);
            if RecordLive(s, sid) then RecordLive(t, sid) && DeadlineOf(t, sid) == until else t == s
  {
    Snoc(run, WriteRecord(c, sid, ttl, reset));
  }

  /** Its index write, whenever it comes, makes the owner's index good for that time and the buffer. */
  lemma ReindexAnswered(run: seq<Step>, c: CallId, sid: SessionId, ttl: nat, reset: bool, others: seq<Step>)
    requires Enabled(After(run), WriteRecord(c, sid, ttl, reset)) && RecordLive(After(run), sid)
    requires OfOthers(others, c)
    ensures var t := After(run + [WriteRecord(c, sid, ttl, reset)] + others + [Reindex(c)]);
            Indexed(t, sid) && IndexDeadline(t, sid) >= t.now + Millis(ttl) + BUFFER
  {
    var written := run + [WriteRecord(c, sid, ttl, reset)];
    Snoc(run, WriteRecord(c, sid, ttl, reset));
    CallKept(written, others, c);
    RunKeeps(written + others);
    Relists(After(written + others), c);
    Snoc(written + others, Reindex(c));
  }

  lemma Relists(s: State, c: CallId)
    requires Inv(s) && Enabled(s, Reindex(c))
    ensures var t, sid := Next(s, Reindex(c)), s.calls[c].sid;
            Indexed(t, sid) && IndexDeadline(t, sid) >= t.now + Millis(s.calls[c].ttl) + BUFFER
  {
    assert CallOk(s, c);
  }

  // ---- deleted and pruned --------------------------------------------------------------------

  predicate BeingReindexed(s: State, sid: SessionId) {
    exists c :: c in s.calls && s.calls[c].Reindexing? && s.calls[c].sid == sid
  }

  /** Opened once, and no longer live. */
  predicate Over(s: State, sid: SessionId) { sid in s.owner && !RecordLive(s, sid) && !BeingCreated(s, sid) }

  /** ... with no index write of it still to come. */
  predicate Settled(s: State, sid: SessionId) { Over(s, sid) && !BeingReindexed(s, sid) }

  lemma StepStaysOver(s: State, e: Step, sid: SessionId)
    requires Over(s, sid)
    ensures Over(Next(s, e), sid)
  {
  }

  lemma StepStaysSettled(s: State, e: Step, sid: SessionId)
    requires Settled(s, sid)
    ensures Settled(Next(s, e), sid) && (Indexed(Next(s, e), sid) ==> Indexed(s, sid))
  {
    StepStaysOver(s, e, sid);
  }

  /** A session that has expired or was deleted is never live again, whatever updates race with its end. */
  lemma {:induction false} OverForGood(run: seq<Step>, more: seq<Step>, sid: SessionId)
    requires Over(After(run), sid)
    ensures Over(After(run + more), sid)
  {
    if more == [] {
      assert run + more == run;
    } else {
      var n := |more| - 1;
      OverForGood(run, more[..n], sid);
      StepStaysOver(After(run + more[..n]), more[n], sid);
      assert run + more == (run + more[..n]) + [more[n]];
      Snoc(run + more[..n], more[n]);
    }
  }

  /** Without an index write still to come, it is not listed again either once it is not. */
  lemma {:induction false} SettledForGood(run: seq<Step>, more: seq<Step>, sid: SessionId)
    requires Settled(After(run), sid)
    ensures Settled(After(run + more), sid) && (Indexed(After(run + more), sid) ==> Indexed(After(run), sid))
  {
    if more == [] {
      assert run + more == run;
    } else {
      var n := |more| - 1;
      SettledForGood(run, more[..n], sid);
      StepStaysSettled(After(run + more[..n]), more[n], sid);
      assert run + more == (run + more[..n]) + [more[n]];
      Snoc(run + more[..n], more[n]);
    }
  }

  lemma DropUnlists(s: State, c: CallId)
    requires Enabled(s, DropEntry(c)) && s.calls[c].sid in s.owner
    ensures !Indexed(Next(s, DropEntry(c)), s.calls[c].sid)
    ensures forall other :: other != s.calls[c].sid ==> (Indexed(Next(s, DropEntry(c)), other) <==> Indexed(s, other))
  {
  }

  /** The entry dropped at last, after whatever else happened meanwhile: the session is gone from both keys. */
  lemma DroppedForGood(run: seq<Step>, c: CallId, others: seq<Step>, more: seq<Step>)
    requires var s := After(run); Enabled(s, DropEntry(c)) && Settled(s, s.calls[c].sid)
    requires OfOthers(others, c)
    ensures var sid := After(run).calls[c].sid;
            var t := After(run + others + [DropEntry(c)] + more);
            !RecordLive(t, sid) && !Indexed(t, sid)
  {
    var sid := After(run).calls[c].sid;
    CallKept(run, others, c);
    SettledForGood(run, others, sid);
    DropUnlists(After(run + others), c);
    Snoc(run + others, DropEntry(c));
    StepStaysSettled(After(run + others), DropEntry(c), sid);
    SettledForGood(run + others + [DropEntry(c)], more, sid);
  }

  lemma LiveNotBeingCreated(s: State, sid: SessionId)
    requires Inv(s) && sid in s.records
    ensures !BeingCreated(s, sid)
  {
    assert forall c :: c in s.calls && s.calls[c].Creating? && s.calls[c].sid == sid ==> CallOk(s, c);
  }

  /**
   A delete answers whether the session was live, ends it for good and touches no other; run to its
   end, with no update of that session caught between its two writes, it leaves no entry behind either.
   */
  lemma DeleteAnswered(run: seq<Step>, c: CallId, sid: SessionId, known: bool, others: seq<Step>, more: seq<Step>)
    requires Enabled(After(run), DeleteRecord(c, sid, known)) && RecordLive(After(run), sid) && OfOthers(others, c)
    ensures !RecordLive(After(run + [DeleteRecord(c, sid, known)] + more), sid)
    ensures After(run + [DeleteRecord(c, sid, known)]).records == After(run).records - {sid}
    ensures known && !BeingReindexed(After(run), sid) ==>
              !Indexed(After(run + [DeleteRecord(c, sid, known)] + others + [DropEntry(c)] + more), sid)
  {
    RunKeeps(run);
    LiveNotBeingCreated(After(run), sid);
    var deleted := run + [DeleteRecord(c, sid, known)];
    Snoc(run, DeleteRecord(c, sid, known));
    OverForGood(deleted, more, sid);
    if known && !BeingReindexed(After(run), sid) {
      DroppedForGood(deleted, c, others, more);
    }
  }

  /** A probe answers whether the session is live; acted on for a settled one, it unlists it for good. */
  lemma ProbeAnswered(run: seq<Step>, c: CallId, sid: SessionId, others: seq<Step>, more: seq<Step>)
    requires Enabled(After(run), Probe(c, sid)) && OfOthers(others, c)
    ensures RecordLive(After(run), sid) <==> c !in After(run + [Probe(c, sid)]).calls
    ensures Settled(After(run), sid) ==> !Indexed(After(run + [Probe(c, sid)] + others + [DropEntry(c)] + more), sid)
  {
    Snoc(run, Probe(c, sid));
    if Settled(After(run), sid) {
      StepStaysSettled(After(run), Probe(c, sid), sid);
      DroppedForGood(run + [Probe(c, sid)], c, others, more);
    }
  }

  /**
   An entry comes back under a session that is over exactly when an update wrote its record before the
   end and its index after it; the next enumeration prunes it.
   */
  lemma LateReindexRelists(run: seq<Step>, c: CallId)
    requires var s := After(run); Enabled(s, Reindex(c)) && Over(s, s.calls[c].sid)
    ensures var sid := After(run).calls[c].sid;
            Indexed(After(run + [Reindex(c)]), sid) && !RecordLive(After(run + [Reindex(c)]), sid)
  {
    Snoc(run, Reindex(c));
  }
}
