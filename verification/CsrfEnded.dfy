/**
 CSRF tokens of sessions that have ended, over the same interleavings, and what a login, a rotation
 and a termination do when nothing comes between their steps.
 */
module CsrfEnded {
  import opened CsrfRotation

  // ---- references read off the run ------------------------------------------------------------

  /** The token each session named last. */
  function LastNamed(run: seq<Step>): map<SessionId, Token> {
    if run == [] then map[] else LastNamed(run[..|run| - 1]) + After(run).named
  }

  function ReadNext(s: State, e: Step, read: set<Token>): set<Token> {
    if e.ReadToTerminate? && Enabled(s, e) then read + {s.named[e.sid]} else read
  }

  /** The tokens that some termination found its session naming. */
  function TerminationRead(run: seq<Step>): set<Token> {
    if run == [] then {}
    else ReadNext(After(run[..|run| - 1]), run[|run| - 1], TerminationRead(run[..|run| - 1]))
  }

  // ---- the invariant ----------------------------------------------------------------------------

  /** A call in flight on the session has the token in hand. */
  predicate InHand(s: State, c: CallId, sid: SessionId, token: Token) {
    c in s.calls && !s.calls[c].Rotating? && s.calls[c].sid == sid && s.calls[c].token == token
  }

  predicate WillDrop(s: State, c: CallId, token: Token) {
    c in s.calls && (s.calls[c].Terminating? || s.calls[c].Dropping?) && s.calls[c].token == token
  }

  predicate IsLast(last: map<SessionId, Token>, sid: SessionId, token: Token) {
    sid in last && last[sid] == token
  }

  ghost predicate CallLeft(s: State, last: map<SessionId, Token>, read: set<Token>, c: CallId)
    requires c in s.calls
  {
    match s.calls[c]
    case Creating(sid, _) => sid !in last
    case Rotating(_) => true
    case Issued(sid, token) => !IsLast(last, sid, token)
    case Replacing(sid, token) => !IsLast(last, sid, token)
    case Discarding(sid, token) => !IsLast(last, sid, token)
    case Terminating(_, token) => token in read
    case Dropping(_, token) => token in read
  }

  ghost predicate RecordLeft(s: State, last: map<SessionId, Token>, read: set<Token>, token: Token)
    requires token in s.records
  {
    && token !in s.lapsed
    && (s.records[token] !in s.named ==>
          IsLast(last, s.records[token], token) || exists c :: InHand(s, c, s.records[token], token))
    && (token in read ==> exists c :: WillDrop(s, c, token))
  }

  ghost predicate LastLeft(s: State, last: map<SessionId, Token>, read: set<Token>, sid: SessionId)
    requires sid in last
  {
    && sid in s.known && last[sid] in s.bound && s.bound[last[sid]] == sid
    && (last[sid] in s.records || last[sid] in s.lapsed || last[sid] in read)
    && (sid in s.named ==> s.named[sid] == last[sid])
  }

  ghost predicate Left(s: State, last: map<SessionId, Token>, read: set<Token>) {
    && (forall c :: c in s.calls ==> CallLeft(s, last, read, c))
    && (forall t :: t in s.records ==> RecordLeft(s, last, read, t))
    && (forall sid :: sid in last ==> LastLeft(s, last, read, sid))
    && (forall sid :: sid in s.named ==> sid in last)
    && (forall t :: t in s.lapsed || t in read ==> t in s.bound)
  }

  // ---- steps ----------------------------------------------------------------------------------------

  /** What a step makes of the tokens named last. */
  ghost function LastNext(s: State, e: Step, last: map<SessionId, Token>): map<SessionId, Token>
    requires Enabled(s, e)
  {
    if e.CreateSession? || (e.Install? && s.calls[e.c].sid in s.named)
    then last[s.calls[e.c].sid := s.calls[e.c].token] else last
  }

  lemma LastStep(s: State, last: map<SessionId, Token>, read: set<Token>, e: Step)
    requires Left(s, last, read) && Enabled(s, e)
    ensures last + Next(s, e).named == LastNext(s, e, last)
  {
    forall sid | sid in s.named ensures sid in last && last[sid] == s.named[sid] {
      assert LastLeft(s, last, read, sid);
    }
  }

  lemma CallsLeft(s: State, last: map<SessionId, Token>, read: set<Token>, e: Step, c: CallId)
    requires Inv(s) && Left(s, last, read) && Enabled(s, e) && c in Next(s, e).calls
    ensures CallLeft(Next(s, e), LastNext(s, e, last), ReadNext(s, e, read), c)
  {
    if e.CreateSession? {
      CallsLeftByCreation(s, last, read, e, c);
    } else if e.Install? {
      CallsLeftByInstall(s, last, read, e, c);
    } else if c in s.calls {
      assert CallOk(s, c) && CallLeft(s, last, read, c);
    }
  }

  lemma CallsLeftByCreation(s: State, last: map<SessionId, Token>, read: set<Token>, e: Step, c: CallId)
    requires Inv(s) && Left(s, last, read) && e.CreateSession? && Enabled(s, e) && c in Next(s, e).calls
    ensures CallLeft(Next(s, e), LastNext(s, e, last), read, c)
  {
    assert CallOk(s, e.c) && CallOk(s, c) && CallLeft(s, last, read, c);
  }

  lemma CallsLeftByInstall(s: State, last: map<SessionId, Token>, read: set<Token>, e: Step, c: CallId)
    requires Inv(s) && Left(s, last, read) && e.Install? && Enabled(s, e) && c in Next(s, e).calls
    ensures CallLeft(Next(s, e), LastNext(s, e, last), read, c)
  {
    assert CallOk(s, e.c) && CallOk(s, c) && CallLeft(s, last, read, c) && CallLeft(s, last, read, e.c);
  }

  /** A token in a call's hand stays in one until it is deleted or its session names it. */
  lemma HandKept(s: State, e: Step, c: CallId, sid: SessionId, token: Token)
    requires Inv(s) && Enabled(s, e) && InHand(s, c, sid, token) && sid !in Next(s, e).named
    requires token in Next(s, e).records && sid !in s.named
    ensures exists d :: InHand(Next(s, e), d, sid, token)
  {
    assert CallOk(s, c);
    assert InHand(Next(s, e), c, sid, token);
  }

  lemma DropKept(s: State, e: Step, c: CallId, token: Token)
    requires Inv(s) && Enabled(s, e) && WillDrop(s, c, token) && token in Next(s, e).records
    ensures exists d :: WillDrop(Next(s, e), d, token)
  {
    assert WillDrop(Next(s, e), c, token);
  }

  /** A record whose session ends here was named by it, or is in a rotation's hand. */
  lemma OrphanKept(s: State, last: map<SessionId, Token>, read: set<Token>, e: Step, token: Token)
    requires Inv(s) && Left(s, last, read) && Enabled(s, e) && token in s.records && token in Next(s, e).records
    requires s.records[token] in s.named && s.records[token] !in Next(s, e).named
    ensures var t, sid := Next(s, e), s.records[token];
            IsLast(LastNext(s, e, last), sid, token) || exists c :: InHand(t, c, sid, token)
  {
    var t, sid := Next(s, e), s.records[token];
    assert LastLeft(s, last, read, sid);
    if s.named[sid] != token {
      assert InFlight(s, sid, token);
      var c :| c in s.calls && (s.calls[c] == Issued(sid, token) || s.calls[c] == Replacing(sid, token));
      assert InHand(t, c, sid, token);
    }
  }

  lemma RecordsLeft(s: State, last: map<SessionId, Token>, read: set<Token>, e: Step, token: Token)
    requires Inv(s) && Left(s, last, read) && Enabled(s, e) && token in Next(s, e).records
    ensures RecordLeft(Next(s, e), LastNext(s, e, last), ReadNext(s, e, read), token)
  {
    if token in s.records {
      RecordStaysHeld(s, last, read, e, token);
      RecordStaysDoomed(s, last, read, e, token);
    } else {
      assert InHand(Next(s, e), e.c, Next(s, e).records[token], token);
    }
  }

  lemma RecordStaysHeld(s: State, last: map<SessionId, Token>, read: set<Token>, e: Step, token: Token)
    requires Inv(s) && Left(s, last, read) && Enabled(s, e) && token in s.records && token in Next(s, e).records
    ensures var t, sid := Next(s, e), s.records[token];
            sid !in t.named ==> IsLast(LastNext(s, e, last), sid, token) || exists c :: InHand(t, c, sid, token)
  {
    var sid := s.records[token];
    assert RecordLeft(s, last, read, token);
    if sid !in Next(s, e).named {
      if sid in s.named {
        OrphanKept(s, last, read, e, token);
      } else if !IsLast(last, sid, token) {
        var c :| InHand(s, c, sid, token);
        HandKept(s, e, c, sid, token);
      }
    }
  }

  lemma RecordStaysDoomed(s: State, last: map<SessionId, Token>, read: set<Token>, e: Step, token: Token)
    requires Inv(s) && Left(s, last, read) && Enabled(s, e) && token in s.records && token in Next(s, e).records
    ensures token !in Next(s, e).lapsed
    ensures token in ReadNext(s, e, read) ==> exists c :: WillDrop(Next(s, e), c, token)
  {
    assert RecordLeft(s, last, read, token);
    if token in read {
      var c :| WillDrop(s, c, token);
      DropKept(s, e, c, token);
    } else if token in ReadNext(s, e, read) {
      assert WillDrop(Next(s, e), e.c, token);
    }
  }

  lemma LastsLeft(s: State, last: map<SessionId, Token>, read: set<Token>, e: Step, sid: SessionId)
    requires Inv(s) && Left(s, last, read) && Enabled(s, e) && sid in LastNext(s, e, last)
    ensures LastLeft(Next(s, e), LastNext(s, e, last), ReadNext(s, e, read), sid)
  {
    if LastNext(s, e, last) != last {
      LastsLeftByNaming(s, last, read, e, sid);
    } else {
      LastsLeftOtherwise(s, last, read, e, sid);
    }
  }

  lemma LastsLeftByNaming(s: State, last: map<SessionId, Token>, read: set<Token>, e: Step, sid: SessionId)
    requires Inv(s) && Left(s, last, read) && Enabled(s, e) && sid in LastNext(s, e, last)
    requires e.CreateSession? || (e.Install? && s.calls[e.c].sid in s.named)
    ensures LastLeft(Next(s, e), LastNext(s, e, last), read, sid)
  {
    assert CallOk(s, e.c);
    if sid in last {
      assert LastLeft(s, last, read, sid);
    }
  }

  lemma LastsLeftOtherwise(s: State, last: map<SessionId, Token>, read: set<Token>, e: Step, sid: SessionId)
    requires Inv(s) && Left(s, last, read) && Enabled(s, e) && sid in last && LastNext(s, e, last) == last
    ensures LastLeft(Next(s, e), last, ReadNext(s, e, read), sid)
  {
    assert LastLeft(s, last, read, sid);
    if e.DeleteToken? {
      assert CallLeft(s, last, read, e.c) && CallOk(s, e.c);
    }
    LastStep(s, last, read, e);
  }

  lemma StepLeft(s: State, last: map<SessionId, Token>, read: set<Token>, e: Step)
    requires Inv(s) && Left(s, last, read) && Enabled(s, e)
    ensures Left(Next(s, e), last + Next(s, e).named, ReadNext(s, e, read))
  {
    var t := Next(s, e);
    var last', read' := LastNext(s, e, last), ReadNext(s, e, read);
    LastStep(s, last, read, e);
    forall c | c in t.calls ensures CallLeft(t, last', read', c) {
      CallsLeft(s, last, read, e, c);
    }
    forall k | k in t.records ensures RecordLeft(t, last', read', k) {
      RecordsLeft(s, last, read, e, k);
    }
    forall sid | sid in last' ensures LastLeft(t, last', read', sid) {
      LastsLeft(s, last, read, e, sid);
    }
    BoundGrows(s, e);
  }

  lemma BoundGrows(s: State, e: Step)
    requires Inv(s)
    ensures var t := Next(s, e);
            && (forall k :: k in s.bound ==> k in t.bound)
            && (forall k :: k in t.lapsed ==> k in s.lapsed || k in s.bound)
  {
  }

  lemma NothingChanges(s: State, last: map<SessionId, Token>, read: set<Token>)
    requires Left(s, last, read)
    ensures Left(s, last + s.named, read)
  {
    forall sid | sid in s.named ensures sid in last && last[sid] == s.named[sid] {
      assert LastLeft(s, last, read, sid);
    }
    assert last + s.named == last;
  }

  lemma {:induction false} RunLeft(run: seq<Step>)
    ensures Left(After(run), LastNamed(run), TerminationRead(run))
  {
    if run == [] {
    } else {
      var front, e := run[..|run| - 1], run[|run| - 1];
      RunLeft(front);
      RunKeeps(front);
      if Enabled(After(front), e) {
        StepLeft(After(front), LastNamed(front), TerminationRead(front), e);
      } else {
        NothingChanges(After(front), LastNamed(front), TerminationRead(front));
      }
    }
  }

  // ---- the law ----------------------------------------------------------------------------------------

  /**
   Once a session is gone and nothing is in flight on it, a token validates for it if and only if it
   is the one the session named last, it has not expired on its own, and no termination ever found the
   session naming it. So what outlives a session is the token it named when it expired, or when a
   termination that had read an earlier token deleted it.
   */
  lemma EndedTokens(run: seq<Step>, sid: SessionId, token: Token)
    requires sid !in After(run).named && Quiet(After(run), sid)
    ensures Validates(After(run), sid, token) <==>
            IsLast(LastNamed(run), sid, token) && token !in After(run).lapsed && token !in TerminationRead(run)
  {
    var s := After(run);
    RunLeft(run);
    RunKeeps(run);
    if Validates(s, sid, token) {
      ValidatingIsLast(s, LastNamed(run), TerminationRead(run), sid, token);
    } else if IsLast(LastNamed(run), sid, token) {
      assert LastLeft(s, LastNamed(run), TerminationRead(run), sid);
    }
  }

  lemma ValidatingIsLast(s: State, last: map<SessionId, Token>, read: set<Token>, sid: SessionId, token: Token)
    requires Inv(s) && Left(s, last, read) && sid !in s.named && Quiet(s, sid) && Validates(s, sid, token)
    ensures IsLast(last, sid, token) && token !in s.lapsed && token !in read
  {
    assert RecordLeft(s, last, read, token);
    assert forall c :: WillDrop(s, c, token) ==> CallOk(s, c);
  }

  /** In particular, once a termination has read the token a session names last, nothing validates for it. */
  lemma TerminationLeavesNothing(run: seq<Step>, sid: SessionId, token: Token)
    requires sid !in After(run).named && Quiet(After(run), sid)
    requires sid in LastNamed(run) && LastNamed(run)[sid] in TerminationRead(run)
    ensures !Validates(After(run), sid, token)
  {
    EndedTokens(run, sid, token);
  }

  // ---- calls with nothing in between ------------------------------------------------------------------

  lemma Grown(run: seq<Step>, e: Step)
    ensures After(run + [e]) == Next(After(run), e)
  {
    var all := run + [e];
    assert all[..|all| - 1] == run;
  }

  /** A login gives the session a token that validates, and touches no other session. */
  lemma LoginRunToEnd(run: seq<Step>, c: CallId, sid: SessionId, token: Token)
    requires Enabled(After(run), CreateToken(c, sid, token))
    ensures var s, t := After(run), After(run + [CreateToken(c, sid, token)] + [CreateSession(c)]);
            t.named == s.named[sid := token] && Validates(t, sid, token) && t.calls == s.calls
  {
    Grown(run, CreateToken(c, sid, token));
    Grown(run + [CreateToken(c, sid, token)], CreateSession(c));
  }

  /** A rotation leaves the session naming the new token, which validates, and the old one gone. */
  lemma RotationRunToEnd(run: seq<Step>, c: CallId, sid: SessionId, token: Token)
    requires var s := After(run); c !in s.calls && sid in s.named && token !in s.bound
    ensures var s := After(run);
            var t := After(run + [ReadToRotate(c, sid)] + [IssueToken(c, token)] + [Install(c)] + [DeleteToken(c)]);
            && t.named == s.named[sid := token] && Validates(t, sid, token) && s.named[sid] !in t.records
            && t.calls == s.calls
  {
    BoundStays(run);
    TwoMore(run, ReadToRotate(c, sid), IssueToken(c, token));
    TwoMore(run + [ReadToRotate(c, sid)] + [IssueToken(c, token)], Install(c), DeleteToken(c));
    Issuing(After(run), c, sid, token);
    Installing(Next(Next(After(run), ReadToRotate(c, sid)), IssueToken(c, token)), c, sid, token);
  }

  /** Two steps with nothing in between. */
  lemma TwoMore(run: seq<Step>, a: Step, b: Step)
    ensures After(run + [a] + [b]) == Next(Next(After(run), a), b)
  {
    Grown(run, a);
    Grown(run + [a], b);
  }

  lemma BoundStays(run: seq<Step>)
    ensures var s := After(run); forall sid :: sid in s.named ==> s.named[sid] in s.bound
  {
    RunKeeps(run);
  }

  lemma Issuing(s: State, c: CallId, sid: SessionId, token: Token)
    requires c !in s.calls && sid in s.named && token !in s.bound
    ensures var t := Next(Next(s, ReadToRotate(c, sid)), IssueToken(c, token));
            && t.calls == s.calls[c := Issued(sid, token)] && t.named == s.named
            && token in t.records && t.records[token] == sid
  {
  }

  lemma Installing(s: State, c: CallId, sid: SessionId, token: Token)
    requires c in s.calls && s.calls[c] == Issued(sid, token) && sid in s.named && s.named[sid] != token
    requires Validates(s, sid, token)
    ensures var t := Next(Next(s, Install(c)), DeleteToken(c));
            && t.named == s.named[sid := token] && Validates(t, sid, token) && s.named[sid] !in t.records
            && t.calls == s.calls - {c}
  {
    var t := Next(s, Install(c));
    assert c in t.calls && t.calls[c] == Replacing(sid, s.named[sid]) && t.records == s.records;
  }

  /** A termination leaves neither the session nor its token. */
  lemma TerminationRunToEnd(run: seq<Step>, c: CallId, sid: SessionId)
    requires var s := After(run); c !in s.calls && sid in s.named
    ensures var s, t := After(run), After(run + [ReadToTerminate(c, sid)] + [DeleteSession(c)] + [DeleteToken(c)]);
            t.named == s.named - {sid} && t.records == s.records - {s.named[sid]} && c !in t.calls
  {
    TwoMore(run, ReadToTerminate(c, sid), DeleteSession(c));
    Grown(run + [ReadToTerminate(c, sid)] + [DeleteSession(c)], DeleteToken(c));
    Ending(After(run), c, sid);
  }

  lemma Ending(s: State, c: CallId, sid: SessionId)
    requires c !in s.calls && sid in s.named
    ensures var t := Next(Next(Next(s, ReadToTerminate(c, sid)), DeleteSession(c)), DeleteToken(c));
            t.named == s.named - {sid} && t.records == s.records - {s.named[sid]} && c !in t.calls
  {
    var t := Next(s, ReadToTerminate(c, sid));
    assert t.calls == s.calls[c := Terminating(sid, s.named[sid])] && t.named == s.named;
    Deleting(t, c, sid, s.named[sid]);
  }

  /**
   A rotation that runs between a termination's read of the session and its deletes outlives it: the new
   token validates for the session that is gone, with nothing left in flight to delete it.
   */
  lemma RotationOutlivesTermination(run: seq<Step>, c: CallId, d: CallId, sid: SessionId, token: Token)
    requires var s := After(run); c !in s.calls && d !in s.calls && c != d && sid in s.named && token !in s.bound
    ensures var read := run + [ReadToTerminate(c, sid)];
            var rotated := read + [ReadToRotate(d, sid)] + [IssueToken(d, token)] + [Install(d)] + [DeleteToken(d)];
            var t := After(rotated + [DeleteSession(c)] + [DeleteToken(c)]);
            sid !in t.named && Validates(t, sid, token) && t.calls == After(run).calls
  {
    var read := run + [ReadToTerminate(c, sid)];
    var rotated := read + [ReadToRotate(d, sid)] + [IssueToken(d, token)] + [Install(d)] + [DeleteToken(d)];
    BoundStays(run);
    Grown(run, ReadToTerminate(c, sid));
    RotationRunToEnd(read, d, sid, token);
    TwoMore(rotated, DeleteSession(c), DeleteToken(c));
    Deleting(After(rotated), c, sid, After(run).named[sid]);
  }

  lemma Deleting(s: State, c: CallId, sid: SessionId, read: Token)
    requires c in s.calls && s.calls[c] == Terminating(sid, read)
    ensures var t := Next(Next(s, DeleteSession(c)), DeleteToken(c));
            t.named == s.named - {sid} && t.records == s.records - {read} && t.calls == s.calls - {c}
  {
    var t := Next(s, DeleteSession(c));
    assert c in t.calls && t.calls[c] == Dropping(sid, read);
  }
}
