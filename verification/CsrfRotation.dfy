/**
 CSRF tokens and the sessions that name them, under any interleaving of logins, rotations and
 terminations. A session record names one token; a token record names one session. Creating
 a session writes its token and then the session; rotating reads the session, writes a new
 token, installs it on the session by compare-and-set and deletes the token it replaced;
 terminating reads the session, deletes it and deletes the token it was seen to name. Every
 store operation is one atomic step, session and token ids are fresh, and records may expire
 at any point.
 */
module CsrfRotation {

  type SessionId = nat
  type Token = nat
  type CallId = nat

  datatype Call =
    | Creating(sid: SessionId, token: Token)     // token written, session to come
    | Rotating(sid: SessionId)                   // session seen, new token to come
    | Issued(sid: SessionId, token: Token)       // new token written, to be installed
    | Replacing(sid: SessionId, token: Token)    // installed, replaced token to be deleted
    | Discarding(sid: SessionId, token: Token)   // session gone, new token to be deleted
    | Terminating(sid: SessionId, token: Token)  // session seen, to be deleted
    | Dropping(sid: SessionId, token: Token)     // session deleted, its token to be deleted

  /**
   `named` is each live session's token, `records` the live token records. `bound` (every token
   ever written and its session), `known` (every session id ever used) and `lapsed` (tokens that
   expired) are history variables.
   */
  datatype State = State(
    named: map<SessionId, Token>,
    records: map<Token, SessionId>,
    calls: map<CallId, Call>,
    bound: map<Token, SessionId>,
    known: set<SessionId>,
    lapsed: set<Token>)

  datatype Step =
    | CreateToken(c: CallId, sid: SessionId, token: Token)
    | CreateSession(c: CallId)
    | ReadToRotate(c: CallId, sid: SessionId)
    | IssueToken(c: CallId, token: Token)
    | Install(c: CallId)
    | DeleteToken(c: CallId)
    | ReadToTerminate(c: CallId, sid: SessionId)
    | DeleteSession(c: CallId)
    | ExpireSession(sid: SessionId)
    | ExpireToken(token: Token)

  const INIT := State(map[], map[], map[], map[], {}, {})

  predicate Enabled(s: State, e: Step) {
    match e
    case CreateToken(c, sid, token) => c !in s.calls && sid !in s.known && token !in s.bound
    case CreateSession(c) => c in s.calls && s.calls[c].Creating?
    case ReadToRotate(c, sid) => c !in s.calls && sid in s.named
    case IssueToken(c, token) => c in s.calls && s.calls[c].Rotating? && token !in s.bound
    case Install(c) => c in s.calls && s.calls[c].Issued?
    case DeleteToken(c) => c in s.calls && (s.calls[c].Replacing? || s.calls[c].Discarding? || s.calls[c].Dropping?)
    case ReadToTerminate(c, sid) => c !in s.calls && sid in s.named
    case DeleteSession(c) => c in s.calls && s.calls[c].Terminating?
    case ExpireSession(sid) => sid in s.named
    case ExpireToken(token) => token in s.records
  }

  function Next(s: State, e: Step): State {
    if !Enabled(s, e) then s else
    match e
    case CreateToken(c, sid, token) =>
      s.(records := s.records[token := sid], bound := s.bound[token := sid], known := s.known + {sid},
         calls := s.calls[c := Creating(sid, token)])
    case CreateSession(c) =>
      s.(named := s.named[s.calls[c].sid := s.calls[c].token], calls := s.calls - {c})
    case ReadToRotate(c, sid) => s.(calls := s.calls[c := Rotating(sid)])
    case IssueToken(c, token) =>
      var sid := s.calls[c].sid;
      s.(records := s.records[token := sid], bound := s.bound[token := sid],
         calls := s.calls[c := Issued(sid, token)])
    case Install(c) =>
      var Issued(sid, token) := s.calls[c];
      if sid in s.named
      then s.(named := s.named[sid := token], calls := s.calls[c := Replacing(sid, s.named[sid])])
      else s.(calls := s.calls[c := Discarding(sid, token)])
    case DeleteToken(c) =>
      s.(records := s.records - {s.calls[c].token}, calls := s.calls - {c})
    case ReadToTerminate(c, sid) => s.(calls := s.calls[c := Terminating(sid, s.named[sid])])
    case DeleteSession(c) =>
      var Terminating(sid, token) := s.calls[c];
      s.(named := s.named - {sid}, calls := s.calls[c := Dropping(sid, token)])
    case ExpireSession(sid) => s.(named := s.named - {sid})
    case ExpireToken(token) => s.(records := s.records - {token}, lapsed := s.lapsed + {token})
  }

  function After(run: seq<Step>): State {
    if run == [] then INIT else Next(After(run[..|run| - 1]), run[|run| - 1])
  }

  /** `validate_csrf_token`: the record is there and names the session. */
  predicate Validates(s: State, sid: SessionId, token: Token) {
    token in s.records && s.records[token] == sid
  }

  // ---- the invariant ---------------------------------------------------------------------

  /** The token is the new one of a rotation not yet installed, or the old one not yet deleted. */
  predicate InFlight(s: State, sid: SessionId, token: Token) {
    exists c :: c in s.calls && (s.calls[c] == Issued(sid, token) || s.calls[c] == Replacing(sid, token))
  }

  /** A creation owns its session id: nothing else exists for it yet. */
  ghost predicate CreationOwns(s: State, c: CallId)
    requires c in s.calls && s.calls[c].Creating?
  {
    var Creating(sid, token) := s.calls[c];
    && sid !in s.named
    && (forall t :: t in s.bound && s.bound[t] == sid ==> t == token)
    && (forall d :: d in s.calls && d != c ==> s.calls[d].sid != sid)
    && (token in s.records || token in s.lapsed)
  }

  ghost predicate CallOk(s: State, c: CallId)
    requires c in s.calls
  {
    var call := s.calls[c];
    && call.sid in s.known
    && (!call.Rotating? ==> call.token in s.bound && s.bound[call.token] == call.sid)
    && match call
       case Creating(_, _) => CreationOwns(s, c)
       case Rotating(_) => true
       case Issued(sid, token) =>
         (token in s.records || token in s.lapsed) &&
         (sid in s.named ==> s.named[sid] != token) &&
         (forall d :: d in s.calls && d != c && !s.calls[d].Rotating? ==> s.calls[d].token != token)
       case Replacing(sid, token) => sid in s.named ==> s.named[sid] != token
       case Discarding(sid, _) => sid !in s.named
       case Terminating(_, _) => true
       case Dropping(sid, _) => sid !in s.named
  }

  ghost predicate Inv(s: State) {
    && (forall t :: t in s.records ==> t in s.bound && s.bound[t] == s.records[t])
    && (forall t :: t in s.bound ==> s.bound[t] in s.known)
    && (forall sid :: sid in s.named ==>
          s.named[sid] in s.bound && s.bound[s.named[sid]] == sid &&
          (s.named[sid] in s.records || s.named[sid] in s.lapsed))
    && (forall c :: c in s.calls ==> CallOk(s, c))
    && (forall t :: t in s.records && s.records[t] in s.named ==>
          t == s.named[s.records[t]] || InFlight(s, s.records[t], t))
  }

  // ---- steps ------------------------------------------------------------------------------

  lemma TokensCarry(s: State, t: State)
    requires Inv(s)
    requires forall c :: c in s.calls && (s.calls[c].Issued? || s.calls[c].Replacing?) ==>
               c in t.calls && t.calls[c] == s.calls[c]
    requires t.records.Keys <= s.records.Keys && forall k :: k in t.records ==> t.records[k] == s.records[k]
    requires t.named.Keys <= s.named.Keys && forall k :: k in t.named ==> t.named[k] == s.named[k]
    ensures forall k :: k in t.records && t.records[k] in t.named ==>
              k == t.named[t.records[k]] || InFlight(t, t.records[k], k)
  {
    forall k | k in t.records && t.records[k] in t.named && k != t.named[t.records[k]]
      ensures InFlight(t, t.records[k], k)
    {
      assert InFlight(s, s.records[k], k);
    }
  }

  lemma CreateTokenKeeps(s: State, e: Step)
    requires Inv(s) && e.CreateToken? && Enabled(s, e)
    ensures Inv(Next(s, e))
  {
    var t := Next(s, e);
    forall d | d in t.calls ensures CallOk(t, d) {
      CreateTokenKeepsCall(s, e, d);
    }
    forall k | k in t.records && t.records[k] in t.named && k != t.named[t.records[k]]
      ensures InFlight(t, t.records[k], k)
    {
      assert k != e.token;
      assert InFlight(s, s.records[k], k);
      var d :| d in s.calls && (s.calls[d] == Issued(s.records[k], k) || s.calls[d] == Replacing(s.records[k], k));
      assert t.calls[d] == s.calls[d];
    }
  }

  lemma CreateTokenKeepsCall(s: State, e: Step, d: CallId)
    requires Inv(s) && e.CreateToken? && Enabled(s, e) && (d in s.calls || d == e.c)
    ensures d in Next(s, e).calls && CallOk(Next(s, e), d)
  {
    assert forall c :: c in s.calls ==> CallOk(s, c);
  }

  lemma CreateSessionKeeps(s: State, e: Step)
    requires Inv(s) && e.CreateSession? && Enabled(s, e)
    ensures Inv(Next(s, e))
  {
    var t := Next(s, e);
    var Creating(sid, token) := s.calls[e.c];
    assert CallOk(s, e.c);
    forall d | d in t.calls ensures CallOk(t, d) {
      assert CallOk(s, d);
    }
    forall k | k in t.records && t.records[k] in t.named && k != t.named[t.records[k]]
      ensures InFlight(t, t.records[k], k)
    {
      assert t.records[k] != sid;
      assert InFlight(s, s.records[k], k);
      var d :| d in s.calls && (s.calls[d] == Issued(s.records[k], k) || s.calls[d] == Replacing(s.records[k], k));
      assert t.calls[d] == s.calls[d];
    }
  }

  lemma ReadKeeps(s: State, e: Step)
    requires Inv(s) && (e.ReadToRotate? || e.ReadToTerminate?) && Enabled(s, e)
    ensures Inv(Next(s, e))
  {
    var t := Next(s, e);
    forall d | d in t.calls ensures CallOk(t, d) {
      if d != e.c { assert CallOk(s, d); }
    }
    TokensCarry(s, t);
  }

  lemma IssueKeeps(s: State, e: Step)
    requires Inv(s) && e.IssueToken? && Enabled(s, e)
    ensures Inv(Next(s, e))
  {
    var t := Next(s, e);
    assert CallOk(s, e.c);
    forall d | d in t.calls ensures CallOk(t, d) {
      assert CallOk(s, d);
    }
    forall k | k in t.records && t.records[k] in t.named && k != t.named[t.records[k]]
      ensures InFlight(t, t.records[k], k)
    {
      if k == e.token {
        assert t.calls[e.c] == Issued(t.records[k], k);
      } else {
        assert InFlight(s, s.records[k], k);
        var d :| d in s.calls && (s.calls[d] == Issued(s.records[k], k) || s.calls[d] == Replacing(s.records[k], k));
        assert t.calls[d] == s.calls[d];
      }
    }
  }

  lemma InstallKeeps(s: State, e: Step)
    requires Inv(s) && e.Install? && Enabled(s, e)
    ensures Inv(Next(s, e))
  {
    var t := Next(s, e);
    assert CallOk(s, e.c);
    forall d | d in t.calls ensures CallOk(t, d) {
      InstallKeepsCall(s, e, d);
    }
    forall k | k in t.records && t.records[k] in t.named && k != t.named[t.records[k]]
      ensures InFlight(t, t.records[k], k)
    {
      InstallKeepsToken(s, e, k);
    }
  }

  lemma InstallKeepsCall(s: State, e: Step, d: CallId)
    requires Inv(s) && e.Install? && Enabled(s, e) && d in s.calls
    ensures d in Next(s, e).calls && CallOk(Next(s, e), d)
  {
    assert CallOk(s, e.c) && CallOk(s, d);
  }

  lemma InstallKeepsToken(s: State, e: Step, k: Token)
    requires Inv(s) && e.Install? && Enabled(s, e)
    requires var t := Next(s, e); k in t.records && t.records[k] in t.named && k != t.named[t.records[k]]
    ensures InFlight(Next(s, e), s.records[k], k)
  {
    var t, sid := Next(s, e), s.calls[e.c].sid;
    assert CallOk(s, e.c);
    if t.records[k] == sid && k == s.named[sid] {
      assert t.calls[e.c] == Replacing(sid, k);
    } else {
      assert InFlight(s, s.records[k], k);
      var d :| d in s.calls && (s.calls[d] == Issued(s.records[k], k) || s.calls[d] == Replacing(s.records[k], k));
      assert d != e.c;
      assert t.calls[d] == s.calls[d];
    }
  }

  lemma DeleteTokenKeeps(s: State, e: Step)
    requires Inv(s) && e.DeleteToken? && Enabled(s, e)
    ensures Inv(Next(s, e))
  {
    var t := Next(s, e);
    assert CallOk(s, e.c);
    var gone := s.calls[e.c].token;
    forall d | d in t.calls ensures CallOk(t, d) {
      assert CallOk(s, d);
    }
    forall k | k in t.records && t.records[k] in t.named && k != t.named[t.records[k]]
      ensures InFlight(t, t.records[k], k)
    {
      assert InFlight(s, s.records[k], k);
      var d :| d in s.calls && (s.calls[d] == Issued(s.records[k], k) || s.calls[d] == Replacing(s.records[k], k));
      assert d != e.c;
      assert t.calls[d] == s.calls[d];
    }
  }

  lemma DeleteSessionKeeps(s: State, e: Step)
    requires Inv(s) && e.DeleteSession? && Enabled(s, e)
    ensures Inv(Next(s, e))
  {
    var t := Next(s, e);
    assert CallOk(s, e.c);
    forall d | d in t.calls ensures CallOk(t, d) {
      assert CallOk(s, d);
    }
    TokensCarry(s, t);
  }

  lemma ExpiryKeeps(s: State, e: Step)
    requires Inv(s) && (e.ExpireSession? || e.ExpireToken?) && Enabled(s, e)
    ensures Inv(Next(s, e))
  {
    var t := Next(s, e);
    forall d | d in t.calls ensures CallOk(t, d) {
      assert CallOk(s, d);
    }
    TokensCarry(s, t);
  }

  lemma {:induction false} RunKeeps(run: seq<Step>)
    ensures Inv(After(run))
  {
    if run == [] {
    } else {
      RunKeeps(run[..|run| - 1]);
      var s, e := After(run[..|run| - 1]), run[|run| - 1];
      if Enabled(s, e) {
        match e
        case CreateToken(_, _, _) => CreateTokenKeeps(s, e);
        case CreateSession(_) => CreateSessionKeeps(s, e);
        case ReadToRotate(_, _) => ReadKeeps(s, e);
        case IssueToken(_, _) => IssueKeeps(s, e);
        case Install(_) => InstallKeeps(s, e);
        case DeleteToken(_) => DeleteTokenKeeps(s, e);
        case ReadToTerminate(_, _) => ReadKeeps(s, e);
        case DeleteSession(_) => DeleteSessionKeeps(s, e);
        case ExpireSession(_) => ExpiryKeeps(s, e);
        case ExpireToken(_) => ExpiryKeeps(s, e);
      }
    }
  }

  // ---- main results ------------------------------------------------------------------------

  /** Every token that validates for a live session is its named one or belongs to a rotation in flight. */
  lemma ValidatesOnlyNamedOrInFlight(run: seq<Step>, sid: SessionId, token: Token)
    requires sid in After(run).named && Validates(After(run), sid, token)
    ensures token == After(run).named[sid] || InFlight(After(run), sid, token)
  {
    RunKeeps(run);
  }

  predicate Quiet(s: State, sid: SessionId) {
    forall c :: c in s.calls ==> s.calls[c].sid != sid
  }

  /**
   With nothing in flight on a live session, its named token validates, unless it expired on
   its own, and no other token does: a rotation leaves exactly one token behind.
   */
  lemma QuietSessionHasOneToken(run: seq<Step>, sid: SessionId, token: Token)
    requires sid in After(run).named && Quiet(After(run), sid)
    requires After(run).named[sid] !in After(run).lapsed
    ensures Validates(After(run), sid, token) <==> token == After(run).named[sid]
  {
    RunKeeps(run);
  }

  /** No step of any call deletes the token a live session names. */
  lemma NamedTokenIsNeverDeleted(run: seq<Step>, sid: SessionId)
    requires sid in After(run).named && After(run).named[sid] !in After(run).lapsed
    ensures Validates(After(run), sid, After(run).named[sid])
  {
    RunKeeps(run);
  }

  /** The session is gone and nothing is about to create it. */
  ghost predicate Gone(s: State, sid: SessionId) {
    sid in s.known && sid !in s.named && forall c :: c in s.calls && s.calls[c].Creating? ==> s.calls[c].sid != sid
  }

  lemma StepKeepsGone(s: State, e: Step, sid: SessionId)
    requires Gone(s, sid)
    ensures Gone(Next(s, e), sid)
  {
  }

  /** A session once gone never comes back; which tokens it leaves behind is `CsrfEnded`'s subject. */
  lemma {:induction false} GoneForGood(run: seq<Step>, more: seq<Step>, sid: SessionId)
    requires Gone(After(run), sid)
    ensures Gone(After(run + more), sid)
  {
    if more == [] {
      assert run + more == run;
    } else {
      var all := run + more;
      assert all[..|all| - 1] == run + more[..|more| - 1];
      GoneForGood(run, more[..|more| - 1], sid);
      StepKeepsGone(After(all[..|all| - 1]), all[|all| - 1], sid);
    }
  }
}
