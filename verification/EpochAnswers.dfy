/**
 What the calls on an account's credentials are answered, over every run and with any steps of
 other calls in between: who is issued what, under which version, and what a password change, a
 refresh, a challenge and an authenticator setup leave behind.
 */
module EpochAnswers {
  import opened Basics
  import opened Epoch

  function CallOf(s: State, c: CallId): Option<Call> { if c in s.calls then Some(s.calls[c]) else None }

  ghost predicate OfOthers(steps: seq<Step>, c: CallId) {
    forall i :: 0 <= i < |steps| ==> Caller(steps[i]) != Some(c)
  }

  lemma OneMore(run: seq<Step>, e: Step)
    ensures After(run + [e]) == Next(After(run), e)
  {
    Grown(run, e, After(run));
  }

  lemma OtherLeaves(s: State, e: Step, c: CallId)
    requires Caller(e) != Some(c)
    ensures CallOf(Next(s, e), c) == CallOf(s, c)
  {
  }

  lemma {:induction false} OthersLeave(run: seq<Step>, others: seq<Step>, c: CallId)
    requires OfOthers(others, c)
    ensures CallOf(After(run + others), c) == CallOf(After(run), c)
  {
    if others == [] {
      assert run + others == run;
    } else {
      var n := |others| - 1;
      OthersLeave(run, others[..n], c);
      OtherLeaves(After(run + others[..n]), others[n], c);
      assert run + others == (run + others[..n]) + [others[n]];
      OneMore(run + others[..n], others[n]);
    }
  }

  /** One step of a call and whatever comes before its next one. */
  lemma Stage(run: seq<Step>, e: Step, others: seq<Step>, c: CallId)
    requires OfOthers(others, c)
    ensures CallOf(After(run + [e] + others), c) == CallOf(Next(After(run), e), c)
  {
    OneMore(run, e);
    OthersLeave(run + [e], others, c);
  }

  /** The credential is of that kind and carries the account's current version. */
  predicate Good(s: State, id: CredId, kind: Kind) {
    id in s.creds && s.creds[id].kind == kind && s.creds[id].stamp.version == s.version
  }

  /** An unused id became a credential of that kind and version, and no other credential changed. */
  predicate Issued(s: State, t: State, id: CredId, kind: Kind, version: nat) {
    && id in t.creds && t.creds[id].kind == kind && t.creds[id].stamp.version == version
    && t.creds - {id} == s.creds - {id} && t.version == s.version
  }

  // ---- logging in, refreshing, answering a challenge --------------------------------------------------

  lemma IssueAnswered(run: seq<Step>, c: CallId, id: CredId, kind: Kind)
    requires id !in After(run).used
    ensures var s, t, call := After(run), After(run + [Issue(c, id, kind)]), CallOf(After(run), c);
            if call.Some? && (call.value.Issuing? || (call.value.Refreshing? && kind == Access))
            then Issued(s, t, id, kind, call.value.held.version)
            else t.creds == s.creds && t.version == s.version
  {
    OneMore(run, Issue(c, id, kind));
  }

  /** A login is issued what it asks for, of the version its password was checked under. */
  lemma LoginAnswered(run: seq<Step>, c: CallId, others: seq<Step>, id: CredId, kind: Kind)
    requires c !in After(run).calls && OfOthers(others, c)
    requires id !in After(run + [CheckPassword(c)] + others).used
    ensures var checked := run + [CheckPassword(c)] + others;
            Issued(After(checked), After(checked + [Issue(c, id, kind)]), id, kind, After(run).version)
  {
    Stage(run, CheckPassword(c), others, c);
    IssueAnswered(run + [CheckPassword(c)] + others, c, id, kind);
  }

  /**
   A refresh is issued an access credential, and that alone, exactly if the token it presented is a refresh
   token of the current version; what it gets carries the token's version.
   */
  lemma RefreshAnswered(run: seq<Step>, c: CallId, token: CredId, others: seq<Step>, id: CredId, kind: Kind)
    requires c !in After(run).calls && OfOthers(others, c)
    requires id !in After(run + [UseRefresh(c, token)] + others).used
    ensures var used := run + [UseRefresh(c, token)] + others;
            var s, t := After(used), After(used + [Issue(c, id, kind)]);
            if Good(After(run), token, Refresh) && kind == Access
            then Issued(s, t, id, Access, After(run).version)
            else t.creds == s.creds && t.version == s.version
  {
    Stage(run, UseRefresh(c, token), others, c);
    IssueAnswered(run + [UseRefresh(c, token)] + others, c, id, kind);
  }

  /** A challenge answered by a call that checked it, and taken by it later. */
  function Answered(run: seq<Step>, c: CallId, challenge: CredId, a: seq<Step>): seq<Step> {
    run + [CheckChallenge(c, challenge)] + a
  }

  predicate MayIssue(s: State, c: CallId, version: nat) {
    CallOf(s, c).Some? && CallOf(s, c).value.Issuing? && CallOf(s, c).value.held.version == version
  }

  /**
   A challenge is taken exactly if it was one of the current version when checked and is still there, and
   is then gone; only then can its call be issued anything.
   */
  lemma ChallengeAnswered(run: seq<Step>, c: CallId, challenge: CredId, a: seq<Step>)
    requires c !in After(run).calls && OfOthers(a, c)
    ensures var answered := Answered(run, c, challenge, a);
            var s, t := After(answered), After(answered + [TakeChallenge(c)]);
            if Good(After(run), challenge, Challenge) && challenge in s.creds
            then t.creds == s.creds - {challenge} && MayIssue(t, c, After(run).version)
            else t.creds == s.creds && (CallOf(t, c).None? || CallOf(t, c).value.Answering?)
  {
    Stage(run, CheckChallenge(c, challenge), a, c);
    OneMore(Answered(run, c, challenge, a), TakeChallenge(c));
  }

  /** What the call then asks for is issued, of the version the challenge was checked under. */
  lemma AnswerIssues(run: seq<Step>, c: CallId, challenge: CredId, a: seq<Step>, b: seq<Step>, id: CredId, kind: Kind)
    requires c !in After(run).calls && OfOthers(a, c) && OfOthers(b, c)
    requires id !in After(Answered(run, c, challenge, a) + [TakeChallenge(c)] + b).used
    ensures var answered := Answered(run, c, challenge, a);
            var taken := answered + [TakeChallenge(c)] + b;
            var s, t := After(taken), After(taken + [Issue(c, id, kind)]);
            if Good(After(run), challenge, Challenge) && challenge in After(answered).creds
            then Issued(s, t, id, kind, After(run).version)
            else t.creds == s.creds
  {
    var answered := Answered(run, c, challenge, a);
    ChallengeAnswered(run, c, challenge, a);
    OthersLeave(answered + [TakeChallenge(c)], b, c);
    IssueAnswered(answered + [TakeChallenge(c)] + b, c, id, kind);
  }

  /** A call that writes the row and reads it again issues under the version it then finds. */
  lemma RereadAnswered(run: seq<Step>, c: CallId)
    requires var call := CallOf(After(run), c); call.Some? && (call.value.Issuing? || call.value.Answering?)
    ensures var call := CallOf(After(run + [Reread(c)]), c);
            && call.Some? && (call.value.Issuing? || call.value.Answering?)
            && call.value.held.version == After(run).version
  {
    OneMore(run, Reread(c));
  }

  /** Right after a reset or an OAuth claim no credential there is passes. */
  lemma ResetEvicts(run: seq<Step>, id: CredId)
    ensures !Accepts(After(run + [ResetOrClaim]), id)
    ensures After(run + [ResetOrClaim]).creds == After(run).creds
  {
    if id in After(run).creds {
      StampNoNewer(run, id);
    }
    ResetActs(After(run), id);
    OneMore(run, ResetOrClaim);
  }

  lemma ResetActs(s: State, id: CredId)
    requires id in s.creds ==> s.creds[id].stamp.version <= s.version
    ensures !Accepts(Next(s, ResetOrClaim), id) && Next(s, ResetOrClaim).creds == s.creds
  {
  }

  lemma StampNoNewer(run: seq<Step>, id: CredId)
    requires id in After(run).creds
    ensures After(run).creds[id].stamp.version <= After(run).version
  {
    RunKeeps(run);
    assert CredOk(After(run), After(run).creds[id]);
  }

  // ---- every credential was earned -----------------------------------------------------------------------

  /** The step at `i` admitted call `c`: a password checked, or a good challenge, or a good refresh token. */
  ghost predicate Admits(run: seq<Step>, i: nat, c: CallId, refreshing: bool) {
    i < |run| &&
    match run[i]
    case CheckPassword(d) => d == c && !refreshing
    case CheckChallenge(d, challenge) => d == c && !refreshing && Good(After(run[..i]), challenge, Challenge)
    case UseRefresh(d, token) => d == c && refreshing && Good(After(run[..i]), token, Refresh)
    case _ => false
  }

  /** Whoever may issue was admitted by such a step. */
  lemma {:induction false} AdmittedBy(run: seq<Step>, c: CallId) returns (i: nat)
    requires var call := CallOf(After(run), c);
             call.Some? && (call.value.Issuing? || call.value.Answering? || call.value.Refreshing?)
    ensures Admits(run, i, c, CallOf(After(run), c).value.Refreshing?)
  {
    var front, last := run[..|run| - 1], run[|run| - 1];
    Last(run);
    CallChanges(After(front), last, c);
    if CallOf(After(front), c) == CallOf(After(run), c) || last.Reread? || last.TakeChallenge? {
      i := AdmittedBy(front, c);
      assert front[..i] == run[..i];
    } else {
      i := |front|;
      AdmissionIsGood(After(front), last, c);
    }
  }

  lemma AdmissionIsGood(s: State, e: Step, c: CallId)
    requires CallOf(Next(s, e), c) != CallOf(s, c)
    ensures e.UseRefresh? ==> e.c == c && Good(s, e.token, Refresh)
    ensures e.CheckChallenge? ==> e.c == c && Good(s, e.challenge, Challenge)
    ensures e.CheckPassword? ==> e.c == c
  {
  }

  /**
   Every credential there is was issued in the run, as the kind it is, to a call that had checked a password,
   or a challenge that was good then, or for an access credential a refresh token that was good then.
   */
  lemma {:induction false} IssuedBy(run: seq<Step>, id: CredId) returns (i: nat, k: nat)
    requires id in After(run).creds
    ensures i < k < |run| && run[k].Issue? && run[k].id == id && run[k].kind == After(run).creds[id].kind
    ensures Admits(run, i, run[k].c, false) || (Admits(run, i, run[k].c, true) && run[k].kind == Access)
  {
    var front, last := run[..|run| - 1], run[|run| - 1];
    var s := After(front);
    Last(run);
    CredsAreUsed(front, id);
    CredKind(s, last, id);
    if id in s.creds {
      i, k := IssuedBy(front, id);
    } else {
      k := |front|;
      i := AdmittedBy(front, last.c);
    }
    assert front[..i] == run[..i];
  }

  lemma CredsAreUsed(run: seq<Step>, id: CredId)
    ensures id in After(run).creds ==> id in After(run).used
  {
    RunKeeps(run);
  }

  lemma CredKind(s: State, e: Step, id: CredId)
    requires id in Next(s, e).creds && (id in s.creds ==> id in s.used)
    ensures if id in s.creds then Next(s, e).creds[id].kind == s.creds[id].kind
            else e.Issue? && e.id == id && Enabled(s, e) && Next(s, e).creds[id].kind == e.kind
  {
  }

  // ---- changing the password, setting up an authenticator ---------------------------------------------

  /** A password change that has begun, has bumped, and has read the row again, each at any time later. */
  function Begun(run: seq<Step>, c: CallId, principal: CredId, a: seq<Step>): seq<Step> {
    run + [StartChange(c, principal)] + a
  }

  function BumpedRun(run: seq<Step>, c: CallId, principal: CredId, a: seq<Step>, b: seq<Step>): seq<Step> {
    Begun(run, c, principal, a) + [BumpForChange(c)] + b
  }

  /** What each step of a change finds and leaves. */
  lemma StartActs(s: State, c: CallId, principal: CredId)
    requires c !in s.calls
    ensures CallOf(Next(s, StartChange(c, principal)), c) ==
            if Accepts(s, principal) then Some(Changing(principal)) else None
  {
  }

  lemma BumpActs(s: State, c: CallId, begun: Option<CredId>)
    requires CallOf(s, c) == if begun.Some? then Some(Changing(begun.value)) else None
    ensures var t := Next(s, BumpForChange(c));
            && t.version == s.version + (if begun.Some? then 1 else 0) && t.creds == s.creds
            && CallOf(t, c) == if begun.Some? then Some(Bumped(begun.value)) else None
  {
  }

  lemma ReadActs(s: State, c: CallId, bumped: Option<CredId>)
    requires CallOf(s, c) == if bumped.Some? then Some(Bumped(bumped.value)) else None
    ensures CallOf(Next(s, ReadVersion(c)), c) ==
            if bumped.Some? then Some(Rebinding(bumped.value, Here(s))) else None
  {
  }

  lemma RebindActs(s: State, c: CallId, bumped: Option<CredId>, held: Read)
    requires CallOf(s, c) == if bumped.Some? then Some(Rebinding(bumped.value, held)) else None
    ensures var t := Next(s, Rebind(c));
            if bumped.Some? && bumped.value in s.creds && s.creds[bumped.value].kind == Session
            then Issued(s, t, bumped.value, Session, held.version)
            else t.creds == s.creds && t.version == s.version
  {
  }

  function Begins(s: State, principal: CredId): Option<CredId> {
    if Accepts(s, principal) then Some(principal) else None
  }

  /** A change raises the version by one exactly if its credential was good when it began. */
  lemma ChangeBumps(run: seq<Step>, c: CallId, principal: CredId, a: seq<Step>, b: seq<Step>)
    requires c !in After(run).calls && OfOthers(a, c) && OfOthers(b, c)
    ensures var s, t := After(Begun(run, c, principal, a)), After(Begun(run, c, principal, a) + [BumpForChange(c)]);
            && t.version == s.version + (if Accepts(After(run), principal) then 1 else 0) && t.creds == s.creds
            && CallOf(After(BumpedRun(run, c, principal, a, b)), c) ==
               if Accepts(After(run), principal) then Some(Bumped(principal)) else None
  {
    var begun := Begun(run, c, principal, a);
    StartActs(After(run), c, principal);
    Stage(run, StartChange(c, principal), a, c);
    BumpActs(After(begun), c, Begins(After(run), principal));
    OneMore(begun, BumpForChange(c));
    OthersLeave(begun + [BumpForChange(c)], b, c);
  }

  /**
   Its last step gives the caller's own credential, if that is a session and still there, the version the
   change read after its bump, and touches no other credential.
   */
  lemma ChangeRebinds(run: seq<Step>, c: CallId, principal: CredId, a: seq<Step>, b: seq<Step>, d: seq<Step>)
    requires c !in After(run).calls && OfOthers(a, c) && OfOthers(b, c) && OfOthers(d, c)
    ensures var bumped := BumpedRun(run, c, principal, a, b);
            var reread := bumped + [ReadVersion(c)] + d;
            var s, t := After(reread), After(reread + [Rebind(c)]);
            if Accepts(After(run), principal) && principal in s.creds && s.creds[principal].kind == Session
            then Issued(s, t, principal, Session, After(bumped).version)
            else t.creds == s.creds && t.version == s.version
  {
    var bumped := BumpedRun(run, c, principal, a, b);
    var reread := bumped + [ReadVersion(c)] + d;
    ChangeBumps(run, c, principal, a, b);
    ReadActs(After(bumped), c, Begins(After(run), principal));
    Stage(bumped, ReadVersion(c), d, c);
    RebindActs(After(reread), c, Begins(After(run), principal), Here(After(bumped)));
    OneMore(reread, Rebind(c));
  }

  lemma BeginActs(s: State, c: CallId, principal: CredId)
    requires c !in s.calls
    ensures CallOf(Next(s, BeginSetup(c, principal)), c) ==
            if Accepts(s, principal) then Some(SettingUp(Here(s))) else None
  {
  }

  lemma StoreActs(s: State, c: CallId, held: Option<Read>)
    requires CallOf(s, c) == if held.Some? then Some(SettingUp(held.value)) else None
    ensures var t := Next(s, StoreSecret(c));
            if held.Some? then t.pending == held && t.enrolled.None?
            else t.pending == s.pending && t.enrolled == s.enrolled
  {
  }

  /** A setup stores its secret exactly if its credential was good when it began, bound to the version of then. */
  lemma SetupAnswered(run: seq<Step>, c: CallId, principal: CredId, others: seq<Step>)
    requires c !in After(run).calls && OfOthers(others, c)
    ensures var begun := run + [BeginSetup(c, principal)] + others;
            var s, t := After(begun), After(begun + [StoreSecret(c)]);
            if Accepts(After(run), principal)
            then t.enrolled.None? && t.pending.Some? && t.pending.value.version == After(run).version
            else t.pending == s.pending && t.enrolled == s.enrolled
  {
    var s := After(run);
    BeginActs(s, c, principal);
    Stage(run, BeginSetup(c, principal), others, c);
    var held := if Accepts(s, principal) then Some(Here(s)) else None;
    StoreActs(After(run + [BeginSetup(c, principal)] + others), c, held);
    OneMore(run + [BeginSetup(c, principal)] + others, StoreSecret(c));
  }

  lemma ConfirmActs(s: State, c: CallId, held: Option<Read>, at: nat)
    requires CallOf(s, c) == if held.Some? then Some(Confirming(held.value, at)) else None
    ensures var t := Next(s, ConfirmSecret(c));
            if held.Some? && s.enrolled.None?
            then t.enrolled.Some? && t.enrolled.value.held == held.value && t.pending.None?
            else t.enrolled == s.enrolled && t.pending == s.pending
  {
  }

  lemma CheckActs(s: State, c: CallId)
    requires c !in s.calls
    ensures CallOf(Next(s, CheckSecret(c)), c) ==
            if AcceptsSecret(s) then Some(Confirming(s.pending.value, Now(s))) else None
  {
  }

  /** A pending secret is confirmed exactly if it was good when checked and none is confirmed by then. */
  lemma ConfirmAnswered(run: seq<Step>, c: CallId, others: seq<Step>)
    requires c !in After(run).calls && OfOthers(others, c)
    ensures var checked := run + [CheckSecret(c)] + others;
            var s, t := After(checked), After(checked + [ConfirmSecret(c)]);
            if AcceptsSecret(After(run)) && s.enrolled.None?
            then t.enrolled.Some? && t.enrolled.value.held == After(run).pending.value && t.pending.None?
            else t.enrolled == s.enrolled && t.pending == s.pending
  {
    var s := After(run);
    CheckActs(s, c);
    Stage(run, CheckSecret(c), others, c);
    ConfirmActs(After(run + [CheckSecret(c)] + others), c, if AcceptsSecret(s) then s.pending else None, Now(s));
    OneMore(run + [CheckSecret(c)] + others, ConfirmSecret(c));
  }
}
