/**
 The credential epoch of one account. `token_version` only ever grows; access tokens, refresh
 tokens, version-bound sessions, MFA challenges and a pending authenticator secret each carry
 the version they were stamped with and are accepted only while it is the current one.

 Issuing is never one step. A login checks the password on a row it read, and issues from that
 row; a login that rehashes or enrols writes the row and reads it again in between. Answering a
 challenge checks the challenge's version against the row, writes the row and reads it again,
 takes the challenge, and issues from the row read last. Confirming an authenticator checks the
 pending secret's version against the row, claims a code, and writes the secret it holds if none is
 confirmed. A password change bumps the version, reads the row again, and rebinds the caller's own
 session to the version it read; a reset and an OAuth claim bump it. Anything may happen between two
 steps, and any credential may be discarded.
 */
module Epoch {
  import opened Basics

  type CredId = nat
  type CallId = nat

  datatype Kind = Access | Refresh | Session | Challenge

  /**
   Where a version came from, history beside the version itself: the step `at` that first read it
   off the row, and the step `checked` at which the reading call had passed its check of the
   password or the challenge.
   */
  datatype Read = Read(version: nat, checked: nat, at: nat)

  /**
   `stamp.version` is what the credential carries. The rest is history: the step of the password
   check at the root of it, and the password change, if any, that rebound it.
   */
  datatype Cred = Cred(kind: Kind, stamp: Read, bornAt: nat, rebinder: Option<CallId>)

  datatype Call =
    | Issuing(held: Read, checkedAt: nat, bornAt: nat)     // checked; credentials to be issued
    | Answering(challenge: CredId, held: Read, checkedAt: nat, bornAt: nat)
    | Refreshing(held: Read, bornAt: nat)                  // refresh token checked; access token to be issued
    | SettingUp(held: Read)                                // authenticator setup begun
    | Confirming(held: Read, checkedAt: nat)               // pending secret checked, to be confirmed
    | Changing(principal: CredId)                          // password change, before its bump
    | Bumped(principal: CredId)                            // bumped, row to be read again
    | Rebinding(principal: CredId, held: Read)             // session to be rebound
    | Finished

  /** A confirmed secret. History: the steps that checked and confirmed it. */
  datatype Enrolment = Enrolment(held: Read, checkedAt: nat, confirmedAt: nat)

  /** History: the ids ever used, the steps so far, and the version before each of them. */
  datatype State = State(
    version: nat,
    creds: map<CredId, Cred>,
    pending: Option<Read>,
    enrolled: Option<Enrolment>,
    calls: map<CallId, Call>,
    used: set<CredId>,
    past: seq<Step>,
    versions: seq<nat>)

  datatype Step =
    | CheckPassword(c: CallId)
    | Reread(c: CallId)
    | Issue(c: CallId, id: CredId, kind: Kind)
    | CheckChallenge(c: CallId, challenge: CredId)
    | TakeChallenge(c: CallId)
    | UseRefresh(c: CallId, token: CredId)
    | BeginSetup(c: CallId, principal: CredId)
    | StoreSecret(c: CallId)
    | CheckSecret(c: CallId)
    | ConfirmSecret(c: CallId)
    | DropSecret
    | StartChange(c: CallId, principal: CredId)
    | BumpForChange(c: CallId)
    | ReadVersion(c: CallId)
    | Rebind(c: CallId)
    | ResetOrClaim
    | Discard(id: CredId)

  const INIT := State(0, map[], None, None, map[], {}, [], [])

  /** The check every transport makes: the stamp is the account's current version. */
  predicate Accepts(s: State, id: CredId) {
    id in s.creds && s.creds[id].stamp.version == s.version
  }

  /** A secret counts as pending only while none is confirmed and the version is still its own. */
  predicate AcceptsSecret(s: State) {
    s.enrolled.None? && s.pending.Some? && s.pending.value.version == s.version
  }

  predicate Enabled(s: State, e: Step) {
    match e
    case CheckPassword(c) => c !in s.calls
    case Reread(c) => c in s.calls && (s.calls[c].Issuing? || s.calls[c].Answering?)
    case Issue(c, id, kind) =>
      c in s.calls && id !in s.used && (s.calls[c].Issuing? || (s.calls[c].Refreshing? && kind == Access))
    case CheckChallenge(c, challenge) =>
      c !in s.calls && Accepts(s, challenge) && s.creds[challenge].kind == Challenge
    case TakeChallenge(c) => c in s.calls && s.calls[c].Answering? && s.calls[c].challenge in s.creds
    case UseRefresh(c, token) => c !in s.calls && Accepts(s, token) && s.creds[token].kind == Refresh
    case BeginSetup(c, principal) => c !in s.calls && Accepts(s, principal)
    case StoreSecret(c) => c in s.calls && (s.calls[c].SettingUp? || s.calls[c].Issuing?)
    case CheckSecret(c) => c !in s.calls && AcceptsSecret(s)
    case ConfirmSecret(c) => c in s.calls && s.calls[c].Confirming?
    case DropSecret => true
    case StartChange(c, principal) => c !in s.calls && Accepts(s, principal)
    case BumpForChange(c) => c in s.calls && s.calls[c].Changing?
    case ReadVersion(c) => c in s.calls && s.calls[c].Bumped?
    case Rebind(c) => c in s.calls && s.calls[c].Rebinding?
    case ResetOrClaim => true
    case Discard(_) => true
  }

  function Now(s: State): nat { |s.past| }

  function Here(s: State): Read { Read(s.version, Now(s), Now(s)) }

  /** The row read again: a version already held keeps its source. */
  function Again(s: State, held: Read, checkedAt: nat): Read {
    if held.version == s.version then held else Read(s.version, checkedAt, Now(s))
  }

  function Rereading(s: State, call: Call): Call
    requires call.Issuing? || call.Answering?
  {
    var held := Again(s, call.held, call.checkedAt);
    if call.Issuing? then Issuing(held, call.checkedAt, call.bornAt)
    else Answering(call.challenge, held, call.checkedAt, call.bornAt)
  }

  function Act(s: State, e: Step): State
    requires Enabled(s, e)
  {
    match e
    case CheckPassword(c) => s.(calls := s.calls[c := Issuing(Here(s), Now(s), Now(s))])
    case Reread(c) => s.(calls := s.calls[c := Rereading(s, s.calls[c])])
    case Issue(c, id, kind) =>
      s.(creds := s.creds[id := Cred(kind, s.calls[c].held, s.calls[c].bornAt, None)], used := s.used + {id})
    case CheckChallenge(c, challenge) =>
      var cred := s.creds[challenge];
      s.(calls := s.calls[c := Answering(challenge, cred.stamp, Now(s), cred.bornAt)])
    case TakeChallenge(c) =>
      s.(creds := s.creds - {s.calls[c].challenge},
         calls := s.calls[c := Issuing(s.calls[c].held, s.calls[c].checkedAt, s.calls[c].bornAt)])
    case UseRefresh(c, token) =>
      s.(calls := s.calls[c := Refreshing(s.creds[token].stamp, s.creds[token].bornAt)])
    case BeginSetup(c, _) => s.(calls := s.calls[c := SettingUp(Here(s))])
    case StoreSecret(c) => s.(pending := Some(s.calls[c].held), enrolled := None)
    case CheckSecret(c) => s.(calls := s.calls[c := Confirming(s.pending.value, Now(s))])
    case ConfirmSecret(c) =>
      var Confirming(held, checkedAt) := s.calls[c];
      var t := s.(calls := s.calls[c := Finished]);
      if s.enrolled.Some? then t
      else t.(pending := None, enrolled := Some(Enrolment(held, checkedAt, Now(s))))
    case DropSecret => s.(pending := None, enrolled := None)
    case StartChange(c, principal) => s.(calls := s.calls[c := Changing(principal)])
    case BumpForChange(c) => s.(version := s.version + 1, calls := s.calls[c := Bumped(s.calls[c].principal)])
    case ReadVersion(c) => s.(calls := s.calls[c := Rebinding(s.calls[c].principal, Here(s))])
    case Rebind(c) =>
      var Rebinding(id, held) := s.calls[c];
      var t := s.(calls := s.calls[c := Finished]);
      if id in s.creds && s.creds[id].kind == Session
      then t.(creds := s.creds[id := s.creds[id].(stamp := held, rebinder := Some(c))])
      else t
    case ResetOrClaim => s.(version := s.version + 1)
    case Discard(id) => s.(creds := s.creds - {id})
  }

  /** A step that is not enabled only passes. */
  function Next(s: State, e: Step): State {
    (if Enabled(s, e) then Act(s, e) else s).(past := s.past + [e], versions := s.versions + [s.version])
  }

  function After(run: seq<Step>): State {
    if run == [] then INIT else Next(After(run[..|run| - 1]), run[|run| - 1])
  }

  // ---- where every stamp comes from --------------------------------------------------------

  /** The step is a check made by call `c`. */
  predicate Checks(e: Step, c: CallId) {
    e == CheckPassword(c) || (e.CheckChallenge? && e.c == c)
  }

  /** The versions so far: one for each step, never falling. */
  ghost predicate Timeline(s: State) {
    && |s.versions| == |s.past|
    && (forall i :: 0 <= i < |s.versions| ==> s.versions[i] <= s.version)
    && (forall i, j :: 0 <= i < j < |s.versions| ==> s.versions[i] <= s.versions[j])
  }

  ghost predicate WasRead(s: State, r: Read) {
    r.at < |s.past| && |s.versions| == |s.past| && s.versions[r.at] == r.version
  }

  /**
   A version reached a credential through the password check at its root, or through a row read
   again by a call whose own check was made under an older version.
   */
  ghost predicate Sourced(s: State, r: Read, bornAt: nat) {
    && WasRead(s, r) && bornAt <= r.at && s.past[bornAt].CheckPassword?
    && (r.at == bornAt ||
        (bornAt <= r.checked < r.at && s.past[r.at].Reread? && Checks(s.past[r.checked], s.past[r.at].c) &&
         s.versions[r.checked] < r.version))
  }

  ghost predicate CredOk(s: State, cred: Cred) {
    match cred.rebinder
    case None => Sourced(s, cred.stamp, cred.bornAt)
    case Some(c) => cred.kind == Session && WasRead(s, cred.stamp) && s.past[cred.stamp.at] == ReadVersion(c)
  }

  /** The call's check is on record, and what it holds is no older. */
  ghost predicate CheckOk(s: State, c: CallId, held: Read, checkedAt: nat, bornAt: nat) {
    && bornAt <= checkedAt < |s.past| && |s.versions| == |s.past|
    && Checks(s.past[checkedAt], c) && s.versions[checkedAt] <= held.version
  }

  ghost predicate CallOk(s: State, c: CallId)
    requires c in s.calls
  {
    match s.calls[c]
    case Issuing(held, checkedAt, bornAt) => Sourced(s, held, bornAt) && CheckOk(s, c, held, checkedAt, bornAt)
    case Answering(_, held, checkedAt, bornAt) => Sourced(s, held, bornAt) && CheckOk(s, c, held, checkedAt, bornAt)
    case Refreshing(held, bornAt) => Sourced(s, held, bornAt)
    case SettingUp(held) => WasRead(s, held) && s.past[held.at].BeginSetup?
    case Confirming(held, checkedAt) => SecretOk(s, held) && SecretChecked(s, c, held, checkedAt)
    case Rebinding(_, held) => WasRead(s, held) && s.past[held.at] == ReadVersion(c)
    case _ => true
  }

  ghost predicate SecretOk(s: State, r: Read) {
    WasRead(s, r) && (s.past[r.at].BeginSetup? || s.past[r.at].CheckPassword? || s.past[r.at].Reread?)
  }

  /** Call `c` checked the secret under the secret's own version. */
  ghost predicate SecretChecked(s: State, c: CallId, held: Read, checkedAt: nat) {
    && checkedAt < |s.past| && |s.versions| == |s.past|
    && s.past[checkedAt] == CheckSecret(c) && s.versions[checkedAt] == held.version
  }

  ghost predicate EnrolmentOk(s: State, en: Enrolment) {
    && SecretOk(s, en.held) && en.checkedAt < en.confirmedAt < |s.past|
    && s.past[en.confirmedAt].ConfirmSecret? && SecretChecked(s, s.past[en.confirmedAt].c, en.held, en.checkedAt)
  }

  ghost predicate Inv(s: State) {
    && Timeline(s)
    && (forall id :: id in s.creds ==> CredOk(s, s.creds[id]) && id in s.used)
    && (forall c :: c in s.calls ==> CallOk(s, c))
    && (s.pending.Some? ==> SecretOk(s, s.pending.value))
    && (s.enrolled.Some? ==> EnrolmentOk(s, s.enrolled.value))
  }

  /** What every step leaves behind of the history. */
  ghost predicate Continues(s: State, t: State) {
    && |t.past| == |s.past| + 1 && t.past[..|s.past|] == s.past
    && |t.versions| == |s.versions| + 1 && t.versions[..|s.versions|] == s.versions
    && t.versions[|s.versions|] == s.version <= t.version && s.used <= t.used
  }

  lemma StepContinues(s: State, e: Step)
    ensures Continues(s, Next(s, e)) && Next(s, e).past[|s.past|] == e
  {
  }

  /** The history so far is kept as it was. */
  lemma HistoryKept(s: State, t: State, i: nat)
    requires Continues(s, t) && i < |s.past| == |s.versions|
    ensures t.past[i] == s.past[i] && t.versions[i] == s.versions[i]
  {
    assert t.past[i] == t.past[..|s.past|][i];
    assert t.versions[i] == t.versions[..|s.versions|][i];
  }

  lemma ReadCarries(s: State, t: State, r: Read)
    requires Continues(s, t) && WasRead(s, r)
    ensures WasRead(t, r) && t.past[r.at] == s.past[r.at]
  {
    HistoryKept(s, t, r.at);
  }

  lemma SourceCarries(s: State, t: State, r: Read, bornAt: nat)
    requires Continues(s, t) && Sourced(s, r, bornAt)
    ensures Sourced(t, r, bornAt)
  {
    ReadCarries(s, t, r);
    HistoryKept(s, t, bornAt);
    if r.at != bornAt {
      HistoryKept(s, t, r.checked);
    }
  }

  lemma CheckCarries(s: State, t: State, c: CallId, held: Read, checkedAt: nat, bornAt: nat)
    requires Continues(s, t) && CheckOk(s, c, held, checkedAt, bornAt)
    ensures CheckOk(t, c, held, checkedAt, bornAt)
  {
    HistoryKept(s, t, checkedAt);
  }

  lemma SecretCarries(s: State, t: State, c: CallId, held: Read, checkedAt: nat)
    requires Continues(s, t) && SecretChecked(s, c, held, checkedAt)
    ensures SecretChecked(t, c, held, checkedAt)
  {
    HistoryKept(s, t, checkedAt);
  }

  lemma CallCarries(s: State, t: State, c: CallId)
    requires Continues(s, t) && c in s.calls && CallOk(s, c) && c in t.calls && t.calls[c] == s.calls[c]
    ensures CallOk(t, c)
  {
    match s.calls[c]
    case Issuing(held, checkedAt, bornAt) =>
      SourceCarries(s, t, held, bornAt);
      CheckCarries(s, t, c, held, checkedAt, bornAt);
    case Answering(_, held, checkedAt, bornAt) =>
      SourceCarries(s, t, held, bornAt);
      CheckCarries(s, t, c, held, checkedAt, bornAt);
    case Refreshing(held, bornAt) => SourceCarries(s, t, held, bornAt);
    case SettingUp(held) => ReadCarries(s, t, held);
    case Confirming(held, checkedAt) =>
      ReadCarries(s, t, held);
      SecretCarries(s, t, c, held, checkedAt);
    case Rebinding(_, held) => ReadCarries(s, t, held);
    case Changing(_) =>
    case Bumped(_) =>
    case Finished =>
  }

  // ---- what a step makes of a call, a credential and a secret ----------------------------------

  /** What a step leaves the call it changes as. */
  ghost predicate Made(s: State, e: Step, c: CallId, call: Call) {
    match e
    case CheckPassword(_) => call == Issuing(Here(s), Now(s), Now(s))
    case Reread(_) => c in s.calls && (s.calls[c].Issuing? || s.calls[c].Answering?) && call == Rereading(s, s.calls[c])
    case CheckChallenge(_, ch) =>
      Accepts(s, ch) && s.creds[ch].kind == Challenge &&
      call == Answering(ch, s.creds[ch].stamp, Now(s), s.creds[ch].bornAt)
    case TakeChallenge(_) =>
      c in s.calls && s.calls[c].Answering? &&
      call == Issuing(s.calls[c].held, s.calls[c].checkedAt, s.calls[c].bornAt)
    case UseRefresh(_, token) =>
      token in s.creds && s.creds[token].kind == Refresh &&
      call == Refreshing(s.creds[token].stamp, s.creds[token].bornAt)
    case BeginSetup(_, _) => call == SettingUp(Here(s))
    case CheckSecret(_) => AcceptsSecret(s) && call == Confirming(s.pending.value, Now(s))
    case ReadVersion(_) => call.Rebinding? && call.held == Here(s)
    case _ => call.Changing? || call.Bumped? || call.Finished?
  }

  /** The call a step is made by, if any. */
  function Caller(e: Step): Option<CallId> {
    match e
    case ResetOrClaim => None
    case DropSecret => None
    case Discard(_) => None
    case _ => Some(e.c)
  }

  lemma CallChanges(s: State, e: Step, c: CallId)
    requires c in Next(s, e).calls
    ensures (c in s.calls && Next(s, e).calls[c] == s.calls[c]) ||
            (Caller(e) == Some(c) && Made(s, e, c, Next(s, e).calls[c]))
  {
  }

  lemma RereadKeeps(s: State, t: State, c: CallId)
    requires Inv(s) && Continues(s, t) && t.past[|s.past|] == Reread(c) && c in s.calls && c in t.calls
    requires (s.calls[c].Issuing? || s.calls[c].Answering?) && t.calls[c] == Rereading(s, s.calls[c])
    ensures CallOk(t, c)
  {
    var call := s.calls[c];
    assert CallOk(s, c);
    SourceCarries(s, t, call.held, call.bornAt);
    CheckCarries(s, t, c, call.held, call.checkedAt, call.bornAt);
    HistoryKept(s, t, call.bornAt);
  }

  lemma TakeKeeps(s: State, t: State, c: CallId)
    requires Inv(s) && Continues(s, t) && c in s.calls && c in t.calls && s.calls[c].Answering?
    requires t.calls[c] == Issuing(s.calls[c].held, s.calls[c].checkedAt, s.calls[c].bornAt)
    ensures CallOk(t, c)
  {
    var call := s.calls[c];
    assert CallOk(s, c);
    SourceCarries(s, t, call.held, call.bornAt);
    CheckCarries(s, t, c, call.held, call.checkedAt, call.bornAt);
  }

  /** A challenge or refresh token is never rebound, so its stamp has its source. */
  lemma TokenKeeps(s: State, t: State, id: CredId)
    requires Inv(s) && Continues(s, t) && id in s.creds && s.creds[id].kind != Session
    ensures Sourced(t, s.creds[id].stamp, s.creds[id].bornAt)
  {
    assert CredOk(s, s.creds[id]);
    SourceCarries(s, t, s.creds[id].stamp, s.creds[id].bornAt);
  }

  lemma MadeIsOk(s: State, t: State, e: Step, c: CallId)
    requires Inv(s) && Continues(s, t) && t.past[|s.past|] == e
    requires c in t.calls && Caller(e) == Some(c) && Made(s, e, c, t.calls[c])
    ensures CallOk(t, c)
  {
    if e.Reread? {
      RereadKeeps(s, t, c);
    } else if e.TakeChallenge? {
      TakeKeeps(s, t, c);
    } else if e.CheckChallenge? {
      TokenKeeps(s, t, e.challenge);
    } else if e.UseRefresh? {
      TokenKeeps(s, t, e.token);
    } else if e.CheckSecret? {
      ReadCarries(s, t, s.pending.value);
    }
  }

  lemma StepKeepsCalls(s: State, e: Step, c: CallId)
    requires Inv(s) && c in Next(s, e).calls
    ensures CallOk(Next(s, e), c)
  {
    StepContinues(s, e);
    CallChanges(s, e, c);
    if c in s.calls && Next(s, e).calls[c] == s.calls[c] {
      CallCarries(s, Next(s, e), c);
    } else {
      MadeIsOk(s, Next(s, e), e, c);
    }
  }

  /** A credential stays what it was issued as until it is discarded or rebound. */
  lemma CredChanges(s: State, e: Step, id: CredId)
    requires id in Next(s, e).creds
    ensures var cred := Next(s, e).creds[id];
            || (id in s.creds && cred == s.creds[id])
            || (e.Issue? && Enabled(s, e) && id == e.id && id !in s.used &&
                cred.stamp == s.calls[e.c].held && cred.bornAt == s.calls[e.c].bornAt && cred.rebinder.None?)
            || (e.Rebind? && Enabled(s, e) && id in s.creds && s.creds[id].kind == Session &&
                s.calls[e.c].principal == id &&
                cred == s.creds[id].(stamp := s.calls[e.c].held, rebinder := Some(e.c)))
    ensures id in Next(s, e).used || id in s.creds
  {
  }

  lemma CredCarries(s: State, t: State, cred: Cred)
    requires Continues(s, t) && CredOk(s, cred)
    ensures CredOk(t, cred)
  {
    if cred.rebinder.None? {
      SourceCarries(s, t, cred.stamp, cred.bornAt);
    } else {
      ReadCarries(s, t, cred.stamp);
    }
  }

  lemma StepKeepsCreds(s: State, e: Step, id: CredId)
    requires Inv(s) && id in Next(s, e).creds
    ensures CredOk(Next(s, e), Next(s, e).creds[id])
  {
    StepContinues(s, e);
    CredChanges(s, e, id);
    if id in s.creds && Next(s, e).creds[id] == s.creds[id] {
      CredCarries(s, Next(s, e), s.creds[id]);
    } else {
      NewStampIsOk(s, Next(s, e), e, Next(s, e).creds[id]);
    }
  }

  lemma NewStampIsOk(s: State, t: State, e: Step, cred: Cred)
    requires Inv(s) && Continues(s, t) && (e.Issue? || e.Rebind?) && Enabled(s, e) && cred.stamp == s.calls[e.c].held
    requires e.Issue? ==> cred.bornAt == s.calls[e.c].bornAt && cred.rebinder.None?
    requires e.Rebind? ==> cred.kind == Session && cred.rebinder == Some(e.c)
    ensures CredOk(t, cred)
  {
    assert CallOk(s, e.c);
    CredCarries(s, t, cred);
  }

  /** What a step makes of the pending and the confirmed secret. */
  lemma SecretChanges(s: State, e: Step)
    ensures var t := Next(s, e);
            && (t.pending == s.pending || t.pending.None? ||
                (e.StoreSecret? && Enabled(s, e) && t.pending == Some(s.calls[e.c].held)))
            && (t.enrolled == s.enrolled || t.enrolled.None? ||
                (e.ConfirmSecret? && Enabled(s, e) &&
                 t.enrolled == Some(Enrolment(s.calls[e.c].held, s.calls[e.c].checkedAt, Now(s)))))
  {
  }

  lemma StepKeepsPending(s: State, e: Step)
    requires Inv(s) && Next(s, e).pending.Some?
    ensures SecretOk(Next(s, e), Next(s, e).pending.value)
  {
    StepContinues(s, e);
    SecretChanges(s, e);
    if Next(s, e).pending == s.pending {
      ReadCarries(s, Next(s, e), s.pending.value);
    } else {
      assert CallOk(s, e.c);
      ReadCarries(s, Next(s, e), s.calls[e.c].held);
    }
  }

  lemma StepKeepsEnrolled(s: State, e: Step)
    requires Inv(s) && Next(s, e).enrolled.Some?
    ensures EnrolmentOk(Next(s, e), Next(s, e).enrolled.value)
  {
    var t := Next(s, e);
    StepContinues(s, e);
    SecretChanges(s, e);
    if t.enrolled == s.enrolled {
      EnrolmentCarries(s, t, s.enrolled.value);
    } else {
      assert CallOk(s, e.c);
      ReadCarries(s, t, s.calls[e.c].held);
      SecretCarries(s, t, e.c, s.calls[e.c].held, s.calls[e.c].checkedAt);
    }
  }

  lemma EnrolmentCarries(s: State, t: State, en: Enrolment)
    requires Continues(s, t) && EnrolmentOk(s, en)
    ensures EnrolmentOk(t, en)
  {
    ReadCarries(s, t, en.held);
    HistoryKept(s, t, en.confirmedAt);
    SecretCarries(s, t, s.past[en.confirmedAt].c, en.held, en.checkedAt);
  }

  lemma StepKeepsTimeline(s: State, e: Step)
    requires Timeline(s)
    ensures Timeline(Next(s, e))
  {
  }

  lemma StepKeeps(s: State, e: Step)
    requires Inv(s)
    ensures Inv(Next(s, e))
  {
    var t := Next(s, e);
    StepKeepsTimeline(s, e);
    forall c | c in t.calls ensures CallOk(t, c) {
      StepKeepsCalls(s, e, c);
    }
    forall id | id in t.creds ensures CredOk(t, t.creds[id]) && id in t.used {
      StepKeepsCreds(s, e, id);
      StepContinues(s, e);
      CredChanges(s, e, id);
    }
    if t.pending.Some? {
      StepKeepsPending(s, e);
    }
    if t.enrolled.Some? {
      StepKeepsEnrolled(s, e);
    }
  }

  lemma {:induction false} RunKeeps(run: seq<Step>)
    ensures Inv(After(run))
  {
    if run == [] {
    } else {
      RunKeeps(run[..|run| - 1]);
      StepKeeps(After(run[..|run| - 1]), run[|run| - 1]);
    }
  }

  /** The history is the run: its steps, and the version each of them met. */
  lemma {:induction false} HistoryIsRun(run: seq<Step>, i: nat)
    requires i < |run|
    ensures |After(run).past| == |After(run).versions| == |run|
    ensures After(run).past[i] == run[i] && After(run).versions[i] == After(run[..i]).version
  {
    var front := run[..|run| - 1];
    if front == [] {
    } else {
      HistoryIsRun(front, if i < |front| then i else 0);
      if i < |front| {
        assert front[..i] == run[..i];
      }
    }
  }

  /** The version never falls. */
  lemma {:induction false} VersionGrows(run: seq<Step>, i: nat)
    requires i <= |run|
    ensures After(run[..i]).version <= After(run).version
    decreases |run|
  {
    if i == |run| {
      assert run[..i] == run;
    } else {
      VersionGrows(run[..|run| - 1], i);
      assert run[..|run| - 1][..i] == run[..i];
      StepContinues(After(run[..|run| - 1]), run[|run| - 1]);
    }
  }

  // ---- eviction ----------------------------------------------------------------------------

  lemma CredIsOk(run: seq<Step>, id: CredId)
    requires id in After(run).creds
    ensures CredOk(After(run), After(run).creds[id]) && Timeline(After(run))
  {
    RunKeeps(run);
  }

  /**
   A credential is accepted if and only if the version has not moved since the row read its stamp
   came from.
   */
  lemma AcceptedIffUnmoved(run: seq<Step>, id: CredId)
    requires id in After(run).creds
    ensures var read := After(run).creds[id].stamp;
            read.at < |run| && read.version == After(run[..read.at]).version &&
            (Accepts(After(run), id) <==> After(run[..read.at]).version == After(run).version)
  {
    CredIsOk(run, id);
    PastIsRun(run);
    HistoryIsRun(run, After(run).creds[id].stamp.at);
  }

  lemma PastIsRun(run: seq<Step>)
    ensures |After(run).past| == |After(run).versions| == |run|
  {
    if run != [] {
      HistoryIsRun(run, 0);
    }
  }

  /** A call read the row at step `k` under a newer version than its check at step `check` had met. */
  ghost predicate Raced(s: State, check: nat, k: nat) {
    && check < k < |s.past| && |s.versions| == |s.past|
    && s.past[k].Reread? && Checks(s.past[check], s.past[k].c) && s.versions[check] < s.versions[k]
  }

  /**
   What lies between a password check and a credential that was never rebound. The stamp is the
   version of that check; or else, and only then, some call on the way read it at a row refresh
   that a bump separates from the call's own version check.
   */
  lemma StampMovedIffRaced(run: seq<Step>, id: CredId)
    requires id in After(run).creds && After(run).creds[id].rebinder.None?
    ensures var s := After(run);
            var Cred(_, read, bornAt, _) := s.creds[id];
            && bornAt <= read.at < |s.past| == |s.versions|
            && s.past[bornAt].CheckPassword? && s.versions[read.at] == read.version
            && (read.version != s.versions[bornAt] <==> read.at != bornAt)
            && (read.version != s.versions[bornAt] <==> bornAt <= read.checked && Raced(s, read.checked, read.at))
  {
    CredIsOk(run, id);
    StampLaw(After(run), After(run).creds[id]);
  }

  lemma StampLaw(s: State, cred: Cred)
    requires Timeline(s) && CredOk(s, cred) && cred.rebinder.None?
    ensures var Cred(_, read, bornAt, _) := cred;
            && bornAt <= read.at < |s.past| == |s.versions|
            && s.past[bornAt].CheckPassword? && s.versions[read.at] == read.version
            && (read.version != s.versions[bornAt] <==> read.at != bornAt)
            && (read.version != s.versions[bornAt] <==> bornAt <= read.checked && Raced(s, read.checked, read.at))
  {
  }

  // ---- survivors -----------------------------------------------------------------------------

  /** Step `i` rebound the credential to the version that is current after `run`. */
  ghost predicate Rebound(run: seq<Step>, i: nat, id: CredId) {
    i < |run| && run[i].Rebind? && run[i].c in After(run[..i]).calls &&
    After(run[..i]).calls[run[i].c].Rebinding? && After(run[..i]).calls[run[i].c].principal == id &&
    After(run[..i]).calls[run[i].c].held.version == After(run).version
  }

  lemma {:induction false} StaysFrom(run: seq<Step>, more: seq<Step>, id: CredId)
    requires id in After(run).creds && id in After(run + more).creds && After(run + more).creds[id].rebinder.None?
    ensures After(run + more).creds[id] == After(run).creds[id]
  {
    if more == [] {
      assert run + more == run;
    } else {
      var all, rest := run + more, more[..|more| - 1];
      assert all[..|all| - 1] == run + rest;
      RunKeeps(run + rest);
      UsedStays(run, rest, id);
      CredChanges(After(run + rest), all[|all| - 1], id);
      StaysFrom(run, rest, id);
    }
  }

  lemma {:induction false} UsedStays(run: seq<Step>, more: seq<Step>, id: CredId)
    requires id in After(run).creds
    ensures id in After(run + more).used
  {
    if more == [] {
      assert run + more == run;
      RunKeeps(run);
    } else {
      var all, rest := run + more, more[..|more| - 1];
      assert all[..|all| - 1] == run + rest;
      UsedStays(run, rest, id);
      StepContinues(After(run + rest), all[|all| - 1]);
    }
  }

  /** A rebound credential was so before the step, or the step rebound it. */
  lemma ReboundStep(s: State, e: Step, id: CredId)
    requires id in Next(s, e).creds && Next(s, e).creds[id].rebinder.Some?
    ensures var cred := Next(s, e).creds[id];
            (id in s.creds && s.creds[id] == cred) ||
            (e == Rebind(cred.rebinder.value) && e.c in s.calls && s.calls[e.c] == Rebinding(id, cred.stamp))
  {
    CredChanges(s, e, id);
  }

  lemma Last(run: seq<Step>)
    requires run != []
    ensures After(run) == Next(After(run[..|run| - 1]), run[|run| - 1])
  {
  }

  ghost predicate ReboundBy(run: seq<Step>, i: nat, id: CredId, cred: Cred)
    requires cred.rebinder.Some?
  {
    i < |run| && run[i] == Rebind(cred.rebinder.value) && run[i].c in After(run[..i]).calls &&
    After(run[..i]).calls[run[i].c] == Rebinding(id, cred.stamp)
  }

  /** A rebound credential has the step that rebound it, to the version it now carries. */
  lemma {:induction false} ReboundAt(run: seq<Step>, id: CredId, cred: Cred) returns (i: nat)
    requires id in After(run).creds && After(run).creds[id] == cred && cred.rebinder.Some?
    ensures ReboundBy(run, i, id, cred)
  {
    var last := |run| - 1;
    Last(run);
    ReboundStep(After(run[..last]), run[last], id);
    if id in After(run[..last]).creds && After(run[..last]).creds[id] == cred {
      i := ReboundAt(run[..last], id, cred);
      assert run[..last][..i] == run[..i];
    } else {
      i := last;
    }
  }

  /** The version a call holds to rebind a session is no newer than the account's. */
  lemma HeldIsNoNewer(run: seq<Step>, c: CallId)
    requires c in After(run).calls && After(run).calls[c].Rebinding?
    ensures After(run).calls[c].held.version <= After(run).version
  {
    RunKeeps(run);
    assert CallOk(After(run), c);
  }

  lemma EarlierIsNoNewer(run: seq<Step>, more: seq<Step>, i: nat)
    requires i < |run|
    ensures After((run + more)[..i]).version <= After(run).version
  {
    assert (run + more)[..i] == run[..i];
    VersionGrows(run, i);
  }

  lemma ReboundIsLate(run: seq<Step>, more: seq<Step>, i: nat, id: CredId)
    requires After(run).version < After(run + more).version && Rebound(run + more, i, id)
    ensures |run| <= i
  {
    HeldIsNoNewer((run + more)[..i], (run + more)[i].c);
    if i < |run| {
      EarlierIsNoNewer(run, more, i);
    }
  }

  lemma ReboundSince(run: seq<Step>, more: seq<Step>, id: CredId)
    requires After(run).version < After(run + more).version
    requires Accepts(After(run + more), id) && After(run + more).creds[id].rebinder.Some?
    ensures exists i: nat :: |run| <= i && Rebound(run + more, i, id)
  {
    var i := ReboundAt(run + more, id, After(run + more).creds[id]);
    assert Rebound(run + more, i, id);
    ReboundIsLate(run, more, i, id);
  }

  lemma StampIsLate(run: seq<Step>, more: seq<Step>, id: CredId)
    requires After(run).version < After(run + more).version && Accepts(After(run + more), id)
    ensures |run| <= After(run + more).creds[id].stamp.at
  {
    AcceptedIffUnmoved(run + more, id);
    if After(run + more).creds[id].stamp.at < |run| {
      EarlierIsNoNewer(run, more, After(run + more).creds[id].stamp.at);
    }
  }

  /**
   Every credential held before a bump is dead after it. The one way for it to be accepted again
   is to be a session that a password change rebinds after the bump, to the version now current.
   */
  lemma HeldCredentialsEvicted(run: seq<Step>, more: seq<Step>, id: CredId)
    requires After(run).version < After(run + more).version
    requires id in After(run).creds && Accepts(After(run + more), id)
    ensures exists i: nat :: |run| <= i && Rebound(run + more, i, id)
  {
    if After(run + more).creds[id].rebinder.None? {
      StaysFrom(run, more, id);
      CredIsOk(run, id);
    } else {
      ReboundSince(run, more, id);
    }
  }

  /**
   Epoch eviction: once the version has moved past `run`, a credential resting on a password
   checked by then, whenever it is issued, is accepted only if a password change rebound it since,
   or if a call on its way read the row again since, at a refresh that a bump separates from the
   call's own version check.
   */
  lemma EvictedForGood(run: seq<Step>, more: seq<Step>, id: CredId)
    requires After(run).version < After(run + more).version
    requires Accepts(After(run + more), id) && After(run + more).creds[id].bornAt < |run|
    ensures var t := After(run + more);
            var Cred(_, read, bornAt, rebinder) := t.creds[id];
            if rebinder.Some? then exists i: nat :: |run| <= i && Rebound(run + more, i, id)
            else |run| <= read.at && bornAt <= read.checked && Raced(t, read.checked, read.at)
  {
    if After(run + more).creds[id].rebinder.Some? {
      ReboundSince(run, more, id);
    } else {
      StampIsLate(run, more, id);
      StampMovedIffRaced(run + more, id);
    }
  }

  /**
   The exact condition: a credential never rebound outlives a bump that came after its password
   check if and only if some call on its way had a bump between its version check and its row
   refresh, and none came after that refresh.
   */
  lemma OutlivesBumpIff(run: seq<Step>, id: CredId)
    requires id in After(run).creds && After(run).creds[id].rebinder.None?
    ensures var s := After(run);
            var Cred(_, read, bornAt, _) := s.creds[id];
            bornAt <= read.at < |s.versions| &&
            (s.versions[bornAt] < s.version ==>
               (Accepts(s, id) <==>
                bornAt <= read.checked && Raced(s, read.checked, read.at) && s.versions[read.at] == s.version))
  {
    StampMovedIffRaced(run, id);
  }

  lemma Grown(run: seq<Step>, e: Step, s: State)
    requires After(run) == s
    ensures After(run + [e]) == Next(s, e)
  {
    var all := run + [e];
    assert all[..|all| - 1] == run && all[|all| - 1] == e;
    Last(all);
  }

  /** A reset between a login's password check and the refresh after its rehash: the session outlives it. */
  lemma RehashRace(run: seq<Step>)
    requires run == [CheckPassword(0)] + [ResetOrClaim] + [Reread(0)] + [Issue(0, 7, Session)]
    ensures Accepts(After(run), 7) && After(run).creds[7].bornAt == 0 && After(run).version == 1
  {
    var e0, e1, e2, e3 := CheckPassword(0), ResetOrClaim, Reread(0), Issue(0, 7, Session);
    Grown([], e0, INIT);
    assert [] + [e0] == [e0];
    Grown([e0], e1, Next(INIT, e0));
    Grown([e0] + [e1], e2, Next(Next(INIT, e0), e1));
    Grown([e0] + [e1] + [e2], e3, Next(Next(Next(INIT, e0), e1), e2));
  }

  /** The same between the version check and the refresh of a request that answers a challenge. */
  lemma ChallengeRace(run: seq<Step>)
    requires run == [CheckPassword(0)] + [Issue(0, 7, Challenge)] + [CheckChallenge(1, 7)] +
                    [ResetOrClaim] + [Reread(1)] + [TakeChallenge(1)] + [Issue(1, 8, Session)]
    ensures Accepts(After(run), 8) && After(run).creds[8].bornAt == 0 && After(run).version == 1
  {
    var e0, e1, e2, e3 := CheckPassword(0), Issue(0, 7, Challenge), CheckChallenge(1, 7), ResetOrClaim;
    Grown([], e0, INIT);
    assert [] + [e0] == [e0];
    Grown([e0], e1, Next(INIT, e0));
    Grown([e0] + [e1], e2, After([e0] + [e1]));
    var checked := [e0] + [e1] + [e2];
    assert After(checked).calls[1] == Answering(7, Read(0, 0, 0), 2, 0) && 7 in After(checked).creds;
    assert After(checked).used == {7} && After(checked).version == 0;
    AnswerAfterReset(checked);
  }

  lemma AnswerAfterReset(run: seq<Step>)
    requires var s := After(run);
             1 in s.calls && s.calls[1] == Answering(7, Read(0, 0, 0), 2, 0) && 7 in s.creds &&
             s.used == {7} && s.version == 0
    ensures var t := After(run + [ResetOrClaim] + [Reread(1)] + [TakeChallenge(1)] + [Issue(1, 8, Session)]);
            Accepts(t, 8) && t.creds[8].bornAt == 0 && t.version == 1
  {
    FourMore(run, ResetOrClaim, Reread(1), TakeChallenge(1), Issue(1, 8, Session));
    AnswerSteps(After(run));
  }

  lemma AnswerSteps(s: State)
    requires 1 in s.calls && s.calls[1] == Answering(7, Read(0, 0, 0), 2, 0) && 7 in s.creds
    requires s.used == {7} && s.version == 0
    ensures var t := Next(Next(Next(Next(s, ResetOrClaim), Reread(1)), TakeChallenge(1)), Issue(1, 8, Session));
            Accepts(t, 8) && t.creds[8].bornAt == 0 && t.version == 1
  {
    var s1 := Next(s, ResetOrClaim);
    assert s1.calls == s.calls && s1.creds == s.creds && s1.used == {7} && s1.version == 1;
    var s2 := Next(s1, Reread(1));
    assert s2.calls[1] == Answering(7, Read(1, 2, |s1.past|), 2, 0);
    assert s2.creds == s.creds && s2.used == {7} && s2.version == 1;
    var s3 := Next(s2, TakeChallenge(1));
    assert s3.calls[1] == Issuing(Read(1, 2, |s1.past|), 2, 0) && s3.used == {7} && s3.version == 1;
  }

  // ---- the authenticator secret ---------------------------------------------------------------

  lemma SecretWasRead(run: seq<Step>, read: Read)
    requires SecretOk(After(run), read)
    ensures && read.at < |run| && read.version == After(run[..read.at]).version
            && (run[read.at].BeginSetup? || run[read.at].CheckPassword? || run[read.at].Reread?)
  {
    PastIsRun(run);
    HistoryIsRun(run, read.at);
  }

  lemma PendingIsOk(run: seq<Step>)
    requires After(run).pending.Some?
    ensures SecretOk(After(run), After(run).pending.value)
  {
    RunKeeps(run);
  }

  /**
   A pending authenticator secret passes its check if and only if none is confirmed and the version
   has not moved since the row read it was bound by, which is a setup begun by an accepted
   principal, or a login.
   */
  lemma SecretPassesIffUnmoved(run: seq<Step>)
    requires After(run).pending.Some?
    ensures var read := After(run).pending.value;
            && read.at < |run| && (run[read.at].BeginSetup? || run[read.at].CheckPassword? || run[read.at].Reread?)
            && (AcceptsSecret(After(run)) <==>
                  After(run).enrolled.None? && After(run[..read.at]).version == After(run).version)
  {
    PendingIsOk(run);
    SecretWasRead(run, After(run).pending.value);
  }

  /** The versions the steps met, and the one they led to. */
  function Versions(s: State): seq<nat> { s.versions + [s.version] }

  /** Step `k` moved the version. */
  predicate Bumps(versions: seq<nat>, k: nat) { k + 1 < |versions| && versions[k] < versions[k + 1] }

  ghost predicate NeverFalls(versions: seq<nat>) {
    forall i, j :: 0 <= i <= j < |versions| ==> versions[i] <= versions[j]
  }

  /** Two steps met different versions if and only if a step from the one to the other moved it. */
  lemma {:induction false} MovedIffBumped(versions: seq<nat>, i: nat, j: nat)
    requires NeverFalls(versions) && i <= j < |versions|
    ensures versions[i] < versions[j] <==> exists k: nat :: i <= k < j && Bumps(versions, k)
    decreases j
  {
    if i == j {
    } else {
      MovedIffBumped(versions, i, j - 1);
      if versions[j - 1] < versions[j] {
        assert Bumps(versions, j - 1);
      }
      forall k: nat | i <= k < j && Bumps(versions, k) ensures versions[i] < versions[j] {
        assert versions[i] <= versions[k] && versions[k + 1] <= versions[j];
      }
    }
  }

  lemma TimelineNeverFalls(s: State)
    requires Timeline(s)
    ensures NeverFalls(Versions(s))
  {
  }

  lemma EnrolledIsOk(run: seq<Step>)
    requires After(run).enrolled.Some?
    ensures EnrolmentOk(After(run), After(run).enrolled.value) && Timeline(After(run))
  {
    RunKeeps(run);
  }

  lemma EnrolmentLaw(s: State, en: Enrolment)
    requires Timeline(s) && EnrolmentOk(s, en)
    ensures en.held.version < s.versions[en.confirmedAt] <==>
            exists k: nat :: en.checkedAt <= k < en.confirmedAt && Bumps(Versions(s), k)
  {
    TimelineNeverFalls(s);
    MovedIffBumped(Versions(s), en.checkedAt, en.confirmedAt);
  }

  /**
   A confirmed secret was checked under its own version, and is of an earlier version than the
   account's at its confirmation if and only if a bump fell between the two.
   */
  lemma ConfirmedStaleIffRaced(run: seq<Step>)
    requires After(run).enrolled.Some?
    ensures var s := After(run);
            var Enrolment(held, checkedAt, confirmedAt) := s.enrolled.value;
            && checkedAt < confirmedAt < |s.past| == |s.versions| && s.past[confirmedAt].ConfirmSecret?
            && s.past[checkedAt] == CheckSecret(s.past[confirmedAt].c) && held.version == s.versions[checkedAt]
            && (held.version < s.versions[confirmedAt] <==>
                  exists k: nat :: checkedAt <= k < confirmedAt && Bumps(Versions(s), k))
  {
    EnrolledIsOk(run);
    EnrolmentLaw(After(run), After(run).enrolled.value);
  }

  /** A reset between the check of a pending secret and its confirmation: the old secret is confirmed. */
  lemma SecretRace(run: seq<Step>)
    requires run == [] + [CheckPassword(0)] + [Issue(0, 7, Session)] + [BeginSetup(1, 7)] + [StoreSecret(1)] +
                    [CheckSecret(2)] + [ResetOrClaim] + [ConfirmSecret(2)]
    ensures var s := After(run);
            s.enrolled.Some? && s.enrolled.value.held.version == 0 && s.version == 1
  {
    var begun := [] + [CheckPassword(0)] + [Issue(0, 7, Session)] + [BeginSetup(1, 7)];
    SetupBegun(begun);
    FourMore(begun, StoreSecret(1), CheckSecret(2), ResetOrClaim, ConfirmSecret(2));
    SecretSteps(After(begun));
  }

  lemma FourMore(run: seq<Step>, a: Step, b: Step, c: Step, d: Step)
    ensures After(run + [a] + [b] + [c] + [d]) == Next(Next(Next(Next(After(run), a), b), c), d)
  {
    Grown(run, a, After(run));
    Grown(run + [a], b, After(run + [a]));
    Grown(run + [a] + [b], c, After(run + [a] + [b]));
    Grown(run + [a] + [b] + [c], d, After(run + [a] + [b] + [c]));
  }

  lemma SecretSteps(s: State)
    requires 1 in s.calls && 2 !in s.calls && s.calls[1] == SettingUp(Read(0, 2, 2)) && s.version == 0
    requires s.enrolled.None?
    ensures var t := Next(Next(Next(Next(s, StoreSecret(1)), CheckSecret(2)), ResetOrClaim), ConfirmSecret(2));
            t.enrolled.Some? && t.enrolled.value.held.version == 0 && t.version == 1
  {
    StoreThenCheck(s);
    ResetThenConfirm(Next(Next(s, StoreSecret(1)), CheckSecret(2)));
  }

  lemma StoreThenCheck(s: State)
    requires 1 in s.calls && 2 !in s.calls && s.calls[1] == SettingUp(Read(0, 2, 2)) && s.version == 0
    ensures var t := Next(Next(s, StoreSecret(1)), CheckSecret(2));
            && 2 in t.calls && t.calls[2].Confirming? && t.calls[2].held == Read(0, 2, 2)
            && t.enrolled.None? && t.version == 0
  {
    var s1 := Next(s, StoreSecret(1));
    assert s1.pending == Some(Read(0, 2, 2)) && s1.enrolled.None? && s1.version == 0 && 2 !in s1.calls;
  }

  lemma ResetThenConfirm(s: State)
    requires 2 in s.calls && s.calls[2].Confirming? && s.enrolled.None?
    ensures var t := Next(Next(s, ResetOrClaim), ConfirmSecret(2));
            t.enrolled.Some? && t.enrolled.value.held == s.calls[2].held && t.version == s.version + 1
  {
    var s1 := Next(s, ResetOrClaim);
    assert s1.calls == s.calls && s1.enrolled.None? && s1.version == s.version + 1;
  }

  lemma SetupBegun(run: seq<Step>)
    requires run == [] + [CheckPassword(0)] + [Issue(0, 7, Session)] + [BeginSetup(1, 7)]
    ensures var s := After(run);
            && 1 in s.calls && 2 !in s.calls && s.calls[1] == SettingUp(Read(0, 2, 2))
            && s.version == 0 && s.enrolled.None?
  {
    Grown([], CheckPassword(0), INIT);
    var s1 := Next(INIT, CheckPassword(0));
    assert s1.calls == map[0 := Issuing(Read(0, 0, 0), 0, 0)] && s1.version == 0;
    Grown([] + [CheckPassword(0)], Issue(0, 7, Session), s1);
    var s2 := Next(s1, Issue(0, 7, Session));
    assert Accepts(s2, 7) && s2.calls == s1.calls && s2.version == 0;
    Grown([] + [CheckPassword(0)] + [Issue(0, 7, Session)], BeginSetup(1, 7), s2);
  }

  // ---- a session in the middle of its own password change ---------------------------------------

  lemma ReboundLaw(s: State, cred: Cred)
    requires Timeline(s) && CredOk(s, cred)
    ensures cred.stamp.version == s.version <==> forall k: nat :: Bumps(Versions(s), k) ==> k < cred.stamp.at
  {
    var h, at := Versions(s), cred.stamp.at;
    TimelineNeverFalls(s);
    assert h[at] == cred.stamp.version && h[|s.past|] == s.version;
    MovedIffBumped(h, at, |s.past|);
    if cred.stamp.version == s.version {
      forall k: nat | Bumps(h, k) ensures k < at {
        assert k < |s.past|;
      }
    }
  }

  /**
   A rebound session is accepted if and only if no bump came at or after its change's row re-read;
   it outlives every bump that came before, its own change's and anyone else's.
   */
  lemma ReboundAcceptedIff(run: seq<Step>, id: CredId)
    requires id in After(run).creds && After(run).creds[id].rebinder.Some?
    ensures var s := After(run);
            var Cred(_, read, _, rebinder) := s.creds[id];
            && read.at < |s.past| && s.past[read.at] == ReadVersion(rebinder.value)
            && (Accepts(s, id) <==> forall k: nat :: Bumps(Versions(s), k) ==> k < read.at)
  {
    CredIsOk(run, id);
    ReboundLaw(After(run), After(run).creds[id]);
  }

  /** A reset between the bump and the re-read of a password change: the changer's session outlives it. */
  lemma ChangeOutlivesReset(run: seq<Step>)
    requires run == [] + [CheckPassword(0)] + [Issue(0, 7, Session)] + [StartChange(1, 7)] + [BumpForChange(1)] +
                    [ResetOrClaim] + [ReadVersion(1)] + [Rebind(1)]
    ensures Accepts(After(run), 7) && After(run).version == 2
  {
    var started := [] + [CheckPassword(0)] + [Issue(0, 7, Session)] + [StartChange(1, 7)];
    ChangeStarted(started);
    FourMore(started, BumpForChange(1), ResetOrClaim, ReadVersion(1), Rebind(1));
    ChangeSteps(After(started));
  }

  lemma ChangeSteps(s: State)
    requires 1 in s.calls && s.calls[1] == Changing(7) && s.version == 0 && 7 in s.creds && s.creds[7].kind == Session
    ensures var t := Next(Next(Next(Next(s, BumpForChange(1)), ResetOrClaim), ReadVersion(1)), Rebind(1));
            Accepts(t, 7) && t.version == 2
  {
    BumpThenReset(s);
    ReadThenRebind(Next(Next(s, BumpForChange(1)), ResetOrClaim));
  }

  lemma BumpThenReset(s: State)
    requires 1 in s.calls && s.calls[1] == Changing(7) && s.version == 0
    ensures var t := Next(Next(s, BumpForChange(1)), ResetOrClaim);
            t.creds == s.creds && 1 in t.calls && t.calls[1] == Bumped(7) && t.version == 2
  {
    var s1 := Next(s, BumpForChange(1));
    assert s1.creds == s.creds && 1 in s1.calls && s1.calls[1] == Bumped(7) && s1.version == 1;
  }

  lemma ReadThenRebind(s: State)
    requires 1 in s.calls && s.calls[1] == Bumped(7) && 7 in s.creds && s.creds[7].kind == Session
    ensures var t := Next(Next(s, ReadVersion(1)), Rebind(1));
            Accepts(t, 7) && t.version == s.version
  {
    var s1 := Next(s, ReadVersion(1));
    assert s1.creds == s.creds && 1 in s1.calls && s1.calls[1] == Rebinding(7, Here(s)) && s1.version == s.version;
  }

  lemma ChangeStarted(run: seq<Step>)
    requires run == [] + [CheckPassword(0)] + [Issue(0, 7, Session)] + [StartChange(1, 7)]
    ensures var s := After(run);
            1 in s.calls && s.calls[1] == Changing(7) && s.version == 0 && 7 in s.creds && s.creds[7].kind == Session
  {
    Grown([], CheckPassword(0), INIT);
    var s1 := Next(INIT, CheckPassword(0));
    assert s1.calls == map[0 := Issuing(Read(0, 0, 0), 0, 0)] && s1.version == 0;
    Grown([] + [CheckPassword(0)], Issue(0, 7, Session), s1);
    var s2 := Next(s1, Issue(0, 7, Session));
    assert Accepts(s2, 7) && s2.calls == s1.calls && s2.version == 0 && s2.creds[7].kind == Session;
    Grown([] + [CheckPassword(0)] + [Issue(0, 7, Session)], StartChange(1, 7), s2);
  }

  // ---- whose session a password change keeps --------------------------------------------------

  ghost predicate InChange(s: State, c: CallId, principal: CredId) {
    c in s.calls &&
    match s.calls[c]
    case Changing(p) => p == principal
    case Bumped(p) => p == principal
    case Rebinding(p, _) => p == principal
    case _ => false
  }

  /** A password change under way was under way before the step, or the step started it. */
  lemma ChangeStep(s: State, e: Step, c: CallId, principal: CredId)
    requires InChange(Next(s, e), c, principal)
    ensures InChange(s, c, principal) || (e == StartChange(c, principal) && Accepts(s, principal))
  {
  }

  lemma {:induction false} ChangeStartedByPrincipal(run: seq<Step>, c: CallId, principal: CredId)
    requires InChange(After(run), c, principal)
    ensures exists i :: 0 <= i < |run| && run[i] == StartChange(c, principal) && Accepts(After(run[..i]), principal)
  {
    var last := |run| - 1;
    var s := After(run[..last]);
    ChangeStep(s, run[last], c, principal);
    if InChange(s, c, principal) {
      ChangeStartedByPrincipal(run[..last], c, principal);
      var i :| 0 <= i < last && run[..last][i] == StartChange(c, principal) &&
               Accepts(After(run[..last][..i]), principal);
      assert run[..last][..i] == run[..i];
    }
  }

  /** The session a step rebinds belongs to the password change that this same session made, while accepted. */
  lemma OnlyTheChangersSessionSurvives(run: seq<Step>, i: nat, id: CredId)
    requires Rebound(run, i, id)
    ensures exists k :: 0 <= k < i && run[k] == StartChange(run[i].c, id) && Accepts(After(run[..k]), id)
  {
    ChangeStartedByPrincipal(run[..i], run[i].c, id);
    var k :| 0 <= k < i && run[..i][k] == StartChange(run[i].c, id) && Accepts(After(run[..i][..k]), id);
    assert run[..i][..k] == run[..k];
  }
}
