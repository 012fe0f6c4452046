/**
 Signed email tokens of one account: recovery verification, password reset and email change.

 A token carries its expiry, the proposed address of an email change, where to go afterwards, and
 a fingerprint of the account state it authorizes a change of; it is a value, so minting the same
 claims twice in one second from one state gives one token. Minting reads the row first and signs
 later. Redeeming checks the token against the row, then marks it used by an atomic set-if-absent,
 then writes; anything may happen between those steps. Signatures are unforgeable, fingerprints
 injective, password hashes fresh. Times are in milliseconds; a token's expiry is cut to whole
 seconds.
 */
module EmailTokens {
  import opened Basics

  type CallId = nat
  type Hash = nat
  type Text = string

  datatype Purpose = Verify | Reset | Change

  datatype RecoveryFactor = NoFactor | Email | Other

  datatype Config = Config(recovery: RecoveryFactor, verifyTtl: nat, resetTtl: nat, changeTtl: nat) {
    function Ttl(purpose: Purpose): nat {
      match purpose case Verify => verifyTtl case Reset => resetTtl case Change => changeTtl
    }
  }

  datatype Account = Account(hash: Hash, email: Text, other: Text, version: nat, active: bool)

  datatype Fingerprint =
    | OfVerify(recovery: Option<Text>)
    | OfReset(hash: Hash, recovery: Option<Text>)
    | OfChange(hash: Hash, email: Text, version: nat)

  datatype Token = Token(state: Fingerprint, exp: int, newEmail: Option<Text>, redirect: Option<Text>)

  function Recovery(cfg: Config, row: Account): Option<Text> {
    match cfg.recovery case NoFactor => None case Email => Some(row.email) case Other => Some(row.other)
  }

  function StateOf(cfg: Config, purpose: Purpose, row: Account): Fingerprint {
    match purpose
    case Verify => OfVerify(Recovery(cfg, row))
    case Reset => OfReset(row.hash, Recovery(cfg, row))
    case Change => OfChange(row.hash, row.email, row.version)
  }

  function PurposeOf(token: Token): Purpose {
    match token.state case OfVerify(_) => Verify case OfReset(_, _) => Reset case OfChange(_, _, _) => Change
  }

  function MintedAt(
    cfg: Config, purpose: Purpose, row: Account, now: int, newEmail: Option<Text>, redirect: Option<Text>): Token
  {
    Token(StateOf(cfg, purpose, row), (now + cfg.Ttl(purpose)) / 1000 * 1000, newEmail, redirect)
  }

  datatype Call =
    | Asking(row: Account)         // a request for a token read this row
    | Checked(token: Token)        // the token passed every check
    | Won(token: Token)            // and this call marked it used
    | Bumping                      // the reset's hash is written, its version bump is next
    | Done

  datatype Entry =
    | Minted(token: Token, row: Account, at: int)
    | Passed(token: Token, row: Account, at: int)
    | Redeemed(token: Token, at: int)

  /** History: `installed` are the account's password hashes in order, `log` the token events. */
  datatype State = State(
    now: int,
    row: Account,
    marks: map<Token, int>,
    calls: map<CallId, Call>,
    installed: seq<Hash>,
    log: seq<Entry>)

  datatype Step =
    | Tick(to: int)
    | Ask(c: CallId)
    | Mint(c: CallId, purpose: Purpose, newEmail: Option<Text>, redirect: Option<Text>)
    | Check(c: CallId, token: Token, purpose: Purpose)
    | Consume(c: CallId)
    | Apply(c: CallId, hash: Hash)
    | BumpVersion(c: CallId)
    | Edit(row: Account)           // any other flow's write: hash kept or fresh, version not lowered

  function Init(row: Account): State { State(0, row, map[], map[], [row.hash], []) }

  /** A token exists if it was minted; nobody else can sign one. */
  ghost predicate Exists(log: seq<Entry>, token: Token) {
    exists i :: 0 <= i < |log| && log[i].Minted? && log[i].token == token
  }

  ghost predicate Passes(cfg: Config, s: State, token: Token, purpose: Purpose) {
    && Exists(s.log, token) && PurposeOf(token) == purpose && s.now < token.exp
    && s.row.active && StateOf(cfg, purpose, s.row) == token.state
    && (purpose.Change? ==> Proposes(token))
  }

  /** An email change needs an address to change to. */
  predicate Proposes(token: Token) { token.newEmail.Some? && token.newEmail.value != "" }

  function Set(s: State, c: CallId, call: Call): State { s.(calls := s.calls[c := call]) }

  function WithHash(s: State, hash: Hash): State {
    s.(row := s.row.(hash := hash), installed := s.installed + [hash])
  }

  ghost function Next(cfg: Config, s: State, e: Step): State {
    match e
    case Tick(to) => if s.now <= to then s.(now := to) else s
    case Ask(c) => if c in s.calls then s else Set(s, c, Asking(s.row))
    case Mint(c, purpose, newEmail, redirect) =>
      if !(c in s.calls && s.calls[c].Asking?) then s
      else
        var row := s.calls[c].row;
        var token := MintedAt(cfg, purpose, row, s.now, newEmail, redirect);
        Set(s, c, Done).(log := s.log + [Minted(token, row, s.now)])
    case Check(c, token, purpose) =>
      if c in s.calls then s
      else if !Passes(cfg, s, token, purpose) then Set(s, c, Done)
      else Set(s, c, Checked(token)).(log := s.log + [Passed(token, s.row, s.now)])
    case Consume(c) =>
      if !(c in s.calls && s.calls[c].Checked?) then s
      else
        var token := s.calls[c].token;
        if token in s.marks && s.now < s.marks[token] then Set(s, c, Done)
        else Set(s, c, Won(token)).(
               marks := s.marks[token := s.now + cfg.Ttl(PurposeOf(token))],
               log := s.log + [Redeemed(token, s.now)])
    case Apply(c, hash) =>
      if !(c in s.calls && s.calls[c].Won?) then s
      else (
        match PurposeOf(s.calls[c].token)
        case Verify => Set(s, c, Done)
        case Change =>
          var proposed := s.calls[c].token.newEmail;
          Set(s, c, Done).(row := if proposed.Some? then s.row.(email := proposed.value) else s.row)
        case Reset => if hash in s.installed then s else WithHash(Set(s, c, Bumping), hash)
      )
    case BumpVersion(c) =>
      if !(c in s.calls && s.calls[c].Bumping?) then s
      else Set(s, c, Done).(row := s.row.(version := s.row.version + 1))
    case Edit(row) =>
      if row.version < s.row.version || (row.hash != s.row.hash && row.hash in s.installed) then s
      else if row.hash == s.row.hash then s.(row := row)
      else WithHash(s, row.hash).(row := row)
  }

  ghost function From(cfg: Config, s: State, run: seq<Step>): State {
    if run == [] then s else Next(cfg, From(cfg, s, run[..|run| - 1]), run[|run| - 1])
  }

  ghost function After(cfg: Config, row: Account, run: seq<Step>): State { From(cfg, Init(row), run) }

  lemma Grown(cfg: Config, s: State, run: seq<Step>, e: Step)
    ensures From(cfg, s, run + [e]) == Next(cfg, From(cfg, s, run), e)
  {
    assert (run + [e])[..|run|] == run;
  }

  // ---- acceptance implies the minted state ----------------------------------------------------

  /** Token `m` minted at log entry `i` is the one used at entry `j`, after it. */
  ghost predicate MintedBefore(cfg: Config, log: seq<Entry>, i: int, j: int)
    requires 0 <= j < |log|
  {
    && 0 <= i < j && log[i].Minted? && log[i].token == log[j].token
    && log[i].token.state == StateOf(cfg, PurposeOf(log[j].token), log[i].row)
    && log[i].at <= log[j].at && log[i].token.exp <= log[i].at + cfg.Ttl(PurposeOf(log[j].token))
  }

  ghost predicate EntryOk(cfg: Config, log: seq<Entry>, j: int)
    requires 0 <= j < |log|
  {
    match log[j]
    case Minted(token, row, at) =>
      token.state == StateOf(cfg, PurposeOf(token), row) && token.exp <= at + cfg.Ttl(PurposeOf(token))
    case Passed(token, row, at) =>
      && at < token.exp && row.active && StateOf(cfg, PurposeOf(token), row) == token.state
      && exists i :: MintedBefore(cfg, log, i, j)
    case Redeemed(token, at) => exists i :: MintedBefore(cfg, log, i, j)
  }

  ghost predicate LogOk(cfg: Config, s: State) {
    && (forall j :: 0 <= j < |s.log| ==> EntryOk(cfg, s.log, j) && s.log[j].at <= s.now)
    && (forall c :: c in s.calls && s.calls[c].Checked? ==> Exists(s.log, s.calls[c].token))
  }

  lemma MintFits(
    cfg: Config, purpose: Purpose, row: Account, now: int, newEmail: Option<Text>, redirect: Option<Text>)
    ensures var token := MintedAt(cfg, purpose, row, now, newEmail, redirect);
            PurposeOf(token) == purpose && token.exp <= now + cfg.Ttl(purpose)
  {
  }

  lemma LogGrows(cfg: Config, s: State, t: State, entry: Entry)
    requires LogOk(cfg, s) && t.log == s.log + [entry] && entry.at == s.now <= t.now
    requires entry.Minted? ==>
               entry.token.state == StateOf(cfg, PurposeOf(entry.token), entry.row) &&
               entry.token.exp <= entry.at + cfg.Ttl(PurposeOf(entry.token))
    requires entry.Passed? ==>
               entry.at < entry.token.exp && entry.row.active &&
               StateOf(cfg, PurposeOf(entry.token), entry.row) == entry.token.state
    requires !entry.Minted? ==> Exists(s.log, entry.token)
    requires forall c :: c in t.calls && t.calls[c].Checked? ==> Exists(s.log, t.calls[c].token)
    ensures LogOk(cfg, t)
  {
    forall j | 0 <= j < |t.log| ensures EntryOk(cfg, t.log, j) && t.log[j].at <= t.now {
      if j < |s.log| {
        assert EntryOk(cfg, s.log, j);
        if !s.log[j].Minted? {
          var i :| MintedBefore(cfg, s.log, i, j);
          assert MintedBefore(cfg, t.log, i, j);
        }
      } else if !entry.Minted? {
        var i :| 0 <= i < |s.log| && s.log[i].Minted? && s.log[i].token == entry.token;
        assert EntryOk(cfg, s.log, i);
        assert MintedBefore(cfg, t.log, i, j);
      }
    }
    forall c | c in t.calls && t.calls[c].Checked? ensures Exists(t.log, t.calls[c].token) {
      var i :| 0 <= i < |s.log| && s.log[i].Minted? && s.log[i].token == t.calls[c].token;
      assert t.log[i].Minted? && t.log[i].token == t.calls[c].token;
    }
  }

  lemma StepKeepsLog(cfg: Config, s: State, e: Step)
    requires LogOk(cfg, s)
    ensures LogOk(cfg, Next(cfg, s, e))
  {
    var t := Next(cfg, s, e);
    if t.log != s.log {
      NewEntryFits(cfg, s, e);
      LogGrows(cfg, s, t, t.log[|s.log|]);
    } else {
      forall j | 0 <= j < |t.log| ensures EntryOk(cfg, t.log, j) && t.log[j].at <= t.now {
        assert EntryOk(cfg, s.log, j);
      }
    }
  }

  /** What a step appends to the log, and who may hold a checked token after it. */
  lemma NewEntryFits(cfg: Config, s: State, e: Step)
    requires LogOk(cfg, s) && Next(cfg, s, e).log != s.log
    ensures var t := Next(cfg, s, e);
            && |t.log| == |s.log| + 1 && t.log == s.log + [t.log[|s.log|]] && t.log[|s.log|].at == s.now <= t.now
            && (var entry := t.log[|s.log|];
                && (entry.Minted? ==>
                      entry.token.state == StateOf(cfg, PurposeOf(entry.token), entry.row) &&
                      entry.token.exp <= entry.at + cfg.Ttl(PurposeOf(entry.token)))
                && (entry.Passed? ==>
                      entry.at < entry.token.exp && entry.row.active &&
                      StateOf(cfg, PurposeOf(entry.token), entry.row) == entry.token.state)
                && (!entry.Minted? ==> Exists(s.log, entry.token)))
            && (forall c :: c in t.calls && t.calls[c].Checked? ==> Exists(s.log, t.calls[c].token))
  {
    if e.Mint? {
      MintFits(cfg, e.purpose, s.calls[e.c].row, s.now, e.newEmail, e.redirect);
    }
  }

  lemma {:induction false} RunKeepsLog(cfg: Config, row: Account, run: seq<Step>)
    ensures LogOk(cfg, After(cfg, row, run))
  {
    if run == [] {
    } else {
      RunKeepsLog(cfg, row, run[..|run| - 1]);
      StepKeepsLog(cfg, After(cfg, row, run[..|run| - 1]), run[|run| - 1]);
    }
  }

  /**
   A token that passes its check was minted earlier, has not expired, and the account is active
   and back in, or still in, the very state that was read for the minting.
   */
  lemma AcceptedMatchesMinting(cfg: Config, row: Account, run: seq<Step>, j: nat)
    requires j < |After(cfg, row, run).log| && After(cfg, row, run).log[j].Passed?
    ensures var log := After(cfg, row, run).log;
            var purpose := PurposeOf(log[j].token);
            log[j].row.active && log[j].at < log[j].token.exp &&
            exists i :: 0 <= i < j && log[i].Minted? && log[i].token == log[j].token &&
              StateOf(cfg, purpose, log[i].row) == StateOf(cfg, purpose, log[j].row) &&
              log[i].at <= log[j].at < log[i].at + cfg.Ttl(purpose)
  {
    RunKeepsLog(cfg, row, run);
    var log := After(cfg, row, run).log;
    assert EntryOk(cfg, log, j);
    var i :| MintedBefore(cfg, log, i, j);
    assert 0 <= i < j && log[i].Minted? && log[i].token == log[j].token;
  }

  // ---- one redemption per token -----------------------------------------------------------------

  /** When the token was last redeemed, if ever. */
  function LastRedeemed(log: seq<Entry>, token: Token): Option<int> {
    if log == [] then None
    else
      var e := log[|log| - 1];
      if e.Redeemed? && e.token == token then Some(e.at) else LastRedeemed(log[..|log| - 1], token)
  }

  function LastAfter(log: seq<Entry>, e: Entry, token: Token): Option<int> {
    if e.Redeemed? && e.token == token then Some(e.at) else LastRedeemed(log, token)
  }

  lemma LastRedeemedSnoc(log: seq<Entry>, e: Entry, token: Token)
    ensures LastRedeemed(log + [e], token) == LastAfter(log, e, token)
  {
    assert (log + [e])[..|log|] == log;
  }

  /** Every redemption in the log is no later than the last one of its token. */
  lemma {:induction false} LastIsLast(s: State, n: nat, i: nat)
    requires i < n <= |s.log| && s.log[i].Redeemed?
    requires forall k, m :: 0 <= k < m < |s.log| ==> s.log[k].at <= s.log[m].at
    ensures var last := LastRedeemed(s.log[..n], s.log[i].token); last.Some? && s.log[i].at <= last.value
  {
    var front := s.log[..n];
    assert front[..n - 1] == s.log[..n - 1];
    if i < n - 1 {
      LastIsLast(s, n - 1, i);
    }
  }

  /** A token is marked exactly if it was redeemed, for one lifetime from its last redemption. */
  ghost predicate MarksCover(cfg: Config, s: State) {
    forall token ::
      && (token in s.marks <==> LastRedeemed(s.log, token).Some?)
      && (token in s.marks ==> s.marks[token] == LastRedeemed(s.log, token).value + cfg.Ttl(PurposeOf(token)))
  }

  ghost predicate LogInOrder(s: State) {
    (forall i, j :: 0 <= i < j < |s.log| ==> s.log[i].at <= s.log[j].at) &&
    forall i :: 0 <= i < |s.log| ==> s.log[i].at <= s.now
  }

  ghost predicate RedeemedApart(cfg: Config, log: seq<Entry>) {
    forall i, j :: 0 <= i < j < |log| && log[i].Redeemed? && log[j].Redeemed? && log[i].token == log[j].token ==>
      log[i].at + cfg.Ttl(PurposeOf(log[i].token)) <= log[j].at
  }

  lemma StepKeepsOrder(cfg: Config, s: State, e: Step)
    requires LogInOrder(s)
    ensures LogInOrder(Next(cfg, s, e))
  {
  }

  lemma StepKeepsMarks(cfg: Config, s: State, e: Step)
    requires MarksCover(cfg, s)
    ensures MarksCover(cfg, Next(cfg, s, e))
  {
    var t := Next(cfg, s, e);
    if t.log != s.log {
      LogSnoc(cfg, s, e);
      forall token ensures LastRedeemed(t.log, token) == LastAfter(s.log, t.log[|s.log|], token) {
        LastRedeemedSnoc(s.log, t.log[|s.log|], token);
      }
    }
  }

  lemma LogSnoc(cfg: Config, s: State, e: Step)
    requires Next(cfg, s, e).log != s.log
    ensures var t := Next(cfg, s, e);
            && |t.log| == |s.log| + 1 && t.log == s.log + [t.log[|s.log|]]
            && (t.log[|s.log|].Redeemed? ==>
                  t.log[|s.log|].at == s.now &&
                  t.marks == s.marks[t.log[|s.log|].token := s.now + cfg.Ttl(PurposeOf(t.log[|s.log|].token))])
            && (!t.log[|s.log|].Redeemed? ==> t.marks == s.marks)
  {
  }

  lemma StepKeepsApart(cfg: Config, s: State, e: Step)
    requires MarksCover(cfg, s) && LogInOrder(s) && RedeemedApart(cfg, s.log)
    ensures RedeemedApart(cfg, Next(cfg, s, e).log)
  {
    var t := Next(cfg, s, e);
    if t.log != s.log {
      LogSnoc(cfg, s, e);
      RedemptionWaited(cfg, s, e);
    }
  }

  /** A new redemption comes a whole lifetime after every earlier one of its token. */
  lemma RedemptionWaited(cfg: Config, s: State, e: Step)
    requires MarksCover(cfg, s) && LogInOrder(s) && |Next(cfg, s, e).log| == |s.log| + 1
    ensures var entry := Next(cfg, s, e).log[|s.log|];
            entry.Redeemed? ==>
              forall i :: 0 <= i < |s.log| && s.log[i].Redeemed? && s.log[i].token == entry.token ==>
                s.log[i].at + cfg.Ttl(PurposeOf(entry.token)) <= entry.at
  {
    var entry := Next(cfg, s, e).log[|s.log|];
    if entry.Redeemed? {
      forall i | 0 <= i < |s.log| && s.log[i].Redeemed? && s.log[i].token == entry.token
        ensures s.log[i].at + cfg.Ttl(PurposeOf(entry.token)) <= entry.at
      {
        LastIsLast(s, |s.log|, i);
        assert s.log[..|s.log|] == s.log;
        assert entry.token in s.marks;
      }
    }
  }

  lemma {:induction false} RunKeepsMarks(cfg: Config, row: Account, run: seq<Step>)
    ensures var s := After(cfg, row, run);
            MarksCover(cfg, s) && RedeemedApart(cfg, s.log) && LogInOrder(s)
  {
    if run == [] {
    } else {
      var s, e := After(cfg, row, run[..|run| - 1]), run[|run| - 1];
      RunKeepsMarks(cfg, row, run[..|run| - 1]);
      StepKeepsMarks(cfg, s, e);
      StepKeepsApart(cfg, s, e);
      StepKeepsOrder(cfg, s, e);
    }
  }

  /**
   Exactly when a call that passed its check redeems the token: it was never redeemed, or a whole
   lifetime has gone by since its last redemption.
   */
  lemma RedeemsIff(cfg: Config, row: Account, run: seq<Step>, c: CallId)
    requires c in After(cfg, row, run).calls && After(cfg, row, run).calls[c].Checked?
    ensures var s := After(cfg, row, run);
            var token := s.calls[c].token;
            var last := LastRedeemed(s.log, token);
            var t := After(cfg, row, run + [Consume(c)]);
            c in t.calls &&
            (t.calls[c] == Won(token) <==> last.None? || last.value + cfg.Ttl(PurposeOf(token)) <= s.now) &&
            (t.calls[c] == Won(token) <==> t.log == s.log + [Redeemed(token, s.now)])
  {
    RunKeepsMarks(cfg, row, run);
    Grown(cfg, Init(row), run, Consume(c));
  }

  /**
   The used mark outlives the token: a second redemption of one token can only come a whole
   lifetime after the first, when the token itself has expired. So no token whose redemptions all
   mark it before its expiry is redeemed twice.
   */
  lemma SecondRedemptionIsTooLate(cfg: Config, row: Account, run: seq<Step>, i: nat, j: nat)
    requires i < j < |After(cfg, row, run).log|
    requires var log := After(cfg, row, run).log;
             log[i].Redeemed? && log[j].Redeemed? && log[i].token == log[j].token
    ensures var log := After(cfg, row, run).log;
            log[i].at + cfg.Ttl(PurposeOf(log[i].token)) <= log[j].at && log[j].token.exp <= log[j].at
  {
    var log := After(cfg, row, run).log;
    RunKeepsLog(cfg, row, run);
    RunKeepsMarks(cfg, row, run);
    assert EntryOk(cfg, log, i);
    var m :| MintedBefore(cfg, log, m, i);
  }

  /** Two runs, one after the other. */
  lemma {:induction false} Joined(cfg: Config, s: State, run: seq<Step>, more: seq<Step>)
    ensures From(cfg, s, run + more) == From(cfg, From(cfg, s, run), more)
  {
    if more == [] {
      assert run + more == run;
    } else {
      assert (run + more)[..|run + more| - 1] == run + more[..|more| - 1];
      Joined(cfg, s, run, more[..|more| - 1]);
    }
  }

  /** Two tokens of one purpose, minted a second apart from one row and both checked at once. */
  function Proposed(purpose: Purpose): Option<Text> { if purpose.Change? then Some("new") else None }

  function FirstToken(cfg: Config, purpose: Purpose, row: Account): Token {
    MintedAt(cfg, purpose, row, 0, Proposed(purpose), None)
  }

  function SecondToken(cfg: Config, purpose: Purpose, row: Account): Token {
    MintedAt(cfg, purpose, row, 1000, Proposed(purpose), None)
  }

  function Minting(purpose: Purpose): seq<Step> {
    [] + [Ask(0)] + [Mint(0, purpose, Proposed(purpose), None)] + [Tick(1000)] + [Ask(1)] +
    [Mint(1, purpose, Proposed(purpose), None)]
  }

  lemma MintedTwo(cfg: Config, row: Account, purpose: Purpose)
    ensures var first, second := FirstToken(cfg, purpose, row), SecondToken(cfg, purpose, row);
            After(cfg, row, Minting(purpose)) ==
            State(1000, row, map[], map[0 := Done, 1 := Done], [row.hash],
                  [Minted(first, row, 0), Minted(second, row, 1000)])
    ensures FirstToken(cfg, purpose, row) != SecondToken(cfg, purpose, row)
  {
    var s := Init(row);
    var r1: seq<Step> := [] + [Ask(0)];
    Grown(cfg, s, [], Ask(0));
    assert After(cfg, row, r1) == State(0, row, map[], map[0 := Asking(row)], [row.hash], []);
    Grown(cfg, s, r1, Mint(0, purpose, Proposed(purpose), None));
    var r2 := r1 + [Mint(0, purpose, Proposed(purpose), None)];
    assert After(cfg, row, r2) ==
           State(0, row, map[], map[0 := Done], [row.hash], [Minted(FirstToken(cfg, purpose, row), row, 0)]);
    Grown(cfg, s, r2, Tick(1000));
    Grown(cfg, s, r2 + [Tick(1000)], Ask(1));
    var r4 := r2 + [Tick(1000)] + [Ask(1)];
    assert After(cfg, row, r4) ==
           State(1000, row, map[], map[0 := Done, 1 := Asking(row)], [row.hash],
                 [Minted(FirstToken(cfg, purpose, row), row, 0)]);
    Grown(cfg, s, r4, Mint(1, purpose, Proposed(purpose), None));
  }

  /** One of the minted tokens checked. */
  lemma CheckedOne(cfg: Config, row: Account, purpose: Purpose, a: Token)
    requires row.active && 2000 <= cfg.Ttl(purpose) && a == FirstToken(cfg, purpose, row)
    ensures After(cfg, row, Minting(purpose) + [Check(2, a, purpose)]) ==
            State(1000, row, map[], map[0 := Done, 1 := Done, 2 := Checked(a)], [row.hash],
                  [Minted(a, row, 0), Minted(SecondToken(cfg, purpose, row), row, 1000), Passed(a, row, 1000)])
  {
    MintedTwo(cfg, row, purpose);
    var s := After(cfg, row, Minting(purpose));
    assert s.log[0].Minted? && s.log[0].token == a;
    assert Exists(s.log, a);
    Grown(cfg, Init(row), Minting(purpose), Check(2, a, purpose));
  }

  /** Any two of the minted tokens, or one of them twice, can be checked by two calls at once. */
  lemma CheckedTwo(cfg: Config, row: Account, purpose: Purpose, a: Token, b: Token)
    requires row.active && 2000 <= cfg.Ttl(purpose)
    requires a == FirstToken(cfg, purpose, row)
    requires b == FirstToken(cfg, purpose, row) || b == SecondToken(cfg, purpose, row)
    ensures var s := After(cfg, row, Minting(purpose) + [Check(2, a, purpose)] + [Check(3, b, purpose)]);
            && 2 in s.calls && s.calls[2] == Checked(a) && 3 in s.calls && s.calls[3] == Checked(b)
            && s.marks == map[] && s.installed == [row.hash] && s.now == 1000 && |s.log| == 4
  {
    CheckedOne(cfg, row, purpose, a);
    var s := After(cfg, row, Minting(purpose) + [Check(2, a, purpose)]);
    assert s.log[0].Minted? && s.log[1].Minted? && (s.log[0].token == b || s.log[1].token == b);
    assert Exists(s.log, b);
    Grown(cfg, Init(row), Minting(purpose) + [Check(2, a, purpose)], Check(3, b, purpose));
  }

  /**
   Such a late second redemption does happen, for every purpose: two calls check the token in
   time, one marks it, and the other marks it only once the first mark has lapsed.
   */
  lemma LateSecondRedemption(cfg: Config, row: Account, purpose: Purpose) returns (run: seq<Step>)
    requires row.active && 2000 <= cfg.Ttl(purpose)
    ensures var log := After(cfg, row, run).log;
            |log| == 6 && log[4].Redeemed? && log[5].Redeemed? && log[4].token == log[5].token
  {
    var token := FirstToken(cfg, purpose, row);
    var checked := Minting(purpose) + [Check(2, token, purpose)] + [Check(3, token, purpose)];
    CheckedTwo(cfg, row, purpose, token, token);
    var s := After(cfg, row, checked);
    var rest := [] + [Consume(2)] + [Tick(s.now + cfg.Ttl(PurposeOf(token)))] + [Consume(3)];
    run := checked + rest;
    Joined(cfg, Init(row), checked, rest);
    BothRedeem(cfg, s, token, 2, 3);
  }

  lemma BothRedeem(cfg: Config, s: State, token: Token, c: CallId, d: CallId)
    requires c != d && c in s.calls && d in s.calls
    requires s.calls[c] == Checked(token) && s.calls[d] == Checked(token) && token !in s.marks
    ensures var late := s.now + cfg.Ttl(PurposeOf(token));
            var t := From(cfg, s, [] + [Consume(c)] + [Tick(late)] + [Consume(d)]);
            t.log == s.log + [Redeemed(token, s.now)] + [Redeemed(token, late)]
  {
    var late := s.now + cfg.Ttl(PurposeOf(token));
    Grown(cfg, s, [], Consume(c));
    Grown(cfg, s, [] + [Consume(c)], Tick(late));
    Grown(cfg, s, [] + [Consume(c)] + [Tick(late)], Consume(d));
  }

  // ---- a reset kills the outstanding tokens --------------------------------------------------------

  /** The password hash a token is bound to, if any. */
  function BoundHash(token: Token): Option<Hash> {
    match token.state
    case OfVerify(_) => None
    case OfReset(hash, _) => Some(hash)
    case OfChange(hash, _, _) => Some(hash)
  }

  ghost predicate Distinct(hashes: seq<Hash>) {
    forall i, j :: 0 <= i < j < |hashes| ==> hashes[i] != hashes[j]
  }

  ghost predicate HashesOk(s: State) {
    |s.installed| > 0 && s.row.hash == s.installed[|s.installed| - 1] && Distinct(s.installed)
  }

  lemma StepKeepsHashes(cfg: Config, s: State, e: Step)
    requires HashesOk(s)
    ensures HashesOk(Next(cfg, s, e)) && s.installed <= Next(cfg, s, e).installed
  {
  }

  lemma {:induction false} FromKeepsHashes(cfg: Config, s: State, run: seq<Step>)
    requires HashesOk(s)
    ensures HashesOk(From(cfg, s, run)) && s.installed <= From(cfg, s, run).installed
  {
    if run == [] {
    } else {
      FromKeepsHashes(cfg, s, run[..|run| - 1]);
      StepKeepsHashes(cfg, From(cfg, s, run[..|run| - 1]), run[|run| - 1]);
    }
  }

  /** A hash that was replaced never comes back. */
  lemma ReplacedForGood(cfg: Config, s: State, more: seq<Step>, hash: Hash)
    requires HashesOk(s) && hash in s.installed && hash != s.row.hash
    ensures From(cfg, s, more).row.hash != hash
  {
    FromKeepsHashes(cfg, s, more);
    var t := From(cfg, s, more);
    var k :| 0 <= k < |s.installed| && s.installed[k] == hash;
    assert t.installed[k] == hash;
  }

  /**
   Redeeming a reset token kills every reset and email-change token bound to a hash the account
   had before, itself included, whenever that token was or will be signed: once the new hash is
   written, in no continuation does such a token pass its check.
   */
  lemma ResetKillsOutstanding(
    cfg: Config, row: Account, run: seq<Step>, c: CallId, hash: Hash, more: seq<Step>, token: Token, purpose: Purpose)
    requires var s := After(cfg, row, run);
             c in s.calls && s.calls[c].Won? && PurposeOf(s.calls[c].token) == Reset && hash !in s.installed
    requires BoundHash(token).Some? && BoundHash(token).value in After(cfg, row, run).installed
    ensures !Passes(cfg, From(cfg, After(cfg, row, run + [Apply(c, hash)]), more), token, purpose)
  {
    var s := After(cfg, row, run);
    FromKeepsHashes(cfg, Init(row), run);
    Grown(cfg, Init(row), run, Apply(c, hash));
    var t := Next(cfg, s, Apply(c, hash));
    StepKeepsHashes(cfg, s, Apply(c, hash));
    ReplacedForGood(cfg, t, more, BoundHash(token).value);
  }

  ghost predicate Bound(s: State, token: Token) {
    BoundHash(token).Some? ==> BoundHash(token).value in s.installed
  }

  ghost predicate CallBound(s: State, call: Call) {
    (call.Asking? ==> call.row.hash in s.installed) && (call.Checked? ==> Bound(s, call.token))
  }

  /** Every token outstanding at the reset is bound to a hash the account had before it. */
  ghost predicate BoundToInstalled(s: State) {
    && (forall i :: 0 <= i < |s.log| ==> Bound(s, s.log[i].token))
    && (forall c :: c in s.calls ==> CallBound(s, s.calls[c]))
  }

  lemma CallStaysBound(cfg: Config, s: State, e: Step, c: CallId)
    requires HashesOk(s) && BoundToInstalled(s) && c in Next(cfg, s, e).calls
    ensures CallBound(Next(cfg, s, e), Next(cfg, s, e).calls[c])
  {
    var t := Next(cfg, s, e);
    StepKeepsHashes(cfg, s, e);
    CallAfter(cfg, s, e, c);
    if c in s.calls && t.calls[c] == s.calls[c] {
      assert CallBound(s, s.calls[c]);
    } else if t.calls[c].Checked? {
      ExistingIsBound(s, t.calls[c].token);
    }
  }

  /** What a step leaves a call holding: what it held, the row as it is, or a token that exists. */
  lemma CallAfter(cfg: Config, s: State, e: Step, c: CallId)
    requires c in Next(cfg, s, e).calls
    ensures var call := Next(cfg, s, e).calls[c];
            || (c in s.calls && call == s.calls[c]) || call.Won? || call.Bumping? || call.Done?
            || (call.Asking? && call.row == s.row) || (call.Checked? && Exists(s.log, call.token))
  {
  }

  lemma ExistingIsBound(s: State, token: Token)
    requires BoundToInstalled(s) && Exists(s.log, token)
    ensures Bound(s, token)
  {
    var i :| 0 <= i < |s.log| && s.log[i].Minted? && s.log[i].token == token;
    assert Bound(s, s.log[i].token);
  }

  lemma EntryStaysBound(cfg: Config, s: State, e: Step, i: nat)
    requires HashesOk(s) && BoundToInstalled(s) && i < |Next(cfg, s, e).log|
    ensures Bound(Next(cfg, s, e), Next(cfg, s, e).log[i].token)
  {
    StepKeepsHashes(cfg, s, e);
    if i < |s.log| {
      assert Bound(s, s.log[i].token);
    } else if e.Check? {
      var k :| 0 <= k < |s.log| && s.log[k].Minted? && s.log[k].token == e.token;
      assert Bound(s, s.log[k].token);
    } else {
      assert CallBound(s, s.calls[e.c]);
    }
  }

  lemma StepKeepsBound(cfg: Config, s: State, e: Step)
    requires HashesOk(s) && BoundToInstalled(s)
    ensures BoundToInstalled(Next(cfg, s, e))
  {
    var t := Next(cfg, s, e);
    forall i | 0 <= i < |t.log| ensures Bound(t, t.log[i].token) {
      EntryStaysBound(cfg, s, e, i);
    }
    forall c | c in t.calls ensures CallBound(t, t.calls[c]) {
      CallStaysBound(cfg, s, e, c);
    }
  }

  lemma {:induction false} OutstandingAreBound(cfg: Config, row: Account, run: seq<Step>)
    ensures BoundToInstalled(After(cfg, row, run))
  {
    if run == [] {
    } else {
      OutstandingAreBound(cfg, row, run[..|run| - 1]);
      FromKeepsHashes(cfg, Init(row), run[..|run| - 1]);
      StepKeepsBound(cfg, After(cfg, row, run[..|run| - 1]), run[|run| - 1]);
    }
  }

  /** In particular every reset and email-change token minted so far is dead for good. */
  lemma ResetKillsMinted(
    cfg: Config, row: Account, run: seq<Step>, c: CallId, hash: Hash, more: seq<Step>, i: nat, purpose: Purpose)
    requires var s := After(cfg, row, run);
             c in s.calls && s.calls[c].Won? && PurposeOf(s.calls[c].token) == Reset && hash !in s.installed
    requires i < |After(cfg, row, run).log| && PurposeOf(After(cfg, row, run).log[i].token) != Verify
    ensures var token := After(cfg, row, run).log[i].token;
            !Passes(cfg, From(cfg, After(cfg, row, run + [Apply(c, hash)]), more), token, purpose)
  {
    OutstandingAreBound(cfg, row, run);
    assert Bound(After(cfg, row, run), After(cfg, row, run).log[i].token);
    ResetKillsOutstanding(cfg, row, run, c, hash, more, After(cfg, row, run).log[i].token, purpose);
  }

  /** What a reset does not reach: the calls that had passed their check, or won, before its write. */
  ghost predicate Past(s: State, d: CallId, token: Token) {
    d in s.calls && (s.calls[d] == Checked(token) || s.calls[d] == Won(token))
  }

  lemma StepPast(cfg: Config, s: State, e: Step, d: CallId, token: Token)
    requires Past(Next(cfg, s, e), d, token)
    ensures Past(s, d, token) || (e.Check? && Passes(cfg, s, token, e.purpose))
  {
  }

  /**
   Whoever redeems, after the write of a reset, a reset or email-change token bound to an earlier
   hash had passed that token's check before the write.
   */
  lemma {:induction false} AppliedAfterResetWasChecked(
    cfg: Config, row: Account, run: seq<Step>, c: CallId, hash: Hash, more: seq<Step>, d: CallId, token: Token)
    requires var s := After(cfg, row, run);
             c in s.calls && s.calls[c].Won? && PurposeOf(s.calls[c].token) == Reset && hash !in s.installed
    requires BoundHash(token).Some? && BoundHash(token).value in After(cfg, row, run).installed
    requires Past(From(cfg, After(cfg, row, run + [Apply(c, hash)]), more), d, token)
    ensures Past(After(cfg, row, run), d, token)
  {
    var written := After(cfg, row, run + [Apply(c, hash)]);
    if more == [] {
      Grown(cfg, Init(row), run, Apply(c, hash));
      StepPast(cfg, After(cfg, row, run), Apply(c, hash), d, token);
    } else {
      var rest, e := more[..|more| - 1], more[|more| - 1];
      StepPast(cfg, From(cfg, written, rest), e, d, token);
      if e.Check? {
        ResetKillsOutstanding(cfg, row, run, c, hash, rest, token, e.purpose);
      }
      AppliedAfterResetWasChecked(cfg, row, run, c, hash, rest, d, token);
    }
  }

  /**
   Exactly when a request for another reset token, run to its end after the write of a reset,
   still sets a password: its check came before that write, and its mark was free.
   */
  lemma StillAppliesIff(
    cfg: Config, row: Account, run: seq<Step>, c: CallId, hash: Hash, d: CallId, token: Token, other: Hash)
    requires var s := After(cfg, row, run);
             && c in s.calls && s.calls[c].Won? && PurposeOf(s.calls[c].token) == Reset
             && hash !in s.installed && other !in s.installed && other != hash
             && d != c && (d in s.calls ==> s.calls[d] == Checked(token))
    requires PurposeOf(token) == Reset && BoundHash(token).value in After(cfg, row, run).installed
    ensures var s := After(cfg, row, run);
            var rest := [] + [Check(d, token, Reset)] + [Consume(d)] + [Apply(d, other)];
            var t := From(cfg, After(cfg, row, run + [Apply(c, hash)]), rest);
            t.row.hash == other <==>
            d in s.calls && s.calls[d] == Checked(token) && (token !in s.marks || s.marks[token] <= s.now)
  {
    var s, u := After(cfg, row, run), After(cfg, row, run + [Apply(c, hash)]);
    Grown(cfg, Init(row), run, Apply(c, hash));
    ResetKillsOutstanding(cfg, row, run, c, hash, [], token, Reset);
    FromKeepsHashes(cfg, Init(row), run);
    Grown(cfg, u, [], Check(d, token, Reset));
    Grown(cfg, u, [] + [Check(d, token, Reset)], Consume(d));
    Grown(cfg, u, [] + [Check(d, token, Reset)] + [Consume(d)], Apply(d, other));
  }

  /**
   It does happen: two different reset tokens checked before either is applied are both redeemed,
   and the later write stands.
   */
  lemma OverlappingResetsBothApply(cfg: Config, row: Account, first: Hash, second: Hash) returns (run: seq<Step>)
    requires row.active && 2000 <= cfg.resetTtl
    requires first != row.hash && second != row.hash && first != second
    ensures var t := After(cfg, row, run);
            t.installed == [row.hash, first, second] && t.row.hash == second
  {
    var a, b := FirstToken(cfg, Reset, row), SecondToken(cfg, Reset, row);
    var checked := Minting(Reset) + [Check(2, a, Reset)] + [Check(3, b, Reset)];
    MintedTwo(cfg, row, Reset);
    CheckedTwo(cfg, row, Reset, a, b);
    var rest := [] + [Consume(2)] + [Apply(2, first)] + [Consume(3)] + [Apply(3, second)];
    run := checked + rest;
    Joined(cfg, Init(row), checked, rest);
    BothApply(cfg, After(cfg, row, checked), 2, 3, first, second);
  }

  lemma BothApply(cfg: Config, s: State, c: CallId, d: CallId, first: Hash, second: Hash)
    requires c != d && c in s.calls && d in s.calls
    requires s.calls[c].Checked? && s.calls[d].Checked? && s.calls[c].token != s.calls[d].token
    requires PurposeOf(s.calls[c].token) == Reset && PurposeOf(s.calls[d].token) == Reset
    requires s.calls[c].token !in s.marks && s.calls[d].token !in s.marks
    requires first !in s.installed && second !in s.installed && first != second
    ensures var t := From(cfg, s, [] + [Consume(c)] + [Apply(c, first)] + [Consume(d)] + [Apply(d, second)]);
            t.installed == s.installed + [first, second] && t.row.hash == second
  {
    Grown(cfg, s, [], Consume(c));
    Grown(cfg, s, [] + [Consume(c)], Apply(c, first));
    Grown(cfg, s, [] + [Consume(c)] + [Apply(c, first)], Consume(d));
    Grown(cfg, s, [] + [Consume(c)] + [Apply(c, first)] + [Consume(d)], Apply(d, second));
  }
}
