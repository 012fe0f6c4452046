/**
 What each request with an emailed token is answered, over every run and with any other requests,
 edits and time between its steps: which tokens pass, which redeem, and exactly what a redeemed one
 writes to the account.
 */
module EmailAnswers {
  import opened Basics
  import opened EmailTokens

  // ---- which tokens pass ------------------------------------------------------------------------

  /** Signed at `at` for the state of `row`: good until then plus its lifetime, to the whole second. */
  ghost predicate SignedFor(cfg: Config, token: Token, row: Account, at: int) {
    token.state == StateOf(cfg, PurposeOf(token), row) && token.exp % 1000 == 0 &&
    token.exp <= at + cfg.Ttl(PurposeOf(token)) < token.exp + 1000
  }

  lemma {:induction false} MintedAreSigned(cfg: Config, row: Account, run: seq<Step>, i: nat)
    requires i < |After(cfg, row, run).log| && After(cfg, row, run).log[i].Minted?
    ensures var Minted(token, from, at) := After(cfg, row, run).log[i]; SignedFor(cfg, token, from, at)
  {
    var front, last := run[..|run| - 1], run[|run| - 1];
    if i < |After(cfg, row, front).log| {
      EarlierEntriesStay(cfg, After(cfg, row, front), last, i);
      MintedAreSigned(cfg, row, front, i);
    }
  }

  lemma EarlierEntriesStay(cfg: Config, s: State, e: Step, i: nat)
    requires i < |s.log|
    ensures i < |Next(cfg, s, e).log| && Next(cfg, s, e).log[i] == s.log[i]
  {
  }

  /** What must not have changed for a token of that purpose: nothing else of the account matters to it. */
  predicate Unchanged(cfg: Config, purpose: Purpose, a: Account, b: Account) {
    var sameRecovery := match cfg.recovery
                        case NoFactor => true
                        case Email => a.email == b.email
                        case Other => a.other == b.other;
    match purpose
    case Verify => sameRecovery
    case Reset => a.hash == b.hash && sameRecovery
    case Change => a.hash == b.hash && a.email == b.email && a.version == b.version
  }

  function Lifetime(cfg: Config, purpose: Purpose): nat {
    if purpose.Verify? then cfg.verifyTtl else if purpose.Reset? then cfg.resetTtl else cfg.changeTtl
  }

  /** The token was minted in the run from the row of log entry `i`, for what the account is like now. */
  ghost predicate StillGood(cfg: Config, s: State, token: Token, purpose: Purpose, i: nat) {
    && i < |s.log| && s.log[i].Minted? && s.log[i].token == token && PurposeOf(token) == purpose
    && Unchanged(cfg, purpose, s.row, s.log[i].row)
    && s.now < (s.log[i].at + Lifetime(cfg, purpose)) / 1000 * 1000
  }

  /**
   A check passes exactly if the token was minted for this purpose within its lifetime, the account is
   active and unchanged in what the purpose binds since the read for the minting, and an email change
   proposes an address.
   */
  lemma CheckAnswered(cfg: Config, row: Account, run: seq<Step>, c: CallId, token: Token, purpose: Purpose)
    requires c !in After(cfg, row, run).calls
    ensures var s, t := After(cfg, row, run), After(cfg, row, run + [Check(c, token, purpose)]);
            c in t.calls && (t.calls[c] == Checked(token) || t.calls[c] == Done) &&
            (t.calls[c] == Checked(token) <==>
               && s.row.active && (purpose.Change? ==> Proposes(token))
               && exists i: nat :: StillGood(cfg, s, token, purpose, i))
  {
    var s := After(cfg, row, run);
    Grown(cfg, Init(row), run, Check(c, token, purpose));
    forall i: nat | i < |s.log| && s.log[i].Minted? ensures SignedFor(cfg, s.log[i].token, s.log[i].row, s.log[i].at) {
      MintedAreSigned(cfg, row, run, i);
    }
    PassesIffGood(cfg, s, token, purpose);
  }

  lemma PassesIffGood(cfg: Config, s: State, token: Token, purpose: Purpose)
    requires forall i: nat :: i < |s.log| && s.log[i].Minted? ==>
               SignedFor(cfg, s.log[i].token, s.log[i].row, s.log[i].at)
    ensures Passes(cfg, s, token, purpose) <==>
              && s.row.active && (purpose.Change? ==> Proposes(token))
              && exists i: nat :: StillGood(cfg, s, token, purpose, i)
  {
    if Passes(cfg, s, token, purpose) {
      var i :| 0 <= i < |s.log| && s.log[i].Minted? && s.log[i].token == token;
      assert StillGood(cfg, s, token, purpose, i);
    }
  }

  // ---- a request run to its end --------------------------------------------------------------------

  predicate StepOf(e: Step, c: CallId) { !e.Tick? && !e.Edit? && e.c == c }

  ghost predicate OfOthers(steps: seq<Step>, c: CallId) {
    forall i :: 0 <= i < |steps| ==> !StepOf(steps[i], c)
  }

  function CallOf(s: State, c: CallId): Option<Call> { if c in s.calls then Some(s.calls[c]) else None }

  lemma OtherLeaves(cfg: Config, s: State, e: Step, c: CallId)
    requires !StepOf(e, c)
    ensures CallOf(Next(cfg, s, e), c) == CallOf(s, c)
  {
  }

  lemma {:induction false} OthersLeave(cfg: Config, row: Account, run: seq<Step>, others: seq<Step>, c: CallId)
    requires OfOthers(others, c)
    ensures CallOf(After(cfg, row, run + others), c) == CallOf(After(cfg, row, run), c)
  {
    if others == [] {
      assert run + others == run;
    } else {
      var n := |others| - 1;
      OthersLeave(cfg, row, run, others[..n], c);
      OtherLeaves(cfg, After(cfg, row, run + others[..n]), others[n], c);
      assert run + others == (run + others[..n]) + [others[n]];
      Grown(cfg, Init(row), run + others[..n], others[n]);
    }
  }

  /** One step of a request and whatever comes before its next one. */
  lemma Stage(cfg: Config, row: Account, run: seq<Step>, e: Step, others: seq<Step>, c: CallId)
    requires OfOthers(others, c)
    ensures CallOf(After(cfg, row, run + [e] + others), c) == CallOf(Next(cfg, After(cfg, row, run), e), c)
  {
    Grown(cfg, Init(row), run, e);
    OthersLeave(cfg, row, run + [e], others, c);
  }

  /** A request for a token is signed for the row it read, with what it asked for, at the time of signing. */
  lemma MintAnswered(cfg: Config, row: Account, run: seq<Step>, c: CallId, others: seq<Step>, mint: Step)
    requires c !in After(cfg, row, run).calls && OfOthers(others, c) && mint.Mint? && mint.c == c
    ensures var asked := run + [Ask(c)] + others;
            var s, t := After(cfg, row, asked), After(cfg, row, asked + [mint]);
            && |t.log| == |s.log| + 1 && t.log[..|s.log|] == s.log && t.row == s.row
            && (var entry := t.log[|s.log|];
                && entry.Minted? && entry.row == After(cfg, row, run).row && entry.at == s.now
                && SignedFor(cfg, entry.token, entry.row, entry.at) && PurposeOf(entry.token) == mint.purpose
                && entry.token.newEmail == mint.newEmail && entry.token.redirect == mint.redirect)
  {
    Stage(cfg, row, run, Ask(c), others, c);
    Grown(cfg, Init(row), run + [Ask(c)] + others, mint);
  }

  /** The mark of a token is free: it was never redeemed, or a whole lifetime ago. */
  predicate Free(cfg: Config, s: State, token: Token) {
    var last := LastRedeemed(s.log, token);
    last.None? || last.value + cfg.Ttl(PurposeOf(token)) <= s.now
  }

  /** A request that has checked its token, and one that has also marked it, at any time later. */
  function Checking(run: seq<Step>, c: CallId, token: Token, a: seq<Step>): seq<Step> {
    run + [Check(c, token, PurposeOf(token))] + a
  }

  function Marking(run: seq<Step>, c: CallId, token: Token, a: seq<Step>, b: seq<Step>): seq<Step> {
    Checking(run, c, token, a) + [Consume(c)] + b
  }

  /** The token passes when it is checked, and its mark is free when it is marked. */
  ghost predicate Wins(cfg: Config, row: Account, run: seq<Step>, c: CallId, token: Token, a: seq<Step>) {
    Passes(cfg, After(cfg, row, run), token, PurposeOf(token)) &&
    Free(cfg, After(cfg, row, Checking(run, c, token, a)), token)
  }

  lemma WinsIff(cfg: Config, row: Account, run: seq<Step>, c: CallId, token: Token, a: seq<Step>, b: seq<Step>)
    requires c !in After(cfg, row, run).calls && OfOthers(a, c) && OfOthers(b, c)
    ensures CallOf(After(cfg, row, Marking(run, c, token, a, b)), c) ==
            Some(if Wins(cfg, row, run, c, token, a) then Won(token) else Done)
  {
    Stage(cfg, row, run, Check(c, token, PurposeOf(token)), a, c);
    RunKeepsMarks(cfg, row, Checking(run, c, token, a));
    Stage(cfg, row, Checking(run, c, token, a), Consume(c), b, c);
  }

  /**
   A password reset answered to its end: exactly if its token passed and its mark was free, it writes the
   new hash and leaves the rest of the row as it is then; otherwise it writes nothing.
   */
  lemma ResetAnswered(
    cfg: Config, row: Account, run: seq<Step>, c: CallId, token: Token, hash: Hash, a: seq<Step>, b: seq<Step>)
    requires c !in After(cfg, row, run).calls && OfOthers(a, c) && OfOthers(b, c) && PurposeOf(token) == Reset
    requires hash !in After(cfg, row, Marking(run, c, token, a, b)).installed
    ensures var marked := Marking(run, c, token, a, b);
            var v, w := After(cfg, row, marked), After(cfg, row, marked + [Apply(c, hash)]);
            if Wins(cfg, row, run, c, token, a)
            then w.row == v.row.(hash := hash) && CallOf(w, c) == Some(Bumping)
            else w == v && CallOf(w, c) == Some(Done)
  {
    WinsIff(cfg, row, run, c, token, a, b);
    Grown(cfg, Init(row), Marking(run, c, token, a, b), Apply(c, hash));
  }

  /** Then, whatever comes in between, it raises the version by one. */
  lemma BumpAnswered(cfg: Config, row: Account, run: seq<Step>, c: CallId, d: seq<Step>)
    requires OfOthers(d, c)
    ensures var x, y := After(cfg, row, run + d), After(cfg, row, run + d + [BumpVersion(c)]);
            y.row == if CallOf(After(cfg, row, run), c) == Some(Bumping)
                     then x.row.(version := x.row.version + 1) else x.row
  {
    OthersLeave(cfg, row, run, d, c);
    Grown(cfg, Init(row), run + d, BumpVersion(c));
  }

  /** An email change answered to its end: exactly then it writes the address the token proposes. */
  lemma ChangeAnswered(
    cfg: Config, row: Account, run: seq<Step>, c: CallId, token: Token, hash: Hash, a: seq<Step>, b: seq<Step>)
    requires c !in After(cfg, row, run).calls && OfOthers(a, c) && OfOthers(b, c) && PurposeOf(token) == Change
    ensures var marked := Marking(run, c, token, a, b);
            var v, w := After(cfg, row, marked), After(cfg, row, marked + [Apply(c, hash)]);
            w.row == if Wins(cfg, row, run, c, token, a) && Proposes(token)
                     then v.row.(email := token.newEmail.value) else v.row
    ensures Wins(cfg, row, run, c, token, a) ==> Proposes(token)
  {
    WinsIff(cfg, row, run, c, token, a, b);
    Grown(cfg, Init(row), Marking(run, c, token, a, b), Apply(c, hash));
  }
}
