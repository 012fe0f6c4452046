/**
 The second factors on one user row, under any interleaving: the last accepted TOTP time step,
 claimed by a conditional update, and the list of recovery-code hashes, consumed by
 compare-and-set on the whole list with at most three tries. Starting a setup, disabling MFA and
 an OAuth claim clear the row; confirming succeeds only on an unconfirmed row; regenerating
 overwrites the list.
 */
module SecondFactor {
  import opened Basics

  type Hash = nat
  type CallId = nat

  const CLAIM_ATTEMPTS: nat := 3

  datatype Entry =
    | Cleared                    // setup started, MFA disabled, or account claimed
    | StepAccepted(step: int)
    | Confirmed(claim: nat)      // by the code accepted at this log position
    | CodesRenewed
    | CodeAccepted(hash: Hash)

  datatype Call =
    | Claimed(at: nat)                                       // its code was accepted there in the log
    | Holding(hash: Hash, stored: Option<seq<Hash>>, tries: nat)
    | Retrying(hash: Hash, tries: nat)
    | Done(accepted: bool)

  datatype State = State(
    confirmed: bool,
    lastStep: Option<int>,
    codes: Option<seq<Hash>>,
    calls: map<CallId, Call>,
    log: seq<Entry>)

  datatype Step =
    | Clear
    | ClaimStep(c: CallId, step: int)
    | Enable(c: CallId, hashes: seq<Hash>)
    | Regenerate(hashes: seq<Hash>)
    | ReadCodes(c: CallId, hash: Hash)
    | ReadAgain(c: CallId)
    | Consume(c: CallId)

  const INIT := State(false, None, None, map[], [])

  function Stored(codes: Option<seq<Hash>>): seq<Hash> {
    if codes.Some? then codes.value else []
  }

  function Without(hashes: seq<Hash>, hash: Hash): seq<Hash> {
    if hashes == [] then []
    else (if hashes[0] == hash then [] else [hashes[0]]) + Without(hashes[1..], hash)
  }

  lemma {:induction false} WithoutRemoves(hashes: seq<Hash>, hash: Hash, other: Hash)
    ensures other in Without(hashes, hash) <==> other in hashes && other != hash
  {
    if hashes == [] {
    } else {
      WithoutRemoves(hashes[1..], hash, other);
      assert hashes == [hashes[0]] + hashes[1..];
    }
  }

  function Looking(s: State, c: CallId, hash: Hash, tries: nat): State {
    s.(calls := s.calls[c := if hash in Stored(s.codes) && tries < CLAIM_ATTEMPTS
                             then Holding(hash, s.codes, tries) else Done(false)])
  }

  function Next(s: State, e: Step): State {
    match e
    case Clear => s.(confirmed := false, lastStep := None, codes := None, log := s.log + [Cleared])
    case ClaimStep(c, step) =>
      if c in s.calls then s
      else if s.lastStep.None? || s.lastStep.value < step
      then s.(lastStep := Some(step), log := s.log + [StepAccepted(step)], calls := s.calls[c := Claimed(|s.log|)])
      else s.(calls := s.calls[c := Done(false)])
    case Enable(c, hashes) =>
      if !(c in s.calls && s.calls[c].Claimed?) then s
      else if s.confirmed then s.(calls := s.calls[c := Done(false)])
      else s.(confirmed := true, codes := Some(hashes), log := s.log + [Confirmed(s.calls[c].at), CodesRenewed],
              calls := s.calls[c := Done(true)])
    case Regenerate(hashes) => s.(codes := Some(hashes), log := s.log + [CodesRenewed])
    case ReadCodes(c, hash) =>
      if c in s.calls then s
      else if !s.confirmed then s.(calls := s.calls[c := Done(false)])
      else Looking(s, c, hash, 0)
    case ReadAgain(c) =>
      if !(c in s.calls && s.calls[c].Retrying?) then s
      else Looking(s, c, s.calls[c].hash, s.calls[c].tries)
    case Consume(c) =>
      if !(c in s.calls && s.calls[c].Holding?) then s
      else
        var Holding(hash, stored, tries) := s.calls[c];
        if s.codes == stored
        then s.(codes := Some(Without(Stored(stored), hash)), log := s.log + [CodeAccepted(hash)],
                calls := s.calls[c := Done(true)])
        else s.(calls := s.calls[c := Retrying(hash, tries + 1)])
  }

  function After(run: seq<Step>): State {
    if run == [] then INIT else Next(After(run[..|run| - 1]), run[|run| - 1])
  }

  // ---- time steps ----------------------------------------------------------------------------

  /** Within one enrollment, accepted time steps strictly increase. */
  ghost predicate StepsIncrease(log: seq<Entry>) {
    forall i, j :: 0 <= i < j < |log| && log[i].StepAccepted? && log[j].StepAccepted? ==>
      log[i].step < log[j].step || exists k :: i < k < j && log[k].Cleared?
  }

  /** The stored step is the newest accepted one of the enrollment. */
  ghost predicate LastStepBounds(s: State) {
    forall i :: 0 <= i < |s.log| && s.log[i].StepAccepted? ==>
      (s.lastStep.Some? && s.log[i].step <= s.lastStep.value) ||
      exists k :: i < k < |s.log| && s.log[k].Cleared?
  }

  lemma GrowSteps(s: State, t: State)
    requires StepsIncrease(s.log) && LastStepBounds(s)
    requires |s.log| <= |t.log| && forall i :: 0 <= i < |s.log| ==> t.log[i] == s.log[i]
    requires forall i :: |s.log| <= i < |t.log| && t.log[i].StepAccepted? ==>
               i == |s.log| && |t.log| == |s.log| + 1 && t.lastStep == Some(t.log[i].step) &&
               (s.lastStep.None? || s.lastStep.value < t.log[i].step)
    requires t.lastStep == s.lastStep ||
             (|s.log| < |t.log| && (t.log[|s.log|].StepAccepted? || t.log[|s.log|].Cleared?))
    ensures StepsIncrease(t.log) && LastStepBounds(t)
  {
    forall i, j | 0 <= i < j < |t.log| && t.log[i].StepAccepted? && t.log[j].StepAccepted?
      ensures t.log[i].step < t.log[j].step || exists k :: i < k < j && t.log[k].Cleared?
    {
      if j >= |s.log| {
        if !(s.lastStep.Some? && s.log[i].step <= s.lastStep.value) {
          var k :| i < k < |s.log| && s.log[k].Cleared?;
          assert t.log[k].Cleared?;
        }
      } else if s.log[i].step >= s.log[j].step {
        var k :| i < k < j && s.log[k].Cleared?;
        assert t.log[k].Cleared?;
      }
    }
    forall i | 0 <= i < |t.log| && t.log[i].StepAccepted?
      ensures (t.lastStep.Some? && t.log[i].step <= t.lastStep.value) ||
              exists k :: i < k < |t.log| && t.log[k].Cleared?
    {
      if i < |s.log| {
        if !(s.lastStep.Some? && s.log[i].step <= s.lastStep.value) {
          var k :| i < k < |s.log| && s.log[k].Cleared?;
          assert t.log[k].Cleared?;
        } else if t.lastStep != s.lastStep && t.log[|s.log|].Cleared? {
          assert t.log[|s.log|].Cleared?;
        }
      }
    }
  }

  lemma {:induction false} StepsAreOneTime(run: seq<Step>)
    ensures StepsIncrease(After(run).log) && LastStepBounds(After(run))
  {
    if run == [] {
    } else {
      StepsAreOneTime(run[..|run| - 1]);
      GrowSteps(After(run[..|run| - 1]), After(run));
    }
  }

  /** Position `i` of the log belongs to the present enrollment: nothing after it cleared the row. */
  ghost predicate Present(log: seq<Entry>, i: nat)
    requires i < |log|
  {
    forall k :: i < k < |log| ==> !log[k].Cleared?
  }

  /** The stored step was accepted in the present enrollment. */
  ghost predicate LastStepAccepted(s: State) {
    s.lastStep.Some? ==> exists i: nat :: i < |s.log| && s.log[i] == StepAccepted(s.lastStep.value) && Present(s.log, i)
  }

  lemma {:induction false} LastStepWasAccepted(run: seq<Step>)
    ensures LastStepAccepted(After(run))
  {
    if run == [] {
    } else {
      var s, t := After(run[..|run| - 1]), After(run);
      LastStepWasAccepted(run[..|run| - 1]);
      if t.lastStep.Some? {
        if t.lastStep == s.lastStep && !run[|run| - 1].ClaimStep? {
          var i: nat :| i < |s.log| && s.log[i] == StepAccepted(s.lastStep.value) && Present(s.log, i);
          assert t.log[i] == StepAccepted(t.lastStep.value) && Present(t.log, i);
        } else if t.log != s.log {
          assert t.log[|s.log|] == StepAccepted(t.lastStep.value) && Present(t.log, |s.log|);
        }
      }
    }
  }

  /**
   Exactly which steps a new claim may take: those above every step accepted since the row was
   last cleared.
   */
  lemma AcceptedIffNewest(run: seq<Step>, c: CallId, step: int)
    requires c !in After(run).calls
    ensures var s := After(run);
            After(run + [ClaimStep(c, step)]).calls[c].Claimed? <==>
            forall i: nat :: i < |s.log| && s.log[i].StepAccepted? && Present(s.log, i) ==> s.log[i].step < step
  {
    var s := After(run);
    assert (run + [ClaimStep(c, step)])[..|run|] == run;
    StepsAreOneTime(run);
    LastStepWasAccepted(run);
    if s.lastStep.Some? && step <= s.lastStep.value {
      var i: nat :| i < |s.log| && s.log[i] == StepAccepted(s.lastStep.value) && Present(s.log, i);
    }
  }

  /** A confirmation follows, in the log, the accepted code that earned it. */
  ghost predicate ClaimsPrecede(s: State) {
    && (forall c :: c in s.calls && s.calls[c].Claimed? ==>
          s.calls[c].at < |s.log| && s.log[s.calls[c].at].StepAccepted?)
    && (forall k :: 0 <= k < |s.log| && s.log[k].Confirmed? ==>
          s.log[k].claim < k && s.log[s.log[k].claim].StepAccepted?)
  }

  lemma StepKeepsCallClaims(s: State, e: Step, c: CallId)
    requires ClaimsPrecede(s) && c in Next(s, e).calls && Next(s, e).calls[c].Claimed?
    ensures Next(s, e).calls[c].at < |Next(s, e).log| && Next(s, e).log[Next(s, e).calls[c].at].StepAccepted?
  {
  }

  lemma StepKeepsLogClaims(s: State, e: Step, k: nat)
    requires ClaimsPrecede(s) && k < |Next(s, e).log| && Next(s, e).log[k].Confirmed?
    ensures Next(s, e).log[k].claim < k && Next(s, e).log[Next(s, e).log[k].claim].StepAccepted?
  {
  }

  lemma StepKeepsClaims(s: State, e: Step)
    requires ClaimsPrecede(s)
    ensures ClaimsPrecede(Next(s, e))
  {
    var t := Next(s, e);
    forall c | c in t.calls && t.calls[c].Claimed?
      ensures t.calls[c].at < |t.log| && t.log[t.calls[c].at].StepAccepted?
    {
      StepKeepsCallClaims(s, e, c);
    }
    forall k | 0 <= k < |t.log| && t.log[k].Confirmed?
      ensures t.log[k].claim < k && t.log[t.log[k].claim].StepAccepted?
    {
      StepKeepsLogClaims(s, e, k);
    }
  }

  lemma {:induction false} ConfirmationsAreEarned(run: seq<Step>)
    ensures ClaimsPrecede(After(run))
  {
    if run == [] {
    } else {
      ConfirmationsAreEarned(run[..|run| - 1]);
      StepKeepsClaims(After(run[..|run| - 1]), run[|run| - 1]);
    }
  }

  /**
   The confirming step starts the enrollment: every step accepted after a confirmation is above
   the step that confirmed it, unless the row was cleared in between.
   */
  lemma ConfirmingStepComesFirst(run: seq<Step>, k: nat, j: nat)
    requires k < j < |After(run).log|
    requires After(run).log[k].Confirmed? && After(run).log[j].StepAccepted?
    ensures var log := After(run).log;
            var claim := log[k].claim;
            claim < k && log[claim].StepAccepted? &&
            (log[claim].step < log[j].step || exists n :: claim < n < j && log[n].Cleared?)
  {
    StepsAreOneTime(run);
    ConfirmationsAreEarned(run);
  }

  lemma Grown(run: seq<Step>, e: Step, s: State)
    requires After(run) == s
    ensures After(run + [e]) == Next(s, e)
  {
    assert (run + [e])[..|run|] == run;
  }

  /**
   The clearing may fall between the claim and the confirmation: a setup restarted in that gap is
   confirmed all the same, with the confirming step forgotten, and that step is accepted again.
   */
  lemma RestartForgetsConfirmingStep(step: int)
    ensures var s := After([] + [ClaimStep(0, step)] + [Clear] + [Enable(0, [1, 2])] + [ClaimStep(1, step)]);
            s.confirmed && s.log == [StepAccepted(step), Cleared, Confirmed(0), CodesRenewed, StepAccepted(step)]
  {
    var s1 := State(false, Some(step), None, map[0 := Claimed(0)], [StepAccepted(step)]);
    var s2 := State(false, None, None, map[0 := Claimed(0)], [StepAccepted(step), Cleared]);
    var s3 := State(true, None, Some([1, 2]), map[0 := Done(true)],
                    [StepAccepted(step), Cleared, Confirmed(0), CodesRenewed]);
    Grown([], ClaimStep(0, step), INIT);
    assert Next(INIT, ClaimStep(0, step)) == s1;
    Grown([] + [ClaimStep(0, step)], Clear, s1);
    assert Next(s1, Clear) == s2;
    Grown([] + [ClaimStep(0, step)] + [Clear], Enable(0, [1, 2]), s2);
    assert Next(s2, Enable(0, [1, 2])) == s3;
    Grown([] + [ClaimStep(0, step)] + [Clear] + [Enable(0, [1, 2])], ClaimStep(1, step), s3);
  }

  // ---- recovery codes ------------------------------------------------------------------------

  predicate Renews(e: Entry) { e.CodesRenewed? || e.Cleared? }

  /** The codes accepted since the list was last renewed or cleared. */
  function SpentSince(log: seq<Entry>): set<Hash> {
    if log == [] then {}
    else
      var e := log[|log| - 1];
      if Renews(e) then {}
      else SpentSince(log[..|log| - 1]) + if e.CodeAccepted? then {e.hash} else {}
  }

  lemma SpentSnoc(log: seq<Entry>, e: Entry)
    ensures SpentSince(log + [e]) ==
            if Renews(e) then {} else SpentSince(log) + if e.CodeAccepted? then {e.hash} else {}
  {
    assert (log + [e])[..|log|] == log;
  }

  ghost predicate SpentAreGone(s: State) {
    forall h :: h in SpentSince(s.log) ==> h !in Stored(s.codes)
  }

  /** A call in hand holds a list with its hash on it. */
  ghost predicate HeldOnList(s: State) {
    forall c :: c in s.calls && s.calls[c].Holding? ==> s.calls[c].hash in Stored(s.calls[c].stored)
  }

  lemma ConsumeSpends(s: State, c: CallId)
    requires SpentAreGone(s) && HeldOnList(s)
    ensures SpentAreGone(Next(s, Consume(c))) && HeldOnList(Next(s, Consume(c)))
  {
    var t := Next(s, Consume(c));
    if t.log != s.log {
      var hash := s.calls[c].hash;
      SpentSnoc(s.log, CodeAccepted(hash));
      forall h | h in SpentSince(t.log) ensures h !in Stored(t.codes) {
        WithoutRemoves(Stored(s.calls[c].stored), hash, h);
      }
    }
  }

  lemma StepSpends(s: State, e: Step)
    requires SpentAreGone(s) && HeldOnList(s)
    ensures SpentAreGone(Next(s, e)) && HeldOnList(Next(s, e))
  {
    match e
    case Consume(c) => ConsumeSpends(s, c);
    case Clear => SpentSnoc(s.log, Cleared);
    case ClaimStep(_, step) => SpentSnoc(s.log, StepAccepted(step));
    case Enable(c, _) =>
      var t := Next(s, e);
      if t.log != s.log {
        var confirmed := s.log + [Confirmed(s.calls[c].at)];
        SpentSnoc(confirmed, CodesRenewed);
        assert t.log == confirmed + [CodesRenewed];
      }
    case Regenerate(_) => SpentSnoc(s.log, CodesRenewed);
    case ReadCodes(_, _) =>
    case ReadAgain(_) =>
  }

  lemma {:induction false} RunSpends(run: seq<Step>)
    ensures SpentAreGone(After(run)) && HeldOnList(After(run))
  {
    if run == [] {
    } else {
      RunSpends(run[..|run| - 1]);
      StepSpends(After(run[..|run| - 1]), run[|run| - 1]);
    }
  }

  lemma {:induction false} SpentUntilRenewed(log: seq<Entry>, i: nat)
    requires i < |log| && log[i].CodeAccepted?
    ensures log[i].hash in SpentSince(log) || exists k :: i < k < |log| && Renews(log[k])
  {
    var last := |log| - 1;
    if i < last && !Renews(log[last]) {
      SpentUntilRenewed(log[..last], i);
      if log[i].hash !in SpentSince(log[..last]) {
        var k :| i < k < last && Renews(log[..last][k]);
        assert Renews(log[k]);
      }
    }
  }

  /** The log only grows, and a code it newly accepts was not spent. */
  lemma AcceptedIsUnspent(s: State, e: Step, j: nat)
    requires SpentAreGone(s) && HeldOnList(s) && |s.log| <= j < |Next(s, e).log| && Next(s, e).log[j].CodeAccepted?
    ensures j == |s.log| && Next(s, e).log[j].hash !in SpentSince(s.log)
  {
  }

  lemma LogGrows(s: State, e: Step)
    ensures s.log <= Next(s, e).log
  {
  }

  /** Between renewals of the list, each recovery code is accepted at most once. */
  lemma {:induction false} CodesAreOneTime(run: seq<Step>, i: nat, j: nat)
    requires i < j < |After(run).log|
    requires After(run).log[i].CodeAccepted? && After(run).log[j] == After(run).log[i]
    ensures exists k :: i < k < j && Renews(After(run).log[k])
  {
    var before, e := After(run[..|run| - 1]), run[|run| - 1];
    LogGrows(before, e);
    if j < |before.log| {
      CodesAreOneTime(run[..|run| - 1], i, j);
      var k :| i < k < j && Renews(before.log[k]);
      assert Renews(After(run).log[k]);
    } else {
      RunSpends(run[..|run| - 1]);
      AcceptedIsUnspent(before, e, j);
      SpentUntilRenewed(before.log, i);
      var k :| i < k < |before.log| && Renews(before.log[k]);
      assert Renews(After(run).log[k]);
    }
  }
}
