/**
 One login challenge answered by any number of concurrent requests. A request reads the
 challenge (a cross-site one stops there), counts its attempt on it by compare-and-set, may be
 refused (over the limit, locked out, or the account moved on), checks a code, and on a correct
 code issues a credential only if its own read-and-delete got the challenge. The challenge may
 expire at any point and, its token being fresh, is never created again.
 */
module MfaChallenge {
  import opened Basics

  type CallId = nat

  datatype Call =
    | Found                        // the challenge was there
    | Counted(slot: nat)           // attempt counted: the number it got
    | Checking(slot: nat)          // past every refusal: the code is being checked
    | Correct(slot: nat)           // the code was right
    | Refused                      // the challenge is to be deleted
    | Failed
    | Issued

  /**
   `attempts` is the stored challenge's counter, if the challenge is there. History: `counted` is
   how many attempts were ever counted, `checks` the slots that reached a code check in order,
   and `credentials` how many credentials were issued.
   */
  datatype State = State(
    attempts: Option<nat>,
    calls: map<CallId, Call>,
    counted: nat,
    checks: seq<nat>,
    credentials: nat)

  datatype Step =
    | Read(c: CallId, crossSite: bool)
    | CountAttempt(c: CallId)
    | Admit(c: CallId, lockoutAllows: bool, accountCurrent: bool)
    | CheckCode(c: CallId, right: bool)
    | DeleteRefused(c: CallId)
    | Claim(c: CallId)
    | Expire

  const INIT := State(Some(0), map[], 0, [], 0)

  function Next(max: nat, s: State, e: Step): State {
    match e
    case Read(c, crossSite) =>
      if c in s.calls then s
      else s.(calls := s.calls[c := if s.attempts.Some? && !crossSite then Found else Failed])
    case CountAttempt(c) =>
      if !(c in s.calls && s.calls[c].Found?) then s
      else if s.attempts.None? then s.(calls := s.calls[c := Failed])
      else
        var n := s.attempts.value + 1;
        s.(attempts := Some(n), counted := s.counted + 1, calls := s.calls[c := Counted(n)])
    case Admit(c, lockoutAllows, accountCurrent) =>
      if !(c in s.calls && s.calls[c].Counted?) then s
      else if max < s.calls[c].slot || !lockoutAllows || !accountCurrent
      then s.(calls := s.calls[c := Refused])
      else s.(calls := s.calls[c := Checking(s.calls[c].slot)], checks := s.checks + [s.calls[c].slot])
    case CheckCode(c, right) =>
      if !(c in s.calls && s.calls[c].Checking?) then s
      else if right then s.(calls := s.calls[c := Correct(s.calls[c].slot)])
      else s.(calls := s.calls[c := if max <= s.calls[c].slot then Refused else Failed])
    case DeleteRefused(c) =>
      if !(c in s.calls && s.calls[c].Refused?) then s
      else s.(attempts := None, calls := s.calls[c := Failed])
    case Claim(c) =>
      if !(c in s.calls && s.calls[c].Correct?) then s
      else if s.attempts.None? then s.(calls := s.calls[c := Failed])
      else s.(attempts := None, calls := s.calls[c := Issued], credentials := s.credentials + 1)
    case Expire => s.(attempts := None)
  }

  function After(max: nat, run: seq<Step>): State {
    if run == [] then INIT else Next(max, After(max, run[..|run| - 1]), run[|run| - 1])
  }

  // ---- the invariant ---------------------------------------------------------------------

  ghost predicate NoRepeats(slots: seq<nat>) {
    forall i, j :: 0 <= i < j < |slots| ==> slots[i] != slots[j]
  }

  /** A counted attempt has a number of its own, which no code check has used yet. */
  ghost predicate CallOk(s: State, c: CallId)
    requires c in s.calls
  {
    s.calls[c].Counted? ==> 1 <= s.calls[c].slot <= s.counted && s.calls[c].slot !in s.checks
  }

  ghost predicate SlotsDistinct(s: State) {
    forall c, d :: c in s.calls && d in s.calls && c != d && s.calls[c].Counted? ==> s.calls[c] != s.calls[d]
  }

  ghost predicate Inv(max: nat, s: State) {
    && (s.attempts.Some? ==> s.attempts.value == s.counted)
    && (forall c :: c in s.calls ==> CallOk(s, c))
    && SlotsDistinct(s)
    && NoRepeats(s.checks)
    && (forall i :: 0 <= i < |s.checks| ==> 1 <= s.checks[i] <= max && s.checks[i] <= s.counted)
    && s.credentials + (if s.attempts.Some? then 1 else 0) <= 1
  }

  /** A step that changes only call `c` keeps the calls in order if it leaves `c` in order. */
  lemma CallsKept(s: State, t: State, c: CallId)
    requires (forall d :: d in s.calls ==> CallOk(s, d)) && SlotsDistinct(s)
    requires c in t.calls && t.calls == s.calls[c := t.calls[c]] && s.counted <= t.counted
    requires t.checks == s.checks ||
             (c in s.calls && s.calls[c].Counted? && t.checks == s.checks + [s.calls[c].slot])
    requires CallOk(t, c) && (t.calls[c].Counted? ==> t.calls[c].slot == s.counted + 1)
    ensures (forall d :: d in t.calls ==> CallOk(t, d)) && SlotsDistinct(t)
  {
    forall d | d in t.calls ensures CallOk(t, d) {
      if d != c {
        assert CallOk(s, d);
      }
    }
    forall d, f | d in t.calls && f in t.calls && d != f && t.calls[d].Counted?
      ensures t.calls[d] != t.calls[f]
    {
      if d != c { assert CallOk(s, d); }
      if f != c { assert CallOk(s, f); }
    }
  }

  lemma CountAttemptKeeps(max: nat, s: State, c: CallId)
    requires Inv(max, s) && c in s.calls && s.calls[c].Found? && s.attempts.Some?
    ensures Inv(max, Next(max, s, CountAttempt(c)))
  {
    var t := Next(max, s, CountAttempt(c));
    assert t.calls[c].slot !in s.checks;
    CallsKept(s, t, c);
  }

  lemma AdmitKeeps(max: nat, s: State, e: Step)
    requires Inv(max, s) && e.Admit? && e.c in s.calls && s.calls[e.c].Counted?
    ensures Inv(max, Next(max, s, e))
  {
    assert CallOk(s, e.c);
    CallsKept(s, Next(max, s, e), e.c);
  }

  lemma StepKeeps(max: nat, s: State, e: Step)
    requires Inv(max, s)
    ensures Inv(max, Next(max, s, e))
  {
    var t := Next(max, s, e);
    if t != s && !e.Expire? {
      if e.CountAttempt? && s.attempts.Some? {
        CountAttemptKeeps(max, s, e.c);
      } else if e.Admit? {
        AdmitKeeps(max, s, e);
      } else {
        CallsKept(s, t, e.c);
      }
    } else {
      assert forall c :: c in t.calls ==> CallOk(s, c) && CallOk(t, c);
    }
  }

  lemma {:induction false} RunKeeps(max: nat, run: seq<Step>)
    ensures Inv(max, After(max, run))
  {
    if run == [] {
    } else {
      RunKeeps(max, run[..|run| - 1]);
      StepKeeps(max, After(max, run[..|run| - 1]), run[|run| - 1]);
    }
  }

  // ---- the budget --------------------------------------------------------------------------

  lemma {:induction false} FewDistinctSlots(slots: seq<nat>, max: nat)
    requires NoRepeats(slots) && forall i :: 0 <= i < |slots| ==> 1 <= slots[i] <= max
    ensures |slots| <= max
  {
    if slots == [] {
    } else {
      assert 1 <= slots[0] <= max;
      if max in slots {
        var k :| 0 <= k < |slots| && slots[k] == max;
        FewDistinctSlots(slots[..k] + slots[k + 1..], max - 1);
      } else {
        FewDistinctSlots(slots, max - 1);
      }
    }
  }

  /**
   The challenge budget: however the answering requests interleave, at most `max` of them reach a
   code check and at most one issues a credential.
   */
  lemma ChallengeBudget(max: nat, run: seq<Step>)
    ensures |After(max, run).checks| <= max
    ensures After(max, run).credentials <= 1
  {
    RunKeeps(max, run);
    FewDistinctSlots(After(max, run).checks, max);
  }

  /** Once `max` answers had their check, no step of any request reaches another. */
  lemma ExhaustedChallengeIsDead(max: nat, run: seq<Step>, e: Step)
    requires |After(max, run).checks| == max
    ensures After(max, run + [e]).checks == After(max, run).checks
  {
    assert (run + [e])[..|run|] == run;
    ChallengeBudget(max, run + [e]);
  }

  // ---- what each request is answered -------------------------------------------------------

  lemma Grown(max: nat, run: seq<Step>, e: Step)
    ensures After(max, run + [e]) == Next(max, After(max, run), e)
  {
    assert (run + [e])[..|run|] == run;
  }

  function CallOf(s: State, c: CallId): Option<Call> { if c in s.calls then Some(s.calls[c]) else None }

  predicate StepOf(e: Step, c: CallId) { !e.Expire? && e.c == c }

  /** How a request gets where it stands. */
  ghost predicate Moves(max: nat, s: State, e: Step, c: CallId, call: Call) {
    match call
    case Found => e == Read(c, false) && s.attempts.Some?
    case Counted(slot) => e == CountAttempt(c) && CallOf(s, c) == Some(Found) && s.attempts == Some(slot - 1)
    case Checking(slot) => e == Admit(c, true, true) && CallOf(s, c) == Some(Counted(slot)) && slot <= max
    case Correct(slot) => e == CheckCode(c, true) && CallOf(s, c) == Some(Checking(slot))
    case Issued => e == Claim(c) && CallOf(s, c).Some? && CallOf(s, c).value.Correct? && s.attempts.Some?
    case Refused =>
      || (e.Admit? && e.c == c && CallOf(s, c).Some? && CallOf(s, c).value.Counted? &&
          Refusing(max, e, CallOf(s, c).value.slot))
      || (e.CheckCode? && e.c == c && CallOf(s, c).Some? && CallOf(s, c).value.Checking? &&
          Refusing(max, e, CallOf(s, c).value.slot))
    case Failed => true
  }

  /** Over the limit, locked out, the account moved on, or a wrong code on the last attempt. */
  predicate Refusing(max: nat, e: Step, slot: nat) {
    || (e.Admit? && (max < slot || !e.lockoutAllows || !e.accountCurrent))
    || (e.CheckCode? && !e.right && slot == max)
  }

  lemma StepMoves(max: nat, s: State, e: Step, c: CallId)
    requires CallOf(s, c).Some? && CallOf(s, c).value.Checking? ==> CallOf(s, c).value.slot <= max
    ensures CallOf(Next(max, s, e), c) == CallOf(s, c) ||
            (CallOf(Next(max, s, e), c).Some? && Moves(max, s, e, c, CallOf(Next(max, s, e), c).value))
  {
  }

  lemma {:induction false} CheckedWithinLimit(max: nat, run: seq<Step>, c: CallId)
    requires CallOf(After(max, run), c).Some? && After(max, run).calls[c].Checking?
    ensures After(max, run).calls[c].slot <= max
  {
    var front := run[..|run| - 1];
    if CallOf(After(max, front), c) == CallOf(After(max, run), c) {
      CheckedWithinLimit(max, front, c);
    }
  }

  lemma LastMoves(max: nat, run: seq<Step>, c: CallId)
    requires c in After(max, run).calls
    ensures run != [] && var front := run[..|run| - 1];
            CallOf(After(max, run), c) == CallOf(After(max, front), c) ||
            Moves(max, After(max, front), run[|run| - 1], c, After(max, run).calls[c])
  {
    if run != [] {
      var call := CallOf(After(max, run[..|run| - 1]), c);
      if call.Some? && call.value.Checking? {
        CheckedWithinLimit(max, run[..|run| - 1], c);
      }
      StepMoves(max, After(max, run[..|run| - 1]), run[|run| - 1], c);
    }
  }

  /** A counted attempt was a request from the same site, and its number is the challenge's next one. */
  lemma {:induction false} ReadBy(max: nat, run: seq<Step>, c: CallId) returns (i: nat)
    requires CallOf(After(max, run), c) == Some(Found)
    ensures i < |run| && run[i] == Read(c, false)
  {
    LastMoves(max, run, c);
    i := |run| - 1;
    if CallOf(After(max, run[..i]), c) == Some(Found) {
      i := ReadBy(max, run[..i], c);
    }
  }

  lemma {:induction false} CountedBy(max: nat, run: seq<Step>, c: CallId, slot: nat) returns (i: nat, j: nat)
    requires CallOf(After(max, run), c) == Some(Counted(slot))
    ensures i < j < |run| && run[i] == Read(c, false) && run[j] == CountAttempt(c)
    ensures After(max, run[..j]).attempts == Some(slot - 1)
  {
    LastMoves(max, run, c);
    j := |run| - 1;
    if CallOf(After(max, run[..j]), c) == Some(Found) {
      i := ReadBy(max, run[..j], c);
    } else {
      var front := run[..j];
      i, j := CountedBy(max, front, c, slot);
      assert front[..j] == run[..j];
    }
  }

  /**
   A request whose code is being checked was admitted: the lockout allowed it, the account had not moved
   on, and its attempt number is within the limit.
   */
  lemma {:induction false} AdmittedBy(max: nat, run: seq<Step>, c: CallId, slot: nat)
    returns (i: nat, j: nat, k: nat)
    requires CallOf(After(max, run), c) == Some(Checking(slot))
    ensures i < j < k < |run| && slot <= max && run[k] == Admit(c, true, true)
    ensures run[i] == Read(c, false) && run[j] == CountAttempt(c)
    ensures After(max, run[..j]).attempts == Some(slot - 1)
  {
    LastMoves(max, run, c);
    var front := run[..|run| - 1];
    if CallOf(After(max, front), c) == Some(Checking(slot)) {
      i, j, k := AdmittedBy(max, front, c, slot);
    } else {
      k := |front|;
      i, j := CountedBy(max, front, c, slot);
    }
    assert front[..j] == run[..j];
  }

  lemma {:induction false} ProvedBy(max: nat, run: seq<Step>, c: CallId, slot: nat)
    returns (i: nat, j: nat, k: nat, l: nat)
    requires CallOf(After(max, run), c) == Some(Correct(slot))
    ensures i < j < k < l < |run| && slot <= max && run[k] == Admit(c, true, true) && run[l] == CheckCode(c, true)
    ensures run[i] == Read(c, false) && run[j] == CountAttempt(c)
    ensures After(max, run[..j]).attempts == Some(slot - 1)
  {
    LastMoves(max, run, c);
    var front := run[..|run| - 1];
    if CallOf(After(max, front), c) == Some(Correct(slot)) {
      i, j, k, l := ProvedBy(max, front, c, slot);
    } else {
      l := |front|;
      i, j, k := AdmittedBy(max, front, c, slot);
    }
    assert front[..j] == run[..j];
  }

  /**
   Every request that issued a credential read the challenge from the same site, counted an attempt within
   the limit on it, was admitted by the lockout and the account, had a right code, and only then
   claimed the challenge and found it still there.
   */
  lemma {:induction false} IssuedBy(max: nat, run: seq<Step>, c: CallId)
    returns (i: nat, j: nat, k: nat, l: nat, m: nat)
    requires CallOf(After(max, run), c) == Some(Issued)
    ensures i < j < k < l < m < |run|
    ensures run[i] == Read(c, false) && run[j] == CountAttempt(c) && run[k] == Admit(c, true, true)
    ensures run[l] == CheckCode(c, true) && run[m] == Claim(c)
    ensures var counter := After(max, run[..j]).attempts; counter.Some? && counter.value + 1 <= max
    ensures After(max, run[..m]).attempts.Some?
  {
    LastMoves(max, run, c);
    var front := run[..|run| - 1];
    if CallOf(After(max, front), c) == Some(Issued) {
      i, j, k, l, m := IssuedBy(max, front, c);
    } else {
      m := |front|;
      i, j, k, l := ProvedBy(max, front, c, After(max, front).calls[c].slot);
    }
    assert front[..j] == run[..j] && front[..m] == run[..m];
  }

  /** A refusal, which deletes the challenge for everyone, is always one of those. */
  lemma {:induction false} RefusedBy(max: nat, run: seq<Step>, c: CallId) returns (j: nat, k: nat)
    requires CallOf(After(max, run), c) == Some(Refused)
    ensures j < k < |run| && run[j] == CountAttempt(c) && StepOf(run[k], c)
    ensures var counter := After(max, run[..j]).attempts; counter.Some? && Refusing(max, run[k], counter.value + 1)
  {
    LastMoves(max, run, c);
    var front := run[..|run| - 1];
    k := |front|;
    if CallOf(After(max, front), c) == Some(Refused) {
      j, k := RefusedBy(max, front, c);
    } else if run[k].Admit? {
      var _, counted := CountedBy(max, front, c, After(max, front).calls[c].slot);
      j := counted;
    } else {
      var _, counted, _ := AdmittedBy(max, front, c, After(max, front).calls[c].slot);
      j := counted;
    }
    assert front[..j] == run[..j];
  }

  /** A wrong code fails its request, and deletes the challenge only on the last attempt there is. */
  lemma WrongCodeAnswered(max: nat, run: seq<Step>, c: CallId, slot: nat)
    requires CallOf(After(max, run), c) == Some(Checking(slot))
    ensures CallOf(After(max, run + [CheckCode(c, false)]), c) == Some(if slot == max then Refused else Failed)
    ensures After(max, run + [CheckCode(c, false)]).attempts == After(max, run).attempts
  {
    CheckedWithinLimit(max, run, c);
    Grown(max, run, CheckCode(c, false));
  }

  // ---- when the challenge is still there ---------------------------------------------------------

  /** The step at `i` took the challenge away: it expired, or was deleted for a refused request, or claimed. */
  ghost predicate TakesAway(max: nat, run: seq<Step>, i: nat)
    requires i < |run|
  {
    var calls := After(max, run[..i]).calls;
    match run[i]
    case Expire => true
    case DeleteRefused(c) => c in calls && calls[c].Refused?
    case Claim(c) => c in calls && calls[c].Correct?
    case Read(_, _) => false
    case CountAttempt(_) => false
    case Admit(_, _, _) => false
    case CheckCode(_, _) => false
  }

  lemma {:induction false} StillThereIff(max: nat, run: seq<Step>)
    ensures After(max, run).attempts.Some? <==> forall i :: 0 <= i < |run| ==> !TakesAway(max, run, i)
  {
    if run == [] {
    } else {
      var front := run[..|run| - 1];
      StillThereIff(max, front);
      assert forall i :: 0 <= i < |front| ==> front[..i] == run[..i];
      assert forall i :: 0 <= i < |front| ==> TakesAway(max, run, i) == TakesAway(max, front, i);
      assert After(max, run).attempts.Some? <==> After(max, front).attempts.Some? && !TakesAway(max, run, |front|);
    }
  }

  // ---- a request from its first step to its last -----------------------------------------------------

  ghost predicate OfOthers(steps: seq<Step>, c: CallId) {
    forall i :: 0 <= i < |steps| ==> !StepOf(steps[i], c)
  }

  lemma OtherLeaves(max: nat, s: State, e: Step, c: CallId)
    requires !StepOf(e, c)
    ensures CallOf(Next(max, s, e), c) == CallOf(s, c)
    ensures Next(max, s, e).attempts.Some? ==> s.attempts.Some?
  {
  }

  /** What other requests and time do leaves a request where it stands, and never brings the challenge back. */
  lemma {:induction false} OthersLeave(max: nat, run: seq<Step>, others: seq<Step>, c: CallId)
    requires OfOthers(others, c)
    ensures CallOf(After(max, run + others), c) == CallOf(After(max, run), c)
    ensures After(max, run + others).attempts.Some? ==> After(max, run).attempts.Some?
  {
    if others == [] {
      assert run + others == run;
    } else {
      var n := |others| - 1;
      OthersLeave(max, run, others[..n], c);
      OtherLeaves(max, After(max, run + others[..n]), others[n], c);
      assert run + others == (run + others[..n]) + [others[n]];
      Grown(max, run + others[..n], others[n]);
    }
  }

  /** A request up to its admission, between states that other requests may have moved on. */
  lemma Admission(max: nat, s: State, t: State, u: State, c: CallId, crossSite: bool, admit: Step)
    requires c !in s.calls && admit.Admit? && admit.c == c
    requires CallOf(t, c) == CallOf(Next(max, s, Read(c, crossSite)), c)
    requires CallOf(u, c) == CallOf(Next(max, t, CountAttempt(c)), c)
    requires t.attempts.Some? ==> s.attempts.Some?
    ensures var call := CallOf(Next(max, u, admit), c);
            call.Some? && !call.value.Correct? &&
            (call.value.Checking? <==>
              && !crossSite && admit.lockoutAllows && admit.accountCurrent
              && t.attempts.Some? && t.attempts.value + 1 <= max)
  {
  }

  /** One step of a request and whatever comes before its next one. */
  lemma Stage(max: nat, run: seq<Step>, e: Step, others: seq<Step>, c: CallId)
    requires OfOthers(others, c)
    ensures CallOf(After(max, run + [e] + others), c) == CallOf(Next(max, After(max, run), e), c)
    ensures After(max, run + [e] + others).attempts.Some? ==> After(max, run).attempts.Some?
  {
    Grown(max, run, e);
    OthersLeave(max, run + [e], others, c);
  }

  /**
   A request answered to its end, whatever other requests do and whatever expires between its steps:
   it issues a credential exactly if it is not a cross-site one, its attempt is within the limit, the
   lockout and the account let it pass, its code is right, and the challenge is still there when it claims.
   */
  lemma RequestAnswered(max: nat, run: seq<Step>, c: CallId, crossSite: bool, lockoutAllows: bool,
                        accountCurrent: bool, right: bool,
                        a: seq<Step>, b: seq<Step>, d: seq<Step>, f: seq<Step>)
    requires c !in After(max, run).calls
    requires OfOthers(a, c) && OfOthers(b, c) && OfOthers(d, c) && OfOthers(f, c)
    ensures var counting := run + [Read(c, crossSite)] + a;
            var claiming := counting + [CountAttempt(c)] + b + [Admit(c, lockoutAllows, accountCurrent)] + d +
                            [CheckCode(c, right)] + f;
            CallOf(After(max, claiming + [Claim(c)]), c) == Some(Issued) <==>
              && !crossSite && lockoutAllows && accountCurrent && right
              && After(max, claiming).attempts.Some? && After(max, counting).attempts.Some?
              && After(max, counting).attempts.value + 1 <= max
  {
    var r1 := run + [Read(c, crossSite)] + a;
    var r2 := r1 + [CountAttempt(c)] + b;
    var r3 := r2 + [Admit(c, lockoutAllows, accountCurrent)] + d;
    var r4 := r3 + [CheckCode(c, right)] + f;
    var admit := Admit(c, lockoutAllows, accountCurrent);
    Stage(max, run, Read(c, crossSite), a, c);
    Stage(max, r1, CountAttempt(c), b, c);
    Stage(max, r2, admit, d, c);
    Admission(max, After(max, run), After(max, r1), After(max, r2), c, crossSite, admit);
    Stage(max, r3, CheckCode(c, right), f, c);
    Grown(max, r4, Claim(c));
  }
}
