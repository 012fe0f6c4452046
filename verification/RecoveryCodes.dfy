/**
 What the second-factor calls on one user row are answered, over every run: which enrollments are
 confirmed, and which recovery codes are accepted, by the lists handed out and the codes spent in the run.
 */
module RecoveryCodes {
  import opened Basics
  import opened SecondFactor

  lemma OneMore(run: seq<Step>, e: Step)
    ensures After(run + [e]) == Next(After(run), e)
  {
    Grown(run, e, After(run));
  }

  // ---- a call and the others ---------------------------------------------------------------------

  predicate StepOf(e: Step, c: CallId) { !e.Clear? && !e.Regenerate? && e.c == c }

  ghost predicate OfOthers(steps: seq<Step>, c: CallId) {
    forall i :: 0 <= i < |steps| ==> !StepOf(steps[i], c)
  }

  function CallOf(s: State, c: CallId): Option<Call> { if c in s.calls then Some(s.calls[c]) else None }

  lemma OtherLeaves(s: State, e: Step, c: CallId)
    requires !StepOf(e, c)
    ensures CallOf(Next(s, e), c) == CallOf(s, c)
  {
  }

  lemma {:induction false} OthersLeave(run: seq<Step>, others: seq<Step>, c: CallId)
    requires OfOthers(others, c)
    ensures CallOf(After(run + others), c) == CallOf(After(run), c)
  {
    if others == [] {
      assert run + others == run;
    } else {
      var n := |others| - 1;
      OthersLeave(run, others[..n], c);
      OtherLeaves(After(run + others[..n]), others[n], c);
      assert run + others == (run + others[..n]) + [others[n]];
      OneMore(run + others[..n], others[n]);
    }
  }

  // ---- enrollment ---------------------------------------------------------------------------------

  /** A confirmation in the log that nothing cleared since. */
  ghost predicate Enrolled(log: seq<Entry>) {
    exists i: nat :: i < |log| && log[i].Confirmed? && Present(log, i)
  }

  lemma EnrolledGrows(log: seq<Entry>, more: seq<Entry>)
    requires forall k :: 0 <= k < |more| ==> !more[k].Cleared?
    ensures Enrolled(log) ==> Enrolled(log + more)
    ensures Enrolled(log + more) ==> Enrolled(log) || exists k :: 0 <= k < |more| && more[k].Confirmed?
  {
    var all := log + more;
    if Enrolled(log) {
      var i: nat :| i < |log| && log[i].Confirmed? && Present(log, i);
      assert all[i].Confirmed? && Present(all, i);
    }
    if Enrolled(all) {
      var i: nat :| i < |all| && all[i].Confirmed? && Present(all, i);
      if i < |log| {
        assert forall k :: i < k < |log| ==> log[k] == all[k];
        assert log[i].Confirmed? && Present(log, i);
      } else {
        assert more[i - |log|].Confirmed?;
      }
    }
  }

  lemma StepEnrolls(s: State, e: Step)
    requires s.confirmed <==> Enrolled(s.log)
    ensures Next(s, e).confirmed <==> Enrolled(Next(s, e).log)
  {
    var t := Next(s, e);
    var more := t.log[|s.log|..];
    LogGrows(s, e);
    assert t.log == s.log + more;
    if e.Clear? {
      assert t.log[|s.log|].Cleared?;
    } else {
      EnrolledGrows(s.log, more);
      if t.confirmed && !s.confirmed {
        assert t.log[|s.log|].Confirmed? && Present(t.log, |s.log|);
      }
    }
  }

  lemma {:induction false} RunEnrolls(run: seq<Step>)
    ensures After(run).confirmed <==> Enrolled(After(run).log)
  {
    if run == [] {
    } else {
      RunEnrolls(run[..|run| - 1]);
      StepEnrolls(After(run[..|run| - 1]), run[|run| - 1]);
    }
  }

  lemma EnableActs(s: State, c: CallId, hashes: seq<Hash>)
    requires c in s.calls && (s.calls[c].Claimed? || s.calls[c] == Done(false))
    ensures var t, enables := Next(s, Enable(c, hashes)), s.calls[c].Claimed? && !s.confirmed;
            && CallOf(t, c) == Some(Done(enables)) && t.lastStep == s.lastStep
            && (t.confirmed <==> s.confirmed || enables)
            && t.codes == if enables then Some(hashes) else s.codes
  {
  }

  /**
   A setup whose code was claimed is confirmed, and its list of recovery codes stored, exactly if no
   confirmation is in force by then: of concurrent setups one hands out codes.
   */
  lemma EnableAnswered(run: seq<Step>, c: CallId, step: int, others: seq<Step>, hashes: seq<Hash>)
    requires c !in After(run).calls && OfOthers(others, c)
    ensures var claimed := run + [ClaimStep(c, step)] + others;
            var s, t := After(claimed), After(claimed + [Enable(c, hashes)]);
            var enables := After(run + [ClaimStep(c, step)]).calls[c].Claimed? && !Enrolled(s.log);
            && CallOf(t, c) == Some(Done(enables)) && t.lastStep == s.lastStep
            && (t.confirmed <==> s.confirmed || enables)
            && t.codes == if enables then Some(hashes) else s.codes
  {
    var claimed := run + [ClaimStep(c, step)] + others;
    OneMore(run, ClaimStep(c, step));
    OthersLeave(run + [ClaimStep(c, step)], others, c);
    RunEnrolls(claimed);
    EnableActs(After(claimed), c, hashes);
    OneMore(claimed, Enable(c, hashes));
  }

  // ---- which codes are on the list -------------------------------------------------------------------

  /** The list last handed out, unless the row was cleared since. */
  function HandedOut(run: seq<Step>): seq<Hash> {
    if run == [] then []
    else
      var front, last := run[..|run| - 1], run[|run| - 1];
      match last
      case Clear => []
      case Regenerate(hashes) => hashes
      case Enable(c, hashes) =>
        if CallOf(After(run), c) == Some(Done(true)) && CallOf(After(front), c) != Some(Done(true)) then hashes
        else HandedOut(front)
      case ClaimStep(_, _) => HandedOut(front)
      case ReadCodes(_, _) => HandedOut(front)
      case ReadAgain(_) => HandedOut(front)
      case Consume(_) => HandedOut(front)
  }

  /** Exactly the codes handed out last and not accepted since are on the list. */
  ghost predicate ListIs(s: State, handedOut: seq<Hash>) {
    forall h :: h in Stored(s.codes) <==> h in handedOut && h !in SpentSince(s.log)
  }

  lemma ConsumeLists(s: State, c: CallId, handedOut: seq<Hash>)
    requires ListIs(s, handedOut)
    ensures ListIs(Next(s, Consume(c)), handedOut)
  {
    var t := Next(s, Consume(c));
    if t.log != s.log {
      var hash := s.calls[c].hash;
      SpentSnoc(s.log, CodeAccepted(hash));
      forall h ensures h in Stored(t.codes) <==> h in handedOut && h !in SpentSince(t.log) {
        WithoutRemoves(Stored(s.codes), hash, h);
      }
    }
  }

  lemma RenewalLists(s: State, e: Step)
    requires Next(s, e).log != s.log && (e.Clear? || e.Regenerate? || e.Enable?)
    ensures ListIs(Next(s, e), if e.Clear? then [] else e.hashes)
  {
    match e
    case Clear => SpentSnoc(s.log, Cleared);
    case Regenerate(_) => SpentSnoc(s.log, CodesRenewed);
    case Enable(c, _) =>
      var confirmed := s.log + [Confirmed(s.calls[c].at)];
      SpentSnoc(confirmed, CodesRenewed);
      assert Next(s, e).log == confirmed + [CodesRenewed];
  }

  lemma {:induction false} RunLists(run: seq<Step>)
    ensures ListIs(After(run), HandedOut(run))
  {
    if run == [] {
    } else {
      var front, last := run[..|run| - 1], run[|run| - 1];
      var s := After(front);
      RunLists(front);
      match last
      case Clear => RenewalLists(s, last);
      case Regenerate(_) => RenewalLists(s, last);
      case Enable(_, _) => if After(run).log != s.log { RenewalLists(s, last); }
      case Consume(c) => ConsumeLists(s, c, HandedOut(front));
      case ClaimStep(_, step) => SpentSnoc(s.log, StepAccepted(step));
      case ReadCodes(_, _) =>
      case ReadAgain(_) =>
    }
  }

  // ---- which codes are accepted -------------------------------------------------------------------------

  /** A code an enrolled user was handed last and has not spent since. */
  ghost predicate Good(run: seq<Step>, hash: Hash) {
    Enrolled(After(run).log) && hash in HandedOut(run) && hash !in SpentSince(After(run).log)
  }

  /**
   A recovery code is accepted at the first try exactly if it is good when the call reads the list and nobody
   writes another list before the call writes its own.
   */
  lemma CodeAnswered(run: seq<Step>, c: CallId, hash: Hash, others: seq<Step>)
    requires c !in After(run).calls && OfOthers(others, c)
    ensures var reading := run + [ReadCodes(c, hash)] + others;
            CallOf(After(reading + [Consume(c)]), c) == Some(Done(true)) <==>
            Good(run, hash) && After(reading).codes == After(run).codes
  {
    var reading := run + [ReadCodes(c, hash)];
    RunEnrolls(run);
    RunLists(run);
    OneMore(run, ReadCodes(c, hash));
    OthersLeave(reading, others, c);
    OneMore(reading + others, Consume(c));
  }

  /** So with nobody in between a code is accepted exactly if it is good, and is good no more. */
  lemma CodeSpent(run: seq<Step>, c: CallId, hash: Hash)
    requires c !in After(run).calls
    ensures var t := run + [ReadCodes(c, hash)] + [Consume(c)];
            (CallOf(After(t), c) == Some(Done(true)) <==> Good(run, hash)) && !Good(t, hash)
  {
    var reading := run + [ReadCodes(c, hash)];
    assert reading + [] == reading;
    OneMore(run, ReadCodes(c, hash));
    CodeAnswered(run, c, hash, []);
    OneMore(reading, Consume(c));
    RunLists(run);
    RunEnrolls(run);
    RunLists(reading + [Consume(c)]);
    RunEnrolls(reading + [Consume(c)]);
    WithoutRemoves(Stored(After(run).codes), hash, hash);
  }

  /** How often a call wrote its list in vain, the stored one having changed. */
  function Lost(run: seq<Step>, c: CallId): nat {
    if run == [] then 0
    else
      var front := run[..|run| - 1];
      Lost(front, c) +
      if run[|run| - 1] == Consume(c) && CallOf(After(front), c) != CallOf(After(run), c) &&
         c in After(run).calls && After(run).calls[c].Retrying? then 1 else 0
  }

  /** A call in hand is one try further for every write it lost. */
  ghost predicate TriesAre(s: State, c: CallId, lost: nat) {
    match CallOf(s, c)
    case None => lost == 0
    case Some(Holding(_, _, tries)) => tries == lost < 3
    case Some(Retrying(_, tries)) => tries == lost <= 3
    case Some(Claimed(_)) => lost == 0
    case Some(Done(_)) => lost <= 3
  }

  lemma {:induction false} RunTries(run: seq<Step>, c: CallId)
    ensures TriesAre(After(run), c, Lost(run, c))
  {
    if run == [] {
    } else {
      RunTries(run[..|run| - 1], c);
      StepTries(After(run[..|run| - 1]), run[|run| - 1], c, Lost(run[..|run| - 1], c));
    }
  }

  lemma StepTries(s: State, e: Step, c: CallId, lost: nat)
    requires TriesAre(s, c, lost)
    ensures var t := Next(s, e);
            TriesAre(t, c, lost + if e == Consume(c) && CallOf(s, c) != CallOf(t, c) &&
                                     c in t.calls && t.calls[c].Retrying? then 1 else 0)
  {
    if !StepOf(e, c) {
      OtherLeaves(s, e, c);
    }
  }

  /** A call that lost a write tries again exactly if its code is still good and it lost fewer than three. */
  lemma RetryAnswered(run: seq<Step>, c: CallId)
    requires c in After(run).calls && After(run).calls[c].Retrying?
    ensures var hash := After(run).calls[c].hash;
            var call := CallOf(After(run + [ReadAgain(c)]), c);
            if hash in HandedOut(run) && hash !in SpentSince(After(run).log) && Lost(run, c) < 3
            then call.Some? && call.value.Holding? && call.value.hash == hash && call.value.stored == After(run).codes
            else call == Some(Done(false))
  {
    RunLists(run);
    RunTries(run, c);
    OneMore(run, ReadAgain(c));
  }
}
