/**
 The password an account accepts. A login reads the row, verifies the password against the hash it
 read and, if that hash is of an outdated kind, writes a new hash of the same password over whatever
 the row then holds. A reset, a password change and an OAuth claim set the password. A stored hash
 stands for the password it accepts.
 */
module PasswordRow {

  type Password = nat
  type CallId = nat

  /** A verified login that still has to write its new hash. History: the settings before its check. */
  datatype Call = Rehashing(password: Password, settings: nat) | Done(accepted: bool)

  /** History: the password last set, and how often one was set. */
  datatype State = State(password: Password, calls: map<CallId, Call>, lastSet: Password, settings: nat)

  datatype Step =
    | Login(c: CallId, password: Password, outdated: bool)
    | Rehash(c: CallId)
    | SetPassword(password: Password)

  predicate Accepts(s: State, password: Password) { password == s.password }

  function Next(s: State, e: Step): State {
    match e
    case Login(c, password, outdated) =>
      if c in s.calls then s
      else if Accepts(s, password) && outdated then s.(calls := s.calls[c := Rehashing(password, s.settings)])
      else s.(calls := s.calls[c := Done(Accepts(s, password))])
    case Rehash(c) =>
      if !(c in s.calls && s.calls[c].Rehashing?) then s
      else s.(password := s.calls[c].password, calls := s.calls[c := Done(true)])
    case SetPassword(password) =>
      s.(password := password, lastSet := password, settings := s.settings + 1)
  }

  function After(password: Password, run: seq<Step>): State {
    if run == [] then State(password, map[], password, 0)
    else Next(After(password, run[..|run| - 1]), run[|run| - 1])
  }

  /** The account accepts the password last set, and no other. */
  ghost predicate InForce(s: State) { forall p: Password :: Accepts(s, p) <==> p == s.lastSet }

  /** The rehash writes a password verified before the last setting, and other than the one set. */
  predicate Stale(s: State, e: Step) {
    e.Rehash? && e.c in s.calls && s.calls[e.c].Rehashing? &&
    s.calls[e.c].settings < s.settings && s.calls[e.c].password != s.lastSet
  }

  /** What a login verified since the last setting is the password set. */
  ghost predicate Inv(s: State) {
    && s.password == s.lastSet
    && forall c :: c in s.calls && s.calls[c].Rehashing? ==>
         s.calls[c].settings <= s.settings && (s.calls[c].settings == s.settings ==> s.calls[c].password == s.lastSet)
  }

  lemma StepKeeps(s: State, e: Step)
    requires Inv(s) && !Stale(s, e)
    ensures Inv(Next(s, e))
  {
  }

  ghost predicate NoStale(password: Password, run: seq<Step>) {
    forall i :: 0 <= i < |run| ==> !Stale(After(password, run[..i]), run[i])
  }

  lemma {:induction false} RunKeeps(password: Password, run: seq<Step>)
    requires NoStale(password, run)
    ensures Inv(After(password, run))
  {
    if run == [] {
    } else {
      var front := run[..|run| - 1];
      forall i | 0 <= i < |front| ensures !Stale(After(password, front[..i]), front[i]) {
        assert front[..i] == run[..i];
      }
      RunKeeps(password, front);
      StepKeeps(After(password, front), run[|run| - 1]);
    }
  }

  lemma StaleUndoes(s: State, e: Step)
    requires Stale(s, e)
    ensures !InForce(Next(s, e))
  {
    assert Accepts(Next(s, e), s.calls[e.c].password);
  }

  /**
   Exactly when the password last set is in force throughout: at every moment of a run the account
   accepts it and no other, if and only if no login wrote a new hash across a setting for a password
   other than the one set.
   */
  lemma InForceIffNoStale(password: Password, run: seq<Step>)
    ensures (forall i :: 0 <= i <= |run| ==> InForce(After(password, run[..i]))) <==> NoStale(password, run)
  {
    if NoStale(password, run) {
      forall i | 0 <= i <= |run| ensures InForce(After(password, run[..i])) {
        forall k | 0 <= k < i ensures !Stale(After(password, run[..i][..k]), run[..i][k]) {
          assert run[..i][..k] == run[..k];
        }
        RunKeeps(password, run[..i]);
      }
    } else {
      var i :| 0 <= i < |run| && Stale(After(password, run[..i]), run[i]);
      StaleUndoes(After(password, run[..i]), run[i]);
      assert run[..i + 1][..i] == run[..i];
      assert !InForce(After(password, run[..i + 1]));
    }
  }

  /** A login verified before a reset and rehashed after it brings the old password back. */
  lemma RehashUndoesReset(before: Password, after: Password, run: seq<Step>)
    requires before != after && run == [Login(0, before, true), SetPassword(after), Rehash(0)]
    ensures Accepts(After(before, run), before) && !Accepts(After(before, run), after)
  {
    assert run[..2] == [run[0], run[1]] && run[..2][..1] == [run[0]] && run[..2][..1][..0] == [];
    assert After(before, run[..2][..1]) == State(before, map[0 := Rehashing(before, 0)], before, 0);
    assert run[..2][1] == SetPassword(after);
    assert After(before, run[..2]) == State(after, map[0 := Rehashing(before, 0)], after, 1);
  }

  // ---- what a login is answered ---------------------------------------------------------------

  ghost predicate OfOthers(steps: seq<Step>, c: CallId) {
    forall i :: 0 <= i < |steps| ==> steps[i].SetPassword? || steps[i].c != c
  }

  lemma {:induction false} OthersLeave(password: Password, run: seq<Step>, others: seq<Step>, c: CallId)
    requires OfOthers(others, c) && c in After(password, run).calls
    ensures var calls := After(password, run + others).calls; c in calls && calls[c] == After(password, run).calls[c]
  {
    if others == [] {
      assert run + others == run;
    } else {
      assert (run + others)[..|run + others| - 1] == run + others[..|others| - 1];
      OthersLeave(password, run, others[..|others| - 1], c);
    }
  }

  /**
   A login is accepted exactly if its password is the account's when it is checked; run to its end it leaves
   the account accepting that password if it had to write a new hash, and otherwise as it is.
   */
  lemma LoginAnswered(password: Password, run: seq<Step>, c: CallId, typed: Password, outdated: bool, others: seq<Step>)
    requires c !in After(password, run).calls && OfOthers(others, c)
    ensures var verified := run + [Login(c, typed, outdated)] + others;
            var s, t := After(password, verified), After(password, verified + [Rehash(c)]);
            var accepted := Accepts(After(password, run), typed);
            && c in t.calls && t.calls[c] == Done(accepted)
            && forall p: Password :: Accepts(t, p) <==> if accepted && outdated then p == typed else Accepts(s, p)
  {
    var verified := run + [Login(c, typed, outdated)] + others;
    assert (run + [Login(c, typed, outdated)])[..|run|] == run;
    OthersLeave(password, run + [Login(c, typed, outdated)], others, c);
    assert (verified + [Rehash(c)])[..|verified|] == verified;
  }
}
