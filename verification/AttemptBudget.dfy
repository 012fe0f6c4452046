/**
 The login budget of one username when any number of requests interleave.

 A request's attempt increments the address counter and the username counter in two separate
 atomic operations and is judged by the larger of the two counts it got back; a take-back
 reads the counter and then, if it was positive, decrements it. A counter lives from the
 operation that finds none until it expires or a success deletes it. The address count is
 whatever its own counter returned, so it is an input here.
 */
module AttemptBudget {
  import opened Basics
  import opened Counters

  type CallId = nat

  datatype Entry = Counted(life: nat, count: int) | TookBack(life: nat)

  datatype Call =
    | Judging(ipCount: int)
    | Counting(ipCount: int, life: nat, count: int, at: nat)
    | Answered(allowed: bool, life: nat, at: nat)
    | TakingBack
    | Done

  /** `life` numbers the counter's lifetimes; `log` lists the operations on the counter in order. */
  datatype State = State(now: int, cell: Option<Cell>, life: nat, log: seq<Entry>, calls: map<CallId, Call>)

  datatype Step =
    | Tick(to: int)
    | CountIp(c: CallId, ipCount: int)
    | CountUser(c: CallId)
    | Answer(c: CallId)
    | ReadToTakeBack(c: CallId)
    | TakeBack(c: CallId)
    | Clear

  datatype Config = Config(backend: Backend, maxAttempts: nat, window: nat)

  predicate Live(cfg: Config, s: State) {
    s.cell.Some? && Alive(cfg.backend, s.cell.value, s.now)
  }

  /** One atomic increment: a live counter moves, an absent or dead one starts a new lifetime. */
  function Moved(cfg: Config, s: State, amount: int): State {
    if Live(cfg, s) then
      var d := if s.cell.value.deadline.None? then Armed(Some(cfg.window), s.now) else s.cell.value.deadline;
      s.(cell := Some(Cell(s.cell.value.count + amount, d)))
    else
      s.(cell := Some(Cell(amount, Armed(Some(cfg.window), s.now))), life := s.life + 1)
  }

  function Next(cfg: Config, s: State, e: Step): State {
    match e
    case Tick(to) => if s.now <= to then s.(now := to) else s
    case CountIp(c, ipCount) => if c in s.calls then s else s.(calls := s.calls[c := Judging(ipCount)])
    case CountUser(c) =>
      if !(c in s.calls && s.calls[c].Judging?) then s
      else
        var t := Moved(cfg, s, 1);
        t.(log := s.log + [Counted(t.life, t.cell.value.count)],
           calls := s.calls[c := Counting(s.calls[c].ipCount, t.life, t.cell.value.count, |s.log|)])
    case Answer(c) =>
      if !(c in s.calls && s.calls[c].Counting?) then s
      else
        var call := s.calls[c];
        var attempts := if call.ipCount < call.count then call.count else call.ipCount;
        s.(calls := s.calls[c := Answered(attempts <= cfg.maxAttempts, call.life, call.at)])
    case ReadToTakeBack(c) =>
      if c in s.calls then s
      else s.(calls := s.calls[c := if Live(cfg, s) && s.cell.value.count > 0 then TakingBack else Done])
    case TakeBack(c) =>
      if !(c in s.calls && s.calls[c].TakingBack?) then s
      else
        var t := Moved(cfg, s, -1);
        t.(log := s.log + [TookBack(t.life)], calls := s.calls[c := Done])
    case Clear => s.(cell := None)
  }

  function After(cfg: Config, run: seq<Step>): State {
    if run == [] then State(0, None, 0, [], map[])
    else Next(cfg, After(cfg, run[..|run| - 1]), run[|run| - 1])
  }

  // ---- counting the log ------------------------------------------------------------------

  function Ups(log: seq<Entry>, life: nat): nat {
    if log == [] then 0
    else
      var e := log[|log| - 1];
      Ups(log[..|log| - 1], life) + if e.Counted? && e.life == life then 1 else 0
  }

  function TakeBacks(log: seq<Entry>, life: nat): nat {
    if log == [] then 0
    else
      var e := log[|log| - 1];
      TakeBacks(log[..|log| - 1], life) + if e.TookBack? && e.life == life then 1 else 0
  }

  /** The log positions of a lifetime whose count was within the budget. */
  function Grants(log: seq<Entry>, life: nat, max: nat): set<nat> {
    set i: nat | i < |log| && log[i].Counted? && log[i].life == life && log[i].count <= max
  }

  /** Every recorded count is the increments so far in its lifetime less the take-backs so far. */
  ghost predicate WellCounted(log: seq<Entry>) {
    forall i :: 0 <= i < |log| && log[i].Counted? ==>
      log[i].count == Ups(log[..i], log[i].life) + 1 - TakeBacks(log[..i], log[i].life)
  }

  lemma GrantsSnoc(log: seq<Entry>, e: Entry, life: nat, max: nat)
    ensures Grants(log + [e], life, max) ==
            Grants(log, life, max) +
            if e.Counted? && e.life == life && e.count <= max then {|log|} else {}
  {
  }

  lemma {:induction false} GrantsWithinUps(log: seq<Entry>, life: nat, max: nat)
    ensures |Grants(log, life, max)| <= Ups(log, life)
  {
    if log == [] {
    } else {
      var front := log[..|log| - 1];
      assert log == front + [log[|log| - 1]];
      GrantsSnoc(front, log[|log| - 1], life, max);
      GrantsWithinUps(front, life, max);
    }
  }

  /** The potential argument: the last grant bounds the increments before it. */
  lemma {:induction false} GrantsWithinBudget(log: seq<Entry>, life: nat, max: nat)
    requires WellCounted(log)
    ensures |Grants(log, life, max)| <= max + TakeBacks(log, life)
  {
    if log == [] {
    } else {
      var front, e := log[..|log| - 1], log[|log| - 1];
      assert log == front + [e];
      forall i | 0 <= i < |front| && front[i].Counted?
        ensures front[i].count == Ups(front[..i], front[i].life) + 1 - TakeBacks(front[..i], front[i].life)
      {
        assert front[..i] == log[..i];
      }
      GrantsSnoc(front, e, life, max);
      GrantsWithinBudget(front, life, max);
      GrantsWithinUps(front, life, max);
      assert log[..|front|] == front;
    }
  }

  // ---- the invariant ---------------------------------------------------------------------

  ghost predicate Recorded(s: State, life: nat, at: nat) {
    at < |s.log| && s.log[at].Counted? && s.log[at].life == life
  }

  /** Where in the log the call's increment is, once it has one. */
  function Spot(call: Call): Option<nat> {
    if call.Counting? || call.Answered? then Some(call.at) else None
  }

  ghost predicate CallOk(cfg: Config, s: State, c: CallId)
    requires c in s.calls
  {
    match s.calls[c]
    case Counting(_, life, count, at) => Recorded(s, life, at) && s.log[at].count == count
    case Answered(allowed, life, at) =>
      Recorded(s, life, at) && (allowed ==> s.log[at].count <= cfg.maxAttempts)
    case _ => true
  }

  ghost predicate SpotsDistinct(s: State) {
    forall c, d :: c in s.calls && d in s.calls && c != d && Spot(s.calls[c]).Some? ==>
      Spot(s.calls[c]) != Spot(s.calls[d])
  }

  ghost predicate LogOk(cfg: Config, s: State) {
    && WellCounted(s.log)
    && (Live(cfg, s) ==> s.cell.value.count == Ups(s.log, s.life) - TakeBacks(s.log, s.life))
    && (forall i :: 0 <= i < |s.log| ==> s.log[i].life <= s.life)
  }

  ghost predicate Inv(cfg: Config, s: State) {
    LogOk(cfg, s) && SpotsDistinct(s) && forall c :: c in s.calls ==> CallOk(cfg, s, c)
  }

  lemma {:induction false} NothingYet(log: seq<Entry>, life: nat)
    requires forall i :: 0 <= i < |log| ==> log[i].life != life
    ensures Ups(log, life) == 0 && TakeBacks(log, life) == 0
  {
    if log == [] {
    } else {
      NothingYet(log[..|log| - 1], life);
    }
  }

  /** An increment's count agrees with the log it is appended to. */
  lemma MovedCounts(cfg: Config, s: State, amount: int)
    requires LogOk(cfg, s)
    ensures var t := Moved(cfg, s, amount);
            t.cell.value.count == Ups(s.log, t.life) - TakeBacks(s.log, t.life) + amount
  {
    if !Live(cfg, s) {
      NothingYet(s.log, s.life + 1);
    }
  }

  lemma WellCountedSnoc(log: seq<Entry>, e: Entry)
    requires WellCounted(log)
    requires e.Counted? ==> e.count == Ups(log, e.life) + 1 - TakeBacks(log, e.life)
    ensures WellCounted(log + [e])
  {
    forall i | 0 <= i < |log| + 1 && (log + [e])[i].Counted?
      ensures (log + [e])[i].count ==
              Ups((log + [e])[..i], (log + [e])[i].life) + 1 - TakeBacks((log + [e])[..i], (log + [e])[i].life)
    {
      assert (log + [e])[..i] == if i < |log| then log[..i] else log;
    }
  }

  lemma MoveKeepsLog(cfg: Config, s: State, t: State, amount: int, e: Entry)
    requires LogOk(cfg, s)
    requires var u := Moved(cfg, s, amount);
             t.cell == u.cell && t.life == u.life && t.now == s.now && t.log == s.log + [e] &&
             e == if amount == 1 then Counted(u.life, u.cell.value.count) else TookBack(u.life)
    requires amount == 1 || amount == -1
    ensures LogOk(cfg, t)
  {
    MovedCounts(cfg, s, amount);
    WellCountedSnoc(s.log, e);
    assert t.log[..|s.log|] == s.log;
  }

  lemma LogGrowsKeepsCalls(cfg: Config, s: State, t: State, e: Entry, c: CallId)
    requires (forall d :: d in s.calls ==> CallOk(cfg, s, d)) && SpotsDistinct(s)
    requires t.log == s.log + [e] && c in s.calls && Spot(s.calls[c]).None?
    requires t.calls.Keys == s.calls.Keys && forall d :: d in s.calls && d != c ==> t.calls[d] == s.calls[d]
    requires Spot(t.calls[c]).Some? ==> Spot(t.calls[c]) == Some(|s.log|) && CallOk(cfg, t, c)
    ensures (forall d :: d in t.calls ==> CallOk(cfg, t, d)) && SpotsDistinct(t)
  {
    forall d | d in t.calls ensures CallOk(cfg, t, d) {
      if d != c {
        assert CallOk(cfg, s, d);
      }
    }
    forall d, f | d in t.calls && f in t.calls && d != f && Spot(t.calls[d]).Some?
      ensures Spot(t.calls[d]) != Spot(t.calls[f])
    {
      if d != c { assert CallOk(cfg, s, d); }
      if f != c { assert CallOk(cfg, s, f); }
    }
  }

  lemma CountUserKeeps(cfg: Config, s: State, c: CallId)
    requires Inv(cfg, s) && c in s.calls && s.calls[c].Judging?
    ensures Inv(cfg, Next(cfg, s, CountUser(c)))
  {
    var t := Next(cfg, s, CountUser(c));
    MoveKeepsLog(cfg, s, t, 1, t.log[|s.log|]);
    LogGrowsKeepsCalls(cfg, s, t, t.log[|s.log|], c);
  }

  lemma TakeBackKeeps(cfg: Config, s: State, c: CallId)
    requires Inv(cfg, s) && c in s.calls && s.calls[c].TakingBack?
    ensures Inv(cfg, Next(cfg, s, TakeBack(c)))
  {
    var t := Next(cfg, s, TakeBack(c));
    MoveKeepsLog(cfg, s, t, -1, t.log[|s.log|]);
    LogGrowsKeepsCalls(cfg, s, t, t.log[|s.log|], c);
  }

  lemma OtherStepKeeps(cfg: Config, s: State, e: Step)
    requires Inv(cfg, s) && !e.CountUser? && !e.TakeBack?
    ensures Inv(cfg, Next(cfg, s, e))
  {
    var t := Next(cfg, s, e);
    OtherStepKeepsSpots(cfg, s, e);
    forall c | c in t.calls ensures CallOk(cfg, t, c) {
      OtherStepKeepsCall(cfg, s, e, c);
    }
  }

  lemma OtherStepKeepsSpots(cfg: Config, s: State, e: Step)
    requires SpotsDistinct(s) && !e.CountUser? && !e.TakeBack?
    ensures SpotsDistinct(Next(cfg, s, e))
  {
    var t := Next(cfg, s, e);
    assert forall c :: c in t.calls && Spot(t.calls[c]).Some? ==>
             c in s.calls && Spot(s.calls[c]) == Spot(t.calls[c]);
  }

  lemma OtherStepKeepsCall(cfg: Config, s: State, e: Step, c: CallId)
    requires Inv(cfg, s) && !e.CountUser? && !e.TakeBack? && c in Next(cfg, s, e).calls
    ensures CallOk(cfg, Next(cfg, s, e), c)
  {
    if c in s.calls {
      assert CallOk(cfg, s, c);
    }
  }

  lemma {:induction false} RunKeeps(cfg: Config, run: seq<Step>)
    ensures Inv(cfg, After(cfg, run))
  {
    if run == [] {
    } else {
      RunKeeps(cfg, run[..|run| - 1]);
      var s, e := After(cfg, run[..|run| - 1]), run[|run| - 1];
      if e.CountUser? {
        if e.c in s.calls && s.calls[e.c].Judging? { CountUserKeeps(cfg, s, e.c); }
      } else if e.TakeBack? {
        if e.c in s.calls && s.calls[e.c].TakingBack? { TakeBackKeeps(cfg, s, e.c); }
      } else {
        OtherStepKeeps(cfg, s, e);
      }
    }
  }

  // ---- the budget --------------------------------------------------------------------------

  /** The calls allowed on counts of one lifetime of the username's counter. */
  function AllowedIn(s: State, life: nat): set<CallId> {
    set c | c in s.calls && s.calls[c].Answered? && s.calls[c].allowed && s.calls[c].life == life
  }

  lemma {:induction false} Injection(callers: set<CallId>, s: State, spots: set<nat>)
    requires SpotsDistinct(s)
    requires forall c :: c in callers ==>
               c in s.calls && Spot(s.calls[c]).Some? && Spot(s.calls[c]).value in spots
    ensures |callers| <= |spots|
    decreases callers
  {
    if callers == {} {
    } else {
      var c :| c in callers;
      Injection(callers - {c}, s, spots - {Spot(s.calls[c]).value});
    }
  }

  /**
   The attempt budget: over every interleaving, the attempts allowed within one lifetime of a
   username's counter number at most the maximum plus the take-backs in that lifetime.
   */
  lemma AllowedWithinBudget(cfg: Config, run: seq<Step>, life: nat)
    ensures var s := After(cfg, run);
            |AllowedIn(s, life)| <= cfg.maxAttempts + TakeBacks(s.log, life)
  {
    var s := After(cfg, run);
    RunKeeps(cfg, run);
    forall c | c in AllowedIn(s, life)
      ensures Spot(s.calls[c]).Some? && Spot(s.calls[c]).value in Grants(s.log, life, cfg.maxAttempts)
    {
      assert CallOk(cfg, s, c);
    }
    Injection(AllowedIn(s, life), s, Grants(s.log, life, cfg.maxAttempts));
    GrantsWithinBudget(s.log, life, cfg.maxAttempts);
  }

  // ---- what an attempt is answered -----------------------------------------------------------

  predicate StepOf(e: Step, c: CallId) { !e.Tick? && !e.Clear? && e.c == c }

  ghost predicate OfOthers(steps: seq<Step>, c: CallId) {
    forall i :: 0 <= i < |steps| ==> !StepOf(steps[i], c)
  }

  lemma OtherLeaves(cfg: Config, s: State, e: Step, c: CallId)
    requires !StepOf(e, c) && c in s.calls
    ensures c in Next(cfg, s, e).calls && Next(cfg, s, e).calls[c] == s.calls[c]
  {
  }

  lemma Grown(cfg: Config, run: seq<Step>, e: Step)
    ensures After(cfg, run + [e]) == Next(cfg, After(cfg, run), e)
  {
    assert (run + [e])[..|run|] == run;
  }

  lemma {:induction false} OthersLeave(cfg: Config, run: seq<Step>, others: seq<Step>, c: CallId)
    requires OfOthers(others, c) && c in After(cfg, run).calls
    ensures var calls := After(cfg, run + others).calls; c in calls && calls[c] == After(cfg, run).calls[c]
  {
    if others == [] {
      assert run + others == run;
    } else {
      var n := |others| - 1;
      OthersLeave(cfg, run, others[..n], c);
      OtherLeaves(cfg, After(cfg, run + others[..n]), others[n], c);
      assert run + others == (run + others[..n]) + [others[n]];
      Grown(cfg, run + others[..n], others[n]);
    }
  }

  /** What the username counter stands at, nothing if it has expired or was cleared. */
  function Standing(cfg: Config, s: State): int { if Live(cfg, s) then s.cell.value.count else 0 }

  /** The increment of an attempt adds one to what stands, and is the next entry of the log. */
  lemma AttemptCounts(cfg: Config, run: seq<Step>, c: CallId, ipCount: int, a: seq<Step>)
    requires c !in After(cfg, run).calls && OfOthers(a, c)
    ensures var counting := run + [CountIp(c, ipCount)] + a;
            var s, t := After(cfg, counting), After(cfg, counting + [CountUser(c)]);
            && |t.log| == |s.log| + 1 && t.log[|s.log|] == Counted(t.life, Standing(cfg, s) + 1)
            && c in t.calls && t.calls[c] == Counting(ipCount, t.life, Standing(cfg, s) + 1, |s.log|)
  {
    var counting := run + [CountIp(c, ipCount)] + a;
    Grown(cfg, run, CountIp(c, ipCount));
    OthersLeave(cfg, run + [CountIp(c, ipCount)], a, c);
    Grown(cfg, counting, CountUser(c));
  }

  /**
   An attempt run to its end, whatever others do in between, is allowed exactly if neither the
   count its address counter gave it nor the count its own increment left on the username's is over the maximum.
   */
  lemma AttemptAnswered(cfg: Config, run: seq<Step>, c: CallId, ipCount: int, a: seq<Step>, b: seq<Step>)
    requires c !in After(cfg, run).calls && OfOthers(a, c) && OfOthers(b, c)
    ensures var counting := run + [CountIp(c, ipCount)] + a;
            var judged := counting + [CountUser(c)] + b;
            var t := After(cfg, judged + [Answer(c)]);
            c in t.calls && t.calls[c].Answered? &&
            (t.calls[c].allowed <==>
               ipCount <= cfg.maxAttempts && Standing(cfg, After(cfg, counting)) + 1 <= cfg.maxAttempts)
  {
    var counting := run + [CountIp(c, ipCount)] + a;
    AttemptCounts(cfg, run, c, ipCount, a);
    OthersLeave(cfg, counting + [CountUser(c)], b, c);
    Grown(cfg, counting + [CountUser(c)] + b, Answer(c));
  }
}
