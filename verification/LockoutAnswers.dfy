/**
 What each policy call answers and does, read off the counters alone: on any counters, so after
 every run of calls. The budget of a username follows: within one life of its counter, whatever
 addresses the attempts come from, those allowed number at most the maximum plus the take-backs.
 */
module LockoutAnswers {
  import opened Basics
  import opened Counters
  import opened Lockout

  /** Attempt counters always carry a deadline. */
  ghost predicate AttemptsDated(m: Table) {
    forall k :: k in m && (k.IpAttempts? || k.UserAttempts? || k.PairAttempts?) ==> m[k].deadline.Some?
  }

  // ---- an attempt ------------------------------------------------------------------------

  /** A lock refuses the attempt: seconds are left on the address's or the username's lock. */
  predicate LockRefuses(b: Backend, m: Table, ip: Ip, user: User, now: int) {
    0 < Ttl(b, m, IpLock(ip), now) || 0 < Ttl(b, m, UserLock(user), now)
  }

  /** The attempt's increment left this counter one higher, a new one armed for the window. */
  ghost predicate CountedOne(b: Backend, cfg: Config, m: Table, n: Table, k: Key, now: int) {
    var before := Look(b, m, k, now);
    k in n && n[k] ==
      if before.None? then Cell(1, Some(now + cfg.attemptWindow * 1000))
      else Cell(before.value.count + 1,
                if before.value.deadline.Some? then before.value.deadline else Some(now + cfg.attemptWindow * 1000))
  }

  lemma RecordedCounts(b: Backend, cfg: Config, m: Table, ip: Ip, user: User, now: int)
    ensures var n := Recorded(b, cfg, m, ip, user, now);
            CountedOne(b, cfg, m, n, IpAttempts(ip), now) && CountedOne(b, cfg, m, n, UserAttempts(user), now)
  {
    var w := Some(cfg.attemptWindow);
    var m1 := Bump(b, m, IpAttempts(ip), 1, w, now);
    BumpElsewhere(b, m, IpAttempts(ip), 1, w, now, UserAttempts(user), now);
    var m2 := Bump(b, m1, UserAttempts(user), 1, w, now);
    assert m2[IpAttempts(ip)] == m1[IpAttempts(ip)];
  }

  lemma LockedCounts(b: Backend, cfg: Config, m: Table, ip: Ip, user: User, r: nat, now: int, k: Key)
    requires k in m && (k.IpAttempts? || k.UserAttempts?)
    ensures k in Locked(b, cfg, m, ip, user, r, now) && Locked(b, cfg, m, ip, user, r, now)[k] == m[k]
  {
    var m1 := Bump(b, m, IpLock(ip), 1, Some(r), now);
    var m2 := Bump(b, m1, UserLock(user), 1, Some(r), now);
    assert k in m2 && m2[k] == m[k];
    var ttl: Option<nat> := Some(Max(r, cfg.roundRetention));
    var m3 := Refresh(b, m2, IpRounds(ip), 1, ttl, now);
    assert k in m3 && m3[k] == m[k];
  }

  /**
   An attempt is refused by a lock exactly while seconds are left on one, for the longer of the two
   times, counting nowhere. Otherwise both its counters go up by one, and it is allowed exactly if
   neither the count it leaves on the address nor the one it leaves on the username is above the
   maximum, with the rest of the larger one's budget remaining.
   */
  lemma AttemptAnswered(b: Backend, cfg: Config, m: Table, ip: Ip, user: User, now: int)
    ensures var o := OnAttempt(b, cfg, m, ip, user, now);
            if LockRefuses(b, m, ip, user, now)
            then o.table == m && !o.verdict.allowed && o.verdict.remaining == Some(0) &&
                 o.verdict.retryAfter == Max(Ttl(b, m, IpLock(ip), now), Ttl(b, m, UserLock(user), now))
            else
              && CountedOne(b, cfg, m, o.table, IpAttempts(ip), now)
              && CountedOne(b, cfg, m, o.table, UserAttempts(user), now)
              && (var onIp, onUser := o.table[IpAttempts(ip)].count, o.table[UserAttempts(user)].count;
                  && (o.verdict.allowed <==> onIp <= cfg.maxAttempts && onUser <= cfg.maxAttempts)
                  && o.verdict.remaining == Some(Max(0, cfg.maxAttempts - Max(onIp, onUser)))
                  && (o.verdict.allowed ==> o.verdict.retryAfter == 0))
  {
    if !LockRefuses(b, m, ip, user, now) {
      JudgedAnswered(b, cfg, m, ip, user, now);
    }
  }

  lemma JudgedAnswered(b: Backend, cfg: Config, m: Table, ip: Ip, user: User, now: int)
    ensures var o := Judged(b, cfg, m, ip, user, now);
            && CountedOne(b, cfg, m, o.table, IpAttempts(ip), now)
            && CountedOne(b, cfg, m, o.table, UserAttempts(user), now)
            && (var onIp, onUser := o.table[IpAttempts(ip)].count, o.table[UserAttempts(user)].count;
                && (o.verdict.allowed <==> onIp <= cfg.maxAttempts && onUser <= cfg.maxAttempts)
                && o.verdict.remaining == Some(Max(0, cfg.maxAttempts - Max(onIp, onUser)))
                && (o.verdict.allowed ==> o.verdict.retryAfter == 0))
  {
    var recorded := Recorded(b, cfg, m, ip, user, now);
    RecordedCounts(b, cfg, m, ip, user, now);
    var r := LockSeconds(cfg, Rounds(b, recorded, ip, user, now));
    LockedCounts(b, cfg, recorded, ip, user, r, now, IpAttempts(ip));
    LockedCounts(b, cfg, recorded, ip, user, r, now, UserAttempts(user));
  }

  /**
   A lockout lasts exactly the base doubled once for every round on the books of the address or the
   username, whichever has more, and never more than the maximum.
   */
  lemma LockoutLasts(b: Backend, cfg: Config, m: Table, ip: Ip, user: User, now: int)
    requires !LockRefuses(b, m, ip, user, now) && !OnAttempt(b, cfg, m, ip, user, now).verdict.allowed
    ensures var rounds := Max(OrZero(Count(b, m, IpRounds(ip), now)), OrZero(Count(b, m, UserRounds(user), now)));
            OnAttempt(b, cfg, m, ip, user, now).verdict.retryAfter ==
              Min(Doubled(cfg.lockoutBase, rounds), cfg.lockoutMax)
  {
    var rounds := Max(OrZero(Count(b, m, IpRounds(ip), now)), OrZero(Count(b, m, UserRounds(user), now)));
    RecordedFrame(b, cfg, m, ip, user, now, IpRounds(ip), now);
    RecordedFrame(b, cfg, m, ip, user, now, UserRounds(user), now);
    DoubledIs(cfg.lockoutBase, rounds);
  }

  /**
   The pair counter of an attempt no lock refused: under "clear_all", with seconds left on the address
   counter, it goes up by one, a new one armed for those seconds; otherwise it stays as it was.
   */
  lemma PairAnswered(b: Backend, cfg: Config, m: Table, ip: Ip, user: User, now: int)
    requires AttemptsDated(m)
    ensures var n := Recorded(b, cfg, m, ip, user, now);
            var left, p := Ttl(b, n, IpAttempts(ip), now), PairAttempts(ip, user);
            var before := Look(b, m, p, now);
            if cfg.clearAll && 0 < left
            then p in n && n[p] == (if before.None? then Cell(1, Some(now + left * 1000))
                                    else before.value.(count := before.value.count + 1))
            else (p in n <==> p in m) && (p in m ==> n[p] == m[p])
  {
    var w := Some(cfg.attemptWindow);
    var m1 := Bump(b, m, IpAttempts(ip), 1, w, now);
    var m2 := Bump(b, m1, UserAttempts(user), 1, w, now);
    BumpElsewhere(b, m, IpAttempts(ip), 1, w, now, PairAttempts(ip, user), now);
    BumpElsewhere(b, m1, UserAttempts(user), 1, w, now, PairAttempts(ip, user), now);
    BumpElsewhere(b, m2, PairAttempts(ip, user), 1, Some(Ttl(b, m2, IpAttempts(ip), now)), now, IpAttempts(ip), now);
    assert (PairAttempts(ip, user) in m2 <==> PairAttempts(ip, user) in m);
  }

  /** A lock counter goes up by one, armed for `r` seconds if it was not live. */
  ghost predicate LockCounted(b: Backend, m: Table, n: Table, k: Key, r: nat, now: int) {
    var before := Look(b, m, k, now);
    k in n && n[k].count == (if before.None? then 1 else before.value.count + 1) &&
    n[k].deadline ==
      if before.None? || before.value.deadline.None? then Some(now + r * 1000) else before.value.deadline
  }

  /** A rounds counter goes up by one and is remembered for as long as the retention or the lock. */
  ghost predicate RoundCounted(b: Backend, cfg: Config, m: Table, n: Table, k: Key, r: nat, now: int) {
    var before := Look(b, m, k, now);
    k in n && n[k] == Cell(if before.None? then 1 else before.value.count + 1,
                           Some(now + Max(r, cfg.roundRetention) * 1000))
  }

  /** What a lockout of `r` seconds books: both locks and both rounds. */
  lemma LockedBooks(b: Backend, cfg: Config, m: Table, ip: Ip, user: User, r: nat, now: int)
    ensures var n := Locked(b, cfg, m, ip, user, r, now);
            && LockCounted(b, m, n, IpLock(ip), r, now) && LockCounted(b, m, n, UserLock(user), r, now)
            && RoundCounted(b, cfg, m, n, IpRounds(ip), r, now) && RoundCounted(b, cfg, m, n, UserRounds(user), r, now)
  {
    var ttl: Option<nat> := Some(Max(r, cfg.roundRetention));
    var m1 := Bump(b, m, IpLock(ip), 1, Some(r), now);
    BumpElsewhere(b, m, IpLock(ip), 1, Some(r), now, UserLock(user), now);
    var m2 := Bump(b, m1, UserLock(user), 1, Some(r), now);
    assert m2[IpLock(ip)] == m1[IpLock(ip)];
    RoundsUntouched(b, m, m2, ip, user, r, now);
    var m3 := Refresh(b, m2, IpRounds(ip), 1, ttl, now);
    assert m3[IpLock(ip)] == m2[IpLock(ip)] && m3[UserLock(user)] == m2[UserLock(user)];
    RefreshElsewhere(b, m2, IpRounds(ip), 1, ttl, now, UserRounds(user), now);
  }

  lemma RoundsUntouched(b: Backend, m: Table, m2: Table, ip: Ip, user: User, r: nat, now: int)
    requires m2 == Bump(b, Bump(b, m, IpLock(ip), 1, Some(r), now), UserLock(user), 1, Some(r), now)
    ensures Look(b, m2, IpRounds(ip), now) == Look(b, m, IpRounds(ip), now)
    ensures Look(b, m2, UserRounds(user), now) == Look(b, m, UserRounds(user), now)
  {
    var m1 := Bump(b, m, IpLock(ip), 1, Some(r), now);
    BumpElsewhere(b, m, IpLock(ip), 1, Some(r), now, IpRounds(ip), now);
    BumpElsewhere(b, m, IpLock(ip), 1, Some(r), now, UserRounds(user), now);
    BumpElsewhere(b, m1, UserLock(user), 1, Some(r), now, IpRounds(ip), now);
    BumpElsewhere(b, m1, UserLock(user), 1, Some(r), now, UserRounds(user), now);
  }

  /** An attempt that is neither refused by a lock nor allowed books exactly the lockout it announces. */
  lemma LockoutBooked(b: Backend, cfg: Config, m: Table, ip: Ip, user: User, now: int)
    requires !LockRefuses(b, m, ip, user, now) && !OnAttempt(b, cfg, m, ip, user, now).verdict.allowed
    ensures var o := OnAttempt(b, cfg, m, ip, user, now);
            var r := o.verdict.retryAfter;
            && LockCounted(b, m, o.table, IpLock(ip), r, now) && LockCounted(b, m, o.table, UserLock(user), r, now)
            && RoundCounted(b, cfg, m, o.table, IpRounds(ip), r, now)
            && RoundCounted(b, cfg, m, o.table, UserRounds(user), r, now)
  {
    var recorded := Recorded(b, cfg, m, ip, user, now);
    RecordedFrame(b, cfg, m, ip, user, now, IpLock(ip), now);
    RecordedFrame(b, cfg, m, ip, user, now, UserLock(user), now);
    RecordedFrame(b, cfg, m, ip, user, now, IpRounds(ip), now);
    RecordedFrame(b, cfg, m, ip, user, now, UserRounds(user), now);
    LockedBooks(b, cfg, recorded, ip, user, OnAttempt(b, cfg, m, ip, user, now).verdict.retryAfter, now);
  }

  function Doubled(base: nat, times: int): nat
    decreases times
  {
    if times <= 0 then base else 2 * Doubled(base, times - 1)
  }

  lemma {:induction false} DoubledIs(base: nat, times: int)
    ensures Doubled(base, times) == base * Pow2(times)
    decreases times
  {
    if times <= 0 {
    } else {
      DoubledIs(base, times - 1);
    }
  }

  // ---- a success and a take-back -------------------------------------------------------------

  /**
   A success leaves the username no attempts, no lock and no rounds. Under "clear_all" it also takes
   the pair's live failures off the address and leaves the pair none.
   */
  lemma SuccessAnswered(b: Backend, cfg: Config, m: Table, ip: Ip, user: User, now: int)
    requires AttemptsDated(m)
    ensures var n := OnSuccess(b, cfg, m, ip, user, now);
            var own := OrZero(Count(b, m, PairAttempts(ip, user), now));
            && UserAttempts(user) !in n && UserLock(user) !in n && UserRounds(user) !in n
            && (cfg.clearAll ==> OrZero(Count(b, n, PairAttempts(ip, user), now)) == 0)
            && (cfg.clearAll && Look(b, m, IpAttempts(ip), now).Some? ==>
                  Look(b, n, IpAttempts(ip), now) ==
                  Some(Cell(Look(b, m, IpAttempts(ip), now).value.count - own, m[IpAttempts(ip)].deadline)))
  {
  }

  /** Everything else it leaves as it was. */
  lemma SuccessSpares(b: Backend, cfg: Config, m: Table, ip: Ip, user: User, now: int, k: Key)
    requires k != UserAttempts(user) && k != UserLock(user) && k != UserRounds(user)
    requires cfg.clearAll ==> k != PairAttempts(ip, user) && k != IpAttempts(ip)
    ensures var n := OnSuccess(b, cfg, m, ip, user, now);
            (k in n <==> k in m) && (k in m ==> n[k] == m[k])
  {
  }

  function OneLess(c: Option<Cell>): Option<Cell> {
    if c.Some? && 0 < c.value.count then Some(c.value.(count := c.value.count - 1)) else c
  }

  lemma TakenBackIs(b: Backend, cfg: Config, m: Table, k: Key, now: int, j: Key)
    requires Look(b, m, k, now).Some? ==> Look(b, m, k, now).value.deadline.Some?
    ensures Look(b, TakenBack(b, cfg, m, k, now), j, now) ==
            if j == k then OneLess(Look(b, m, k, now)) else Look(b, m, j, now)
  {
  }

  /** A take-back lowers each of the attempt's counters that is positive by one, and nothing else. */
  lemma ForgetAnswered(b: Backend, cfg: Config, m: Table, ip: Ip, user: User, now: int, j: Key)
    requires AttemptsDated(m)
    ensures Look(b, OnForget(b, cfg, m, ip, user, now), j, now) ==
            if j == IpAttempts(ip) || j == UserAttempts(user) || (cfg.clearAll && j == PairAttempts(ip, user))
            then OneLess(Look(b, m, j, now)) else Look(b, m, j, now)
  {
    var m1 := TakenBack(b, cfg, m, IpAttempts(ip), now);
    TakenBackIs(b, cfg, m, IpAttempts(ip), now, j);
    TakenBackIs(b, cfg, m, IpAttempts(ip), now, UserAttempts(user));
    TakenBackIs(b, cfg, m, IpAttempts(ip), now, PairAttempts(ip, user));
    var m2 := TakenBack(b, cfg, m1, UserAttempts(user), now);
    TakenBackIs(b, cfg, m1, UserAttempts(user), now, j);
    TakenBackIs(b, cfg, m1, UserAttempts(user), now, PairAttempts(ip, user));
    if cfg.clearAll {
      TakenBackIs(b, cfg, m2, PairAttempts(ip, user), now, j);
    }
  }

  lemma BumpDated(b: Backend, m: Table, k: Key, amount: int, expiry: nat, now: int)
    requires AttemptsDated(m)
    ensures AttemptsDated(Bump(b, m, k, amount, Some(expiry), now))
  {
  }

  lemma LockedDated(b: Backend, cfg: Config, m: Table, ip: Ip, user: User, r: nat, now: int)
    requires AttemptsDated(m)
    ensures AttemptsDated(Locked(b, cfg, m, ip, user, r, now))
  {
    var m1 := Bump(b, m, IpLock(ip), 1, Some(r), now);
    BumpDated(b, m, IpLock(ip), 1, r, now);
    BumpDated(b, m1, UserLock(user), 1, r, now);
  }

  lemma AttemptDated(b: Backend, cfg: Config, m: Table, ip: Ip, user: User, now: int)
    requires AttemptsDated(m)
    ensures AttemptsDated(OnAttempt(b, cfg, m, ip, user, now).table)
  {
    var m1 := Bump(b, m, IpAttempts(ip), 1, Some(cfg.attemptWindow), now);
    BumpDated(b, m, IpAttempts(ip), 1, cfg.attemptWindow, now);
    var m2 := Bump(b, m1, UserAttempts(user), 1, Some(cfg.attemptWindow), now);
    BumpDated(b, m1, UserAttempts(user), 1, cfg.attemptWindow, now);
    BumpDated(b, m2, PairAttempts(ip, user), 1, Ttl(b, m2, IpAttempts(ip), now), now);
    var recorded := Recorded(b, cfg, m, ip, user, now);
    LockedDated(b, cfg, recorded, ip, user, LockSeconds(cfg, Rounds(b, recorded, ip, user, now)), now);
  }

  lemma ForgetDated(b: Backend, cfg: Config, m: Table, ip: Ip, user: User, now: int)
    requires AttemptsDated(m)
    ensures AttemptsDated(OnForget(b, cfg, m, ip, user, now))
  {
    BumpDated(b, m, IpAttempts(ip), -1, cfg.attemptWindow, now);
    var m1 := TakenBack(b, cfg, m, IpAttempts(ip), now);
    BumpDated(b, m1, UserAttempts(user), -1, cfg.attemptWindow, now);
    var m2 := TakenBack(b, cfg, m1, UserAttempts(user), now);
    BumpDated(b, m2, PairAttempts(ip, user), -1, cfg.attemptWindow, now);
  }

  lemma CallDated(b: Backend, cfg: Config, m: Table, c: Call)
    requires AttemptsDated(m)
    ensures AttemptsDated(Effects(b, cfg, m, c))
  {
    match c
    case Attempt(ip, user, now) => AttemptDated(b, cfg, m, ip, user, now);
    case Success(ip, user, now) =>
    case Forget(ip, user, now) => ForgetDated(b, cfg, m, ip, user, now);
  }

  lemma {:induction false} RunDated(b: Backend, cfg: Config, calls: seq<Call>)
    ensures AttemptsDated(After(b, cfg, map[], calls))
  {
    if calls == [] {
    } else {
      RunDated(b, cfg, calls[..|calls| - 1]);
      CallDated(b, cfg, After(b, cfg, map[], calls[..|calls| - 1]), calls[|calls| - 1]);
    }
  }

  // ---- the budget of a username ------------------------------------------------------------------

  /** The attempts allowed, and those taken back, in the present life of a username's counter. */
  datatype Life = Life(allowed: nat, takenBack: nat)

  function LifeNext(b: Backend, cfg: Config, m: Table, life: Life, c: Call, user: User): Life {
    if c.user != user then life
    else
      match c
      case Attempt(ip, _, now) =>
        if LockRefuses(b, m, ip, user, now) then life
        else
          var begun := if Look(b, m, UserAttempts(user), now).Some? then life else Life(0, 0);
          if OnAttempt(b, cfg, m, ip, user, now).verdict.allowed then begun.(allowed := begun.allowed + 1) else begun
      case Success(_, _, _) => Life(0, 0)
      case Forget(_, _, now) =>
        if 0 < OrZero(Count(b, m, UserAttempts(user), now)) then life.(takenBack := life.takenBack + 1) else life
  }

  function LifeAfter(b: Backend, cfg: Config, calls: seq<Call>, user: User): Life {
    if calls == [] then Life(0, 0)
    else
      var front := calls[..|calls| - 1];
      LifeNext(b, cfg, After(b, cfg, map[], front), LifeAfter(b, cfg, front, user), calls[|calls| - 1], user)
  }

  /** What the counter holds covers the attempts allowed and not taken back. */
  ghost predicate Covered(cfg: Config, m: Table, life: Life, user: User) {
    && life.allowed <= Max(0, cfg.maxAttempts) + life.takenBack
    && (UserAttempts(user) in m ==> life.allowed <= m[UserAttempts(user)].count + life.takenBack)
  }

  lemma AttemptCovered(b: Backend, cfg: Config, m: Table, life: Life, c: Call, user: User)
    requires Covered(cfg, m, life, user) && c.Attempt? && c.user == user
    ensures Covered(cfg, Effects(b, cfg, m, c), LifeNext(b, cfg, m, life, c, user), user)
  {
    AttemptAnswered(b, cfg, m, c.ip, user, c.at);
  }

  lemma ForgetCell(b: Backend, cfg: Config, m: Table, ip: Ip, user: User, now: int)
    requires AttemptsDated(m)
    ensures var n := OnForget(b, cfg, m, ip, user, now);
            && (UserAttempts(user) in n <==> UserAttempts(user) in m)
            && (UserAttempts(user) in m ==>
                  n[UserAttempts(user)].count ==
                  m[UserAttempts(user)].count - if 0 < OrZero(Count(b, m, UserAttempts(user), now)) then 1 else 0)
  {
    var k := UserAttempts(user);
    var m1 := TakenBack(b, cfg, m, IpAttempts(ip), now);
    assert (k in m1 <==> k in m) && (k in m ==> m1[k] == m[k]);
    var m2 := TakenBack(b, cfg, m1, k, now);
    assert (k in m2 <==> k in m);
  }

  lemma ForgetCovered(b: Backend, cfg: Config, m: Table, life: Life, c: Call, user: User)
    requires AttemptsDated(m) && Covered(cfg, m, life, user) && c.Forget? && c.user == user
    ensures Covered(cfg, Effects(b, cfg, m, c), LifeNext(b, cfg, m, life, c, user), user)
  {
    ForgetCell(b, cfg, m, c.ip, user, c.at);
  }

  /** No call of another username moves this one's counter. */
  lemma OthersLeaveIt(b: Backend, cfg: Config, m: Table, c: Call, user: User)
    requires c.user != user
    ensures var n, k := Effects(b, cfg, m, c), UserAttempts(user);
            (k in n <==> k in m) && (k in m ==> n[k] == m[k])
  {
    match c
    case Attempt(ip, other, now) => AttemptLeavesIt(b, cfg, m, ip, other, now, UserAttempts(user));
    case Success(_, _, _) =>
    case Forget(_, _, _) =>
  }

  lemma AttemptLeavesIt(b: Backend, cfg: Config, m: Table, ip: Ip, other: User, now: int, k: Key)
    requires k.UserAttempts? && k.user != other
    ensures var n := OnAttempt(b, cfg, m, ip, other, now).table;
            (k in n <==> k in m) && (k in m ==> n[k] == m[k])
  {
    var recorded := Recorded(b, cfg, m, ip, other, now);
    assert (k in recorded <==> k in m) && (k in m ==> recorded[k] == m[k]);
    var r := LockSeconds(cfg, Rounds(b, recorded, ip, other, now));
    LockedLeavesIt(b, cfg, recorded, ip, other, r, now, k);
  }

  lemma LockedLeavesIt(b: Backend, cfg: Config, m: Table, ip: Ip, other: User, r: nat, now: int, k: Key)
    requires k.UserAttempts?
    ensures var n := Locked(b, cfg, m, ip, other, r, now);
            (k in n <==> k in m) && (k in m ==> n[k] == m[k])
  {
    var m1 := Bump(b, m, IpLock(ip), 1, Some(r), now);
    var m2 := Bump(b, m1, UserLock(other), 1, Some(r), now);
    assert (k in m2 <==> k in m) && (k in m ==> m2[k] == m[k]);
    var m3 := Refresh(b, m2, IpRounds(ip), 1, Some(Max(r, cfg.roundRetention)), now);
    assert (k in m3 <==> k in m) && (k in m ==> m3[k] == m[k]);
  }

  lemma {:induction false} RunCovered(b: Backend, cfg: Config, calls: seq<Call>, user: User)
    ensures Covered(cfg, After(b, cfg, map[], calls), LifeAfter(b, cfg, calls, user), user)
  {
    if calls == [] {
    } else {
      var front, c := calls[..|calls| - 1], calls[|calls| - 1];
      var m := After(b, cfg, map[], front);
      RunCovered(b, cfg, front, user);
      RunDated(b, cfg, front);
      if c.user != user {
        OthersLeaveIt(b, cfg, m, c, user);
      } else if c.Attempt? {
        AttemptCovered(b, cfg, m, LifeAfter(b, cfg, front, user), c, user);
      } else if c.Forget? {
        ForgetCovered(b, cfg, m, LifeAfter(b, cfg, front, user), c, user);
      } else {
        assert UserAttempts(user) !in Effects(b, cfg, m, c);
      }
    }
  }

  /**
   Within one life of a username's counter, whatever addresses they come from, the attempts allowed
   number at most the maximum plus those taken back.
   */
  lemma AllowedWithinLife(b: Backend, cfg: Config, calls: seq<Call>, user: User)
    ensures var life := LifeAfter(b, cfg, calls, user);
            life.allowed <= Max(0, cfg.maxAttempts) + life.takenBack
  {
    RunCovered(b, cfg, calls, user);
  }
}
