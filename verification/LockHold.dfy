/**
 How long a lockout holds and how it escalates, over database counters, whose time left is
 rounded up and so is zero only once a lock has run out.
 */
module LockHold {
  import opened Basics
  import opened Counters
  import opened Lockout

  /** The attempt `c` is neither refused by a lock nor within its budget: it starts a lockout. */
  predicate Trips(b: Backend, cfg: Config, m: Table, c: Call) {
    c.Attempt? && ActiveLockout(b, m, c.ip, c.user, c.at) == 0 &&
    cfg.maxAttempts < AttemptCount(b, m, c.ip, c.user, c.at)
  }

  function Duration(b: Backend, cfg: Config, m: Table, c: Call): nat
    requires c.Attempt?
  {
    OnAttempt(b, cfg, m, c.ip, c.user, c.at).verdict.retryAfter
  }

  predicate LockFor(lock: Key, ip: Ip, user: User) {
    lock == IpLock(ip) || lock == UserLock(user)
  }

  /** `lock` is held up to the instant `until` and not a moment longer. */
  ghost predicate HeldUntil(b: Backend, m: Table, lock: Key, until: int) {
    lock in m && m[lock].deadline == Some(until)
  }

  /** Lock counters always carry a deadline; rounds counters too. */
  ghost predicate Dated(m: Table) {
    forall k :: k in m && (k.IpLock? || k.UserLock? || k.UserRounds? || k.IpRounds?) ==> m[k].deadline.Some?
  }

  // ---- keeping the other counters' cells ----------------------------------------------

  lemma RecordedCell(b: Backend, cfg: Config, m: Table, ip: Ip, user: User, now: int, k: Key)
    requires !k.IpAttempts? && !k.UserAttempts? && !k.PairAttempts?
    ensures var n := Recorded(b, cfg, m, ip, user, now);
            (k in n <==> k in m) && (k in m ==> n[k] == m[k])
  {
  }

  lemma LockedCell(b: Backend, cfg: Config, m: Table, ip: Ip, user: User, r: nat, now: int, k: Key)
    requires k != IpLock(ip) && k != UserLock(user) && k != IpRounds(ip) && k != UserRounds(user)
    ensures var n := Locked(b, cfg, m, ip, user, r, now);
            (k in n <==> k in m) && (k in m ==> n[k] == m[k])
  {
    var ttl: Option<nat> := Some(Max(r, cfg.roundRetention));
    var m1 := Bump(b, m, IpLock(ip), 1, Some(r), now);
    var m2 := Bump(b, m1, UserLock(user), 1, Some(r), now);
    assert (k in m2 <==> k in m) && (k in m ==> m2[k] == m[k]);
    var m3 := Refresh(b, m2, IpRounds(ip), 1, ttl, now);
    assert (k in m3 <==> k in m) && (k in m ==> m3[k] == m[k]);
  }

  lemma LockedDated(b: Backend, cfg: Config, m: Table, ip: Ip, user: User, r: nat, now: int)
    requires Dated(m)
    ensures Dated(Locked(b, cfg, m, ip, user, r, now))
  {
    var ttl: Option<nat> := Some(Max(r, cfg.roundRetention));
    var m1 := Bump(b, m, IpLock(ip), 1, Some(r), now);
    assert Dated(m1);
    var m2 := Bump(b, m1, UserLock(user), 1, Some(r), now);
    assert Dated(m2);
    var m3 := Refresh(b, m2, IpRounds(ip), 1, ttl, now);
    assert Dated(m3);
  }

  lemma AttemptDated(b: Backend, cfg: Config, m: Table, ip: Ip, user: User, now: int)
    requires Dated(m)
    ensures Dated(OnAttempt(b, cfg, m, ip, user, now).table)
  {
    var recorded := Recorded(b, cfg, m, ip, user, now);
    forall k | k in recorded && (k.IpLock? || k.UserLock? || k.UserRounds? || k.IpRounds?)
      ensures recorded[k].deadline.Some?
    {
      RecordedCell(b, cfg, m, ip, user, now, k);
    }
    LockedDated(b, cfg, recorded, ip, user, LockSeconds(cfg, Rounds(b, recorded, ip, user, now)), now);
  }

  lemma ForgetCell(b: Backend, cfg: Config, m: Table, ip: Ip, user: User, now: int, k: Key)
    requires !k.IpAttempts? && !k.UserAttempts? && !k.PairAttempts?
    ensures var n := OnForget(b, cfg, m, ip, user, now);
            (k in n <==> k in m) && (k in m ==> n[k] == m[k])
  {
  }

  lemma SuccessCell(b: Backend, cfg: Config, m: Table, ip: Ip, user: User, now: int, k: Key)
    requires !k.IpAttempts? && !k.UserAttempts? && !k.PairAttempts?
    ensures var n := OnSuccess(b, cfg, m, ip, user, now);
            (k in n <==> k in m && k != UserLock(user) && k != UserRounds(user)) && (k in n ==> n[k] == m[k])
  {
  }

  lemma {:induction false} RunDated(b: Backend, cfg: Config, m: Table, calls: seq<Call>)
    requires Dated(m)
    ensures Dated(After(b, cfg, m, calls))
  {
    if calls == [] {
    } else {
      var front, c := calls[..|calls| - 1], calls[|calls| - 1];
      RunDated(b, cfg, m, front);
      var s, t := After(b, cfg, m, front), After(b, cfg, m, calls);
      match c {
        case Attempt(ip, user, at) => AttemptDated(b, cfg, s, ip, user, at);
        case Success(ip, user, at) =>
          forall k | k in t && (k.IpLock? || k.UserLock? || k.UserRounds? || k.IpRounds?)
            ensures t[k].deadline.Some?
          {
            SuccessCell(b, cfg, s, ip, user, at, k);
          }
        case Forget(ip, user, at) =>
          forall k | k in t && (k.IpLock? || k.UserLock? || k.UserRounds? || k.IpRounds?)
            ensures t[k].deadline.Some?
          {
            ForgetCell(b, cfg, s, ip, user, at, k);
          }
      }
    }
  }

  // ---- the hold ----------------------------------------------------------------------------

  /** The cells `Locked` writes, from a table where neither lock is live. */
  lemma LocksArmed(b: Backend, cfg: Config, m: Table, ip: Ip, user: User, r: nat, now: int)
    requires Look(b, m, IpLock(ip), now).None? && Look(b, m, UserLock(user), now).None?
    ensures var n := Locked(b, cfg, m, ip, user, r, now);
            HeldUntil(b, n, IpLock(ip), now + r * 1000) && HeldUntil(b, n, UserLock(user), now + r * 1000)
  {
    var ttl: Option<nat> := Some(Max(r, cfg.roundRetention));
    var m1 := Bump(b, m, IpLock(ip), 1, Some(r), now);
    assert m1 == m[IpLock(ip) := Cell(1, Some(now + r * 1000))];
    BumpElsewhere(b, m, IpLock(ip), 1, Some(r), now, UserLock(user), now);
    var m2 := Bump(b, m1, UserLock(user), 1, Some(r), now);
    assert m2 == m1[UserLock(user) := Cell(1, Some(now + r * 1000))];
    var m3 := Refresh(b, m2, IpRounds(ip), 1, ttl, now);
    assert HeldUntil(b, m3, IpLock(ip), now + r * 1000) && HeldUntil(b, m3, UserLock(user), now + r * 1000);
  }

  /** A database lockout arms both locks for exactly the time it announces. */
  lemma TripHolds(cfg: Config, m: Table, c: Call)
    requires Dated(m) && Trips(Database, cfg, m, c)
    ensures var n := OnAttempt(Database, cfg, m, c.ip, c.user, c.at).table;
            var until := c.at + Duration(Database, cfg, m, c) * 1000;
            HeldUntil(Database, n, IpLock(c.ip), until) && HeldUntil(Database, n, UserLock(c.user), until)
  {
    var recorded := Recorded(Database, cfg, m, c.ip, c.user, c.at);
    RecordedFrame(Database, cfg, m, c.ip, c.user, c.at, IpLock(c.ip), c.at);
    RecordedFrame(Database, cfg, m, c.ip, c.user, c.at, UserLock(c.user), c.at);
    LocksArmed(Database, cfg, recorded, c.ip, c.user, Duration(Database, cfg, m, c), c.at);
  }

  /** While a lock is held, an attempt it guards is refused for the time left and changes nothing. */
  lemma HeldRefuses(cfg: Config, m: Table, lock: Key, until: int, c: Call)
    requires HeldUntil(Database, m, lock, until) && c.Attempt? && LockFor(lock, c.ip, c.user) && c.at < until
    ensures var o := OnAttempt(Database, cfg, m, c.ip, c.user, c.at);
            !o.verdict.allowed && o.table == m && until - c.at <= o.verdict.retryAfter * 1000
  {
  }

  /** No call but the user's own success shortens, or prolongs, a lock that is being held. */
  lemma CallKeepsLock(cfg: Config, m: Table, lock: Key, until: int, c: Call)
    requires HeldUntil(Database, m, lock, until) && (lock.IpLock? || lock.UserLock?) && c.at < until
    requires !(c.Success? && lock == UserLock(c.user))
    ensures HeldUntil(Database, Effects(Database, cfg, m, c), lock, until)
  {
    match c
    case Success(ip, user, at) => SuccessCell(Database, cfg, m, ip, user, at, lock);
    case Forget(ip, user, at) => ForgetCell(Database, cfg, m, ip, user, at, lock);
    case Attempt(ip, user, at) =>
      if LockFor(lock, ip, user) {
        HeldRefuses(cfg, m, lock, until, c);
      } else {
        var recorded := Recorded(Database, cfg, m, ip, user, at);
        RecordedCell(Database, cfg, m, ip, user, at, lock);
        var r := LockSeconds(cfg, Rounds(Database, recorded, ip, user, at));
        LockedCell(Database, cfg, recorded, ip, user, r, at, lock);
      }
  }

  predicate ClearsLock(lock: Key, calls: seq<Call>) {
    exists i :: 0 <= i < |calls| && calls[i].Success? && lock == UserLock(calls[i].user)
  }

  lemma {:induction false} RunKeepsLock(cfg: Config, m: Table, lock: Key, until: int, calls: seq<Call>)
    requires HeldUntil(Database, m, lock, until) && (lock.IpLock? || lock.UserLock?)
    requires forall i :: 0 <= i < |calls| ==> calls[i].at < until
    requires !ClearsLock(lock, calls)
    ensures HeldUntil(Database, After(Database, cfg, m, calls), lock, until)
  {
    if calls == [] {
    } else {
      var front := calls[..|calls| - 1];
      forall i | 0 <= i < |front| ensures front[i] == calls[i] {}
      RunKeepsLock(cfg, m, lock, until, front);
      CallKeepsLock(cfg, After(Database, cfg, m, front), lock, until, calls[|calls| - 1]);
    }
  }

  /**
   The lock hold: after any history, a lockout tripped at t for r seconds refuses, through any
   further calls, every attempt on its address before t + r, and every attempt on its username
   before t + r unless that username succeeded meanwhile; a refused attempt counts nowhere, and
   at t + r the locks are gone.
   */
  lemma LockoutHolds(cfg: Config, history: seq<Call>, trip: Call, calls: seq<Call>, lock: Key, next: Call)
    requires Trips(Database, cfg, After(Database, cfg, map[], history), trip)
    requires LockFor(lock, trip.ip, trip.user) && !ClearsLock(lock, calls)
    requires var until := trip.at + Duration(Database, cfg, After(Database, cfg, map[], history), trip) * 1000;
             forall i :: 0 <= i < |calls| ==> calls[i].at < until
    requires next.Attempt? && LockFor(lock, next.ip, next.user)
    ensures var m := After(Database, cfg, map[], history);
            var until := trip.at + Duration(Database, cfg, m, trip) * 1000;
            var n := After(Database, cfg, Effects(Database, cfg, m, trip), calls);
            var o := OnAttempt(Database, cfg, n, next.ip, next.user, next.at);
            (next.at < until ==>
               !o.verdict.allowed && o.table == n && until - next.at <= o.verdict.retryAfter * 1000) &&
            (next.at >= until ==> Look(Database, n, lock, next.at).None?)
  {
    var m := After(Database, cfg, map[], history);
    var until := trip.at + Duration(Database, cfg, m, trip) * 1000;
    RunDated(Database, cfg, map[], history);
    TripHolds(cfg, m, trip);
    RunKeepsLock(cfg, Effects(Database, cfg, m, trip), lock, until, calls);
    if next.at < until {
      HeldRefuses(cfg, After(Database, cfg, Effects(Database, cfg, m, trip), calls), lock, until, next);
    }
  }

  /** The attempt goes over its budget, whatever its lock check had found. */
  predicate Exceeds(b: Backend, cfg: Config, m: Table, c: Call) {
    c.Attempt? && cfg.maxAttempts < AttemptCount(b, m, c.ip, c.user, c.at)
  }

  /**
   The part of an attempt that follows its lock check, on whatever counters it then meets: it arms
   the address lock for the time it announces exactly when no lock of that address is live at that
   moment (or one happens to end just then).
   */
  lemma JudgedArmsIff(b: Backend, cfg: Config, m: Table, c: Call)
    requires Dated(m) && Exceeds(b, cfg, m, c)
    ensures var o := Judged(b, cfg, m, c.ip, c.user, c.at);
            var until := c.at + o.verdict.retryAfter * 1000;
            HeldUntil(b, o.table, IpLock(c.ip), until) <==>
            Look(b, m, IpLock(c.ip), c.at).None? || m[IpLock(c.ip)].deadline == Some(until)
  {
    var recorded := Recorded(b, cfg, m, c.ip, c.user, c.at);
    var r := LockSeconds(cfg, Rounds(b, recorded, c.ip, c.user, c.at));
    RecordedCell(b, cfg, m, c.ip, c.user, c.at, IpLock(c.ip));
    IpLockCell(b, cfg, recorded, c.ip, c.user, r, c.at);
  }

  /**
   So a lockout holds its address for the time it announces exactly when no lock of that address is
   live as it trips. Database counters guarantee it; memory counters round the last moments of a
   lock down to nothing and then do not re-arm it.
   */
  lemma TripArmsIff(b: Backend, cfg: Config, m: Table, c: Call)
    requires Dated(m) && Trips(b, cfg, m, c)
    ensures HeldUntil(b, OnAttempt(b, cfg, m, c.ip, c.user, c.at).table, IpLock(c.ip),
                      c.at + Duration(b, cfg, m, c) * 1000)
            <==> (Look(b, m, IpLock(c.ip), c.at).None? ||
                  m[IpLock(c.ip)].deadline == Some(c.at + Duration(b, cfg, m, c) * 1000))
    ensures b.Database? ==> Look(b, m, IpLock(c.ip), c.at).None?
  {
    JudgedArmsIff(b, cfg, m, c);
  }

  lemma IpLockCell(b: Backend, cfg: Config, m: Table, ip: Ip, user: User, r: nat, now: int)
    ensures var n := Locked(b, cfg, m, ip, user, r, now);
            IpLock(ip) in n && n[IpLock(ip)] == Bump(b, m, IpLock(ip), 1, Some(r), now)[IpLock(ip)]
  {
    var ttl: Option<nat> := Some(Max(r, cfg.roundRetention));
    var m1 := Bump(b, m, IpLock(ip), 1, Some(r), now);
    var m2 := Bump(b, m1, UserLock(user), 1, Some(r), now);
    assert m2[IpLock(ip)] == m1[IpLock(ip)];
    var m3 := Refresh(b, m2, IpRounds(ip), 1, ttl, now);
    assert m3[IpLock(ip)] == m1[IpLock(ip)];
  }

  const ONE_ATTEMPT := Config(1, 3600, 60, 3600, 3600, false)

  /** The counters after one failure. */
  function OneFailure(): Table {
    map[IpAttempts(1) := Cell(1, Some(3_600_000)), UserAttempts(7) := Cell(1, Some(3_600_000))]
  }

  lemma FirstFailure(b: Backend)
    ensures OnAttempt(b, ONE_ATTEMPT, map[], 1, 7, 0).table == OneFailure()
  {
    var m1: Table := Bump(b, map[], IpAttempts(1), 1, Some(3600), 0);
    assert m1 == map[IpAttempts(1) := Cell(1, Some(3_600_000))];
  }

  /** The counters after two failures of different users: the address is locked for a minute. */
  function TwoFailures(): Table {
    map[IpAttempts(1) := Cell(2, Some(3_600_000)), UserAttempts(7) := Cell(1, Some(3_600_000)),
        UserAttempts(8) := Cell(1, Some(3_600_000)), IpLock(1) := Cell(1, Some(60_000)),
        UserLock(8) := Cell(1, Some(60_000)), IpRounds(1) := Cell(1, Some(3_600_000)),
        UserRounds(8) := Cell(1, Some(3_600_000))]
  }

  lemma SecondRecorded(b: Backend)
    ensures Recorded(b, ONE_ATTEMPT, OneFailure(), 1, 8, 0) ==
            OneFailure()[IpAttempts(1) := Cell(2, Some(3_600_000))][UserAttempts(8) := Cell(1, Some(3_600_000))]
  {
  }

  lemma SecondLocked(b: Backend, m: Table)
    requires m == OneFailure()[IpAttempts(1) := Cell(2, Some(3_600_000))]
                              [UserAttempts(8) := Cell(1, Some(3_600_000))]
    ensures Locked(b, ONE_ATTEMPT, m, 1, 8, 60, 0) == TwoFailures()
  {
    var n1 := Bump(b, m, IpLock(1), 1, Some(60), 0);
    assert n1 == m[IpLock(1) := Cell(1, Some(60_000))];
    var n2 := Bump(b, n1, UserLock(8), 1, Some(60), 0);
    assert n2 == n1[UserLock(8) := Cell(1, Some(60_000))];
    var n3 := Refresh(b, n2, IpRounds(1), 1, Some(3600), 0);
    assert n3 == n2[IpRounds(1) := Cell(1, Some(3_600_000))];
  }

  lemma TripIsLocked(b: Backend, cfg: Config, m: Table, c: Call, recorded: Table, r: nat)
    requires Trips(b, cfg, m, c) && recorded == Recorded(b, cfg, m, c.ip, c.user, c.at)
    requires r == LockSeconds(cfg, Rounds(b, recorded, c.ip, c.user, c.at))
    ensures OnAttempt(b, cfg, m, c.ip, c.user, c.at).table == Locked(b, cfg, recorded, c.ip, c.user, r, c.at)
  {
  }

  lemma SecondTrips(b: Backend)
    ensures Trips(b, ONE_ATTEMPT, OneFailure(), Attempt(1, 8, 0))
  {
  }

  lemma SecondRounds(b: Backend, m: Table)
    requires m == OneFailure()[IpAttempts(1) := Cell(2, Some(3_600_000))]
                              [UserAttempts(8) := Cell(1, Some(3_600_000))]
    ensures LockSeconds(ONE_ATTEMPT, Rounds(b, m, 1, 8, 0)) == 60
  {
  }

  lemma SecondFailure(b: Backend, m: Table)
    requires m == OneFailure()
    ensures OnAttempt(b, ONE_ATTEMPT, m, 1, 8, 0).table == TwoFailures()
  {
    var recorded := Recorded(b, ONE_ATTEMPT, m, 1, 8, 0);
    SecondTrips(b);
    SecondRecorded(b);
    SecondRounds(b, recorded);
    SecondLocked(b, recorded);
    TripIsLocked(b, ONE_ATTEMPT, m, Attempt(1, 8, 0), recorded, 60);
  }

  lemma AfterTwoFailures(b: Backend, calls: seq<Call>)
    requires calls == [Attempt(1, 7, 0), Attempt(1, 8, 0)]
    ensures After(b, ONE_ATTEMPT, map[], calls) == TwoFailures()
  {
    AfterOneFailure(b);
    SecondFailure(b, OneFailure());
    AfterSnoc(b, ONE_ATTEMPT, map[], [Attempt(1, 7, 0)], Attempt(1, 8, 0));
    assert [Attempt(1, 7, 0)] + [Attempt(1, 8, 0)] == calls;
  }

  /** A third failure while the address is locked announces two minutes and leaves the lock as it is. */
  lemma ThirdFailure(b: Backend, now: int)
    requires 0 <= now < 60_000
    ensures var o := Judged(b, ONE_ATTEMPT, TwoFailures(), 1, 9, now);
            Exceeds(b, ONE_ATTEMPT, TwoFailures(), Attempt(1, 9, now)) && o.verdict.retryAfter == 120 &&
            HeldUntil(b, o.table, IpLock(1), 60_000)
  {
    var m := TwoFailures();
    var recorded := Recorded(b, ONE_ATTEMPT, m, 1, 9, now);
    RecordedCell(b, ONE_ATTEMPT, m, 1, 9, now, IpLock(1));
    RecordedCell(b, ONE_ATTEMPT, m, 1, 9, now, IpRounds(1));
    RecordedCell(b, ONE_ATTEMPT, m, 1, 9, now, UserRounds(9));
    assert Rounds(b, recorded, 1, 9, now) == 1;
    assert Pow2(1) == 2 * Pow2(0);
    assert LockSeconds(ONE_ATTEMPT, 1) == 120;
    IpLockCell(b, ONE_ATTEMPT, recorded, 1, 9, 120, now);
  }

  /**
   A run of three failures against one address with memory counters: the second locks it for a
   minute, and the third, in that minute's last half second, announces two minutes and leaves the
   address locked for that half second only.
   */
  lemma MemoryLockNotRearmed(calls: seq<Call>)
    requires calls == [Attempt(1, 7, 0), Attempt(1, 8, 0)]
    ensures var m := After(Memory, ONE_ATTEMPT, map[], calls);
            var c := Attempt(1, 9, 59_500);
            Trips(Memory, ONE_ATTEMPT, m, c) && Duration(Memory, ONE_ATTEMPT, m, c) == 120 &&
            HeldUntil(Memory, OnAttempt(Memory, ONE_ATTEMPT, m, 1, 9, 59_500).table, IpLock(1), 60_000)
  {
    AfterTwoFailures(Memory, calls);
    ThirdFailure(Memory, 59_500);
    LastHalfSecond();
    FreeIsJudged(Memory, ONE_ATTEMPT, TwoFailures(), 1, 9, 59_500);
  }

  lemma LastHalfSecond()
    ensures ActiveLockout(Memory, TwoFailures(), 1, 9, 59_500) == 0
  {
  }

  lemma FreeIsJudged(b: Backend, cfg: Config, m: Table, ip: Ip, user: User, now: int)
    requires ActiveLockout(b, m, ip, user, now) == 0
    ensures OnAttempt(b, cfg, m, ip, user, now) == Judged(b, cfg, m, ip, user, now)
  {
  }

  /**
   Two failures that overlap in time do the same with either backend: the one whose lock check came
   before the other's lock was armed goes on to announce two minutes that nothing holds.
   */
  lemma OverlappingTripNotArmed(b: Backend, now: int)
    requires 0 <= now < 60_000
    ensures After(b, ONE_ATTEMPT, map[], [Attempt(1, 7, 0)]) == OneFailure()
    ensures After(b, ONE_ATTEMPT, map[], [Attempt(1, 7, 0), Attempt(1, 8, 0)]) == TwoFailures()
    ensures ActiveLockout(b, OneFailure(), 1, 9, now) == 0
    ensures var o := Judged(b, ONE_ATTEMPT, TwoFailures(), 1, 9, now);
            o.verdict.retryAfter == 120 && HeldUntil(b, o.table, IpLock(1), 60_000)
  {
    AfterOneFailure(b);
    AfterTwoFailures(b, [Attempt(1, 7, 0), Attempt(1, 8, 0)]);
    ThirdFailure(b, now);
    NoLockYet(b, now);
  }

  lemma NoLockYet(b: Backend, now: int)
    ensures ActiveLockout(b, OneFailure(), 1, 9, now) == 0
  {
  }

  lemma AfterOneFailure(b: Backend)
    ensures After(b, ONE_ATTEMPT, map[], [Attempt(1, 7, 0)]) == OneFailure()
  {
    FirstFailure(b);
    AfterSnoc(b, ONE_ATTEMPT, map[], [], Attempt(1, 7, 0));
    assert [] + [Attempt(1, 7, 0)] == [Attempt(1, 7, 0)];
  }

  // ---- escalation --------------------------------------------------------------------------

  lemma {:induction false} Pow2Grows(i: int, j: int)
    requires i <= j
    ensures Pow2(i) <= Pow2(j)
    decreases j
  {
    if 0 < j && i < j {
      Pow2Grows(i, j - 1);
    }
  }

  lemma LockSecondsGrow(cfg: Config, i: int, j: int)
    requires i <= j
    ensures LockSeconds(cfg, i) <= LockSeconds(cfg, j) <= cfg.lockoutMax
  {
    Pow2Grows(i, j);
    assert cfg.lockoutBase * Pow2(i) <= cfg.lockoutBase * Pow2(j);
  }

  datatype Spell = Spell(at: int, seconds: nat)

  /** The lockouts the user's attempts start over a run, in order. */
  function Lockouts(cfg: Config, calls: seq<Call>, user: User): seq<Spell> {
    if calls == [] then []
    else
      var front := calls[..|calls| - 1];
      Lockouts(cfg, front, user) + Started(cfg, After(Database, cfg, map[], front), calls[|calls| - 1], user)
  }

  function Started(cfg: Config, m: Table, c: Call, user: User): seq<Spell> {
    if Trips(Database, cfg, m, c) && c.user == user then [Spell(c.at, Duration(Database, cfg, m, c))] else []
  }

  function Remembered(cfg: Config, l: Spell): int {
    l.at + Max(l.seconds, cfg.roundRetention) * 1000
  }

  /** Each lockout comes while the rounds counter of the one before is still kept. */
  predicate Paced(cfg: Config, ls: seq<Spell>) {
    forall i :: 0 <= i < |ls| - 1 ==> ls[i + 1].at < Remembered(cfg, ls[i])
  }

  /** The rounds counter says how many lockouts there were and remembers the last. */
  ghost predicate RoundsKept(cfg: Config, m: Table, user: User, ls: seq<Spell>) {
    if ls == [] then UserRounds(user) !in m
    else UserRounds(user) in m &&
         m[UserRounds(user)] == Cell(|ls|, Some(Remembered(cfg, ls[|ls| - 1])))
  }

  lemma RoundsCell(b: Backend, cfg: Config, m: Table, ip: Ip, user: User, r: nat, now: int)
    ensures var n := Locked(b, cfg, m, ip, user, r, now);
            var ttl := Max(r, cfg.roundRetention);
            UserRounds(user) in n &&
            n[UserRounds(user)] == Cell(OrZero(Count(b, m, UserRounds(user), now)) + 1, Some(now + ttl * 1000))
  {
    var ttl: Option<nat> := Some(Max(r, cfg.roundRetention));
    var m1 := Bump(b, m, IpLock(ip), 1, Some(r), now);
    BumpElsewhere(b, m, IpLock(ip), 1, Some(r), now, UserRounds(user), now);
    var m2 := Bump(b, m1, UserLock(user), 1, Some(r), now);
    BumpElsewhere(b, m1, UserLock(user), 1, Some(r), now, UserRounds(user), now);
    var m3 := Refresh(b, m2, IpRounds(ip), 1, ttl, now);
    RefreshElsewhere(b, m2, IpRounds(ip), 1, ttl, now, UserRounds(user), now);
  }

  /** One more lockout, at the length the rounds call for. */
  lemma TripEscalates(cfg: Config, m: Table, c: Call, ls: seq<Spell>)
    requires Trips(Database, cfg, m, c) && RoundsKept(cfg, m, c.user, ls)
    requires ls != [] ==> c.at < Remembered(cfg, ls[|ls| - 1])
    ensures var r := Duration(Database, cfg, m, c);
            LockSeconds(cfg, |ls|) <= r <= cfg.lockoutMax &&
            RoundsKept(cfg, Effects(Database, cfg, m, c), c.user, ls + [Spell(c.at, r)])
  {
    var recorded := Recorded(Database, cfg, m, c.ip, c.user, c.at);
    RecordedCell(Database, cfg, m, c.ip, c.user, c.at, UserRounds(c.user));
    assert Count(Database, recorded, UserRounds(c.user), c.at) == if ls == [] then None else Some(|ls|);
    var rounds := Rounds(Database, recorded, c.ip, c.user, c.at);
    LockSecondsGrow(cfg, |ls|, rounds);
    RoundsCell(Database, cfg, recorded, c.ip, c.user, LockSeconds(cfg, rounds), c.at);
  }

  /** Any other call leaves the user's rounds alone, short of the user's own success. */
  lemma OtherCallKeepsRounds(cfg: Config, m: Table, c: Call, user: User)
    requires !(Trips(Database, cfg, m, c) && c.user == user) && !(c.Success? && c.user == user)
    ensures var n := Effects(Database, cfg, m, c);
            (UserRounds(user) in n <==> UserRounds(user) in m) &&
            (UserRounds(user) in m ==> n[UserRounds(user)] == m[UserRounds(user)])
  {
    match c
    case Success(ip, u, at) => SuccessCell(Database, cfg, m, ip, u, at, UserRounds(user));
    case Forget(ip, u, at) => ForgetCell(Database, cfg, m, ip, u, at, UserRounds(user));
    case Attempt(ip, u, at) =>
      var recorded := Recorded(Database, cfg, m, ip, u, at);
      RecordedCell(Database, cfg, m, ip, u, at, UserRounds(user));
      if u != user {
        var r := LockSeconds(cfg, Rounds(Database, recorded, ip, u, at));
        LockedCell(Database, cfg, recorded, ip, u, r, at, UserRounds(user));
      }
  }

  /** The k-th spell lasts at least base * 2^k seconds, capped, and never more than the cap. */
  predicate Escalating(cfg: Config, ls: seq<Spell>) {
    forall k :: 0 <= k < |ls| ==>
      Min(cfg.lockoutBase * Pow2(k), cfg.lockoutMax) <= ls[k].seconds <= cfg.lockoutMax
  }

  lemma StepEscalates(cfg: Config, m: Table, c: Call, user: User, before: seq<Spell>)
    requires RoundsKept(cfg, m, user, before) && Escalating(cfg, before)
    requires !(c.Success? && c.user == user)
    requires Paced(cfg, before + Started(cfg, m, c, user))
    ensures RoundsKept(cfg, Effects(Database, cfg, m, c), user, before + Started(cfg, m, c, user))
    ensures Escalating(cfg, before + Started(cfg, m, c, user))
  {
    var ls := before + Started(cfg, m, c, user);
    if Trips(Database, cfg, m, c) && c.user == user {
      if before != [] {
        assert ls[|before| - 1] == before[|before| - 1] && ls[|before| - 1 + 1].at == c.at;
      }
      TripEscalates(cfg, m, c, before);
    } else {
      OtherCallKeepsRounds(cfg, m, c, user);
      assert ls == before;
    }
  }

  lemma PacedPrefix(cfg: Config, ls: seq<Spell>, more: seq<Spell>)
    requires Paced(cfg, ls + more)
    ensures Paced(cfg, ls)
  {
    forall i | 0 <= i < |ls| - 1 ensures ls[i + 1].at < Remembered(cfg, ls[i]) {
      assert (ls + more)[i] == ls[i] && (ls + more)[i + 1] == ls[i + 1];
    }
  }

  /**
   Escalation: in any run where the user never succeeds and lockouts come within each other's
   retention, the k-th lockout (from zero) lasts at least min(base * 2^k, max) and never more
   than max, whatever other users and addresses do.
   */
  lemma {:induction false} LockoutsEscalate(cfg: Config, calls: seq<Call>, user: User)
    requires forall i :: 0 <= i < |calls| ==> !(calls[i].Success? && calls[i].user == user)
    requires Paced(cfg, Lockouts(cfg, calls, user))
    ensures RoundsKept(cfg, After(Database, cfg, map[], calls), user, Lockouts(cfg, calls, user))
    ensures Escalating(cfg, Lockouts(cfg, calls, user))
  {
    if calls == [] {
    } else {
      var front, c := calls[..|calls| - 1], calls[|calls| - 1];
      var m, before := After(Database, cfg, map[], front), Lockouts(cfg, front, user);
      forall i | 0 <= i < |front| ensures front[i] == calls[i] {}
      PacedPrefix(cfg, before, Started(cfg, m, c, user));
      LockoutsEscalate(cfg, front, user);
      StepEscalates(cfg, m, c, user, before);
    }
  }
}
