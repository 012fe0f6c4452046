/**
 The escalating login lockout over the counters: seven counter families per client address
 and username, read and written by `check_and_record` and `forget_attempt`. Each policy call
 happens at one instant; backend failures are not part of this model.
 */
module Lockout {
  import opened Basics
  import opened Counters

  type Ip = nat
  type User = nat

  datatype Key =
    | IpAttempts(ip: Ip)
    | UserAttempts(user: User)
    | PairAttempts(ip: Ip, user: User)
    | IpLock(ip: Ip)
    | UserLock(user: User)
    | IpRounds(ip: Ip)
    | UserRounds(user: User)

  type Table = map<Key, Cell>

  /** Durations in seconds. */
  datatype Config = Config(
    maxAttempts: int,
    attemptWindow: nat,
    lockoutBase: nat,
    lockoutMax: nat,
    roundRetention: nat,
    clearAll: bool)

  datatype Verdict = Verdict(allowed: bool, remaining: Option<int>, retryAfter: nat)

  datatype Outcome = Outcome(table: Table, verdict: Verdict)

  function OrZero(count: Option<int>): int { if count.Some? then count.value else 0 }

  /** Two to the power of a round count, which is never negative. */
  function Pow2(n: int): nat
    decreases n
  {
    if n <= 0 then 1 else 2 * Pow2(n - 1)
  }

  function LockSeconds(cfg: Config, rounds: int): nat {
    Min(cfg.lockoutBase * Pow2(rounds), cfg.lockoutMax)
  }

  // ---- the policy as a function of the counters ----------------------------------------

  function OnSuccess(b: Backend, cfg: Config, m: Table, ip: Ip, user: User, now: int): Table {
    var cleared := m - {UserAttempts(user)} - {UserLock(user)} - {UserRounds(user)};
    if !cfg.clearAll then cleared
    else
      var own := OrZero(Count(b, cleared, PairAttempts(ip, user), now));
      if own == 0 then cleared
      else Bump(b, cleared - {PairAttempts(ip, user)}, IpAttempts(ip), -own, Some(cfg.attemptWindow), now)
  }

  function ActiveLockout(b: Backend, m: Table, ip: Ip, user: User, now: int): nat {
    Max(Ttl(b, m, IpLock(ip), now), Ttl(b, m, UserLock(user), now))
  }

  /** The three attempt counters after an attempt that no lock refused. */
  function Recorded(b: Backend, cfg: Config, m: Table, ip: Ip, user: User, now: int): Table {
    var m1 := Bump(b, m, IpAttempts(ip), 1, Some(cfg.attemptWindow), now);
    var m2 := Bump(b, m1, UserAttempts(user), 1, Some(cfg.attemptWindow), now);
    var ipWindow := Ttl(b, m2, IpAttempts(ip), now);
    if cfg.clearAll && ipWindow > 0
    then Bump(b, m2, PairAttempts(ip, user), 1, Some(ipWindow), now)
    else m2
  }

  /** The count an attempt is judged by; each increment returns the count it left. */
  function AttemptCount(b: Backend, m: Table, ip: Ip, user: User, now: int): int {
    Max(OrZero(Count(b, m, IpAttempts(ip), now)) + 1, OrZero(Count(b, m, UserAttempts(user), now)) + 1)
  }

  function Rounds(b: Backend, m: Table, ip: Ip, user: User, now: int): int {
    Max(OrZero(Count(b, m, IpRounds(ip), now)), OrZero(Count(b, m, UserRounds(user), now)))
  }

  /** Locks armed and rounds counted for a lockout of `r` seconds. */
  function Locked(b: Backend, cfg: Config, m: Table, ip: Ip, user: User, r: nat, now: int): Table {
    var roundTtl := Max(r, cfg.roundRetention);
    var m1 := Bump(b, m, IpLock(ip), 1, Some(r), now);
    var m2 := Bump(b, m1, UserLock(user), 1, Some(r), now);
    var m3 := Refresh(b, m2, IpRounds(ip), 1, Some(roundTtl), now);
    Refresh(b, m3, UserRounds(user), 1, Some(roundTtl), now)
  }

  /** An attempt no lock refused: recorded, then allowed or locked out. */
  function Judged(b: Backend, cfg: Config, m: Table, ip: Ip, user: User, now: int): Outcome {
    var recorded := Recorded(b, cfg, m, ip, user, now);
    var count := AttemptCount(b, m, ip, user, now);
    if count <= cfg.maxAttempts then
      Outcome(recorded, Verdict(true, Some(Max(0, cfg.maxAttempts - count)), 0))
    else
      var r := LockSeconds(cfg, Rounds(b, recorded, ip, user, now));
      Outcome(Locked(b, cfg, recorded, ip, user, r, now), Verdict(false, Some(0), r))
  }

  function OnAttempt(b: Backend, cfg: Config, m: Table, ip: Ip, user: User, now: int): Outcome {
    var active := ActiveLockout(b, m, ip, user, now);
    if active > 0 then Outcome(m, Verdict(false, Some(0), active))
    else Judged(b, cfg, m, ip, user, now)
  }

  function TakenBack(b: Backend, cfg: Config, m: Table, k: Key, now: int): Table {
    if OrZero(Count(b, m, k, now)) > 0 then Bump(b, m, k, -1, Some(cfg.attemptWindow), now) else m
  }

  function OnForget(b: Backend, cfg: Config, m: Table, ip: Ip, user: User, now: int): Table {
    var m2 := TakenBack(b, cfg, TakenBack(b, cfg, m, IpAttempts(ip), now), UserAttempts(user), now);
    if cfg.clearAll then TakenBack(b, cfg, m2, PairAttempts(ip, user), now) else m2
  }

  // ---- runs of policy calls --------------------------------------------------------------

  datatype Call =
    | Attempt(ip: Ip, user: User, at: int)
    | Success(ip: Ip, user: User, at: int)
    | Forget(ip: Ip, user: User, at: int)

  function Effects(b: Backend, cfg: Config, m: Table, c: Call): Table {
    match c
    case Attempt(ip, user, now) => OnAttempt(b, cfg, m, ip, user, now).table
    case Success(ip, user, now) => OnSuccess(b, cfg, m, ip, user, now)
    case Forget(ip, user, now) => OnForget(b, cfg, m, ip, user, now)
  }

  function After(b: Backend, cfg: Config, m: Table, calls: seq<Call>): Table {
    if calls == [] then m
    else Effects(b, cfg, After(b, cfg, m, calls[..|calls| - 1]), calls[|calls| - 1])
  }

  lemma AfterSnoc(b: Backend, cfg: Config, m: Table, calls: seq<Call>, c: Call)
    ensures After(b, cfg, m, calls + [c]) == Effects(b, cfg, After(b, cfg, m, calls), c)
  {
    assert (calls + [c])[..|calls|] == calls;
  }

  /** The clock never runs back over the calls, nor before `start`. */
  predicate Ordered(start: int, calls: seq<Call>) {
    forall i :: 0 <= i < |calls| ==> start <= calls[i].at && forall j :: i <= j < |calls| ==> calls[i].at <= calls[j].at
  }

  // ---- what a call leaves alone --------------------------------------------------------

  lemma RecordedFrame(b: Backend, cfg: Config, m: Table, ip: Ip, user: User, now: int, k: Key, t: int)
    requires k != IpAttempts(ip) && k != UserAttempts(user) && k != PairAttempts(ip, user)
    ensures Look(b, Recorded(b, cfg, m, ip, user, now), k, t) == Look(b, m, k, t)
  {
    var w := Some(cfg.attemptWindow);
    var m1 := Bump(b, m, IpAttempts(ip), 1, w, now);
    var m2 := Bump(b, m1, UserAttempts(user), 1, w, now);
    BumpElsewhere(b, m, IpAttempts(ip), 1, w, now, k, t);
    BumpElsewhere(b, m1, UserAttempts(user), 1, w, now, k, t);
    BumpElsewhere(b, m2, PairAttempts(ip, user), 1, Some(Ttl(b, m2, IpAttempts(ip), now)), now, k, t);
  }

  lemma LockedFrame(b: Backend, cfg: Config, m: Table, ip: Ip, user: User, r: nat, now: int, k: Key, t: int)
    requires k != IpLock(ip) && k != UserLock(user) && k != IpRounds(ip) && k != UserRounds(user)
    ensures Look(b, Locked(b, cfg, m, ip, user, r, now), k, t) == Look(b, m, k, t)
  {
    var ttl: Option<nat> := Some(Max(r, cfg.roundRetention));
    var m1 := Bump(b, m, IpLock(ip), 1, Some(r), now);
    var m2 := Bump(b, m1, UserLock(user), 1, Some(r), now);
    var m3 := Refresh(b, m2, IpRounds(ip), 1, ttl, now);
    BumpElsewhere(b, m, IpLock(ip), 1, Some(r), now, k, t);
    BumpElsewhere(b, m1, UserLock(user), 1, Some(r), now, k, t);
    RefreshElsewhere(b, m2, IpRounds(ip), 1, ttl, now, k, t);
    RefreshElsewhere(b, m3, UserRounds(user), 1, ttl, now, k, t);
  }

  /** The keys a call on `ip` and `user` may write. */
  predicate Touches(ip: Ip, user: User, k: Key) {
    match k
    case IpAttempts(i) => i == ip
    case UserAttempts(u) => u == user
    case PairAttempts(i, u) => i == ip && u == user
    case IpLock(i) => i == ip
    case UserLock(u) => u == user
    case IpRounds(i) => i == ip
    case UserRounds(u) => u == user
  }

  lemma AttemptFrame(b: Backend, cfg: Config, m: Table, ip: Ip, user: User, now: int, k: Key, t: int)
    requires !Touches(ip, user, k)
    ensures Look(b, OnAttempt(b, cfg, m, ip, user, now).table, k, t) == Look(b, m, k, t)
  {
    var recorded := Recorded(b, cfg, m, ip, user, now);
    RecordedFrame(b, cfg, m, ip, user, now, k, t);
    LockedFrame(b, cfg, recorded, ip, user, LockSeconds(cfg, Rounds(b, recorded, ip, user, now)), now, k, t);
  }

  // ---- equal counters, equal policy -----------------------------------------------------

  lemma RecordedCongruent(b: Backend, cfg: Config, m: Table, n: Table, ip: Ip, user: User, now: int)
    requires Same(b, m, n, now)
    ensures Same(b, Recorded(b, cfg, m, ip, user, now), Recorded(b, cfg, n, ip, user, now), now)
  {
    var w := Some(cfg.attemptWindow);
    var m1, n1 := Bump(b, m, IpAttempts(ip), 1, w, now), Bump(b, n, IpAttempts(ip), 1, w, now);
    BumpCongruent(b, m, n, IpAttempts(ip), 1, w, now);
    var m2, n2 := Bump(b, m1, UserAttempts(user), 1, w, now), Bump(b, n1, UserAttempts(user), 1, w, now);
    BumpCongruent(b, m1, n1, UserAttempts(user), 1, w, now);
    assert Look(b, m2, IpAttempts(ip), now) == Look(b, n2, IpAttempts(ip), now);
    BumpCongruent(b, m2, n2, PairAttempts(ip, user), 1, Some(Ttl(b, m2, IpAttempts(ip), now)), now);
  }

  lemma LockedCongruent(b: Backend, cfg: Config, m: Table, n: Table, ip: Ip, user: User, r: nat, now: int)
    requires Same(b, m, n, now)
    ensures Same(b, Locked(b, cfg, m, ip, user, r, now), Locked(b, cfg, n, ip, user, r, now), now)
  {
    var ttl: Option<nat> := Some(Max(r, cfg.roundRetention));
    var m1, n1 := Bump(b, m, IpLock(ip), 1, Some(r), now), Bump(b, n, IpLock(ip), 1, Some(r), now);
    BumpCongruent(b, m, n, IpLock(ip), 1, Some(r), now);
    var m2, n2 := Bump(b, m1, UserLock(user), 1, Some(r), now), Bump(b, n1, UserLock(user), 1, Some(r), now);
    BumpCongruent(b, m1, n1, UserLock(user), 1, Some(r), now);
    var m3, n3 := Refresh(b, m2, IpRounds(ip), 1, ttl, now), Refresh(b, n2, IpRounds(ip), 1, ttl, now);
    RefreshCongruent(b, m2, n2, IpRounds(ip), 1, ttl, now);
    RefreshCongruent(b, m3, n3, UserRounds(user), 1, ttl, now);
  }

  lemma RoundsCongruent(b: Backend, m: Table, n: Table, ip: Ip, user: User, now: int)
    requires Same(b, m, n, now)
    ensures Rounds(b, m, ip, user, now) == Rounds(b, n, ip, user, now)
  {
    assert Look(b, m, IpRounds(ip), now) == Look(b, n, IpRounds(ip), now);
    assert Look(b, m, UserRounds(user), now) == Look(b, n, UserRounds(user), now);
  }

  lemma AttemptCountCongruent(b: Backend, m: Table, n: Table, ip: Ip, user: User, now: int)
    requires Same(b, m, n, now)
    ensures AttemptCount(b, m, ip, user, now) == AttemptCount(b, n, ip, user, now)
  {
    assert Look(b, m, IpAttempts(ip), now) == Look(b, n, IpAttempts(ip), now);
    assert Look(b, m, UserAttempts(user), now) == Look(b, n, UserAttempts(user), now);
  }

  lemma ActiveLockoutCongruent(b: Backend, m: Table, n: Table, ip: Ip, user: User, now: int)
    requires Same(b, m, n, now)
    ensures ActiveLockout(b, m, ip, user, now) == ActiveLockout(b, n, ip, user, now)
  {
    assert Look(b, m, IpLock(ip), now) == Look(b, n, IpLock(ip), now);
    assert Look(b, m, UserLock(user), now) == Look(b, n, UserLock(user), now);
  }

  lemma JudgedCongruent(b: Backend, cfg: Config, m: Table, n: Table, ip: Ip, user: User, now: int)
    requires Same(b, m, n, now)
    ensures Judged(b, cfg, m, ip, user, now).verdict == Judged(b, cfg, n, ip, user, now).verdict
    ensures Same(b, Judged(b, cfg, m, ip, user, now).table, Judged(b, cfg, n, ip, user, now).table, now)
  {
    AttemptCountCongruent(b, m, n, ip, user, now);
    var m1, n1 := Recorded(b, cfg, m, ip, user, now), Recorded(b, cfg, n, ip, user, now);
    RecordedCongruent(b, cfg, m, n, ip, user, now);
    RoundsCongruent(b, m1, n1, ip, user, now);
    LockedCongruent(b, cfg, m1, n1, ip, user, LockSeconds(cfg, Rounds(b, m1, ip, user, now)), now);
  }

  lemma SuccessCongruent(b: Backend, cfg: Config, m: Table, n: Table, ip: Ip, user: User, now: int)
    requires Same(b, m, n, now)
    ensures Same(b, OnSuccess(b, cfg, m, ip, user, now), OnSuccess(b, cfg, n, ip, user, now), now)
  {
    DropCongruent(b, m, n, UserAttempts(user), now);
    DropCongruent(b, m - {UserAttempts(user)}, n - {UserAttempts(user)}, UserLock(user), now);
    var m2, n2 := m - {UserAttempts(user)} - {UserLock(user)}, n - {UserAttempts(user)} - {UserLock(user)};
    DropCongruent(b, m2, n2, UserRounds(user), now);
    var m3, n3 := m2 - {UserRounds(user)}, n2 - {UserRounds(user)};
    assert Look(b, m3, PairAttempts(ip, user), now) == Look(b, n3, PairAttempts(ip, user), now);
    DropCongruent(b, m3, n3, PairAttempts(ip, user), now);
    var own := OrZero(Count(b, m3, PairAttempts(ip, user), now));
    var m4, n4 := m3 - {PairAttempts(ip, user)}, n3 - {PairAttempts(ip, user)};
    BumpCongruent(b, m4, n4, IpAttempts(ip), -own, Some(cfg.attemptWindow), now);
  }

  lemma TakenBackCongruent(b: Backend, cfg: Config, m: Table, n: Table, k: Key, now: int)
    requires Same(b, m, n, now)
    ensures Same(b, TakenBack(b, cfg, m, k, now), TakenBack(b, cfg, n, k, now), now)
  {
    assert Look(b, m, k, now) == Look(b, n, k, now);
    BumpCongruent(b, m, n, k, -1, Some(cfg.attemptWindow), now);
  }

  lemma ForgetCongruent(b: Backend, cfg: Config, m: Table, n: Table, ip: Ip, user: User, now: int)
    requires Same(b, m, n, now)
    ensures Same(b, OnForget(b, cfg, m, ip, user, now), OnForget(b, cfg, n, ip, user, now), now)
  {
    TakenBackCongruent(b, cfg, m, n, IpAttempts(ip), now);
    var m1, n1 := TakenBack(b, cfg, m, IpAttempts(ip), now), TakenBack(b, cfg, n, IpAttempts(ip), now);
    TakenBackCongruent(b, cfg, m1, n1, UserAttempts(user), now);
    var m2, n2 := TakenBack(b, cfg, m1, UserAttempts(user), now), TakenBack(b, cfg, n1, UserAttempts(user), now);
    TakenBackCongruent(b, cfg, m2, n2, PairAttempts(ip, user), now);
  }

  /** What a call answers; a take-back answers nothing. */
  function Answered(b: Backend, cfg: Config, m: Table, c: Call): Option<Verdict> {
    match c
    case Attempt(ip, user, now) => Some(OnAttempt(b, cfg, m, ip, user, now).verdict)
    case Success(_, _, _) => Some(Verdict(true, None, 0))
    case Forget(_, _, _) => None
  }

  lemma CallCongruent(b: Backend, cfg: Config, m: Table, n: Table, c: Call)
    requires Same(b, m, n, c.at)
    ensures Same(b, Effects(b, cfg, m, c), Effects(b, cfg, n, c), c.at)
    ensures Answered(b, cfg, m, c) == Answered(b, cfg, n, c)
  {
    match c
    case Attempt(ip, user, now) =>
      ActiveLockoutCongruent(b, m, n, ip, user, now);
      JudgedCongruent(b, cfg, m, n, ip, user, now);
    case Success(ip, user, now) => SuccessCongruent(b, cfg, m, n, ip, user, now);
    case Forget(ip, user, now) => ForgetCongruent(b, cfg, m, n, ip, user, now);
  }

  // ---- the policy ------------------------------------------------------------------------

  class LockoutPolicy {
    const backend: CounterBackend<Key>
    const cfg: Config

    constructor (backend: CounterBackend<Key>, cfg: Config)
      ensures this.backend == backend && this.cfg == cfg
    {
      this.backend, this.cfg := backend, cfg;
    }

    method CheckAndRecord(ip: Ip, user: User, success: bool, now: int) returns (verdict: Verdict)
      requires backend.Valid()
      modifies backend.memory, backend.database
      ensures backend.Valid()
      ensures success ==> verdict == Verdict(true, None, 0)
      ensures success ==>
        Same(backend.kind, backend.Cells(), OnSuccess(backend.kind, cfg, old(backend.Cells()), ip, user, now), now)
      ensures !success ==> verdict == OnAttempt(backend.kind, cfg, old(backend.Cells()), ip, user, now).verdict
      ensures !success ==>
        Same(backend.kind, backend.Cells(),
             OnAttempt(backend.kind, cfg, old(backend.Cells()), ip, user, now).table, now)
    {
      if success {
        ClearAfterSuccess(ip, user, now);
        return Verdict(true, None, 0);
      }
      ghost var m := backend.Cells();
      var ipLeft := backend.GetTtl(IpLock(ip), now);
      ActiveLockoutCongruent(backend.kind, backend.Cells(), m, ip, user, now);
      var userLeft := backend.GetTtl(UserLock(user), now);
      assert Ttl(backend.kind, m, UserLock(user), now) == userLeft by {
        assert Look(backend.kind, backend.Cells(), UserLock(user), now) == Look(backend.kind, m, UserLock(user), now);
      }
      var active := if ipLeft < userLeft then userLeft else ipLeft;
      if active > 0 {
        return Verdict(false, Some(0), active);
      }
      JudgedCongruent(backend.kind, cfg, backend.Cells(), m, ip, user, now);
      verdict := Judge(ip, user, now);
    }

    method Judge(ip: Ip, user: User, now: int) returns (verdict: Verdict)
      requires backend.Valid()
      modifies backend.memory, backend.database
      ensures backend.Valid()
      ensures verdict == Judged(backend.kind, cfg, old(backend.Cells()), ip, user, now).verdict
      ensures Same(backend.kind, backend.Cells(),
                   Judged(backend.kind, cfg, old(backend.Cells()), ip, user, now).table, now)
    {
      ghost var recorded := Recorded(backend.kind, cfg, backend.Cells(), ip, user, now);
      var count := RecordAttempt(ip, user, now);
      var remaining := if cfg.maxAttempts < count then 0 else cfg.maxAttempts - count;
      if count <= cfg.maxAttempts {
        return Verdict(true, Some(remaining), 0);
      }
      RoundsCongruent(backend.kind, backend.Cells(), recorded, ip, user, now);
      LockedCongruent(backend.kind, cfg, backend.Cells(), recorded, ip, user,
                      LockSeconds(cfg, Rounds(backend.kind, recorded, ip, user, now)), now);
      var r := LockOut(ip, user, now);
      verdict := Verdict(false, Some(0), r);
    }

    method ClearAfterSuccess(ip: Ip, user: User, now: int)
      requires backend.Valid()
      modifies backend.memory, backend.database
      ensures backend.Valid()
      ensures Same(backend.kind, backend.Cells(),
                   OnSuccess(backend.kind, cfg, old(backend.Cells()), ip, user, now), now)
    {
      ghost var m := backend.Cells();
      var _ := backend.Delete(UserAttempts(user), now);
      DropCongruent(backend.kind, backend.Cells(), m - {UserAttempts(user)}, UserLock(user), now);
      var _ := backend.Delete(UserLock(user), now);
      DropCongruent(backend.kind, backend.Cells(), m - {UserAttempts(user)} - {UserLock(user)}, UserRounds(user), now);
      var _ := backend.Delete(UserRounds(user), now);
      ghost var cleared := m - {UserAttempts(user)} - {UserLock(user)} - {UserRounds(user)};
      if cfg.clearAll {
        TakeBackOwn(ip, user, cleared, now);
      }
    }

    /** The username's own failures come off the address, and its pair counter goes. */
    method TakeBackOwn(ip: Ip, user: User, ghost m: Table, now: int)
      requires backend.Valid() && Same(backend.kind, backend.Cells(), m, now)
      modifies backend.memory, backend.database
      ensures backend.Valid()
      ensures var own := OrZero(Count(backend.kind, m, PairAttempts(ip, user), now));
              Same(backend.kind, backend.Cells(),
                   if own == 0 then m
                   else Bump(backend.kind, m - {PairAttempts(ip, user)}, IpAttempts(ip), -own,
                             Some(cfg.attemptWindow), now), now)
    {
      assert Look(backend.kind, backend.Cells(), PairAttempts(ip, user), now) ==
             Look(backend.kind, m, PairAttempts(ip, user), now);
      var own := backend.GetCount(PairAttempts(ip, user), now);
      if own.Some? && own.value != 0 {
        DropCongruent(backend.kind, backend.Cells(), m, PairAttempts(ip, user), now);
        var existed := backend.Delete(PairAttempts(ip, user), now);
        if existed {
          BumpCongruent(backend.kind, backend.Cells(), m - {PairAttempts(ip, user)}, IpAttempts(ip), -own.value,
                        Some(cfg.attemptWindow), now);
          var _ := backend.Increment(IpAttempts(ip), -own.value, Some(cfg.attemptWindow), now);
        }
      }
    }

    method RecordAttempt(ip: Ip, user: User, now: int) returns (count: int)
      requires backend.Valid()
      modifies backend.memory, backend.database
      ensures backend.Valid()
      ensures count == AttemptCount(backend.kind, old(backend.Cells()), ip, user, now)
      ensures Same(backend.kind, backend.Cells(), Recorded(backend.kind, cfg, old(backend.Cells()), ip, user, now), now)
    {
      ghost var m := backend.Cells();
      var w := Some(cfg.attemptWindow);
      var ipCount := backend.Increment(IpAttempts(ip), 1, w, now);
      ghost var m1 := Bump(backend.kind, m, IpAttempts(ip), 1, w, now);
      BumpCongruent(backend.kind, backend.Cells(), m1, UserAttempts(user), 1, w, now);
      assert Look(backend.kind, backend.Cells(), UserAttempts(user), now) ==
             Look(backend.kind, m1, UserAttempts(user), now);
      var userCount := backend.Increment(UserAttempts(user), 1, w, now);
      ghost var m2 := Bump(backend.kind, m1, UserAttempts(user), 1, w, now);
      count := if ipCount < userCount then userCount else ipCount;
      if cfg.clearAll {
        RecordPair(ip, user, m2, now);
      }
    }

    /** The pair counter follows the address counter's remaining window. */
    method RecordPair(ip: Ip, user: User, ghost m: Table, now: int)
      requires backend.Valid() && Same(backend.kind, backend.Cells(), m, now)
      modifies backend.memory, backend.database
      ensures backend.Valid()
      ensures var left := Ttl(backend.kind, m, IpAttempts(ip), now);
              Same(backend.kind, backend.Cells(),
                   if left > 0 then Bump(backend.kind, m, PairAttempts(ip, user), 1, Some(left), now) else m, now)
    {
      assert Look(backend.kind, backend.Cells(), IpAttempts(ip), now) == Look(backend.kind, m, IpAttempts(ip), now);
      var ipWindow := backend.GetTtl(IpAttempts(ip), now);
      if ipWindow > 0 {
        BumpCongruent(backend.kind, backend.Cells(), m, PairAttempts(ip, user), 1, Some(ipWindow), now);
        var _ := backend.Increment(PairAttempts(ip, user), 1, Some(ipWindow), now);
      }
    }

    method LockOut(ip: Ip, user: User, now: int) returns (r: nat)
      requires backend.Valid()
      modifies backend.memory, backend.database
      ensures backend.Valid()
      ensures r == LockSeconds(cfg, Rounds(backend.kind, old(backend.Cells()), ip, user, now))
      ensures Same(backend.kind, backend.Cells(),
                   Locked(backend.kind, cfg, old(backend.Cells()), ip, user, r, now), now)
    {
      ghost var m := backend.Cells();
      var ipRounds := backend.GetCount(IpRounds(ip), now);
      assert Look(backend.kind, backend.Cells(), UserRounds(user), now) == Look(backend.kind, m, UserRounds(user), now);
      var userRounds := backend.GetCount(UserRounds(user), now);
      r := LockSeconds(cfg, Max(OrZero(ipRounds), OrZero(userRounds)));
      var ttl: Option<nat> := Some(Max(r, cfg.roundRetention));
      ghost var m0 := backend.Cells();
      LockedCongruent(backend.kind, cfg, m0, m, ip, user, r, now);
      var _ := backend.Increment(IpLock(ip), 1, Some(r), now);
      ghost var m1 := Bump(backend.kind, m0, IpLock(ip), 1, Some(r), now);
      BumpCongruent(backend.kind, backend.Cells(), m1, UserLock(user), 1, Some(r), now);
      var _ := backend.Increment(UserLock(user), 1, Some(r), now);
      ghost var m2 := Bump(backend.kind, m1, UserLock(user), 1, Some(r), now);
      RefreshCongruent(backend.kind, backend.Cells(), m2, IpRounds(ip), 1, ttl, now);
      var _ := backend.IncrementAndRefreshTtl(IpRounds(ip), 1, ttl, now);
      ghost var m3 := Refresh(backend.kind, m2, IpRounds(ip), 1, ttl, now);
      RefreshCongruent(backend.kind, backend.Cells(), m3, UserRounds(user), 1, ttl, now);
      var _ := backend.IncrementAndRefreshTtl(UserRounds(user), 1, ttl, now);
    }

    method ForgetAttempt(ip: Ip, user: User, now: int)
      requires backend.Valid()
      modifies backend.memory, backend.database
      ensures backend.Valid()
      ensures Same(backend.kind, backend.Cells(), OnForget(backend.kind, cfg, old(backend.Cells()), ip, user, now), now)
    {
      var keys := [IpAttempts(ip), UserAttempts(user)];
      if cfg.clearAll {
        keys := keys + [PairAttempts(ip, user)];
      }
      ghost var spec := backend.Cells();
      for i := 0 to |keys|
        invariant backend.Valid() && Same(backend.kind, backend.Cells(), spec, now)
        invariant spec == (
          if i == 0 then old(backend.Cells())
          else if i == 1 then TakenBack(backend.kind, cfg, old(backend.Cells()), IpAttempts(ip), now)
          else if i == 2 then
            TakenBack(backend.kind, cfg, TakenBack(backend.kind, cfg, old(backend.Cells()), IpAttempts(ip), now),
                      UserAttempts(user), now)
          else OnForget(backend.kind, cfg, old(backend.Cells()), ip, user, now))
      {
        assert Look(backend.kind, backend.Cells(), keys[i], now) == Look(backend.kind, spec, keys[i], now);
        var count := backend.GetCount(keys[i], now);
        if count.Some? && count.value > 0 {
          BumpCongruent(backend.kind, backend.Cells(), spec, keys[i], -1, Some(cfg.attemptWindow), now);
          var _ := backend.Increment(keys[i], -1, Some(cfg.attemptWindow), now);
        }
        spec := TakenBack(backend.kind, cfg, spec, keys[i], now);
      }
    }
  }

  method RunCall(policy: LockoutPolicy, c: Call) returns (answer: Option<Verdict>)
    requires policy.backend.Valid()
    modifies policy.backend.memory, policy.backend.database
    ensures policy.backend.Valid()
    ensures answer == Answered(policy.backend.kind, policy.cfg, old(policy.backend.Cells()), c)
    ensures Same(policy.backend.kind, policy.backend.Cells(),
                 Effects(policy.backend.kind, policy.cfg, old(policy.backend.Cells()), c), c.at)
  {
    match c {
      case Attempt(ip, user, now) =>
        var verdict := policy.CheckAndRecord(ip, user, false, now);
        answer := Some(verdict);
      case Success(ip, user, now) =>
        var verdict := policy.CheckAndRecord(ip, user, true, now);
        answer := Some(verdict);
      case Forget(ip, user, now) =>
        policy.ForgetAttempt(ip, user, now);
        answer := None;
    }
  }

  /** What the calls of a run answer, each on the counters the calls before it left. */
  function Answers(b: Backend, cfg: Config, calls: seq<Call>): (answers: seq<Option<Verdict>>)
    ensures |answers| == |calls|
  {
    if calls == [] then []
    else
      var front := calls[..|calls| - 1];
      Answers(b, cfg, front) + [Answered(b, cfg, After(b, cfg, map[], front), calls[|calls| - 1])]
  }

  lemma AnswersSnoc(b: Backend, cfg: Config, calls: seq<Call>, c: Call)
    ensures Answers(b, cfg, calls + [c]) == Answers(b, cfg, calls) + [Answered(b, cfg, After(b, cfg, map[], calls), c)]
  {
    assert (calls + [c])[..|calls|] == calls;
  }

  /** One more call of a run: the counters stay indistinguishable from the run's. */
  method RunNext(policy: LockoutPolicy, ghost done: seq<Call>, ghost now: int, c: Call)
    returns (answer: Option<Verdict>)
    requires policy.backend.Valid() && now <= c.at
    requires Same(policy.backend.kind, policy.backend.Cells(), After(policy.backend.kind, policy.cfg, map[], done), now)
    modifies policy.backend.memory, policy.backend.database
    ensures policy.backend.Valid()
    ensures answer == Answered(policy.backend.kind, policy.cfg, After(policy.backend.kind, policy.cfg, map[], done), c)
    ensures Same(policy.backend.kind, policy.backend.Cells(),
                 After(policy.backend.kind, policy.cfg, map[], done + [c]), c.at)
  {
    ghost var b, cfg := policy.backend.kind, policy.cfg;
    ghost var before, spec := policy.backend.Cells(), After(b, cfg, map[], done);
    SameLater(b, before, spec, now, c.at);
    CallCongruent(b, cfg, before, spec, c);
    AfterSnoc(b, cfg, map[], done, c);
    answer := RunCall(policy, c);
    SameJoins(b, policy.backend.Cells(), Effects(b, cfg, before, c), Effects(b, cfg, spec, c), c.at);
  }

  /**
   A whole run of policy calls over fresh counters of either backend: every answer is the one the
   run of the policy function gives, and so are the counters left, as anyone can see them.
   */
  method RunPolicy(b: Backend, dialect: Dialect, cfg: Config, calls: seq<Call>, start: int)
    returns (policy: LockoutPolicy, answers: seq<Option<Verdict>>)
    requires Ordered(start, calls)
    ensures answers == Answers(b, cfg, calls)
    ensures Same(b, policy.backend.Cells(), After(b, cfg, map[], calls),
                 if calls == [] then start else calls[|calls| - 1].at)
  {
    var backend := new CounterBackend<Key>(b, dialect);
    policy := new LockoutPolicy(backend, cfg);
    answers := RunCalls(policy, calls, start);
  }

  method RunCalls(policy: LockoutPolicy, calls: seq<Call>, ghost start: int) returns (answers: seq<Option<Verdict>>)
    requires policy.backend.Valid() && Ordered(start, calls)
    requires Same(policy.backend.kind, policy.backend.Cells(), map[], start)
    modifies policy.backend.memory, policy.backend.database
    ensures policy.backend.Valid() && answers == Answers(policy.backend.kind, policy.cfg, calls)
    ensures Same(policy.backend.kind, policy.backend.Cells(), After(policy.backend.kind, policy.cfg, map[], calls),
                 if calls == [] then start else calls[|calls| - 1].at)
  {
    answers := [];
    ghost var now := start;
    for i := 0 to |calls|
      invariant policy.backend.Valid() && now == if i == 0 then start else calls[i - 1].at
      invariant answers == Answers(policy.backend.kind, policy.cfg, calls[..i])
      invariant Same(policy.backend.kind, policy.backend.Cells(),
                     After(policy.backend.kind, policy.cfg, map[], calls[..i]), now)
    {
      var answer := RunNext(policy, calls[..i], now, calls[i]);
      assert calls[..i + 1] == calls[..i] + [calls[i]];
      AnswersSnoc(policy.backend.kind, policy.cfg, calls[..i], calls[i]);
      answers := answers + [answer];
      now := calls[i].at;
    }
    assert calls[..|calls|] == calls;
  }
}
