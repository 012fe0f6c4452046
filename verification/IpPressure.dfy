/**
 What a client address's failure count is worth: it is at least the failures still on record
 against each username from that address, so a success takes back its own and no others'.

 The law rests on rounding. A pair counter is armed with the whole seconds left on the address
 counter; rounded down (memory) it cannot outlive the address counter, rounded up (database) it
 can, unless the time left happens to be whole seconds.
 */
module IpPressure {
  import opened Basics
  import opened Counters
  import opened Lockout

  // ---- sums over the live pair counters of an address ----------------------------------

  ghost function LivePairs(b: Backend, m: Table, ip: Ip, now: int): set<Key> {
    set k | k in m && k.PairAttempts? && k.ip == ip && Alive(b, m[k], now)
  }

  ghost function Total(keys: set<Key>, m: Table): int
    requires keys <= m.Keys
  {
    if keys == {} then 0
    else
      var k :| k in keys;
      m[k].count + Total(keys - {k}, m)
  }

  ghost function Pressure(b: Backend, m: Table, ip: Ip, now: int): int {
    Total(LivePairs(b, m, ip, now), m)
  }

  function IpCount(b: Backend, m: Table, ip: Ip, now: int): int {
    OrZero(Count(b, m, IpAttempts(ip), now))
  }

  function PairCount(b: Backend, m: Table, ip: Ip, user: User, now: int): int {
    OrZero(Count(b, m, PairAttempts(ip, user), now))
  }

  lemma {:induction false} TotalTakesOut(keys: set<Key>, m: Table, k: Key)
    requires keys <= m.Keys && k in keys
    ensures Total(keys, m) == m[k].count + Total(keys - {k}, m)
    decreases keys
  {
    var j :| j in keys && Total(keys, m) == m[j].count + Total(keys - {j}, m);
    if j != k {
      TotalTakesOut(keys - {j}, m, k);
      TotalTakesOut(keys - {k}, m, j);
      assert keys - {j} - {k} == keys - {k} - {j};
    }
  }

  lemma {:induction false} TotalAgrees(keys: set<Key>, m: Table, n: Table)
    requires keys <= m.Keys && keys <= n.Keys
    requires forall k :: k in keys ==> m[k].count == n[k].count
    ensures Total(keys, m) == Total(keys, n)
    decreases keys
  {
    if keys == {} {
    } else {
      var k :| k in keys;
      TotalTakesOut(keys, m, k);
      TotalTakesOut(keys, n, k);
      TotalAgrees(keys - {k}, m, n);
    }
  }

  lemma {:induction false} TotalGrows(small: set<Key>, keys: set<Key>, m: Table)
    requires small <= keys <= m.Keys
    requires forall k :: k in keys ==> 0 <= m[k].count
    ensures 0 <= Total(small, m) <= Total(keys, m)
    decreases keys
  {
    if keys == {} {
    } else {
      var k :| k in keys;
      TotalTakesOut(keys, m, k);
      if k in small {
        TotalTakesOut(small, m, k);
        TotalGrows(small - {k}, keys - {k}, m);
      } else {
        TotalGrows(small, keys - {k}, m);
      }
    }
  }

  /** Smaller terms over fewer keys, none of them negative, have a smaller sum. */
  lemma {:induction false} TotalWithin(small: set<Key>, m: Table, keys: set<Key>, n: Table)
    requires small <= keys && small <= m.Keys && keys <= n.Keys
    requires forall k :: k in keys ==> 0 <= n[k].count
    requires forall k :: k in small ==> m[k].count <= n[k].count
    ensures Total(small, m) <= Total(keys, n)
    decreases keys
  {
    if keys == {} {
    } else {
      var k :| k in keys;
      TotalTakesOut(keys, n, k);
      if k in small {
        TotalTakesOut(small, m, k);
        TotalWithin(small - {k}, m, keys - {k}, n);
      } else {
        TotalWithin(small, m, keys - {k}, n);
      }
    }
  }

  // ---- the law ---------------------------------------------------------------------------

  /** A live pair counter has a live address counter behind it that expires no earlier. */
  ghost predicate Backed(b: Backend, m: Table, k: Key, now: int)
    requires k in m && k.PairAttempts?
  {
    var ip := Look(b, m, IpAttempts(k.ip), now);
    0 <= m[k].count && m[k].deadline.Some? && ip.Some? && ip.value.deadline.Some? &&
    m[k].deadline.value <= ip.value.deadline.value
  }

  ghost predicate Conserved(b: Backend, m: Table, ip: Ip, now: int) {
    && (forall k :: k in LivePairs(b, m, ip, now) ==> Backed(b, m, k, now))
    && (Look(b, m, IpAttempts(ip), now).Some? ==> Look(b, m, IpAttempts(ip), now).value.deadline.Some?)
    && Pressure(b, m, ip, now) <= IpCount(b, m, ip, now)
  }

  /** One failure more on the address than the others need, beside the pair's own. */
  ghost predicate Credit(b: Backend, m: Table, ip: Ip, user: User, now: int) {
    Pressure(b, m, ip, now) - (if 0 < PairCount(b, m, ip, user, now) then 1 else 0) < IpCount(b, m, ip, now)
  }

  // ---- frames ------------------------------------------------------------------------------

  /** Only the counters of one address and one pair of it tell `m` and `n` apart. */
  ghost predicate DiffersAt(b: Backend, m: Table, n: Table, ip: Ip, user: User, now: int) {
    forall k: Key :: k.PairAttempts? && k != PairAttempts(ip, user) ==> Look(b, m, k, now) == Look(b, n, k, now)
  }

  lemma PressureMoves(b: Backend, m: Table, n: Table, ip: Ip, user: User, now: int)
    requires DiffersAt(b, m, n, ip, user, now)
    ensures Pressure(b, n, ip, now) - PairCount(b, n, ip, user, now)
            == Pressure(b, m, ip, now) - PairCount(b, m, ip, user, now)
    ensures LivePairs(b, n, ip, now) - {PairAttempts(ip, user)} == LivePairs(b, m, ip, now) - {PairAttempts(ip, user)}
  {
    var p := PairAttempts(ip, user);
    var ms, ns := LivePairs(b, m, ip, now), LivePairs(b, n, ip, now);
    forall k ensures k in ns - {p} <==> k in ms - {p} {
      if k.PairAttempts? && k != p {
        assert Look(b, m, k, now) == Look(b, n, k, now);
      }
    }
    assert ns - {p} == ms - {p};
    forall k | k in ms - {p} ensures k in n && m[k].count == n[k].count {
      assert k in ns - {p};
      assert Look(b, m, k, now) == Look(b, n, k, now);
    }
    TotalAgrees(ms - {p}, m, n);
    if p in ms { TotalTakesOut(ms, m, p); } else { assert ms - {p} == ms; }
    if p in ns { TotalTakesOut(ns, n, p); } else { assert ns - {p} == ns; }
  }

  /** A change that leaves an address's own counter and pairs alone leaves its law alone. */
  lemma Unrelated(b: Backend, m: Table, n: Table, ip: Ip, now: int)
    requires forall k: Key :: (k == IpAttempts(ip) || (k.PairAttempts? && k.ip == ip)) ==>
               Look(b, m, k, now) == Look(b, n, k, now)
    ensures LivePairs(b, n, ip, now) == LivePairs(b, m, ip, now)
    ensures Pressure(b, n, ip, now) == Pressure(b, m, ip, now)
    ensures Conserved(b, m, ip, now) ==> Conserved(b, n, ip, now)
  {
    var ms, ns := LivePairs(b, m, ip, now), LivePairs(b, n, ip, now);
    forall k ensures k in ns <==> k in ms {
      if k.PairAttempts? && k.ip == ip {
        assert Look(b, m, k, now) == Look(b, n, k, now);
      }
    }
    assert ns == ms;
    forall k | k in ms ensures k in n && m[k] == n[k] {
      assert k in ns && Look(b, m, k, now) == Look(b, n, k, now);
    }
    TotalAgrees(ms, m, n);
    assert Look(b, m, IpAttempts(ip), now) == Look(b, n, IpAttempts(ip), now);
    if Conserved(b, m, ip, now) {
      forall k | k in ns ensures Backed(b, n, k, now) {
        assert Backed(b, m, k, now);
      }
    }
  }

  lemma StillConserved(b: Backend, m: Table, ip: Ip, now: int, later: int)
    requires Conserved(b, m, ip, now) && now <= later
    ensures Conserved(b, m, ip, later) && LivePairs(b, m, ip, later) <= LivePairs(b, m, ip, now)
    ensures 0 <= Pressure(b, m, ip, later) <= Pressure(b, m, ip, now)
  {
    var ns := LivePairs(b, m, ip, later);
    var ms := LivePairs(b, m, ip, now);
    forall k | k in ms ensures 0 <= m[k].count { assert Backed(b, m, k, now); }
    TotalGrows(ns, ms, m);
    forall k | k in ns ensures Backed(b, m, k, later) { assert Backed(b, m, k, now); }
    if Look(b, m, IpAttempts(ip), later).None? {
      assert ns == {};
    }
  }

  // ---- attempts that may still be taken back --------------------------------------------------

  /** How many granted attempts of each pair may still be taken back. */
  type Out = map<Key, nat>

  function OutOf(out: Out, k: Key): nat { if k in out then out[k] else 0 }

  /** An attempt whose address counter has run out can no longer be taken back from it. */
  function Voided(b: Backend, m: Table, out: Out, now: int): Out {
    map k | k in out && k.PairAttempts? && Look(b, m, IpAttempts(k.ip), now).Some? :: out[k]
  }

  ghost function DebtKeys(b: Backend, m: Table, out: Out, ip: Ip, now: int): set<Key> {
    LivePairs(b, m, ip, now) + set k | k in out && k.PairAttempts? && k.ip == ip
  }

  /** What the address owes each pair: its live failures, or the attempts to be taken back if more. */
  ghost function Debts(b: Backend, m: Table, out: Out, ip: Ip, now: int): Table {
    map k | k in DebtKeys(b, m, out, ip, now) :: Cell(Max(OrZero(Count(b, m, k, now)), OutOf(out, k)), None)
  }

  ghost function Owed(b: Backend, m: Table, out: Out, ip: Ip, now: int): int {
    Total(Debts(b, m, out, ip, now).Keys, Debts(b, m, out, ip, now))
  }

  function Debt(b: Backend, m: Table, out: Out, k: Key, now: int): int {
    Max(OrZero(Count(b, m, k, now)), OutOf(out, k))
  }

  /** The stronger law: the address covers the attempts that may still be taken back as well. */
  ghost predicate Funded(b: Backend, m: Table, out: Out, ip: Ip, now: int) {
    && (forall k :: k in LivePairs(b, m, ip, now) ==> Backed(b, m, k, now))
    && (Look(b, m, IpAttempts(ip), now).Some? ==> Look(b, m, IpAttempts(ip), now).value.deadline.Some?)
    && Owed(b, m, out, ip, now) <= IpCount(b, m, ip, now)
  }

  lemma DebtsAreNotNegative(b: Backend, m: Table, out: Out, ip: Ip, now: int)
    ensures forall k :: k in Debts(b, m, out, ip, now) ==> 0 <= Debts(b, m, out, ip, now)[k].count
  {
  }

  /** No debt is more than all of them. */
  lemma DebtWithinOwed(b: Backend, m: Table, out: Out, ip: Ip, user: User, now: int)
    ensures Debt(b, m, out, PairAttempts(ip, user), now) <= Owed(b, m, out, ip, now) && 0 <= Owed(b, m, out, ip, now)
  {
    var ds, p := Debts(b, m, out, ip, now), PairAttempts(ip, user);
    DebtsAreNotNegative(b, m, out, ip, now);
    TotalGrows({}, ds.Keys, ds);
    if p in ds {
      TotalTakesOut(ds.Keys, ds, p);
      TotalGrows(ds.Keys - {p}, ds.Keys, ds);
    }
  }

  lemma FundedIsConserved(b: Backend, m: Table, out: Out, ip: Ip, now: int)
    requires Funded(b, m, out, ip, now)
    ensures Conserved(b, m, ip, now) && 0 <= Pressure(b, m, ip, now)
  {
    var ds, pairs := Debts(b, m, out, ip, now), LivePairs(b, m, ip, now);
    DebtsAreNotNegative(b, m, out, ip, now);
    TotalWithin(pairs, m, ds.Keys, ds);
    forall k | k in pairs ensures 0 <= m[k].count {
      assert Backed(b, m, k, now);
    }
    TotalGrows({}, pairs, m);
  }

  /** What the address owes the given pairs, those owed nothing included. */
  ghost function Others(b: Backend, m: Table, out: Out, keys: set<Key>, now: int): (debts: Table)
    ensures debts.Keys == keys
  {
    map k | k in keys :: Cell(Debt(b, m, out, k, now), None)
  }

  lemma OthersAgree(b: Backend, m: Table, o: Out, n: Table, q: Out, keys: set<Key>, now: int)
    requires forall k :: k in keys ==> Look(b, m, k, now) == Look(b, n, k, now) && OutOf(o, k) == OutOf(q, k)
    ensures Total(keys, Others(b, m, o, keys, now)) == Total(keys, Others(b, n, q, keys, now))
  {
    TotalAgrees(keys, Others(b, m, o, keys, now), Others(b, n, q, keys, now));
  }

  /** Debts that differ at one pair only differ by it in sum. */
  lemma OwedMoves(b: Backend, m: Table, o: Out, n: Table, q: Out, ip: Ip, user: User, now: int)
    requires DiffersAt(b, m, n, ip, user, now)
    requires forall k: Key :: k.PairAttempts? && k != PairAttempts(ip, user) ==> OutOf(o, k) == OutOf(q, k)
    ensures Owed(b, n, q, ip, now) - Debt(b, n, q, PairAttempts(ip, user), now) ==
            Owed(b, m, o, ip, now) - Debt(b, m, o, PairAttempts(ip, user), now)
  {
    var p := PairAttempts(ip, user);
    var all := DebtKeys(b, m, o, ip, now) + DebtKeys(b, n, q, ip, now) - {p};
    OthersAgree(b, m, o, n, q, all, now);
    Padded(b, m, o, ip, now, p, all);
    Padded(b, n, q, ip, now, p, all);
  }

  /** Pairs that are owed nothing may be counted in or left out. */
  lemma Padded(b: Backend, m: Table, out: Out, ip: Ip, now: int, p: Key, all: set<Key>)
    requires p.PairAttempts? && p.ip == ip && p !in all
    requires forall k :: k in all ==> k.PairAttempts? && k.ip == ip
    requires DebtKeys(b, m, out, ip, now) - {p} <= all
    ensures Owed(b, m, out, ip, now) == Debt(b, m, out, p, now) + Total(all, Others(b, m, out, all, now))
  {
    var ds, padded := Debts(b, m, out, ip, now), Others(b, m, out, all, now);
    var inside := ds.Keys - {p};
    if p in ds {
      TotalTakesOut(ds.Keys, ds, p);
    } else {
      assert inside == ds.Keys;
    }
    forall k | k in all && k !in inside ensures padded[k].count == 0 {
      assert k !in LivePairs(b, m, ip, now) && k !in out;
    }
    TotalAgrees(inside, ds, padded);
    ZerosAddNothing(inside, all, padded);
  }

  lemma {:induction false} ZerosAddNothing(inside: set<Key>, all: set<Key>, m: Table)
    requires inside <= all <= m.Keys && forall k :: k in all && k !in inside ==> m[k].count == 0
    ensures Total(inside, m) == Total(all, m)
    decreases all
  {
    var rest := all - inside;
    if rest == {} {
      forall k | k in all ensures k in inside {
        assert k !in rest;
      }
      assert inside == all;
    } else {
      var k :| k in rest;
      TotalTakesOut(all, m, k);
      ZerosAddNothing(inside, all - {k}, m);
    }
  }

  /** Time only takes debts away, and voids them all with the address counter. */
  lemma StillFunded(b: Backend, m: Table, out: Out, ip: Ip, now: int, later: int)
    requires Funded(b, m, out, ip, now) && now <= later
    ensures Funded(b, m, Voided(b, m, out, later), ip, later)
  {
    forall k | k in LivePairs(b, m, ip, later) ensures Backed(b, m, k, later) {
      assert k in LivePairs(b, m, ip, now);
      assert Backed(b, m, k, now);
    }
    if Look(b, m, IpAttempts(ip), later).None? {
      assert LivePairs(b, m, ip, later) == {};
      assert Debts(b, m, Voided(b, m, out, later), ip, later).Keys == {};
    } else {
      OwesNoMore(b, m, out, ip, now, later);
    }
  }

  lemma OwesNoMore(b: Backend, m: Table, out: Out, ip: Ip, now: int, later: int)
    requires now <= later
    ensures Owed(b, m, Voided(b, m, out, later), ip, later) <= Owed(b, m, out, ip, now)
  {
    var ms, ns := Debts(b, m, out, ip, now), Debts(b, m, Voided(b, m, out, later), ip, later);
    DebtsAreNotNegative(b, m, out, ip, now);
    TotalWithin(ns.Keys, ns, ms.Keys, ms);
  }

  lemma OwedElsewhere(b: Backend, m: Table, o: Out, n: Table, q: Out, ip: Ip, now: int)
    requires LivePairs(b, n, ip, now) == LivePairs(b, m, ip, now)
    requires forall k: Key :: k.PairAttempts? && k.ip == ip ==>
               Look(b, m, k, now) == Look(b, n, k, now) && (k in o <==> k in q) && OutOf(o, k) == OutOf(q, k)
    ensures Owed(b, m, o, ip, now) == Owed(b, n, q, ip, now)
  {
    var ms, ns := Debts(b, m, o, ip, now), Debts(b, n, q, ip, now);
    assert DebtKeys(b, m, o, ip, now) == DebtKeys(b, n, q, ip, now);
    forall k | k in ms ensures ms[k].count == ns[k].count {
      assert Look(b, m, k, now) == Look(b, n, k, now);
    }
    TotalAgrees(ms.Keys, ms, ns);
  }

  /** A change that leaves an address's own counter, pairs and attempts alone leaves it funded. */
  lemma FundedElsewhere(b: Backend, m: Table, o: Out, n: Table, q: Out, ip: Ip, now: int)
    requires Funded(b, m, o, ip, now)
    requires forall k: Key :: (k == IpAttempts(ip) || (k.PairAttempts? && k.ip == ip)) ==>
               Look(b, m, k, now) == Look(b, n, k, now)
    requires forall k: Key :: k.PairAttempts? && k.ip == ip ==> (k in o <==> k in q) && OutOf(o, k) == OutOf(q, k)
    ensures Funded(b, n, q, ip, now)
  {
    FundedIsConserved(b, m, o, ip, now);
    Unrelated(b, m, n, ip, now);
    OwedElsewhere(b, m, o, n, q, ip, now);
    assert Look(b, m, IpAttempts(ip), now) == Look(b, n, IpAttempts(ip), now);
  }

  // ---- each call -------------------------------------------------------------------------

  /** The rounding condition, readable off the counters before the attempt. */
  predicate WholeSeconds(b: Backend, m: Table, ip: Ip, now: int) {
    var c := Look(b, m, IpAttempts(ip), now);
    b.Memory? || c.None? || c.value.deadline.None? || (c.value.deadline.value - now) % 1000 == 0
  }

  /** Exactly when a pair counter started by an attempt does not outlive the address counter. */
  lemma PairWithinIpWindowIff(b: Backend, cfg: Config, m: Table, ip: Ip, user: User, now: int)
    requires cfg.clearAll
    requires Look(b, m, PairAttempts(ip, user), now).None?
    requires Look(b, m, IpAttempts(ip), now).Some? ==> Look(b, m, IpAttempts(ip), now).value.deadline.Some?
    requires Ttl(b, Recorded(b, cfg, m, ip, user, now), IpAttempts(ip), now) > 0
    ensures var n := Recorded(b, cfg, m, ip, user, now);
            var ipCell, pair := Look(b, n, IpAttempts(ip), now), Look(b, n, PairAttempts(ip, user), now);
            ipCell.Some? && pair.Some? && ipCell.value.deadline.Some? && pair.value.deadline.Some? &&
            (pair.value.deadline.value <= ipCell.value.deadline.value <==>
               (b.Memory? || (ipCell.value.deadline.value - now) % 1000 == 0))
  {
  }

  /** What an attempt does to the counters this law is about. */
  ghost predicate AttemptLooks(b: Backend, m: Table, n: Table, ip: Ip, user: User, now: int) {
    var ip0, ip1 := Look(b, m, IpAttempts(ip), now), Look(b, n, IpAttempts(ip), now);
    var pair0, pair1 := Look(b, m, PairAttempts(ip, user), now), Look(b, n, PairAttempts(ip, user), now);
    && DiffersAt(b, m, n, ip, user, now)
    && (ip0.Some? ==> ip1 == Some(ip0.value.(count := ip0.value.count + 1)))
    && (ip0.None? && ip1.Some? ==> ip1.value.count == 1 && ip1.value.deadline.Some?)
    && (pair1 == pair0
        || (ip1.Some? && ip1.value.deadline.Some? && pair0.Some? &&
            pair1 == Some(pair0.value.(count := pair0.value.count + 1)))
        || (ip1.Some? && ip1.value.deadline.Some? && pair0.None? && pair1.Some? &&
            pair1.value.count == 1 && pair1.value.deadline.Some? &&
            pair1.value.deadline.value <= ip1.value.deadline.value))
  }

  lemma RecordedLooks(b: Backend, cfg: Config, m: Table, ip: Ip, user: User, now: int)
    requires cfg.clearAll && Conserved(b, m, ip, now) && WholeSeconds(b, m, ip, now)
    ensures AttemptLooks(b, m, Recorded(b, cfg, m, ip, user, now), ip, user, now)
  {
    var w := Some(cfg.attemptWindow);
    var p := PairAttempts(ip, user);
    var m1 := Bump(b, m, IpAttempts(ip), 1, w, now);
    var m2 := Bump(b, m1, UserAttempts(user), 1, w, now);
    BumpElsewhere(b, m1, UserAttempts(user), 1, w, now, IpAttempts(ip), now);
    BumpElsewhere(b, m, IpAttempts(ip), 1, w, now, p, now);
    BumpElsewhere(b, m1, UserAttempts(user), 1, w, now, p, now);
    var left := Ttl(b, m2, IpAttempts(ip), now);
    BumpElsewhere(b, m2, p, 1, Some(left), now, IpAttempts(ip), now);
    forall k: Key | k.PairAttempts? && k != p
      ensures Look(b, m, k, now) == Look(b, Recorded(b, cfg, m, ip, user, now), k, now)
    {
      RecordedFrame(b, cfg, m, ip, user, now, k, now);
    }
    if Look(b, m, p, now).Some? {
      assert p in LivePairs(b, m, ip, now);
      assert Backed(b, m, p, now);
    }
    PairStarts(b, m2, ip, user, now);
  }

  /** The pair counter an attempt starts or adds to, given the address counter it finds. */
  lemma PairStarts(b: Backend, m: Table, ip: Ip, user: User, now: int)
    requires Look(b, m, IpAttempts(ip), now).Some? ==> Look(b, m, IpAttempts(ip), now).value.deadline.Some?
    requires WholeSeconds(b, m, ip, now)
    ensures var left := Ttl(b, m, IpAttempts(ip), now);
            var n := Bump(b, m, PairAttempts(ip, user), 1, Some(left), now);
            var pair := Look(b, m, PairAttempts(ip, user), now);
            left > 0 ==>
              Look(b, m, IpAttempts(ip), now).Some? &&
              (pair.None? ==>
                 Look(b, n, PairAttempts(ip, user), now) == Some(Cell(1, Some(now + left * 1000))) &&
                 now + left * 1000 <= Look(b, m, IpAttempts(ip), now).value.deadline.value) &&
              (pair.Some? && pair.value.deadline.Some? ==>
                 Look(b, n, PairAttempts(ip, user), now) == Some(pair.value.(count := pair.value.count + 1)))
  {
  }

  lemma BackedAfterAttempt(b: Backend, m: Table, n: Table, ip: Ip, user: User, now: int)
    requires Conserved(b, m, ip, now) && AttemptLooks(b, m, n, ip, user, now)
    ensures forall k :: k in LivePairs(b, n, ip, now) ==> Backed(b, n, k, now)
  {
    var p := PairAttempts(ip, user);
    if Look(b, m, p, now).Some? {
      assert p in LivePairs(b, m, ip, now);
      assert Backed(b, m, p, now);
    }
    forall k | k in LivePairs(b, n, ip, now) ensures Backed(b, n, k, now) {
      if k != p {
        assert Look(b, m, k, now) == Look(b, n, k, now);
        assert k in LivePairs(b, m, ip, now);
        assert Backed(b, m, k, now);
      }
    }
  }

  lemma AttemptLooksFund(b: Backend, m: Table, n: Table, out: Out, ip: Ip, user: User, now: int, granted: bool)
    requires Funded(b, m, out, ip, now) && AttemptLooks(b, m, n, ip, user, now)
    requires Look(b, n, IpAttempts(ip), now).Some?
    ensures Funded(b, n, Granting(out, PairAttempts(ip, user), granted), ip, now)
  {
    var q := Granting(out, PairAttempts(ip, user), granted);
    FundedIsConserved(b, m, out, ip, now);
    BackedAfterAttempt(b, m, n, ip, user, now);
    OwedMoves(b, m, out, n, q, ip, user, now);
    DebtWithinOwed(b, m, out, ip, user, now);
  }

  function Granting(out: Out, p: Key, granted: bool): Out {
    if granted then out[p := OutOf(out, p) + 1] else out
  }

  /** An attempt keeps every address funded, the attempt itself included if it was granted. */
  lemma AttemptFunds(b: Backend, cfg: Config, m: Table, out: Out, ip: Ip, user: User, now: int, any: Ip)
    requires cfg.clearAll && Funded(b, m, out, any, now) && WholeSeconds(b, m, ip, now)
    ensures var o := OnAttempt(b, cfg, m, ip, user, now);
            var q := Granting(out, PairAttempts(ip, user), o.verdict.allowed);
            Funded(b, o.table, Voided(b, o.table, q, now), any, now)
  {
    if any != ip {
      AttemptFundsOthers(b, cfg, m, out, ip, user, now, any);
    } else if ActiveLockout(b, m, ip, user, now) == 0 {
      JudgedFunds(b, cfg, m, out, ip, user, now);
    } else {
      StillFunded(b, m, out, ip, now, now);
    }
  }

  lemma AttemptFundsOthers(b: Backend, cfg: Config, m: Table, out: Out, ip: Ip, user: User, now: int, any: Ip)
    requires Funded(b, m, out, any, now) && any != ip
    ensures var o := OnAttempt(b, cfg, m, ip, user, now);
            var q := Granting(out, PairAttempts(ip, user), o.verdict.allowed);
            Funded(b, o.table, Voided(b, o.table, q, now), any, now)
  {
    var o := OnAttempt(b, cfg, m, ip, user, now);
    var n, q := o.table, Granting(out, PairAttempts(ip, user), o.verdict.allowed);
    forall k: Key | k == IpAttempts(any) || (k.PairAttempts? && k.ip == any)
      ensures Look(b, m, k, now) == Look(b, n, k, now)
    {
      AttemptFrame(b, cfg, m, ip, user, now, k, now);
    }
    FundedElsewhere(b, m, out, n, q, any, now);
    StillFunded(b, n, q, any, now, now);
  }

  lemma JudgedFunds(b: Backend, cfg: Config, m: Table, out: Out, ip: Ip, user: User, now: int)
    requires cfg.clearAll && Funded(b, m, out, ip, now) && WholeSeconds(b, m, ip, now)
    ensures var o := Judged(b, cfg, m, ip, user, now);
            var q := Granting(out, PairAttempts(ip, user), o.verdict.allowed);
            Funded(b, o.table, Voided(b, o.table, q, now), ip, now)
  {
    var o := Judged(b, cfg, m, ip, user, now);
    var recorded := Recorded(b, cfg, m, ip, user, now);
    FundedIsConserved(b, m, out, ip, now);
    RecordedLooks(b, cfg, m, ip, user, now);
    if !o.verdict.allowed {
      LockedElsewhere(b, cfg, recorded, ip, user, LockSeconds(cfg, Rounds(b, recorded, ip, user, now)), now);
    }
    LooksFund(b, m, recorded, o.table, out, ip, user, now, o.verdict.allowed);
  }

  /** The attempt recorded in `n`, and the locks it may arm in `l`. */
  lemma LooksFund(b: Backend, m: Table, n: Table, l: Table, out: Out, ip: Ip, user: User, now: int, granted: bool)
    requires Funded(b, m, out, ip, now) && AttemptLooks(b, m, n, ip, user, now)
    requires forall k: Key :: (k == IpAttempts(ip) || (k.PairAttempts? && k.ip == ip)) ==>
               Look(b, n, k, now) == Look(b, l, k, now)
    ensures Funded(b, l, Voided(b, l, Granting(out, PairAttempts(ip, user), granted), now), ip, now)
  {
    var q := Granting(out, PairAttempts(ip, user), granted);
    FundedIsConserved(b, m, out, ip, now);
    Unrelated(b, n, l, ip, now);
    if Look(b, n, IpAttempts(ip), now).Some? {
      AttemptLooksFund(b, m, n, out, ip, user, now, granted);
      FundedElsewhere(b, n, q, l, q, ip, now);
      StillFunded(b, l, q, ip, now, now);
    } else {
      BackedAfterAttempt(b, m, n, ip, user, now);
      VoidIsFunded(b, n, l, q, ip, now);
    }
  }

  lemma LockedElsewhere(b: Backend, cfg: Config, m: Table, ip: Ip, user: User, r: nat, now: int)
    ensures forall k: Key :: (k == IpAttempts(ip) || (k.PairAttempts? && k.ip == ip)) ==>
              Look(b, m, k, now) == Look(b, Locked(b, cfg, m, ip, user, r, now), k, now)
  {
    forall k: Key | k == IpAttempts(ip) || (k.PairAttempts? && k.ip == ip)
      ensures Look(b, m, k, now) == Look(b, Locked(b, cfg, m, ip, user, r, now), k, now)
    {
      LockedFrame(b, cfg, m, ip, user, r, now, k, now);
    }
  }

  /** Without a live address counter nothing is owed. */
  lemma VoidIsFunded(b: Backend, m: Table, n: Table, out: Out, ip: Ip, now: int)
    requires Look(b, m, IpAttempts(ip), now).None? && Look(b, n, IpAttempts(ip), now).None?
    requires forall k :: k in LivePairs(b, m, ip, now) ==> Backed(b, m, k, now)
    requires LivePairs(b, n, ip, now) == LivePairs(b, m, ip, now)
    ensures Funded(b, n, Voided(b, n, out, now), ip, now)
  {
    assert LivePairs(b, m, ip, now) == {};
    assert Debts(b, n, Voided(b, n, out, now), ip, now).Keys == {};
  }

  function Less(c: Option<Cell>, own: int): Option<Cell> {
    if c.Some? then Some(c.value.(count := c.value.count - own)) else None
  }

  /** What a success does to the counters this law is about. */
  ghost predicate SuccessLooks(b: Backend, m: Table, n: Table, ip: Ip, user: User, now: int) {
    && DiffersAt(b, m, n, ip, user, now)
    && Look(b, n, IpAttempts(ip), now) == Less(Look(b, m, IpAttempts(ip), now), PairCount(b, m, ip, user, now))
    && PairCount(b, n, ip, user, now) == 0
    && (Look(b, n, PairAttempts(ip, user), now).Some? ==>
          Look(b, n, PairAttempts(ip, user), now) == Look(b, m, PairAttempts(ip, user), now))
  }

  lemma SucceededLooks(b: Backend, cfg: Config, m: Table, ip: Ip, user: User, now: int)
    requires cfg.clearAll && Conserved(b, m, ip, now)
    ensures SuccessLooks(b, m, OnSuccess(b, cfg, m, ip, user, now), ip, user, now)
  {
    var p := PairAttempts(ip, user);
    if Look(b, m, p, now).Some? {
      assert p in LivePairs(b, m, ip, now);
      assert Backed(b, m, p, now);
    }
  }

  lemma SuccessLooksConserve(b: Backend, m: Table, n: Table, ip: Ip, user: User, now: int)
    requires Conserved(b, m, ip, now) && SuccessLooks(b, m, n, ip, user, now)
    ensures Pressure(b, n, ip, now) == Pressure(b, m, ip, now) - PairCount(b, m, ip, user, now)
    ensures IpCount(b, n, ip, now) == IpCount(b, m, ip, now) - PairCount(b, m, ip, user, now)
    ensures Conserved(b, n, ip, now)
  {
    var p := PairAttempts(ip, user);
    PressureMoves(b, m, n, ip, user, now);
    if Look(b, m, p, now).Some? {
      assert p in LivePairs(b, m, ip, now);
      assert Backed(b, m, p, now);
    }
    forall k | k in LivePairs(b, n, ip, now) ensures Backed(b, n, k, now) {
      if k != p {
        assert k in LivePairs(b, n, ip, now) - {p};
        assert Look(b, m, k, now) == Look(b, n, k, now);
      }
      assert k in LivePairs(b, m, ip, now);
      assert Backed(b, m, k, now);
    }
  }

  /** A success takes its own failures off the address, to the unit, and no one else's. */
  lemma SuccessTakesBackItsOwn(b: Backend, cfg: Config, m: Table, ip: Ip, user: User, now: int)
    requires cfg.clearAll && Conserved(b, m, ip, now)
    ensures var n := OnSuccess(b, cfg, m, ip, user, now);
            var own := PairCount(b, m, ip, user, now);
            IpCount(b, n, ip, now) == IpCount(b, m, ip, now) - own &&
            Pressure(b, n, ip, now) == Pressure(b, m, ip, now) - own &&
            PairCount(b, n, ip, user, now) == 0 &&
            0 <= Pressure(b, n, ip, now) <= IpCount(b, n, ip, now) &&
            Conserved(b, n, ip, now)
    ensures forall other: User :: other != user ==>
              PairCount(b, OnSuccess(b, cfg, m, ip, user, now), ip, other, now) == PairCount(b, m, ip, other, now)
  {
    var n := OnSuccess(b, cfg, m, ip, user, now);
    SucceededLooks(b, cfg, m, ip, user, now);
    SuccessLooksConserve(b, m, n, ip, user, now);
    StillConserved(b, n, ip, now, now);
  }

  lemma SuccessLooksFund(b: Backend, m: Table, n: Table, out: Out, ip: Ip, user: User, now: int)
    requires Funded(b, m, out, ip, now) && SuccessLooks(b, m, n, ip, user, now)
    ensures Funded(b, n, out - {PairAttempts(ip, user)}, ip, now)
  {
    FundedIsConserved(b, m, out, ip, now);
    SuccessLooksConserve(b, m, n, ip, user, now);
    OwedMoves(b, m, out, n, out - {PairAttempts(ip, user)}, ip, user, now);
  }

  /** A success keeps every address funded; the pair's attempts can no longer be taken back. */
  lemma SuccessFunds(b: Backend, cfg: Config, m: Table, out: Out, ip: Ip, user: User, now: int, any: Ip)
    requires cfg.clearAll && Funded(b, m, out, any, now)
    ensures var n, q := OnSuccess(b, cfg, m, ip, user, now), out - {PairAttempts(ip, user)};
            Funded(b, n, Voided(b, n, q, now), any, now)
  {
    var n, q := OnSuccess(b, cfg, m, ip, user, now), out - {PairAttempts(ip, user)};
    if any == ip {
      FundedIsConserved(b, m, out, ip, now);
      SucceededLooks(b, cfg, m, ip, user, now);
      SuccessLooksFund(b, m, n, out, ip, user, now);
    } else {
      SuccessElsewhere(b, cfg, m, ip, user, now, any);
      FundedElsewhere(b, m, out, n, q, any, now);
    }
    StillFunded(b, n, q, any, now, now);
  }

  lemma SuccessElsewhere(b: Backend, cfg: Config, m: Table, ip: Ip, user: User, now: int, any: Ip)
    requires any != ip
    ensures forall k: Key :: (k == IpAttempts(any) || (k.PairAttempts? && k.ip == any)) ==>
              Look(b, m, k, now) == Look(b, OnSuccess(b, cfg, m, ip, user, now), k, now)
  {
  }

  /** What a take-back does to the counters this law is about: one off each that is positive. */
  ghost predicate ForgetLooks(b: Backend, m: Table, n: Table, ip: Ip, user: User, now: int) {
    && DiffersAt(b, m, n, ip, user, now)
    && Look(b, n, IpAttempts(ip), now) == OneOff(Look(b, m, IpAttempts(ip), now))
    && Look(b, n, PairAttempts(ip, user), now) == OneOff(Look(b, m, PairAttempts(ip, user), now))
  }

  function OneOff(c: Option<Cell>): Option<Cell> {
    if c.Some? && c.value.count > 0 then Some(c.value.(count := c.value.count - 1)) else c
  }

  lemma ForgottenLooks(b: Backend, cfg: Config, m: Table, ip: Ip, user: User, now: int)
    requires cfg.clearAll && Conserved(b, m, ip, now)
    ensures ForgetLooks(b, m, OnForget(b, cfg, m, ip, user, now), ip, user, now)
  {
    if Look(b, m, PairAttempts(ip, user), now).Some? {
      assert PairAttempts(ip, user) in LivePairs(b, m, ip, now);
      assert Backed(b, m, PairAttempts(ip, user), now);
    }
  }

  lemma BackedAfterForget(b: Backend, m: Table, n: Table, ip: Ip, user: User, now: int)
    requires Conserved(b, m, ip, now) && ForgetLooks(b, m, n, ip, user, now)
    ensures forall k :: k in LivePairs(b, n, ip, now) ==> Backed(b, n, k, now)
  {
    var p := PairAttempts(ip, user);
    if Look(b, m, p, now).Some? {
      assert p in LivePairs(b, m, ip, now);
      assert Backed(b, m, p, now);
    }
    forall k | k in LivePairs(b, n, ip, now) ensures Backed(b, n, k, now) {
      if k != p {
        assert Look(b, m, k, now) == Look(b, n, k, now);
        assert k in LivePairs(b, m, ip, now);
        assert Backed(b, m, k, now);
      }
    }
  }

  /**
   Exactly when a take-back keeps the law: the address has one failure more than the other pairs
   need, or nothing to take.
   */
  lemma TakeBackConservesIff(b: Backend, cfg: Config, m: Table, ip: Ip, user: User, now: int)
    requires cfg.clearAll && Conserved(b, m, ip, now)
    ensures Conserved(b, OnForget(b, cfg, m, ip, user, now), ip, now) <==>
            Credit(b, m, ip, user, now) || IpCount(b, m, ip, now) <= 0
  {
    var n := OnForget(b, cfg, m, ip, user, now);
    ForgottenLooks(b, cfg, m, ip, user, now);
    BackedAfterForget(b, m, n, ip, user, now);
    PressureMoves(b, m, n, ip, user, now);
    PairWithinPressure(b, m, ip, user, now);
  }

  /** A pair's own failures are part of the sum, which is never negative. */
  lemma PairWithinPressure(b: Backend, m: Table, ip: Ip, user: User, now: int)
    requires Conserved(b, m, ip, now)
    ensures 0 <= PairCount(b, m, ip, user, now) <= Pressure(b, m, ip, now)
  {
    var pairs, p := LivePairs(b, m, ip, now), PairAttempts(ip, user);
    forall k | k in pairs ensures 0 <= m[k].count {
      assert Backed(b, m, k, now);
    }
    TotalGrows({}, pairs, m);
    if p in pairs {
      TotalTakesOut(pairs, m, p);
      TotalGrows(pairs - {p}, pairs, m);
    }
  }

  lemma ForgetFrame(b: Backend, cfg: Config, m: Table, ip: Ip, user: User, now: int, k: Key)
    requires !Touches(ip, user, k)
    ensures Look(b, OnForget(b, cfg, m, ip, user, now), k, now) == Look(b, m, k, now)
  {
  }

  function TakenOut(out: Out, k: Key): Out { if OutOf(out, k) > 0 then out[k := out[k] - 1] else out }

  lemma ForgetLooksFund(b: Backend, m: Table, n: Table, out: Out, ip: Ip, user: User, now: int)
    requires Funded(b, m, out, ip, now) && ForgetLooks(b, m, n, ip, user, now)
    requires OutOf(out, PairAttempts(ip, user)) > 0 || IpCount(b, m, ip, now) <= 0
    ensures Funded(b, n, TakenOut(out, PairAttempts(ip, user)), ip, now)
  {
    var p := PairAttempts(ip, user);
    FundedIsConserved(b, m, out, ip, now);
    BackedAfterForget(b, m, n, ip, user, now);
    OwedMoves(b, m, out, n, TakenOut(out, p), ip, user, now);
    DebtWithinOwed(b, m, out, ip, user, now);
  }

  /** Taking back an attempt that is still out, or from a counter with nothing on it, keeps every address funded. */
  lemma ForgetFunds(b: Backend, cfg: Config, m: Table, out: Out, ip: Ip, user: User, now: int, any: Ip)
    requires cfg.clearAll && Funded(b, m, out, any, now)
    requires OutOf(out, PairAttempts(ip, user)) > 0 || IpCount(b, m, ip, now) <= 0
    ensures var n, q := OnForget(b, cfg, m, ip, user, now), TakenOut(out, PairAttempts(ip, user));
            Funded(b, n, Voided(b, n, q, now), any, now)
  {
    var n, q := OnForget(b, cfg, m, ip, user, now), TakenOut(out, PairAttempts(ip, user));
    if any != ip {
      forall k: Key | k == IpAttempts(any) || (k.PairAttempts? && k.ip == any)
        ensures Look(b, m, k, now) == Look(b, n, k, now)
      {
        ForgetFrame(b, cfg, m, ip, user, now, k);
      }
      FundedElsewhere(b, m, out, n, q, any, now);
    } else {
      FundedIsConserved(b, m, out, ip, now);
      ForgottenLooks(b, cfg, m, ip, user, now);
      ForgetLooksFund(b, m, n, out, ip, user, now);
    }
    StillFunded(b, n, q, any, now, now);
  }

  // ---- every run -------------------------------------------------------------------------

  /** The attempts still to be taken back after a call: granted, not cleared by a success, not lapsed. */
  function OutNext(b: Backend, cfg: Config, m: Table, out: Out, c: Call): Out {
    var o, n, p := Voided(b, m, out, c.at), Effects(b, cfg, m, c), PairAttempts(c.ip, c.user);
    match c
    case Attempt(ip, user, now) =>
      var granted := OnAttempt(b, cfg, m, ip, user, now).verdict.allowed;
      Voided(b, n, Granting(o, p, granted), now)
    case Success(_, _, now) => Voided(b, n, o - {p}, now)
    case Forget(_, _, now) => Voided(b, n, TakenOut(o, p), now)
  }

  function Outstanding(b: Backend, cfg: Config, calls: seq<Call>): Out {
    if calls == [] then map[]
    else
      var front := calls[..|calls| - 1];
      OutNext(b, cfg, After(b, cfg, map[], front), Outstanding(b, cfg, front), calls[|calls| - 1])
  }

  /**
   The call may follow: an attempt finds whole seconds left on the address counter (database
   counters only), and a take-back finds its attempt still out, or nothing on the address.
   */
  ghost predicate MayFollow(b: Backend, m: Table, out: Out, c: Call) {
    && (c.Attempt? ==> WholeSeconds(b, m, c.ip, c.at))
    && (c.Forget? ==>
          OutOf(Voided(b, m, out, c.at), PairAttempts(c.ip, c.user)) > 0 || IpCount(b, m, c.ip, c.at) <= 0)
  }

  /** Calls in clock order, each of which may follow those before it. */
  ghost predicate Proper(b: Backend, cfg: Config, calls: seq<Call>) {
    calls == [] ||
    var front, c := calls[..|calls| - 1], calls[|calls| - 1];
    && Proper(b, cfg, front) && (front != [] ==> front[|front| - 1].at <= c.at)
    && MayFollow(b, After(b, cfg, map[], front), Outstanding(b, cfg, front), c)
  }

  lemma CallFunds(b: Backend, cfg: Config, m: Table, out: Out, c: Call, ip: Ip)
    requires cfg.clearAll && MayFollow(b, m, out, c) && Funded(b, m, Voided(b, m, out, c.at), ip, c.at)
    ensures Funded(b, Effects(b, cfg, m, c), OutNext(b, cfg, m, out, c), ip, c.at)
  {
    var o := Voided(b, m, out, c.at);
    match c
    case Attempt(i, u, at) => AttemptFunds(b, cfg, m, o, i, u, at, ip);
    case Success(i, u, at) => SuccessFunds(b, cfg, m, o, i, u, at, ip);
    case Forget(i, u, at) => ForgetFunds(b, cfg, m, o, i, u, at, ip);
  }

  lemma {:induction false} RunFunds(b: Backend, cfg: Config, calls: seq<Call>, ip: Ip, now: int)
    requires cfg.clearAll && Proper(b, cfg, calls)
    requires calls != [] ==> calls[|calls| - 1].at <= now
    ensures var n := After(b, cfg, map[], calls);
            Funded(b, n, Voided(b, n, Outstanding(b, cfg, calls), now), ip, now)
    decreases |calls|
  {
    var n := After(b, cfg, map[], calls);
    if calls == [] {
      assert Debts(b, n, Voided(b, n, map[], now), ip, now).Keys == {};
    } else {
      var front, c := calls[..|calls| - 1], calls[|calls| - 1];
      RunFunds(b, cfg, front, ip, c.at);
      CallFunds(b, cfg, After(b, cfg, map[], front), Outstanding(b, cfg, front), c, ip);
      StillFunded(b, n, Outstanding(b, cfg, calls), ip, c.at, now);
    }
  }

  /**
   IP pressure conservation: after any proper run, at any later instant, for every address the
   count is at least the sum of the live failures against its usernames, and each of those is
   backed by the live address counter.
   */
  lemma RunConserves(b: Backend, cfg: Config, calls: seq<Call>, ip: Ip, now: int)
    requires cfg.clearAll && Proper(b, cfg, calls)
    requires calls != [] ==> calls[|calls| - 1].at <= now
    ensures Conserved(b, After(b, cfg, map[], calls), ip, now)
    ensures 0 <= Pressure(b, After(b, cfg, map[], calls), ip, now) <= IpCount(b, After(b, cfg, map[], calls), ip, now)
  {
    RunFunds(b, cfg, calls, ip, now);
    var n := After(b, cfg, map[], calls);
    FundedIsConserved(b, n, Voided(b, n, Outstanding(b, cfg, calls), now), ip, now);
  }

  /** The law carries to any counters that cannot be told from the run's, such as the policy's own. */
  lemma ConservedCarries(b: Backend, m: Table, cells: Table, ip: Ip, at: int, now: int)
    requires Same(b, cells, m, at) && at <= now && Conserved(b, m, ip, at)
    ensures Conserved(b, cells, ip, now) && 0 <= Pressure(b, cells, ip, now)
  {
    Unrelated(b, m, cells, ip, at);
    StillConserved(b, cells, ip, at, now);
  }

  /**
   With database counters the law fails off the whole second: a pair counter outlives the
   address counter, and a success then leaves the address a negative count.
   */
  lemma RoundingUpGoesNegative(cfg: Config, calls: seq<Call>)
    requires cfg == Config(5, 60, 60, 3600, 3600, true)
    requires calls == [Attempt(1, 8, 0), Attempt(1, 9, 500)] + [Success(1, 9, 60_200)]
    ensures IpCount(Database, After(Database, cfg, map[], calls), 1, 60_200) == -1
  {
    TwoFailures(cfg, calls[..2]);
    AfterSnoc(Database, cfg, map[], calls[..2], calls[2]);
    OutlivedPair(cfg, After(Database, cfg, map[], calls[..2]));
  }

  lemma TwoFailures(cfg: Config, calls: seq<Call>)
    requires cfg == Config(5, 60, 60, 3600, 3600, true)
    requires calls == [Attempt(1, 8, 0)] + [Attempt(1, 9, 500)]
    ensures var n := After(Database, cfg, map[], calls);
            Look(Database, n, IpAttempts(1), 60_200).None? &&
            Count(Database, n, PairAttempts(1, 9), 60_200) == Some(1)
  {
    assert [Attempt(1, 8, 0)] == [] + [Attempt(1, 8, 0)];
    AfterSnoc(Database, cfg, map[], [], Attempt(1, 8, 0));
    AfterSnoc(Database, cfg, map[], [Attempt(1, 8, 0)], Attempt(1, 9, 500));
    FirstFailure(cfg);
    SecondFailure(cfg, OnAttempt(Database, cfg, map[], 1, 8, 0).table);
  }

  lemma FirstFailure(cfg: Config)
    requires cfg == Config(5, 60, 60, 3600, 3600, true)
    ensures OnAttempt(Database, cfg, map[], 1, 8, 0).table ==
            map[IpAttempts(1) := Cell(1, Some(60_000)), UserAttempts(8) := Cell(1, Some(60_000)),
                PairAttempts(1, 8) := Cell(1, Some(60_000))]
  {
    var m: Table := map[];
    var m1 := Bump(Database, m, IpAttempts(1), 1, Some(60), 0);
    assert m1 == map[IpAttempts(1) := Cell(1, Some(60_000))];
    var m2 := Bump(Database, m1, UserAttempts(8), 1, Some(60), 0);
    assert m2 == m1[UserAttempts(8) := Cell(1, Some(60_000))];
  }

  lemma SecondFailure(cfg: Config, m: Table)
    requires cfg == Config(5, 60, 60, 3600, 3600, true)
    requires m == map[IpAttempts(1) := Cell(1, Some(60_000)), UserAttempts(8) := Cell(1, Some(60_000)),
                      PairAttempts(1, 8) := Cell(1, Some(60_000))]
    ensures var n := OnAttempt(Database, cfg, m, 1, 9, 500).table;
            Look(Database, n, IpAttempts(1), 60_200).None? &&
            Count(Database, n, PairAttempts(1, 9), 60_200) == Some(1)
  {
    var m1 := Bump(Database, m, IpAttempts(1), 1, Some(60), 500);
    assert m1 == m[IpAttempts(1) := Cell(2, Some(60_000))];
    var m2 := Bump(Database, m1, UserAttempts(9), 1, Some(60), 500);
    assert m2 == m1[UserAttempts(9) := Cell(1, Some(60_500))];
    assert Ttl(Database, m2, IpAttempts(1), 500) == 60;
  }

  lemma OutlivedPair(cfg: Config, m: Table)
    requires cfg == Config(5, 60, 60, 3600, 3600, true)
    requires Look(Database, m, IpAttempts(1), 60_200).None?
    requires Count(Database, m, PairAttempts(1, 9), 60_200) == Some(1)
    ensures IpCount(Database, OnSuccess(Database, cfg, m, 1, 9, 60_200), 1, 60_200) == -1
  {
  }

  // ---- a success in the gap ---------------------------------------------------------------------

  const GAP := Config(5, 60, 60, 3600, 3600, true)

  /** An attempt far from any limit: three counters up by one. */
  lemma QuietAttempt(m: Table, user: User, ips: int, users: int, pairs: int)
    requires Look(Memory, m, IpAttempts(1), 0) == if ips == 0 then None else Some(Cell(ips, Some(60_000)))
    requires Look(Memory, m, UserAttempts(user), 0) == if users == 0 then None else Some(Cell(users, Some(60_000)))
    requires Look(Memory, m, PairAttempts(1, user), 0) == if pairs == 0 then None else Some(Cell(pairs, Some(60_000)))
    requires IpLock(1) !in m && UserLock(user) !in m && 0 <= ips < 5 && 0 <= users < 5 && 0 <= pairs
    ensures OnAttempt(Memory, GAP, m, 1, user, 0).table ==
            m[IpAttempts(1) := Cell(ips + 1, Some(60_000))]
             [UserAttempts(user) := Cell(users + 1, Some(60_000))]
             [PairAttempts(1, user) := Cell(pairs + 1, Some(60_000))]
  {
    var m1 := Bump(Memory, m, IpAttempts(1), 1, Some(60), 0);
    assert m1 == m[IpAttempts(1) := Cell(ips + 1, Some(60_000))];
    BumpElsewhere(Memory, m, IpAttempts(1), 1, Some(60), 0, UserAttempts(user), 0);
    BumpElsewhere(Memory, m, IpAttempts(1), 1, Some(60), 0, PairAttempts(1, user), 0);
    var m2 := Bump(Memory, m1, UserAttempts(user), 1, Some(60), 0);
    assert m2 == m1[UserAttempts(user) := Cell(users + 1, Some(60_000))];
    BumpElsewhere(Memory, m1, UserAttempts(user), 1, Some(60), 0, PairAttempts(1, user), 0);
    assert Ttl(Memory, m2, IpAttempts(1), 0) == 60;
  }

  lemma FirstAttempt(calls: seq<Call>)
    requires calls == [] + [Attempt(1, 8, 0)]
    ensures After(Memory, GAP, map[], calls) ==
            map[IpAttempts(1) := Cell(1, Some(60_000)),
                UserAttempts(8) := Cell(1, Some(60_000)), PairAttempts(1, 8) := Cell(1, Some(60_000))]
  {
    AfterSnoc(Memory, GAP, map[], [], Attempt(1, 8, 0));
    QuietAttempt(map[], 8, 0, 0, 0);
  }

  lemma SecondAttempt(m: Table)
    requires m == map[IpAttempts(1) := Cell(1, Some(60_000)),
                      UserAttempts(8) := Cell(1, Some(60_000)), PairAttempts(1, 8) := Cell(1, Some(60_000))]
    ensures OnAttempt(Memory, GAP, m, 1, 9, 0).table ==
            map[IpAttempts(1) := Cell(2, Some(60_000)),
                UserAttempts(8) := Cell(1, Some(60_000)), PairAttempts(1, 8) := Cell(1, Some(60_000)),
                UserAttempts(9) := Cell(1, Some(60_000)), PairAttempts(1, 9) := Cell(1, Some(60_000))]
  {
    QuietAttempt(m, 9, 1, 0, 0);
  }

  /** One failure of user 8, then an attempt of user 9. */
  lemma TwoAttempts(calls: seq<Call>)
    requires calls == [] + [Attempt(1, 8, 0)] + [Attempt(1, 9, 0)]
    ensures After(Memory, GAP, map[], calls) ==
            map[IpAttempts(1) := Cell(2, Some(60_000)),
                UserAttempts(8) := Cell(1, Some(60_000)), PairAttempts(1, 8) := Cell(1, Some(60_000)),
                UserAttempts(9) := Cell(1, Some(60_000)), PairAttempts(1, 9) := Cell(1, Some(60_000))]
  {
    var one := [] + [Attempt(1, 8, 0)];
    FirstAttempt(one);
    SecondAttempt(After(Memory, GAP, map[], one));
    AfterSnoc(Memory, GAP, map[], one, Attempt(1, 9, 0));
  }

  lemma ThirdAttempt(m: Table)
    requires m == map[IpAttempts(1) := Cell(2, Some(60_000)),
                      UserAttempts(8) := Cell(1, Some(60_000)), PairAttempts(1, 8) := Cell(1, Some(60_000)),
                      UserAttempts(9) := Cell(1, Some(60_000)), PairAttempts(1, 9) := Cell(1, Some(60_000))]
    ensures OnAttempt(Memory, GAP, m, 1, 9, 0).table ==
            map[IpAttempts(1) := Cell(3, Some(60_000)),
                UserAttempts(8) := Cell(1, Some(60_000)), PairAttempts(1, 8) := Cell(1, Some(60_000)),
                UserAttempts(9) := Cell(2, Some(60_000)), PairAttempts(1, 9) := Cell(2, Some(60_000))]
  {
    QuietAttempt(m, 9, 2, 1, 1);
  }

  lemma ClearedThenTakenBack(m: Table)
    requires m == map[IpAttempts(1) := Cell(3, Some(60_000)),
                      UserAttempts(8) := Cell(1, Some(60_000)), PairAttempts(1, 8) := Cell(1, Some(60_000)),
                      UserAttempts(9) := Cell(2, Some(60_000)), PairAttempts(1, 9) := Cell(2, Some(60_000))]
    ensures var n := OnForget(Memory, GAP, OnSuccess(Memory, GAP, m, 1, 9, 0), 1, 9, 0);
            IpCount(Memory, n, 1, 0) == 0 && PairCount(Memory, n, 1, 8, 0) == 1
  {
    var cleared := m - {UserAttempts(9)} - {UserLock(9)} - {UserRounds(9)};
    assert Look(Memory, cleared, PairAttempts(1, 9), 0) == Some(Cell(2, Some(60_000)));
    var n := OnSuccess(Memory, GAP, m, 1, 9, 0);
    assert n == (cleared - {PairAttempts(1, 9)})[IpAttempts(1) := Cell(1, Some(60_000))];
    assert UserAttempts(9) !in n && PairAttempts(1, 9) !in n;
    var t := TakenBack(Memory, GAP, n, IpAttempts(1), 0);
    assert t == n[IpAttempts(1) := Cell(0, Some(60_000))];
  }

  /**
   A take-back whose pair succeeded in the meantime erases another username's failure: user 9's
   second login succeeds between the first one's attempt and its take-back, and user 8's failure
   is gone from the address.
   */
  lemma SuccessInTheGap(calls: seq<Call>)
    requires calls == [] + [Attempt(1, 8, 0)] + [Attempt(1, 9, 0)] + [Attempt(1, 9, 0)] +
                      [Success(1, 9, 0)] + [Forget(1, 9, 0)]
    ensures var n := After(Memory, GAP, map[], calls);
            IpCount(Memory, n, 1, 0) == 0 && PairCount(Memory, n, 1, 8, 0) == 1 && !Conserved(Memory, n, 1, 0)
  {
    var two := [] + [Attempt(1, 8, 0)] + [Attempt(1, 9, 0)];
    TwoAttempts(two);
    AfterSnoc(Memory, GAP, map[], two, Attempt(1, 9, 0));
    ThirdAttempt(After(Memory, GAP, map[], two));
    var three := two + [Attempt(1, 9, 0)];
    AfterSnoc(Memory, GAP, map[], three, Success(1, 9, 0));
    AfterSnoc(Memory, GAP, map[], three + [Success(1, 9, 0)], Forget(1, 9, 0));
    ClearedThenTakenBack(After(Memory, GAP, map[], three));
    var n := After(Memory, GAP, map[], calls);
    if Conserved(Memory, n, 1, 0) {
      PairWithinPressure(Memory, n, 1, 8, 0);
    }
  }
}
