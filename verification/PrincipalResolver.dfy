/**
 One request's authentication, shared by every gate. `Resolver` is the per-request cache of
 resolved principals and the loop that fills it. What the stores and the user table answer is left
 open: every answer is an arbitrary choice at the moment it is asked for, and `facts` records the
 answers given during the request.
 */
module PrincipalResolver {
  import opened Basics

  type Key = string
  type UserId = nat
  type DbSession = nat

  datatype Transport = SessionTransport(name: string) | BearerTransport(name: string)

  /** `loadedFrom` is the DB session the user row was read through. */
  datatype Principal = Principal(user: UserId, loadedFrom: DbSession, sessionId: Option<Key>)

  datatype Fact =
    | Owned(session: Key, user: UserId)        // validated: its owner
    | NoSession(session: Key)
    | Slid(session: Key)
    | CsrfPassed(session: Key)
    | CsrfFailed(session: Key)
    | Current(session: Key)                    // its user is there, active and at the session's version
    | NotCurrent(session: Key)
    | BearerGave(name: string, user: UserId)
    | BearerDeclined(name: string)
    | BearerRaised(name: string)
    | UserGone(user: UserId, db: DbSession)    // not there, or inactive, on a reload

  datatype Cached = Cached(
    principal: Principal, transport: Transport, db: DbSession, csrfEnforced: bool, activityUpdated: bool)

  datatype Call = Call(db: DbSession, transports: seq<Transport>, enforceCsrf: bool, updateActivity: bool)

  datatype Outcome = Resolved(principal: Principal) | Anonymous | Raised

  function Selection(transports: seq<Transport>): (names: seq<string>)
    ensures |names| == |transports|
  {
    if transports == [] then [] else [transports[0].name] + Selection(transports[1..])
  }

  class Resolver {
    const cookie: Option<Key>
    const unsafe: bool
    const csrfEnabled: bool
    var facts: set<Fact>
    var cache: map<seq<string>, Cached>

    constructor (cookie: Option<Key>, unsafe: bool, csrfEnabled: bool)
      ensures Valid() && cache == map[] && facts == {}
      ensures this.cookie == cookie && this.unsafe == unsafe && this.csrfEnabled == csrfEnabled
    {
      this.cookie, this.unsafe, this.csrfEnabled := cookie, unsafe, csrfEnabled;
      facts, cache := {}, map[];
    }

    /** The CSRF check a session principal owes has passed in this request. */
    ghost predicate CsrfDone(p: Principal)
      reads this
    {
      p.sessionId.Some? && csrfEnabled && unsafe ==> CsrfPassed(p.sessionId.value) in facts
    }

    /** The session of a session principal was slid in this request. */
    ghost predicate ActivityDone(p: Principal)
      reads this
    {
      p.sessionId.Some? ==> Slid(p.sessionId.value) in facts
    }

    /** The transport answered in this request that the principal is who it says. */
    ghost predicate Vouched(t: Transport, p: Principal)
      reads this
    {
      if t.SessionTransport?
      then
        p.sessionId.Some? && p.sessionId == cookie &&
        Owned(cookie.value, p.user) in facts && Current(cookie.value) in facts
      else p.sessionId.None? && BearerGave(t.name, p.user) in facts
    }

    /** The transport was asked in this request and had nobody to name. */
    ghost predicate Declined(t: Transport)
      reads this
    {
      if t.SessionTransport?
      then cookie.None? || NoSession(cookie.value) in facts || NotCurrent(cookie.value) in facts
      else BearerDeclined(t.name) in facts
    }

    /** The transport was asked in this request and refused it. */
    ghost predicate Refused(t: Transport, enforceCsrf: bool)
      reads this
    {
      if t.SessionTransport?
      then enforceCsrf && csrfEnabled && unsafe && cookie.Some? && CsrfFailed(cookie.value) in facts
      else BearerRaised(t.name) in facts
    }

    /** The transports are asked in order: all before the one at `i` declined. */
    ghost predicate ReachedAt(transports: seq<Transport>, i: int)
      reads this
    {
      0 <= i <= |transports| && forall j :: 0 <= j < i ==> Declined(transports[j])
    }

    ghost predicate FirstToName(transports: seq<Transport>, t: Transport)
      reads this
    {
      exists i :: 0 <= i < |transports| && transports[i] == t && ReachedAt(transports, i)
    }

    ghost predicate SomeRefused(transports: seq<Transport>, enforceCsrf: bool)
      reads this
    {
      exists i :: 0 <= i < |transports| && Refused(transports[i], enforceCsrf) && ReachedAt(transports, i)
    }

    ghost predicate EntryOk(entry: Cached)
      reads this
    {
      && entry.principal.loadedFrom == entry.db
      && Vouched(entry.transport, entry.principal)
      && (entry.csrfEnforced ==> CsrfDone(entry.principal))
      && (entry.activityUpdated ==> ActivityDone(entry.principal))
    }

    ghost predicate Valid()
      reads this
    {
      forall key :: key in cache ==> EntryOk(cache[key])
    }

    // ---- the session transport ---------------------------------------------------------------

    method ValidateSession(id: Key, updateActivity: bool) returns (owner: Option<UserId>)
      modifies this`facts
      ensures facts == old(facts) + (if owner.Some? then {Owned(id, owner.value)} else {NoSession(id)}) +
                       (if owner.Some? && updateActivity then {Slid(id)} else {})
    {
      var found: bool := *;
      if !found {
        facts := facts + {NoSession(id)};
        return None;
      }
      if updateActivity {
        facts := facts + {Slid(id)};
      }
      var user: UserId := *;
      facts := facts + {Owned(id, user)};
      return Some(user);
    }

    /** `false` is the exception for a missing or invalid token; safe methods are exempt. */
    method EnforceCsrf(id: Key) returns (ok: bool)
      modifies this`facts
      ensures facts == old(facts) +
                       if !csrfEnabled || !unsafe then {} else if ok then {CsrfPassed(id)} else {CsrfFailed(id)}
      ensures !ok ==> csrfEnabled && unsafe
    {
      if !csrfEnabled || !unsafe {
        return true;
      }
      ok := *;
      facts := facts + if ok then {CsrfPassed(id)} else {CsrfFailed(id)};
    }

    method AuthenticateSession(db: DbSession, enforceCsrf: bool, updateActivity: bool) returns (r: Outcome)
      modifies this`facts
      ensures old(facts) <= facts
      ensures r.Anonymous? ==> cookie.None? || NoSession(cookie.value) in facts || NotCurrent(cookie.value) in facts
      ensures r.Raised? ==>
                enforceCsrf && csrfEnabled && unsafe && cookie.Some? && CsrfFailed(cookie.value) in facts
      ensures r.Resolved? ==>
                r.principal.loadedFrom == db && r.principal.sessionId == cookie && cookie.Some? &&
                Owned(cookie.value, r.principal.user) in facts && Current(cookie.value) in facts &&
                (enforceCsrf ==> CsrfDone(r.principal)) && (updateActivity ==> ActivityDone(r.principal))
    {
      if cookie.None? {
        return Anonymous;
      }
      var owner := ValidateSession(cookie.value, updateActivity);
      if owner.None? {
        return Anonymous;
      }
      if enforceCsrf {
        var ok := EnforceCsrf(cookie.value);
        if !ok {
          return Raised;
        }
      }
      var current: bool := *;
      facts := facts + if current then {Current(cookie.value)} else {NotCurrent(cookie.value)};
      if !current {
        return Anonymous;
      }
      return Resolved(Principal(owner.value, db, cookie));
    }

    method Authenticate(t: Transport, db: DbSession, enforceCsrf: bool, updateActivity: bool) returns (r: Outcome)
      modifies this`facts
      ensures old(facts) <= facts
      ensures r.Resolved? ==> EntryOk(Cached(r.principal, t, db, enforceCsrf, updateActivity))
      ensures r.Anonymous? ==> Declined(t)
      ensures r.Raised? ==> Refused(t, enforceCsrf)
    {
      if t.SessionTransport? {
        r := AuthenticateSession(db, enforceCsrf, updateActivity);
      } else {
        r := *;
        match r {
          case Resolved(p) =>
            r := Resolved(Principal(p.user, db, None));
            facts := facts + {BearerGave(t.name, p.user)};
          case Anonymous => facts := facts + {BearerDeclined(t.name)};
          case Raised => facts := facts + {BearerRaised(t.name)};
        }
      }
    }

    /** What an earlier resolution skipped; a bearer principal owes nothing. */
    method Revalidate(t: Transport, p: Principal, enforceCsrf: bool, updateActivity: bool) returns (r: Option<bool>)
      requires p.sessionId.Some? ==> t.SessionTransport?
      modifies this`facts
      ensures old(facts) <= facts
      ensures r == Some(true) ==> (enforceCsrf ==> CsrfDone(p)) && (updateActivity ==> ActivityDone(p))
      ensures r == Some(false) ==> updateActivity && p.sessionId.Some? && NoSession(p.sessionId.value) in facts
      ensures r == None ==>
                enforceCsrf && csrfEnabled && unsafe && p.sessionId.Some? && CsrfFailed(p.sessionId.value) in facts
    {
      if t.BearerTransport? || p.sessionId.None? {
        return Some(true);
      }
      if updateActivity {
        var owner := ValidateSession(p.sessionId.value, true);
        if owner.None? {
          return Some(false);
        }
      }
      if enforceCsrf {
        var ok := EnforceCsrf(p.sessionId.value);
        if !ok {
          return None;
        }
      }
      return Some(true);
    }

    // ---- resolving -----------------------------------------------------------------------------

    method ResolveAnew(call: Call) returns (r: Outcome)
      requires Valid() && Selection(call.transports) !in cache
      modifies this
      ensures Valid() && old(facts) <= facts
      ensures r.Resolved? ==>
                Selection(call.transports) in cache && cache[Selection(call.transports)].principal == r.principal &&
                EntryOk(Cached(r.principal, cache[Selection(call.transports)].transport, call.db,
                               call.enforceCsrf, call.updateActivity))
      ensures r.Resolved? ==> FirstToName(call.transports, cache[Selection(call.transports)].transport)
      ensures r.Raised? ==> SomeRefused(call.transports, call.enforceCsrf)
      ensures r.Anonymous? ==> ReachedAt(call.transports, |call.transports|)
      ensures !r.Resolved? ==> cache == old(cache)
      ensures forall key :: key in cache && key != Selection(call.transports) ==>
                key in old(cache) && cache[key] == old(cache[key])
    {
      var i := 0;
      while i < |call.transports|
        invariant ReachedAt(call.transports, i) && Valid() && old(facts) <= facts && cache == old(cache)
      {
        r := Authenticate(call.transports[i], call.db, call.enforceCsrf, call.updateActivity);
        if r.Raised? {
          return;
        }
        if r.Resolved? {
          cache := cache[Selection(call.transports) :=
            Cached(r.principal, call.transports[i], call.db, call.enforceCsrf, call.updateActivity)];
          return;
        }
        i := i + 1;
      }
      return Anonymous;
    }

    /** The reload of a cached principal's user through another DB session. */
    method Reload(key: seq<string>, db: DbSession) returns (there: bool)
      requires Valid() && key in cache
      modifies this
      ensures Valid() && old(facts) <= facts
      ensures !there ==> cache == old(cache) - {key} && UserGone(old(cache[key]).principal.user, db) in facts
      ensures !there ==> old(cache[key]).db != db
      ensures there ==>
                cache == old(cache)[key := old(cache[key]).(
                  principal := old(cache[key]).principal.(loadedFrom := db), db := db)]
    {
      var entry := cache[key];
      if entry.db == db {
        return true;
      }
      there := *;
      if !there {
        facts := facts + {UserGone(entry.principal.user, db)};
        cache := cache - {key};
        return;
      }
      cache := cache[key := entry.(principal := entry.principal.(loadedFrom := db), db := db)];
    }

    /** The checks an entry's earlier resolutions skipped and this one asks for. */
    method CatchUp(key: seq<string>, enforceCsrf: bool, updateActivity: bool) returns (r: Outcome)
      requires Valid() && key in cache
      modifies this
      ensures Valid() && old(facts) <= facts
      ensures r.Resolved? ==>
                r.principal == old(cache[key]).principal &&
                cache == old(cache)[key := old(cache[key]).(
                  csrfEnforced := old(cache[key]).csrfEnforced || enforceCsrf,
                  activityUpdated := old(cache[key]).activityUpdated || updateActivity)]
      ensures r.Anonymous? ==>
                cache == old(cache) - {key} && updateActivity && !old(cache[key]).activityUpdated &&
                old(cache[key]).principal.sessionId.Some? &&
                NoSession(old(cache[key]).principal.sessionId.value) in facts
      ensures r.Raised? ==>
                cache == old(cache) && enforceCsrf && !old(cache[key]).csrfEnforced &&
                old(cache[key]).principal.sessionId.Some? &&
                CsrfFailed(old(cache[key]).principal.sessionId.value) in facts
    {
      var entry := cache[key];
      var missingCsrf := enforceCsrf && !entry.csrfEnforced;
      var missingActivity := updateActivity && !entry.activityUpdated;
      if missingCsrf || missingActivity {
        var valid := Revalidate(entry.transport, entry.principal, missingCsrf, missingActivity);
        if valid.None? {
          return Raised;
        }
        if !valid.value {
          cache := cache - {key};
          return Anonymous;
        }
        cache := cache[key := entry.(
          csrfEnforced := entry.csrfEnforced || enforceCsrf,
          activityUpdated := entry.activityUpdated || updateActivity)];
      }
      return Resolved(entry.principal);
    }

    method Reuse(call: Call) returns (r: Outcome)
      requires Valid() && Selection(call.transports) in cache
      modifies this
      ensures Valid() && old(facts) <= facts
      ensures r.Resolved? ==>
                Selection(call.transports) in cache && cache[Selection(call.transports)].principal == r.principal &&
                EntryOk(Cached(r.principal, cache[Selection(call.transports)].transport, call.db,
                               call.enforceCsrf, call.updateActivity)) &&
                r.principal == old(cache[Selection(call.transports)]).principal.(loadedFrom := call.db)
      ensures r.Anonymous? ==> cache == old(cache) - {Selection(call.transports)}
      ensures var p := old(cache[Selection(call.transports)]).principal;
              && (r.Anonymous? ==>
                    || UserGone(p.user, call.db) in facts
                    || (p.sessionId.Some? && call.updateActivity && NoSession(p.sessionId.value) in facts))
              && (r.Raised? ==> p.sessionId.Some? && CsrfFailed(p.sessionId.value) in facts)
      ensures r.Raised? ==>
                Selection(call.transports) in cache && call.enforceCsrf &&
                !old(cache[Selection(call.transports)]).csrfEnforced &&
                !cache[Selection(call.transports)].csrfEnforced
      ensures forall key :: key != Selection(call.transports) ==>
                (key in cache <==> key in old(cache)) && (key in cache ==> cache[key] == old(cache[key]))
    {
      var key := Selection(call.transports);
      var there := Reload(key, call.db);
      if !there {
        return Anonymous;
      }
      r := CatchUp(key, call.enforceCsrf, call.updateActivity);
    }

    /**
     A resolution. However earlier ones in the request were flagged, a session principal returned
     with CSRF enforcement on an unsafe method had its CSRF check pass in this request, and one
     returned with activity enforcement had its session slid; its user was read through the DB
     session given. A failed resolution leaves nothing to reuse. A first resolution without a principal
     had every transport decline.
     */
    method Resolve(call: Call) returns (r: Outcome)
      requires Valid()
      modifies this
      ensures Valid() && old(facts) <= facts
      ensures r.Resolved? ==>
                r.principal.loadedFrom == call.db &&
                (call.enforceCsrf ==> CsrfDone(r.principal)) && (call.updateActivity ==> ActivityDone(r.principal))
      ensures r.Anonymous? ==> Selection(call.transports) !in cache
      ensures r.Raised? && Selection(call.transports) in cache ==> !cache[Selection(call.transports)].csrfEnforced
      ensures r.Anonymous? && Selection(call.transports) !in old(cache) ==>
                forall i :: 0 <= i < |call.transports| ==> Declined(call.transports[i])
      ensures r.Resolved? ==>
                Selection(call.transports) in cache &&
                Vouched(cache[Selection(call.transports)].transport, r.principal)
      ensures r.Resolved? && Selection(call.transports) in old(cache) ==>
                r.principal == old(cache[Selection(call.transports)]).principal.(loadedFrom := call.db)
    {
      if Selection(call.transports) !in cache {
        r := ResolveAnew(call);
      } else {
        r := Reuse(call);
      }
    }

    /** The same over every sequence of resolutions, whatever their flags and DB sessions. */
    method ResolveEach(calls: seq<Call>) returns (outcomes: seq<Outcome>)
      requires Valid()
      modifies this
      ensures Valid() && |outcomes| == |calls|
      ensures forall i :: 0 <= i < |calls| && outcomes[i].Resolved? ==>
                outcomes[i].principal.loadedFrom == calls[i].db &&
                (calls[i].enforceCsrf ==> CsrfDone(outcomes[i].principal)) &&
                (calls[i].updateActivity ==> ActivityDone(outcomes[i].principal))
    {
      outcomes := [];
      while |outcomes| < |calls|
        invariant Valid() && |outcomes| <= |calls|
        invariant forall i :: 0 <= i < |outcomes| && outcomes[i].Resolved? ==>
                    outcomes[i].principal.loadedFrom == calls[i].db &&
                    (calls[i].enforceCsrf ==> CsrfDone(outcomes[i].principal)) &&
                    (calls[i].updateActivity ==> ActivityDone(outcomes[i].principal))
      {
        var r := Resolve(calls[|outcomes|]);
        outcomes := outcomes + [r];
      }
    }
  }
}
