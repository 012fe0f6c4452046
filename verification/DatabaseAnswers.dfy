/**
 What each operation on a key of the database store answers and leaves, over every run, by two
 references that do not look at the row: the value the committed entries leave, and the deadline the
 key's last write or extension gave it. The stored row is what the two say.
 */
module DatabaseAnswers {
  import opened Basics
  import opened DatabaseRow

  /** The deadline is still to come: the key reads as there. */
  predicate Ahead(deadline: Option<int>, now: int) { deadline.Some? && now < deadline.value }

  function Armed(now: int, ttl: nat, reset: bool, before: Option<int>): Option<int> {
    if reset then Some(now + ttl * 1000) else before
  }

  /** The deadline a step leaves the key with, by what it committed and, for an extension, the clock. */
  ghost function GivenNext<V, C>(
    s: State<V, C>, log: seq<Entry<V, C>>, e: Step<V, C>, before: Option<int>): Option<int>
  {
    if log == s.log || log == [] then
      if e.Extend? && Ahead(before, s.now) then Some(s.now + e.ttl * 1000) else before
    else if log[|log| - 1].Removed? then None
    else
      match e
      case Create(_, ttl) => Armed(s.now, ttl, true, before)
      case Claim(_, ttl) => Armed(s.now, ttl, true, before)
      case Update(_, ttl, reset) => Armed(s.now, ttl, reset, before)
      case Commit(_, ttl, reset) => Armed(s.now, ttl, reset, before)
      case _ => before
  }

  /** The deadline the key's last write or extension gave it; none once it is removed. */
  ghost function Given<V, C>(apply: (C, V) -> V, run: seq<Step<V, C>>): Option<int> {
    if run == [] then None
    else
      var front := run[..|run| - 1];
      GivenNext(After(apply, front), After(apply, run).log, run[|run| - 1], Given(apply, front))
  }

  /** The stored row, or its absence, is what the deadline says. */
  ghost predicate Stored<V, C>(s: State<V, C>, deadline: Option<int>) {
    deadline == if s.row.Some? then Some(s.row.value.expiresAt) else None
  }

  lemma StepStores<V, C>(apply: (C, V) -> V, s: State<V, C>, e: Step<V, C>, deadline: Option<int>)
    requires Stored(s, deadline)
    ensures Stored(Next(apply, s, e), GivenNext(s, Next(apply, s, e).log, e, deadline))
  {
  }

  lemma {:induction false} RunStores<V, C>(apply: (C, V) -> V, run: seq<Step<V, C>>)
    ensures Stored(After(apply, run), Given(apply, run))
  {
    if run == [] {
    } else {
      RunStores(apply, run[..|run| - 1]);
      StepStores(apply, After(apply, run[..|run| - 1]), run[|run| - 1], Given(apply, run[..|run| - 1]));
    }
  }

  /** The value and version the committed entries leave, which is what the row holds. */
  lemma ReplayedIsStored<V, C>(apply: (C, V) -> V, run: seq<Step<V, C>>)
    requires NoStaleMatch(apply, run)
    ensures var s, value := After(apply, run), Replay(apply, After(apply, run).log);
            && Stored(s, Given(apply, run)) && (Given(apply, run).Some? <==> value.Holds?)
            && (value.Holds? ==>
                  s.row.Some? && s.row.value.value == value.value && s.row.value.version == value.version)
  {
    RunStores(apply, run);
    NoLostUpdate(apply, run);
  }

  /**
   A consume in one statement: it is handed the value committed last exactly if the key's deadline is
   still ahead, and the key is then gone; otherwise it finds nothing and changes nothing.
   */
  lemma ConsumeAnswered<V, C>(apply: (C, V) -> V, run: seq<Step<V, C>>, c: CallId)
    requires NoStaleMatch(apply, run) && c !in After(apply, run).calls
    ensures var s, t := After(apply, run), After(apply, run + [ConsumeReturning(c)]);
            var value := Replay(apply, s.log);
            c in t.calls &&
            if Ahead(Given(apply, run), s.now)
            then value.Holds? && t.calls[c] == Handed(value.value) && t.row.None? &&
                 t.log == s.log + [Removed(Consumed(c), value.value)]
            else t.calls[c] == Missing && t.log == s.log && t.row == s.row
  {
    ReplayedIsStored(apply, run);
    Snoc(apply, run, ConsumeReturning(c));
  }

  /** A consume in two statements: what its read sees ... */
  lemma PeekAnswered<V, C>(apply: (C, V) -> V, run: seq<Step<V, C>>, c: CallId)
    requires NoStaleMatch(apply, run) && c !in After(apply, run).calls
    ensures var s, t := After(apply, run), After(apply, run + [Peek(c)]);
            var value := Replay(apply, s.log);
            && c in t.calls && t.log == s.log && t.row == s.row
            && (Ahead(Given(apply, run), s.now) ==> value.Holds? && t.calls[c] == Peeked(value.value))
            && (!Ahead(Given(apply, run), s.now) ==> t.calls[c] == Missing)
  {
    ReplayedIsStored(apply, run);
    Snoc(apply, run, Peek(c));
  }

  /** ... and when its guarded delete hands it that: the deadline is ahead and the value is still the one seen. */
  lemma ConsumePeekedAnswered<V, C>(apply: (C, V) -> V, run: seq<Step<V, C>>, c: CallId)
    requires NoStaleMatch(apply, run) && c in After(apply, run).calls && After(apply, run).calls[c].Peeked?
    ensures var s, t := After(apply, run), After(apply, run + [ConsumePeeked(c)]);
            var value, seen := Replay(apply, s.log), s.calls[c].value;
            c in t.calls &&
            if Ahead(Given(apply, run), s.now) && value.Holds? && value.value == seen
            then t.calls[c] == Handed(seen) && t.row.None? && t.log == s.log + [Removed(Consumed(c), seen)]
            else t.calls[c] == Missing && t.log == s.log && t.row == s.row
  {
    ReplayedIsStored(apply, run);
    Snoc(apply, run, ConsumePeeked(c));
  }

  /** Every consumption in a run came before the deadline the key had. */
  lemma ConsumedInTime<V, C>(apply: (C, V) -> V, run: seq<Step<V, C>>, e: Step<V, C>)
    requires e.ConsumeReturning? || e.ConsumePeeked?
    ensures After(apply, run + [e]).log != After(apply, run).log ==> Ahead(Given(apply, run), After(apply, run).now)
  {
    RunStores(apply, run);
    Snoc(apply, run, e);
  }

  /** A claim wins exactly if no deadline of the key is ahead, clearing out a row that lapsed. */
  lemma ClaimAnswered<V, C>(apply: (C, V) -> V, run: seq<Step<V, C>>, value: V, ttl: nat)
    ensures var s, t, d := After(apply, run), After(apply, run + [Claim(value, ttl)]), Given(apply, run);
            if Ahead(d, s.now) then t == s
            else t.row.Some? && t.row.value.value == value && t.row.value.expiresAt == s.now + ttl * 1000 &&
                 (d.None? ==> t.log == s.log + [Inserted(value, true)]) &&
                 (d.Some? ==>
                    s.row.Some? && t.log == s.log + [Removed(Lapsed, s.row.value.value)] + [Inserted(value, true)])
  {
    RunStores(apply, run);
    Snoc(apply, run, Claim(value, ttl));
  }

  /** What a create, an update or an extension leaves, from `s` and the key's deadline. */
  ghost predicate WriteResult<V, C>(s: State<V, C>, e: Step<V, C>, d: Option<int>, t: State<V, C>)
    requires e.Create? || e.Update? || e.Extend?
  {
    if e.Create? then
      t.row.Some? && t.row.value.value == e.value && t.row.value.expiresAt == s.now + e.ttl * 1000 &&
      t.log == s.log + [if d.Some? then Put(e.value) else Inserted(e.value, false)]
    else if !Ahead(d, s.now) then t == s
    else if e.Update? then
      t.row.Some? && t.row.value.value == e.value && t.log == s.log + [Put(e.value)] &&
      Some(t.row.value.expiresAt) == Armed(s.now, e.ttl, e.reset, d)
    else
      s.row.Some? && t == s.(row := Some(s.row.value.(expiresAt := s.now + e.ttl * 1000)))
  }

  lemma WriteStep<V, C>(apply: (C, V) -> V, s: State<V, C>, e: Step<V, C>, d: Option<int>)
    requires (e.Create? || e.Update? || e.Extend?) && Stored(s, d)
    ensures WriteResult(s, e, d, Next(apply, s, e))
  {
  }

  /** A create always stores its value; an update and an extension reach a key whose deadline is ahead. */
  lemma WriteAnswered<V, C>(apply: (C, V) -> V, run: seq<Step<V, C>>, e: Step<V, C>)
    requires e.Create? || e.Update? || e.Extend?
    ensures WriteResult(After(apply, run), e, Given(apply, run), After(apply, run + [e]))
  {
    RunStores(apply, run);
    Snoc(apply, run, e);
    WriteStep(apply, After(apply, run), e, Given(apply, run));
  }

  /** A delete takes the key, live or not; a purge only if its deadline has come. */
  lemma RemovalAnswered<V, C>(apply: (C, V) -> V, run: seq<Step<V, C>>, e: Step<V, C>)
    requires e.Delete? || e.Purge?
    ensures var s, t, d := After(apply, run), After(apply, run + [e]), Given(apply, run);
            if d.None? || (e.Purge? && Ahead(d, s.now)) then t == s
            else s.row.Some? && t.row.None? &&
                 t.log == s.log + [Removed(if e.Delete? then Deleted else Purged, s.row.value.value)]
  {
    RunStores(apply, run);
    Snoc(apply, run, e);
  }

  /** What a guarded update leaves, from `s`, the key's deadline and the value committed last. */
  ghost predicate CommitResult<V, C>(
    apply: (C, V) -> V, s: State<V, C>, e: Step<V, C>, d: Option<int>, value: Replayed<V>, t: State<V, C>)
    requires e.Commit? && e.c in s.calls && s.calls[e.c].Holding?
  {
    var call := s.calls[e.c];
    e.c in t.calls &&
    if Ahead(d, s.now) && value.Holds? && value.version == call.version
    then var v := apply(call.attempt.change, call.value);
         t.calls[e.c] == Returned(v) && t.row.Some? && t.row.value.value == v &&
         t.row.value.version == call.version + 1 && Some(t.row.value.expiresAt) == Armed(s.now, e.ttl, e.reset, d)
    else t.row == s.row && t.log == s.log && (t.calls[e.c].Trying? || t.calls[e.c].GaveUp?)
  }

  lemma CommitStep<V, C>(apply: (C, V) -> V, s: State<V, C>, e: Step<V, C>, d: Option<int>, value: Replayed<V>)
    requires e.Commit? && e.c in s.calls && s.calls[e.c].Holding? && Stored(s, d)
    requires d.Some? <==> value.Holds?
    requires value.Holds? ==> s.row.Some? && s.row.value.version == value.version
    ensures CommitResult(apply, s, e, d, value, Committing(apply, s, e.c, e.ttl, e.reset))
  {
  }

  /**
   A guarded update is accepted exactly if the key's deadline is ahead and its version is the one
   read; it then stores the change of the value read, keeping or resetting the deadline as asked.
   */
  lemma CommitAnswered<V, C>(apply: (C, V) -> V, run: seq<Step<V, C>>, e: Step<V, C>)
    requires e.Commit? && Enabled(After(apply, run), e) && NoStaleMatch(apply, run)
    ensures CommitResult(apply, After(apply, run), e, Given(apply, run), Replay(apply, After(apply, run).log),
                         After(apply, run + [e]))
  {
    ReplayedIsStored(apply, run);
    Snoc(apply, run, e);
    CommitStep(apply, After(apply, run), e, Given(apply, run), Replay(apply, After(apply, run).log));
  }

  /** The read of a `modify` sees the key exactly if its deadline is after the call's start. */
  lemma ReadAnswered<V, C>(apply: (C, V) -> V, run: seq<Step<V, C>>, c: CallId)
    requires Enabled(After(apply, run), Read(c)) && NoStaleMatch(apply, run)
    ensures var s, t, d := After(apply, run), After(apply, run + [Read(c)]), Given(apply, run);
            var value, a := Replay(apply, s.log), s.calls[c].attempt;
            && c in t.calls && t.row == s.row && t.log == s.log
            && (Ahead(d, a.cutoff) ==>
                  value.Holds? && t.calls[c].Holding? && t.calls[c].value == value.value &&
                  t.calls[c].version == value.version)
            && (!Ahead(d, a.cutoff) ==> t.calls[c].NotFound?)
  {
    ReplayedIsStored(apply, run);
    Snoc(apply, run, Read(c));
  }
}
