/** core/settings_store.py under threads. Each step is what happens under the
    lock, or one statement to the database; between the steps of a read anything
    may happen: other reads, writes and invalidations here, and writes to the
    table by other processes. The clock does not run backwards. */
module SettingsRaces {
  import opened Json
  import opened Text
  import opened SettingsStore

  /** Where a thread is inside `current`. */
  datatype Thread =
    | Idle
    | Missed(began: int)                                   // found the cache stale
    | Loaded(began: int, values: Overrides, ok: bool)      // has queried the table

  /** What a call of `current` handed out: when, and from a load that took how
      long and went how. */
  datatype Handout = Handout(values: Overrides, at: int, ok: bool, took: int)

  datatype State = State(
    clock: int, table: Table, cache: Overrides, loadedAt: Option<int>,
    threads: map<nat, Thread>,
    handout: Option<Handout>,
    // bookkeeping: the load the cache comes from
    cacheOk: bool, cacheTook: int)

  function ThreadOf(s: State, t: nat): Thread { if t in s.threads then s.threads[t] else Idle }

  predicate FreshAt(s: State) { s.loadedAt.Some? && s.clock - s.loadedAt.value < CACHE_TTL_SECONDS }

  /** Younger than thirty seconds, and not forgotten. */
  lemma {:induction false} FreshIs(s: State)
    ensures FreshAt(s) <==> s.loadedAt.Some? && s.clock < s.loadedAt.value + 30
  {
  }

  ghost predicate Init(s: State) {
    s.loadedAt == None && s.cache == map[] && s.threads == map[] && s.handout == None
  }

  /** The first look, under the lock: a fresh cache is handed out. */
  ghost predicate Look(s: State, s': State, t: nat) {
    && ThreadOf(s, t) == Idle
    && s' == if FreshAt(s)
             then s.(handout := Some(Handout(s.cache, s.clock, s.cacheOk, s.cacheTook)))
             else s.(threads := s.threads[t := Missed(s.clock)], handout := None)
  }

  /** The query: it succeeds, or the table cannot be read. */
  ghost predicate Query(s: State, s': State, t: nat, allowed: set<string>, readable: bool) {
    && ThreadOf(s, t).Missed?
    && var values := if readable then View(s.table, allowed) else map[];
       s' == s.(threads := s.threads[t := Loaded(ThreadOf(s, t).began, values, readable)], handout := None)
  }

  /** The second look: install what was loaded and hand it out. */
  ghost predicate Install(s: State, s': State, t: nat) {
    && ThreadOf(s, t).Loaded?
    && var l := ThreadOf(s, t);
       var took := s.clock - l.began;
       s' == s.(cache := l.values, loadedAt := Some(s.clock), cacheOk := l.ok, cacheTook := took,
                threads := s.threads[t := Idle],
                handout := Some(Handout(l.values, s.clock, l.ok, took)))
  }

  /** `invalidate`, by any thread, as the end of `set` and `clear` too. */
  ghost predicate Forget(s: State, s': State) {
    s' == s.(loadedAt := None, handout := None)
  }

  /** The table written, by this process or another. */
  ghost predicate Write(s: State, s': State) {
    s' == s.(table := s'.table, handout := None)
  }

  ghost predicate Tick(s: State, s': State) {
    s'.clock >= s.clock && s' == s.(clock := s'.clock, handout := None)
  }

  ghost predicate Next(s: State, s': State, allowed: set<string>) {
    || (exists t :: Look(s, s', t))
    || (exists t, readable :: Query(s, s', t, allowed, readable))
    || (exists t :: Install(s, s', t))
    || Forget(s, s') || Write(s, s') || Tick(s, s')
  }

  ghost predicate Run(run: seq<State>, allowed: set<string>) {
    run != [] && Init(run[0]) && forall i :: 0 <= i < |run| - 1 ==> Next(run[i], run[i + 1], allowed)
  }

  /** The table held exactly `values` at some point of the run, no earlier than
      `since`. */
  ghost predicate HeldSince(run: seq<State>, values: Overrides, since: int, allowed: set<string>) {
    exists j :: 0 <= j < |run| && run[j].clock >= since && View(run[j].table, allowed) == values
  }

  ghost predicate Honest(run: seq<State>, allowed: set<string>) {
    run != [] &&
    var s := run[|run| - 1];
    && (forall t: nat :: ThreadHonest(run, s, t, allowed))
    && (s.loadedAt.Some? && s.cacheOk ==> HeldSince(run, s.cache, s.loadedAt.value - s.cacheTook, allowed))
    && (s.handout.Some? && s.handout.value.ok ==> Recent(run, s.handout.value, allowed))
  }

  /** A handout shows the table as it stood later than thirty seconds, and the
      time its load took, before. */
  ghost predicate Recent(run: seq<State>, h: Handout, allowed: set<string>) {
    exists j :: 0 <= j < |run| && run[j].clock > h.at - 30 - h.took
                && View(run[j].table, allowed) == h.values
  }

  lemma {:induction false} HeldLonger(run: seq<State>, s: State, values: Overrides, since: int, allowed: set<string>)
    requires HeldSince(run, values, since, allowed)
    ensures HeldSince(run + [s], values, since, allowed)
  {
    var j :| 0 <= j < |run| && run[j].clock >= since && View(run[j].table, allowed) == values;
    assert (run + [s])[j] == run[j];
  }

  ghost predicate ThreadHonest(run: seq<State>, s: State, t: nat, allowed: set<string>) {
    match ThreadOf(s, t)
    case Idle => true
    case Missed(began) => began <= s.clock
    case Loaded(began, values, ok) => ok ==> HeldSince(run, values, began, allowed)
  }

  lemma {:induction false} ThreadStaysHonest(run: seq<State>, s: State, s': State, t: nat, allowed: set<string>)
    requires ThreadHonest(run, s, t, allowed) && ThreadOf(s', t) == ThreadOf(s, t) && s.clock <= s'.clock
    ensures ThreadHonest(run + [s'], s', t, allowed)
  {
    match ThreadOf(s, t)
    case Loaded(began, values, ok) => if ok { HeldLonger(run, s', values, began, allowed); }
    case _ =>
  }

  lemma {:induction false} ThreadsStayHonest(run: seq<State>, s': State, mover: Option<nat>, allowed: set<string>)
    requires Honest(run, allowed)
    requires run[|run| - 1].clock <= s'.clock
    requires forall t: nat :: Some(t) != mover ==> ThreadOf(s', t) == ThreadOf(run[|run| - 1], t)
    ensures forall t: nat :: Some(t) != mover ==> ThreadHonest(run + [s'], s', t, allowed)
  {
    forall t: nat | Some(t) != mover ensures ThreadHonest(run + [s'], s', t, allowed) {
      assert ThreadHonest(run, run[|run| - 1], t, allowed);
      ThreadStaysHonest(run, run[|run| - 1], s', t, allowed);
    }
  }

  lemma {:induction false} LookKeepsHonest(run: seq<State>, s': State, t: nat, allowed: set<string>)
    requires Honest(run, allowed) && Look(run[|run| - 1], s', t)
    ensures Honest(run + [s'], allowed)
  {
    var s, run' := run[|run| - 1], run + [s'];
    assert run'[|run|] == s';
    ThreadsStayHonest(run, s', Some(t), allowed);
    assert ThreadHonest(run', s', t, allowed);
    if s.loadedAt.Some? && s.cacheOk {
      HeldLonger(run, s', s.cache, s.loadedAt.value - s.cacheTook, allowed);
      if FreshAt(s) {
      }
    }
  }

  lemma {:induction false} QueryKeepsHonest(run: seq<State>, s': State, t: nat, allowed: set<string>, readable: bool)
    requires Honest(run, allowed) && Query(run[|run| - 1], s', t, allowed, readable)
    ensures Honest(run + [s'], allowed)
  {
    var s, run' := run[|run| - 1], run + [s'];
    assert run'[|run|] == s';
    ThreadsStayHonest(run, s', Some(t), allowed);
    assert ThreadHonest(run, s, t, allowed);
    assert run'[|run|].clock >= ThreadOf(s, t).began && View(run'[|run|].table, allowed) == View(s.table, allowed);
    assert HeldSince(run', View(s.table, allowed), ThreadOf(s, t).began, allowed);
    assert ThreadHonest(run', s', t, allowed);
    if s.loadedAt.Some? && s.cacheOk {
      HeldLonger(run, s', s.cache, s.loadedAt.value - s.cacheTook, allowed);
    }
  }

  lemma {:induction false} InstallKeepsHonest(run: seq<State>, s': State, t: nat, allowed: set<string>)
    requires Honest(run, allowed) && Install(run[|run| - 1], s', t)
    ensures Honest(run + [s'], allowed)
  {
    var s, run' := run[|run| - 1], run + [s'];
    assert run'[|run|] == s';
    ThreadsStayHonest(run, s', Some(t), allowed);
    assert ThreadHonest(run', s', t, allowed);
    assert ThreadHonest(run, s, t, allowed);
    if ThreadOf(s, t).ok {
      HeldLonger(run, s', s'.cache, ThreadOf(s, t).began, allowed);
    }
  }

  lemma {:induction false} StepKeepsHonest(run: seq<State>, s': State, allowed: set<string>)
    requires Honest(run, allowed) && Next(run[|run| - 1], s', allowed)
    ensures Honest(run + [s'], allowed)
  {
    var s, run' := run[|run| - 1], run + [s'];
    assert run'[|run|] == s';
    if t :| Look(s, s', t) {
      LookKeepsHonest(run, s', t, allowed);
    } else if t, readable :| Query(s, s', t, allowed, readable) {
      QueryKeepsHonest(run, s', t, allowed, readable);
    } else if t :| Install(s, s', t) {
      InstallKeepsHonest(run, s', t, allowed);
    } else {
      ThreadsStayHonest(run, s', None, allowed);
      if s.loadedAt.Some? && s.cacheOk {
        HeldLonger(run, s', s.cache, s.loadedAt.value - s.cacheTook, allowed);
      }
    }
  }

  /** Over every interleaving: what a read hands out, if its load succeeded, is
      what the table held less than thirty seconds plus that load ago. */
  lemma {:induction false} NothingOlderIsHandedOut(run: seq<State>, allowed: set<string>)
    requires Run(run, allowed)
    ensures Honest(run, allowed)
    ensures run[|run| - 1].handout.Some? && run[|run| - 1].handout.value.ok ==>
      Recent(run, run[|run| - 1].handout.value, allowed)
  {
    if |run| > 1 {
      var front := run[..|run| - 1];
      NothingOlderIsHandedOut(front, allowed);
      assert run == front + [run[|run| - 1]];
      StepKeepsHonest(front, run[|run| - 1], allowed);
    }
  }

  /** A write through this class is not always seen at once: a read that queried
      the table before the write and installs after the invalidation puts the
      old value back, and the next reader gets it. */
  lemma {:induction false} ASlowReadHidesAWrite(table: Table, allowed: set<string>, key: string, value: Json, at: int)
      returns (run: seq<State>)
    requires key in allowed && (key in table ==> table[key] != Holds(value))
    ensures Run(run, allowed) && |run| == 7
    ensures run[3].table == table[key := Holds(value)] && Forget(run[3], run[4])
    ensures forall i :: 4 <= i < 7 ==> run[i].table == run[3].table
    ensures run[6].handout.Some? && run[6].handout.value.values == View(table, allowed)
    ensures !(key in View(table, allowed) && View(table, allowed)[key] == value)
    ensures View(run[6].table, allowed)[key] == value
  {
    var s0 := State(at, table, map[], None, map[], None, false, 0);
    var s1 := s0.(threads := map[0 := Missed(at)]);
    var s2 := s1.(threads := map[0 := Loaded(at, View(table, allowed), true)]);
    var s3 := s2.(table := table[key := Holds(value)]);
    var s4 := s3;
    var s5 := s4.(cache := View(table, allowed), loadedAt := Some(at), cacheOk := true,
                  threads := map[0 := Idle], handout := Some(Handout(View(table, allowed), at, true, 0)));
    var s6 := s5;
    run := [s0, s1, s2, s3, s4, s5, s6];
    assert Look(s0, s1, 0);
    assert s1.threads[0 := Loaded(at, View(table, allowed), true)] == s2.threads;
    assert Query(s1, s2, 0, allowed, true);
    assert Write(s2, s3) && Forget(s3, s4);
    assert s4.threads[0 := Idle] == s5.threads;
    assert Install(s4, s5, 0);
    assert Look(s5, s6, 1);
  }

  // ---------------------------------------------------------------------
  // when a finished write is seen
  // ---------------------------------------------------------------------

  /** No thread holds what it read successfully of a table that has changed
      since. */
  ghost predicate NoStaleLoad(s: State, allowed: set<string>) {
    forall t: nat :: ThreadOf(s, t).Loaded? && ThreadOf(s, t).ok ==> ThreadOf(s, t).values == View(s.table, allowed)
  }

  /** Whatever may follow a state, as long as the table is left alone. */
  ghost predicate Continues(run: seq<State>, s: State, allowed: set<string>) {
    && run != [] && run[0] == s
    && (forall k :: 0 <= k < |run| - 1 ==> Next(run[k], run[k + 1], allowed))
    && (forall k :: 0 <= k < |run| ==> run[k].table == s.table)
  }

  ghost predicate Shows(s: State, allowed: set<string>) {
    s.handout.Some? && s.handout.value.ok ==> s.handout.value.values == View(s.table, allowed)
  }

  /** Everything that can still be handed out is what the table holds. */
  ghost predicate UpToDate(s: State, allowed: set<string>) {
    && NoStaleLoad(s, allowed) && Shows(s, allowed)
    && (s.loadedAt.Some? && s.cacheOk ==> s.cache == View(s.table, allowed))
  }

  lemma {:induction false} OnlyMoves(s: State, s': State, t: nat, allowed: set<string>)
    requires NoStaleLoad(s, allowed) && s'.table == s.table
    requires forall u: nat :: u != t ==> ThreadOf(s', u) == ThreadOf(s, u)
    requires ThreadOf(s', t).Loaded? && ThreadOf(s', t).ok ==> ThreadOf(s', t).values == View(s.table, allowed)
    ensures NoStaleLoad(s', allowed)
  {
    forall u: nat | ThreadOf(s', u).Loaded? && ThreadOf(s', u).ok
      ensures ThreadOf(s', u).values == View(s'.table, allowed) {
      assert u != t ==> ThreadOf(s', u) == ThreadOf(s, u);
    }
  }

  lemma {:induction false} LookStaysUpToDate(s: State, s': State, t: nat, allowed: set<string>)
    requires UpToDate(s, allowed) && Look(s, s', t)
    ensures UpToDate(s', allowed)
  {
    OnlyMoves(s, s', t, allowed);
  }

  lemma {:induction false} QueryStaysUpToDate(s: State, s': State, t: nat, allowed: set<string>, readable: bool)
    requires UpToDate(s, allowed) && Query(s, s', t, allowed, readable)
    ensures UpToDate(s', allowed)
  {
    OnlyMoves(s, s', t, allowed);
  }

  lemma {:induction false} InstallStaysUpToDate(s: State, s': State, t: nat, allowed: set<string>)
    requires UpToDate(s, allowed) && Install(s, s', t)
    ensures UpToDate(s', allowed)
  {
    OnlyMoves(s, s', t, allowed);
    assert ThreadOf(s, t).ok ==> ThreadOf(s, t).values == View(s.table, allowed);
  }

  lemma {:induction false} StepStaysUpToDate(s: State, s': State, allowed: set<string>)
    requires UpToDate(s, allowed) && Next(s, s', allowed) && s'.table == s.table
    ensures UpToDate(s', allowed)
  {
    if t :| Look(s, s', t) {
      LookStaysUpToDate(s, s', t, allowed);
    } else if t, readable :| Query(s, s', t, allowed, readable) {
      QueryStaysUpToDate(s, s', t, allowed, readable);
    } else if t :| Install(s, s', t) {
      InstallStaysUpToDate(s, s', t, allowed);
    } else {
      assert forall u: nat :: ThreadOf(s', u) == ThreadOf(s, u);
    }
  }

  lemma {:induction false} RunStaysUpToDate(run: seq<State>, s: State, allowed: set<string>, k: nat)
    requires Continues(run, s, allowed) && UpToDate(s, allowed) && k < |run|
    ensures UpToDate(run[k], allowed)
  {
    if k > 0 {
      RunStaysUpToDate(run, s, allowed, k - 1);
      assert Next(run[k - 1], run[k - 1 + 1], allowed);
      StepStaysUpToDate(run[k - 1], run[k], allowed);
    }
  }

  lemma {:induction false} AStaleLoadGetsOut(s: State, allowed: set<string>, t: nat) returns (run: seq<State>)
    requires ThreadOf(s, t).Loaded? && ThreadOf(s, t).ok && ThreadOf(s, t).values != View(s.table, allowed)
    ensures Continues(run, s, allowed) && |run| == 2 && !Shows(run[1], allowed)
  {
    var l := ThreadOf(s, t);
    var took := s.clock - l.began;
    var s' := s.(cache := l.values, loadedAt := Some(s.clock), cacheOk := l.ok, cacheTook := took,
                 threads := s.threads[t := Idle], handout := Some(Handout(l.values, s.clock, l.ok, took)));
    assert Install(s, s', t);
    run := [s, s'];
    assert run[1] == s';
  }

  /** `set` and `clear` end by invalidating. From then on, and as long as the
      table is left alone, every read that loaded successfully shows the table,
      exactly when at that moment no other read holds an older one. */
  lemma {:induction false} AWriteIsSeenIff(s: State, s': State, allowed: set<string>)
    requires Forget(s, s')
    ensures (forall run, k :: Continues(run, s', allowed) && 0 <= k < |run| ==> Shows(run[k], allowed))
            <==> NoStaleLoad(s, allowed)
  {
    assert forall t: nat :: ThreadOf(s', t) == ThreadOf(s, t);
    if NoStaleLoad(s, allowed) {
      assert UpToDate(s', allowed);
      forall run, k | Continues(run, s', allowed) && 0 <= k < |run| ensures Shows(run[k], allowed) {
        RunStaysUpToDate(run, s', allowed, k);
      }
    } else {
      var t: nat :| ThreadOf(s, t).Loaded? && ThreadOf(s, t).ok && ThreadOf(s, t).values != View(s.table, allowed);
      assert ThreadOf(s', t) == ThreadOf(s, t);
      var run := AStaleLoadGetsOut(s', allowed, t);
      assert !Shows(run[1], allowed);
    }
  }
}
