/** The resolver's negative cache and circuit breaker, refined from the history of its failures. */
module FailureGuard {
  import opened Common
  import opened Clock

  datatype Config = Config(
    negativeSeconds: Time, circuitFailures: int, windowSeconds: Time, cooldownSeconds: Time, maxEntries: int)
  {
    predicate Valid() {
      && negativeSeconds > 0.0 && windowSeconds > 0.0
      && circuitFailures > 0 && cooldownSeconds > 0.0 && maxEntries > 0
    }
  }

  datatype FailureState = FailureState(failures: seq<Time>, openUntil: Time)

  datatype Verdict = Allowed | CircuitOpen | NegativeCached

  // ---------- Specification: what the failures of one entry imply ----------

  /** The failures of an entry since its last success, eviction or clear, oldest first. */
  type Log = seq<Time>

  /** Failure `i` ends a window that holds at least the threshold of failures. */
  ghost predicate Trips(c: Config, log: Log, i: int) {
    0 <= i < |log| && CountAfter(log[..i + 1], log[i] - c.windowSeconds) >= c.circuitFailures
  }

  ghost predicate CircuitHolds(c: Config, log: Log, t: Time) {
    exists i :: Trips(c, log, i) && t < log[i] + c.cooldownSeconds
  }

  ghost predicate NegativeHolds(c: Config, log: Log, t: Time) {
    exists i :: 0 <= i < |log| && t < log[i] + c.negativeSeconds
  }

  ghost function Judge(c: Config, log: Log, t: Time): Verdict {
    if CircuitHolds(c, log, t) then CircuitOpen
    else if NegativeHolds(c, log, t) then NegativeCached
    else Allowed
  }

  /** All entries with failures, in the order in which their logs began. */
  datatype History = History(order: seq<string>, logs: map<string, Log>) {
    function LogOf(key: string): Log {
      if key in logs then logs[key] else []
    }

    function Failed(key: string, t: Time): History {
      History(if key in logs then order else order + [key], logs[key := LogOf(key) + [t]])
    }

    function Evicted(maxEntries: int): History {
      if |order| > maxEntries && |order| > 0 then History(order[1..], logs - {order[0]}) else this
    }

    function Succeeded(key: string): History {
      History(Without(order, key), logs - {key})
    }

    ghost predicate Valid() {
      Distinct(order) && forall k :: k in order <==> k in logs
    }
  }

  const EmptyHistory := History([], map[])

  lemma {:induction false} WithoutKeepsDistinct(order: seq<string>, key: string)
    requires Distinct(order)
    ensures Distinct(Without(order, key))
  {
    if order != [] {
      var rest := order[1..];
      WithoutKeepsDistinct(rest, key);
      assert order[0] !in rest;
    }
  }

  // ---------- The deadline that the code keeps, and what it means ----------

  /** The latest time until which some failure of the log keeps the circuit open. */
  ghost function Deadline(c: Config, log: Log): Time {
    if log == [] then 0.0
    else if CountAfter(log, Last(log) - c.windowSeconds) >= c.circuitFailures
    then Last(log) + c.cooldownSeconds
    else Deadline(c, Front(log))
  }

  lemma {:induction false} DeadlineMeaning(c: Config, log: Log, now: Time, t: Time)
    requires c.Valid() && Ordered(log, now) && 0.0 <= t
    ensures t < Deadline(c, log) <==> CircuitHolds(c, log, t)
  {
    if log != [] {
      var n := |log| - 1;
      assert log[..n + 1] == log;
      if Trips(c, log, n) {
        forall i | Trips(c, log, i) ensures log[i] <= log[n] {
          OrderedIndex(log, now, i, n);
        }
        assert t < Deadline(c, log) ==> CircuitHolds(c, log, t);
      } else {
        var front := Front(log);
        DeadlineMeaning(c, front, Last(log), t);
        forall i | 0 <= i < n ensures Trips(c, front, i) == Trips(c, log, i) && front[i] == log[i] {
          assert front[..i + 1] == log[..i + 1];
        }
      }
    }
  }

  lemma NegativeMeaning(c: Config, log: Log, now: Time, t: Time)
    requires Ordered(log, now)
    ensures NegativeHolds(c, log, t) <==> log != [] && t < Last(log) + c.negativeSeconds
  {
    forall i | 0 <= i < |log| ensures log[i] <= Last(log) {
      OrderedIndex(log, now, i, |log| - 1);
    }
  }

  // ---------- What the stored state of one entry means ----------

  ghost predicate EntryRefines(c: Config, log: Log, st: FailureState, negative: Option<Time>, now: Time) {
    && log != [] && Ordered(log, now)
    && StateRefines(c, log, st, now)
    && (match negative
        case None => Last(log) + c.negativeSeconds <= now
        case Some(until) => until == Last(log) + c.negativeSeconds)
  }

  /** In every window still to come the deque counts what the log counts, and a deadline still
      to come is the log's. */
  ghost predicate StateRefines(c: Config, log: Log, st: FailureState, now: Time) {
    && Ordered(st.failures, now)
    && (forall cutoff {:trigger CountAfter(log, cutoff)} {:trigger CountAfter(st.failures, cutoff)} ::
          cutoff >= now - c.windowSeconds ==> CountAfter(st.failures, cutoff) == CountAfter(log, cutoff))
    && (st.openUntil == Deadline(c, log) || (st.openUntil == 0.0 && Deadline(c, log) <= now))
  }

  lemma EntryRefinesLater(c: Config, log: Log, st: FailureState, negative: Option<Time>, now: Time, t: Time)
    requires EntryRefines(c, log, st, negative, now) && now <= t
    ensures EntryRefines(c, log, st, negative, t)
  {
  }

  /** The comparison that `check` makes on the stored state decides the verdict of the log. */
  lemma VerdictFromState(c: Config, log: Log, st: FailureState, negative: Option<Time>, t: Time)
    requires c.Valid() && 0.0 <= t && EntryRefines(c, log, st, negative, t)
    ensures st.openUntil > t <==> CircuitHolds(c, log, t)
    ensures (negative.Some? && negative.value > t) <==> NegativeHolds(c, log, t)
  {
    DeadlineMeaning(c, log, t, t);
    NegativeMeaning(c, log, t, t);
  }

  /** Dropping the oldest failure once it left the window changes no count still to come. */
  lemma DropRefines(c: Config, log: Log, st: FailureState, now: Time)
    requires StateRefines(c, log, st, now) && st.failures != []
    requires st.failures[0] <= now - c.windowSeconds
    ensures StateRefines(c, log, st.(failures := st.failures[1..]), now)
  {
    OrderedTail(st.failures, now);
    forall cutoff | cutoff >= now - c.windowSeconds
      ensures CountAfter(st.failures[1..], cutoff) == CountAfter(log, cutoff)
    {
      CountAfterDropFirst(st.failures, cutoff);
    }
  }

  /** The deque and the log count one more reading alike. */
  lemma AppendCounts(log: Log, failures: seq<Time>, t: Time, cutoff: Time)
    requires CountAfter(failures, cutoff) == CountAfter(log, cutoff)
    ensures CountAfter(failures + [t], cutoff) == CountAfter(log + [t], cutoff)
  {
    CountAfterAppend(log, t, cutoff);
    CountAfterAppend(failures, t, cutoff);
  }

  /** The threshold is compared with the length of the pruned deque, which is the window's count. */
  lemma AppendDeadline(c: Config, log: Log, st: FailureState, t: Time)
    requires c.Valid() && StateRefines(c, log, st, t)
    requires st.failures != [] ==> st.failures[0] > t - c.windowSeconds
    ensures CountAfter(log + [t], t - c.windowSeconds) == |st.failures| + 1
    ensures Deadline(c, log + [t]) ==
            if |st.failures| + 1 >= c.circuitFailures then t + c.cooldownSeconds else Deadline(c, log)
  {
    var cutoff := t - c.windowSeconds;
    CountAfterAll(st.failures, t, cutoff);
    assert CountAfter(log, cutoff) == |st.failures|;
    CountAfterAppend(log, t, cutoff);
    assert Front(log + [t]) == log;
  }

  lemma AppendRefines(c: Config, log: Log, st: FailureState, t: Time)
    requires c.Valid() && 0.0 <= t && Ordered(log, t) && StateRefines(c, log, st, t)
    requires st.failures != [] ==> st.failures[0] > t - c.windowSeconds
    ensures var open := |st.failures| + 1 >= c.circuitFailures;
            StateRefines(c, log + [t],
                         FailureState(st.failures + [t], if open then t + c.cooldownSeconds else st.openUntil), t)
    ensures Ordered(log + [t], t)
  {
    hide CountAfter, Deadline;
    OrderedAppend(log, t);
    OrderedAppend(st.failures, t);
    AppendDeadline(c, log, st, t);
    forall cutoff | cutoff >= t - c.windowSeconds
      ensures CountAfter(st.failures + [t], cutoff) == CountAfter(log + [t], cutoff)
    {
      AppendCounts(log, st.failures, t, cutoff);
    }
  }

  // ---------- What the history says ----------

  /** Readings after position `i` add to its window only when they are simultaneous with it. */
  lemma {:induction false} CountInPrefix(log: Log, now: Time, i: nat, lo: Time)
    requires i < |log| && Ordered(log, now)
    ensures CountIn(log, lo, log[i]) >= CountAfter(log[..i + 1], lo)
    ensures (i + 1 == |log| || log[i] < log[i + 1]) ==> CountIn(log, lo, log[i]) == CountAfter(log[..i + 1], lo)
    decreases |log|
  {
    var front := Front(log);
    if i == |log| - 1 {
      assert log[..i + 1] == log;
      CountInAll(log, log[i], lo);
    } else {
      assert front[..i + 1] == log[..i + 1];
      CountInPrefix(front, Last(log), i, lo);
      OrderedIndex(log, now, i + 1, |log| - 1);
    }
  }

  lemma {:induction false} LastSimultaneous(log: Log, i: nat) returns (j: nat)
    requires i < |log|
    ensures i <= j < |log| && log[j] == log[i] && (j + 1 == |log| || log[j] != log[j + 1])
    decreases |log| - i
  {
    if i + 1 < |log| && log[i + 1] == log[i] {
      j := LastSimultaneous(log, i + 1);
    } else {
      j := i;
    }
  }

  /** The window that failure `i` ends, counted in clock time, holds at least the threshold. */
  ghost predicate TripsInClockTime(c: Config, log: Log, i: int) {
    0 <= i < |log| && CountIn(log, log[i] - c.windowSeconds, log[i]) >= c.circuitFailures
  }

  lemma TripIsInClockTime(c: Config, log: Log, now: Time, i: int)
    requires Ordered(log, now) && Trips(c, log, i)
    ensures TripsInClockTime(c, log, i)
  {
    CountInPrefix(log, now, i, log[i] - c.windowSeconds);
  }

  lemma ClockTimeTrip(c: Config, log: Log, now: Time, i: int) returns (j: int)
    requires Ordered(log, now) && TripsInClockTime(c, log, i)
    ensures Trips(c, log, j) && log[j] == log[i]
  {
    j := LastSimultaneous(log, i);
    if j + 1 < |log| {
      OrderedIndex(log, now, j, j + 1);
    }
    CountInPrefix(log, now, j, log[j] - c.windowSeconds);
  }

  /** The circuit is open exactly while some failure, ending a window of clock time with at least
      the threshold of failures, is younger than the cooldown. */
  lemma CircuitInClockTime(c: Config, log: Log, now: Time, t: Time)
    requires Ordered(log, now)
    ensures CircuitHolds(c, log, t) <==>
            exists i :: TripsInClockTime(c, log, i) && t < log[i] + c.cooldownSeconds
  {
    if CircuitHolds(c, log, t) {
      var i :| Trips(c, log, i) && t < log[i] + c.cooldownSeconds;
      TripIsInClockTime(c, log, now, i);
    } else if i :| TripsInClockTime(c, log, i) && t < log[i] + c.cooldownSeconds {
      var j := ClockTimeTrip(c, log, now, i);
    }
  }

  /** An entry is allowed again once its last failure is older than both timers, and not before
      the negative timer ends. */
  lemma SuppressionEnds(c: Config, log: Log, now: Time, t: Time)
    requires c.Valid() && log != [] && Ordered(log, now)
    ensures t < Last(log) + c.negativeSeconds ==> Judge(c, log, t) != Allowed
    ensures t >= Last(log) + c.negativeSeconds && t >= Last(log) + c.cooldownSeconds ==> Judge(c, log, t) == Allowed
  {
    NegativeMeaning(c, log, now, t);
    forall i | 0 <= i < |log| ensures log[i] <= Last(log) {
      OrderedIndex(log, now, i, |log| - 1);
    }
  }

  // ---------- The guard ----------

  /** The four tables of the guard agree with the history on every entry. */
  ghost predicate TablesRefine(
    c: Config, h: History, states: map<string, FailureState>, negative: map<string, Time>, now: Time)
  {
    && states.Keys == h.logs.Keys
    && negative.Keys <= h.logs.Keys
    && forall k :: k in h.logs ==> EntryRefines(c, h.logs[k], states[k], Lookup(negative, k), now)
  }

  lemma TablesRefineLater(
    c: Config, h: History, states: map<string, FailureState>, negative: map<string, Time>, now: Time, t: Time)
    requires TablesRefine(c, h, states, negative, now) && now <= t
    ensures TablesRefine(c, h, states, negative, t)
  {
    forall k | k in h.logs ensures EntryRefines(c, h.logs[k], states[k], Lookup(negative, k), t) {
      EntryRefinesLater(c, h.logs[k], states[k], Lookup(negative, k), now, t);
    }
  }

  lemma FailedTablesRefine(
    c: Config, h: History, states: map<string, FailureState>, negative: map<string, Time>,
    key: string, st: FailureState, t: Time)
    requires TablesRefine(c, h, states, negative, t)
    requires Ordered(h.LogOf(key) + [t], t) && StateRefines(c, h.LogOf(key) + [t], st, t)
    ensures TablesRefine(c, h.Failed(key, t), states[key := st], negative[key := t + c.negativeSeconds], t)
  {
    var states', negative', h' := states[key := st], negative[key := t + c.negativeSeconds], h.Failed(key, t);
    forall k | k in h'.logs ensures EntryRefines(c, h'.logs[k], states'[k], Lookup(negative', k), t) {
      if k != key {
        assert EntryRefines(c, h.logs[k], states[k], Lookup(negative, k), t);
      }
    }
  }

  /** The two stored comparisons of `check`, in the order in which it makes them. */
  function StoredVerdict(st: FailureState, negative: Option<Time>, t: Time): Verdict {
    if st.openUntil > t then CircuitOpen
    else if negative.Some? && negative.value > t then NegativeCached
    else Allowed
  }

  lemma VerdictFromTables(
    c: Config, h: History, states: map<string, FailureState>, negative: map<string, Time>, key: string, t: Time)
    requires c.Valid() && 0.0 <= t && TablesRefine(c, h, states, negative, t)
    ensures key in states <==> key in h.logs
    ensures key !in states ==> key !in negative && Judge(c, h.LogOf(key), t) == Allowed
    ensures key in states ==>
              && StateRefines(c, h.logs[key], states[key], t)
              && Judge(c, h.LogOf(key), t) == StoredVerdict(states[key], Lookup(negative, key), t)
  {
    if key in h.logs {
      VerdictFromState(c, h.logs[key], states[key], Lookup(negative, key), t);
    }
  }

  lemma PrunedTablesRefine(
    c: Config, h: History, states: map<string, FailureState>, negative: map<string, Time>,
    key: string, st: FailureState, t: Time)
    requires TablesRefine(c, h, states, negative, t)
    requires key in states && StateRefines(c, h.LogOf(key), st, t)
    requires key in negative ==> negative[key] <= t
    ensures TablesRefine(c, h, states[key := st], negative - {key}, t)
  {
    var states', negative' := states[key := st], negative - {key};
    forall k | k in h.logs ensures EntryRefines(c, h.logs[k], states'[k], Lookup(negative', k), t) {
      assert EntryRefines(c, h.logs[k], states[k], Lookup(negative, k), t);
    }
  }

  /** A state for an entry without one, as `setdefault` makes it. */
  function StateOf(states: map<string, FailureState>, key: string): FailureState {
    if key in states then states[key] else FailureState([], 0.0)
  }

  lemma StateOfRefines(
    c: Config, h: History, states: map<string, FailureState>, negative: map<string, Time>, key: string, now: Time)
    requires TablesRefine(c, h, states, negative, now) && now >= 0.0
    ensures Ordered(h.LogOf(key), now) && StateRefines(c, h.LogOf(key), StateOf(states, key), now)
  {
    if key in h.logs {
      assert EntryRefines(c, h.logs[key], states[key], Lookup(negative, key), now);
    }
  }

  lemma FailedHistoryValid(h: History, key: string, t: Time)
    requires h.Valid()
    ensures h.Failed(key, t).Valid()
  {
    assert key !in h.logs ==> key !in h.order;
  }

  lemma EvictedTablesRefine(
    c: Config, h: History, states: map<string, FailureState>, negative: map<string, Time>, now: Time)
    requires TablesRefine(c, h, states, negative, now) && h.Valid() && |h.order| > 0
    ensures var oldest, h' := h.order[0], History(h.order[1..], h.logs - {h.order[0]});
            h'.Valid() && TablesRefine(c, h', states - {oldest}, negative - {oldest}, now)
  {
    var oldest, h' := h.order[0], History(h.order[1..], h.logs - {h.order[0]});
    forall k | k in h'.logs
      ensures EntryRefines(c, h'.logs[k], (states - {oldest})[k], Lookup(negative - {oldest}, k), now)
    {
      assert EntryRefines(c, h.logs[k], states[k], Lookup(negative, k), now);
    }
  }

  class ResolverFailureGuard {
    var config: Config
    var negativeUntil: map<string, Time>
    var failureStates: map<string, FailureState>
    var order: seq<string>              // insertion order of failureStates
    ghost var history: History
    ghost var now: Time                 // the latest clock reading

    ghost predicate Valid()
      reads this
    {
      && config.Valid() && now >= 0.0
      && history.order == order && history.Valid() && |order| <= config.maxEntries
      && TablesRefine(config, history, failureStates, negativeUntil, now)
    }

    constructor (config: Config)
      requires config.Valid()
      ensures Valid() && this.config == config && history == EmptyHistory
    {
      this.config := config;
      negativeUntil, failureStates, order := map[], map[], [];
      history, now := EmptyHistory, 0.0;
    }

    /** Replaces the configuration; every history starts afresh.  Invalid limits are refused. */
    method Reconfigure(config: Config) returns (accepted: bool)
      requires Valid()
      modifies this
      ensures Valid() && now == old(now)
      ensures accepted == config.Valid()
      ensures accepted ==> this.config == config && history == EmptyHistory
      ensures !accepted ==> this.config == old(this.config) && history == old(history)
    {
      if !config.Valid() {
        return false;
      }
      this.config := config;
      Clear();
      return true;
    }

    /** The verdict at time `t` is decided by the entry's history alone, and leaves it unchanged. */
    method Check(key: string, t: Time) returns (verdict: Verdict)
      requires Valid() && now <= t
      modifies this
      ensures Valid() && config == old(config) && now == t
      ensures verdict == Judge(config, history.LogOf(key), t)
      ensures history == old(history)
    {
      hide TablesRefine, StateRefines, Judge;
      TablesRefineLater(config, history, failureStates, negativeUntil, now, t);
      VerdictFromTables(config, history, failureStates, negativeUntil, key, t);
      now := t;
      if key in failureStates && failureStates[key].openUntil > t {
        return CircuitOpen;
      }
      if key in negativeUntil && negativeUntil[key] > t {
        return NegativeCached;
      }
      if key in failureStates {
        var pruned := PruneFailures(failureStates[key], t, history.logs[key]);
        PrunedTablesRefine(config, history, failureStates, negativeUntil, key, pruned, t);
        failureStates := failureStates[key := pruned];
      } else {
        assert negativeUntil - {key} == negativeUntil;
      }
      negativeUntil := negativeUntil - {key};
      return Allowed;
    }

    /** Appends a failure to the entry's history, evicting the entry whose history began first
        when there are too many. */
    method RecordFailure(key: string, t: Time)
      requires Valid() && now <= t
      modifies this
      ensures Valid() && config == old(config) && now == t
      ensures history == old(history).Failed(key, t).Evicted(config.maxEntries)
    {
      hide TablesRefine;
      TablesRefineLater(config, history, failureStates, negativeUntil, now, t);
      FailedHistoryValid(history, key, t);
      var st := AppendFailure(key, t);
      order := if key in failureStates then order else order + [key];
      negativeUntil := negativeUntil[key := t + config.negativeSeconds];
      failureStates := failureStates[key := st];
      history, now := history.Failed(key, t), t;
      EvictIfNeeded();
    }

    /** The entry's state with the failure appended, open when it reaches the threshold. */
    method AppendFailure(key: string, t: Time) returns (st: FailureState)
      requires config.Valid() && 0.0 <= t && TablesRefine(config, history, failureStates, negativeUntil, t)
      ensures TablesRefine(config, history.Failed(key, t), failureStates[key := st],
                           negativeUntil[key := t + config.negativeSeconds], t)
    {
      hide TablesRefine, StateRefines;
      ghost var log := history.LogOf(key);
      StateOfRefines(config, history, failureStates, negativeUntil, key, t);
      st := PruneFailures(StateOf(failureStates, key), t, log);
      AppendRefines(config, log, st, t);
      st := FailureState(st.failures + [t],
                         if |st.failures| + 1 >= config.circuitFailures then t + config.cooldownSeconds else st.openUntil);
      FailedTablesRefine(config, history, failureStates, negativeUntil, key, st, t);
    }

    /** Removes the oldest entries, and with them their histories, until the limit is met. */
    method EvictIfNeeded()
      requires config.Valid() && now >= 0.0 && history.order == order && history.Valid()
      requires TablesRefine(config, history, failureStates, negativeUntil, now)
      requires |order| <= config.maxEntries + 1
      modifies `negativeUntil, `failureStates, `order, `history
      ensures Valid() && history == old(history).Evicted(config.maxEntries)
    {
      while |order| > config.maxEntries
        invariant |order| <= config.maxEntries + 1 && history.order == order && history.Valid()
        invariant TablesRefine(config, history, failureStates, negativeUntil, now)
        invariant history == if |order| > config.maxEntries then old(history)
                             else old(history).Evicted(config.maxEntries)
        decreases |order|
      {
        EvictedTablesRefine(config, history, failureStates, negativeUntil, now);
        var oldest := order[0];
        order := order[1..];
        failureStates := failureStates - {oldest};
        negativeUntil := negativeUntil - {oldest};
        history := History(order, history.logs - {oldest});
      }
    }

    method RecordSuccess(key: string)
      requires Valid()
      modifies this
      ensures Valid() && config == old(config) && now == old(now)
      ensures history == old(history).Succeeded(key)
    {
      WithoutKeepsDistinct(order, key);
      negativeUntil := negativeUntil - {key};
      failureStates := failureStates - {key};
      order := Without(order, key);
      history := history.Succeeded(key);
    }

    method Clear()
      requires config.Valid() && now >= 0.0
      modifies `negativeUntil, `failureStates, `order, `history
      ensures Valid() && history == EmptyHistory
    {
      negativeUntil, failureStates, order := map[], map[], [];
      history := EmptyHistory;
    }

    /** Drops the failures that left the window ending at `t`, and a deadline that has passed. */
    method PruneFailures(st: FailureState, t: Time, ghost log: Log) returns (pruned: FailureState)
      requires config.Valid() && 0.0 <= t && StateRefines(config, log, st, t)
      ensures StateRefines(config, log, pruned, t)
      ensures pruned.failures != [] ==> pruned.failures[0] > t - config.windowSeconds
      ensures pruned.openUntil == 0.0 || pruned.openUntil > t
    {
      pruned := st;
      while pruned.failures != [] && pruned.failures[0] <= t - config.windowSeconds
        invariant StateRefines(config, log, pruned, t)
        decreases |pruned.failures|
      {
        DropRefines(config, log, pruned, t);
        pruned := pruned.(failures := pruned.failures[1..]);
      }
      if pruned.openUntil <= t {
        pruned := pruned.(openUntil := 0.0);
      }
    }
  }
}
