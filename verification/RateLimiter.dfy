/** The rolling budget of TorBox requests, over whole runs and across changes of the budget. */
module RateLimiter {
  import opened Common
  import opened Clock

  const RATE_WINDOW_SECONDS: Time := 60.0

  /** Every admission found no more than its budget in the window that it ends, itself included. */
  ghost predicate WithinBudget(times: seq<Time>, budgets: seq<int>) {
    && |times| == |budgets|
    && (times != [] ==>
          && CountAfter(times, Last(times) - RATE_WINDOW_SECONDS) <= Last(budgets)
          && WithinBudget(Front(times), Front(budgets)))
  }

  /** Admission `i` is the last one at or before `t`. */
  predicate LastAdmission(times: seq<Time>, t: Time, i: int) {
    0 <= i < |times| && times[i] <= t && (i + 1 < |times| ==> t < times[i + 1])
  }

  /** In every window of clock time the admissions number at most the budget in force at the last of them. */
  lemma {:induction false} EveryWindowWithinBudget(times: seq<Time>, budgets: seq<int>, now: Time, t: Time)
    requires Ordered(times, now) && WithinBudget(times, budgets)
    ensures forall i :: LastAdmission(times, t, i) ==> CountIn(times, t - 60.0, t) <= budgets[i]
    ensures (forall i :: !LastAdmission(times, t, i)) ==> CountIn(times, t - 60.0, t) == 0
  {
    if times != [] {
      var n := |times| - 1;
      if times[n] <= t {
        OrderedLater(times, Last(times), t);
        CountInAll(times, t, t - RATE_WINDOW_SECONDS);
        CountAfterAntitone(times, times[n] - RATE_WINDOW_SECONDS, t - RATE_WINDOW_SECONDS);
        assert LastAdmission(times, t, n);
        forall i | LastAdmission(times, t, i) ensures i == n {
          OrderedIndex(times, now, i, n);
          if i < n {
            OrderedIndex(times, now, i + 1, n);
          }
        }
      } else {
        EveryWindowWithinBudget(Front(times), Front(budgets), Last(times), t);
        forall i | 0 <= i < n ensures LastAdmission(times, t, i) == LastAdmission(Front(times), t, i) {
        }
      }
    }
  }

  /** In every window that is still to come the deque counts what the whole log counts. */
  ghost predicate DequeRefines(times: seq<Time>, deque: seq<Time>, now: Time) {
    && Ordered(deque, now)
    && forall cutoff {:trigger CountAfter(times, cutoff)} {:trigger CountAfter(deque, cutoff)} ::
         cutoff >= now - RATE_WINDOW_SECONDS ==> CountAfter(deque, cutoff) == CountAfter(times, cutoff)
  }

  lemma DropRefines(times: seq<Time>, deque: seq<Time>, now: Time)
    requires DequeRefines(times, deque, now) && deque != [] && deque[0] <= now - RATE_WINDOW_SECONDS
    ensures DequeRefines(times, deque[1..], now)
  {
    OrderedTail(deque, now);
    forall cutoff | cutoff >= now - RATE_WINDOW_SECONDS
      ensures CountAfter(deque[1..], cutoff) == CountAfter(times, cutoff)
    {
      CountAfterDropFirst(deque, cutoff);
    }
  }

  lemma AdmitRefines(times: seq<Time>, deque: seq<Time>, t: Time)
    requires DequeRefines(times, deque, t) && 0.0 <= t
    ensures DequeRefines(times + [t], deque + [t], t)
  {
    OrderedAppend(deque, t);
    forall cutoff | cutoff >= t - RATE_WINDOW_SECONDS
      ensures CountAfter(deque + [t], cutoff) == CountAfter(times + [t], cutoff)
    {
      CountAfterAppend(deque, t, cutoff);
      CountAfterAppend(times, t, cutoff);
      assert CountAfter(times, cutoff) == CountAfter(deque, cutoff);
    }
  }

  lemma AdmitWithinBudget(times: seq<Time>, budgets: seq<int>, t: Time, budget: int)
    requires WithinBudget(times, budgets)
    requires CountAfter(times, t - RATE_WINDOW_SECONDS) < budget
    ensures WithinBudget(times + [t], budgets + [budget])
  {
    assert Front(times + [t]) == times && Front(budgets + [budget]) == budgets;
  }

  /** How many admissions still weigh on a request made at `t`. */
  function Load(times: seq<Time>, t: Time): nat {
    CountAfter(times, t - RATE_WINDOW_SECONDS)
  }

  /** The oldest recorded call fixes the wait: the load is constant until the call leaves the
      window, and drops at that moment. */
  lemma WaitIsTight(times: seq<Time>, deque: seq<Time>, t: Time)
    requires DequeRefines(times, deque, t) && deque != [] && deque[0] > t - RATE_WINDOW_SECONDS
    ensures Load(times, t) == |deque|
    ensures forall t' :: t <= t' < deque[0] + RATE_WINDOW_SECONDS ==> Load(times, t') == |deque|
    ensures Load(times, deque[0] + RATE_WINDOW_SECONDS) < |deque|
  {
    CountAfterAll(deque, t, t - RATE_WINDOW_SECONDS);
    forall t' | t <= t' < deque[0] + RATE_WINDOW_SECONDS ensures Load(times, t') == |deque| {
      CountAfterAll(deque, t, t' - RATE_WINDOW_SECONDS);
      assert CountAfter(times, t' - RATE_WINDOW_SECONDS) == CountAfter(deque, t' - RATE_WINDOW_SECONDS);
    }
    var free := deque[0];
    CountAfterDropFirst(deque, free);
    CountAfterBound(deque[1..], free);
    assert CountAfter(times, free) == CountAfter(deque, free);
    assert deque[0] + RATE_WINDOW_SECONDS - RATE_WINDOW_SECONDS == free;
  }

  class TorBoxRequestCoordinator {
    var requestsPerMinute: int
    var admittedCalls: seq<Time>
    ghost var times: seq<Time>           // every admission so far, oldest first
    ghost var budgets: seq<int>          // the budget in force at each of them
    ghost var now: Time                  // the latest clock reading

    ghost predicate Valid()
      reads this
    {
      && requestsPerMinute > 0 && now >= 0.0
      && Ordered(times, now) && WithinBudget(times, budgets)
      && DequeRefines(times, admittedCalls, now)
    }

    constructor (requestsPerMinute: int)
      requires requestsPerMinute > 0
      ensures Valid() && this.requestsPerMinute == requestsPerMinute && times == []
    {
      this.requestsPerMinute := requestsPerMinute;
      admittedCalls := [];
      times, budgets, now := [], [], 0.0;
    }

    /** A budget that is not positive is refused; past admissions keep counting under a new one. */
    method Reconfigure(requestsPerMinute: int) returns (accepted: bool)
      requires Valid()
      modifies `requestsPerMinute
      ensures Valid() && accepted == (requestsPerMinute > 0)
      ensures this.requestsPerMinute == if accepted then requestsPerMinute else old(this.requestsPerMinute)
    {
      if requestsPerMinute <= 0 {
        return false;
      }
      this.requestsPerMinute := requestsPerMinute;
      return true;
    }

    /** Admits exactly when the load is below the budget.  Otherwise the wait is positive, no moment
        before its end would admit, and at its end at least one slot is free. */
    method ReserveOrWait(t: Time) returns (wait: Option<Time>)
      requires Valid() && now <= t
      modifies `admittedCalls, `times, `budgets, `now
      ensures Valid() && now == t
      ensures wait.None? <==> Load(old(times), t) < requestsPerMinute
      ensures wait.None? ==> times == old(times) + [t] && budgets == old(budgets) + [requestsPerMinute]
      ensures wait.Some? ==> times == old(times) && budgets == old(budgets) && wait.value > 0.0
      ensures wait.Some? ==> forall t' :: t <= t' < t + wait.value ==> Load(times, t') >= requestsPerMinute
      ensures wait.Some? ==> Load(times, t + wait.value) < Load(times, t)
    {
      hide DequeRefines, WithinBudget, CountAfter, Ordered;
      Later(t);
      now := t;
      while admittedCalls != [] && admittedCalls[0] <= t - RATE_WINDOW_SECONDS
        invariant DequeRefines(times, admittedCalls, t)
        modifies `admittedCalls
        decreases |admittedCalls|
      {
        DropRefines(times, admittedCalls, t);
        admittedCalls := admittedCalls[1..];
      }
      DequeLoad(times, admittedCalls, t);
      if |admittedCalls| < requestsPerMinute {
        AdmitRefines(times, admittedCalls, t);
        AdmitWithinBudget(times, budgets, t, requestsPerMinute);
        OrderedAppend(times, t);
        admittedCalls := admittedCalls + [t];
        times, budgets := times + [t], budgets + [requestsPerMinute];
        return None;
      }
      WaitIsTight(times, admittedCalls, t);
      var remaining := admittedCalls[0] + RATE_WINDOW_SECONDS - t;
      assert t + remaining == admittedCalls[0] + RATE_WINDOW_SECONDS;
      return Some(if remaining > 0.0 then remaining else 0.0);
    }

    lemma Later(t: Time)
      requires Valid() && now <= t
      ensures Ordered(times, t) && DequeRefines(times, admittedCalls, t)
    {
    }

    /** A lone caller whose sleeps last as long as asked is admitted at the earliest moment at which
        the load is below the budget. */
    method Acquire(t: Time) returns (at: Time)
      requires Valid() && now <= t
      modifies `admittedCalls, `times, `budgets, `now
      ensures Valid() && now == at && t <= at
      ensures Load(old(times), at) < requestsPerMinute && times == old(times) + [at]
      ensures forall t' :: t <= t' < at ==> Load(old(times), t') >= requestsPerMinute
    {
      at := t;
      var wait := ReserveOrWait(at);
      while wait.Some?
        invariant Valid() && now == at && t <= at
        invariant wait.Some? ==> times == old(times) && wait.value > 0.0
                                 && Load(times, at + wait.value) < Load(times, at)
                                 && forall t' :: at <= t' < at + wait.value ==> Load(times, t') >= requestsPerMinute
        invariant wait.None? ==> Load(old(times), at) < requestsPerMinute && times == old(times) + [at]
        invariant forall t' :: t <= t' < at ==> Load(old(times), t') >= requestsPerMinute
        decreases wait.Some?, Load(old(times), at)
      {
        at := at + wait.value;
        wait := ReserveOrWait(at);
      }
    }
  }

  lemma DequeLoad(times: seq<Time>, deque: seq<Time>, t: Time)
    requires DequeRefines(times, deque, t)
    requires deque != [] ==> deque[0] > t - RATE_WINDOW_SECONDS
    ensures Load(times, t) == |deque|
  {
    CountAfterAll(deque, t, t - RATE_WINDOW_SECONDS);
    assert CountAfter(times, t - RATE_WINDOW_SECONDS) == CountAfter(deque, t - RATE_WINDOW_SECONDS);
  }
}
