/** The queue of syncs requested after an add: enqueues interleave with the awaits of one worker. */
module Scheduler {
  import opened Common

  const QUEUED_SYNC_RETRY_SECONDS := 2

  /** What an accepted enqueue asks for, and what a runner call does. */
  datatype Work = FullSync | ItemSync(torrentId: string)

  /** A call that returned either ran to its end or found another sync holding the lock. */
  datatype Outcome = Awaited | Ran | TurnedAway

  /** A runner call, started when `accepted` requests had been accepted. */
  datatype Call = Call(work: Work, accepted: nat, outcome: Outcome)

  datatype Queue = Queue(
    pending: set<string>, fullRequested: bool, workerRunning: bool,
    job: Option<nat>,                 // the delay of the scheduled worker job, if there is one
    schedulerRunning: bool,
    requests: seq<Work>,              // every accepted request, oldest first
    calls: seq<Call>)                 // every runner call, oldest first

  const EmptyQueue := Queue({}, false, false, None, false, [], [])

  /** What happens between two awaits.  `pick` is the identifier that `set.pop` takes, if it pops. */
  datatype Event =
    | Enqueue(torrentId: Option<string>)
    | Fire(pick: string)
    | Return(completed: bool, pick: string)
    | SetScheduler(running: bool)

  predicate HasWork(q: Queue) {
    q.fullRequested || q.pending != {}
  }

  function WorkOf(torrentId: Option<string>): Work {
    match torrentId
    case None => FullSync
    case Some(id) => ItemSync(id)
  }

  function Enqueued(q: Queue, torrentId: Option<string>): Queue {
    if !q.schedulerRunning then q
    else q.(requests := q.requests + [WorkOf(torrentId)],
            fullRequested := q.fullRequested || torrentId.None?,
            pending := if torrentId.Some? then q.pending + {torrentId.value} else q.pending,
            job := if q.workerRunning then q.job else Some(0))
  }

  function Started(q: Queue, work: Work): Queue {
    q.(calls := q.calls + [Call(work, |q.requests|, Awaited)])
  }

  /** The `finally` block: the worker stops, and work that is left gets a job. */
  function Stopped(q: Queue, delay: nat): Queue {
    q.(workerRunning := false, job := if HasWork(q) then Some(delay) else q.job)
  }

  /** The head of the worker's loop, up to its next await or its end. */
  function Continued(q: Queue, pick: string): Queue {
    if q.fullRequested then Started(q.(fullRequested := false, pending := {}), FullSync)
    else if q.pending != {} then Started(q.(pending := q.pending - {pick}), ItemSync(pick))
    else Stopped(q, 0)
  }

  function Returned(q: Queue, completed: bool): Queue
    requires q.calls != []
  {
    var call := Last(q.calls);
    var q' := q.(calls := Front(q.calls) + [call.(outcome := if completed then Ran else TurnedAway)]);
    if completed then q'
    else match call.work
      case FullSync => q'.(fullRequested := true)
      case ItemSync(id) => q'.(pending := q'.pending + {id})
  }

  predicate Awaiting(q: Queue) {
    q.calls != [] && Last(q.calls).outcome.Awaited?
  }

  predicate Enabled(q: Queue, e: Event) {
    match e
    case Enqueue(_) => true
    case SetScheduler(_) => true
    case Fire(pick) =>
      q.job.Some? && !q.workerRunning && (!q.fullRequested && q.pending != {} ==> pick in q.pending)
    case Return(completed, pick) =>
      q.workerRunning && Awaiting(q) && (completed && !q.fullRequested && q.pending != {} ==> pick in q.pending)
  }

  function Next(q: Queue, e: Event): Queue
    requires Enabled(q, e)
  {
    match e
    case Enqueue(torrentId) => Enqueued(q, torrentId)
    case SetScheduler(running) => q.(schedulerRunning := running)
    case Fire(pick) => Continued(q.(job := None, workerRunning := true), pick)
    case Return(completed, pick) =>
      var q' := Returned(q, completed);
      if completed then Continued(q', pick) else Stopped(q', QUEUED_SYNC_RETRY_SECONDS)
  }

  // ---------- Safety ----------

  /** Call `c` serves request `i`: it started after the request was accepted, does its work, and
      was not turned away. */
  ghost predicate Serves(q: Queue, c: int, i: nat)
    requires i < |q.requests|
  {
    && 0 <= c < |q.calls| && i < q.calls[c].accepted
    && (q.calls[c].work.FullSync? || q.calls[c].work == q.requests[i])
    && q.calls[c].outcome != TurnedAway
  }

  ghost predicate Queued(q: Queue, i: nat)
    requires i < |q.requests|
  {
    q.fullRequested || (q.requests[i].ItemSync? && q.requests[i].torrentId in q.pending)
  }

  ghost predicate NotLost(q: Queue, i: nat)
    requires i < |q.requests|
  {
    Queued(q, i) || exists c :: Serves(q, c, i)
  }

  ghost predicate Inv(q: Queue) {
    && (forall i: nat :: i < |q.requests| ==> NotLost(q, i))
    && (HasWork(q) ==> q.workerRunning || q.job.Some?)
    && (q.workerRunning ==> q.job.None?)
    && (q.workerRunning <==> Awaiting(q))
    && (forall c :: 0 <= c < |q.calls| - 1 ==> q.calls[c].outcome != Awaited)
    && (forall c :: 0 <= c < |q.calls| ==> q.calls[c].accepted <= |q.requests|)
  }

  /** A request that is queued or served in `q` is queued or served in `q'`. */
  lemma StillNotLost(q: Queue, q': Queue, i: nat)
    requires i < |q.requests| && q.requests <= q'.requests && NotLost(q, i)
    requires Queued(q, i) ==> NotLost(q', i)
    requires |q.calls| <= |q'.calls|
    requires forall c :: 0 <= c < |q.calls| && q.calls[c].outcome != TurnedAway ==> q'.calls[c] == q.calls[c]
    ensures NotLost(q', i)
  {
    if !Queued(q, i) {
      var c :| Serves(q, c, i);
      assert Serves(q', c, i);
    }
  }

  lemma ContinuedKeepsInv(q: Queue, pick: string)
    requires forall i: nat :: i < |q.requests| ==> NotLost(q, i)
    requires q.workerRunning && q.job.None?
    requires forall c :: 0 <= c < |q.calls| ==> q.calls[c].outcome != Awaited && q.calls[c].accepted <= |q.requests|
    requires !q.fullRequested && q.pending != {} ==> pick in q.pending
    ensures Inv(Continued(q, pick))
  {
    var q' := Continued(q, pick);
    var last := |q.calls|;
    forall i: nat | i < |q.requests| ensures NotLost(q', i) {
      if HasWork(q) && (q.fullRequested || q.requests[i] == ItemSync(pick)) {
        assert Serves(q', last, i);
      }
      StillNotLost(q, q', i);
    }
  }

  /** Marking the current call turned away puts back exactly the work that it was doing. */
  lemma ReturnedKeepsRequests(q: Queue, completed: bool)
    requires Inv(q) && Awaiting(q)
    ensures var q' := Returned(q, completed); forall i: nat :: i < |q'.requests| ==> NotLost(q', i)
  {
    var q', last := Returned(q, completed), |q.calls| - 1;
    forall i: nat | i < |q'.requests| ensures NotLost(q', i) {
      assert NotLost(q, i);
      if Queued(q, i) {
        assert Queued(q', i);
      } else {
        var c :| Serves(q, c, i);
        if c < last {
          assert q'.calls[c] == q.calls[c];
        }
        assert Serves(q', c, i) || Queued(q', i);
      }
    }
  }

  lemma EnqueuedKeepsInv(q: Queue, torrentId: Option<string>)
    requires Inv(q)
    ensures Inv(Enqueued(q, torrentId))
  {
    var q' := Enqueued(q, torrentId);
    forall i: nat | i < |q'.requests| ensures NotLost(q', i) {
      if i < |q.requests| {
        StillNotLost(q, q', i);
      } else {
        assert Queued(q', i);
      }
    }
  }

  lemma NextKeepsInv(q: Queue, e: Event)
    requires Inv(q) && Enabled(q, e)
    ensures Inv(Next(q, e))
  {
    match e
    case Enqueue(torrentId) => EnqueuedKeepsInv(q, torrentId);
    case SetScheduler(running) =>
      forall i: nat | i < |q.requests| ensures NotLost(Next(q, e), i) {
        StillNotLost(q, Next(q, e), i);
      }
    case Fire(pick) =>
      var q' := q.(job := None, workerRunning := true);
      forall i: nat | i < |q.requests| ensures NotLost(q', i) {
        StillNotLost(q, q', i);
      }
      ContinuedKeepsInv(q', pick);
    case Return(completed, pick) =>
      ReturnedKeepsRequests(q, completed);
      var q' := Returned(q, completed);
      if completed {
        ContinuedKeepsInv(q', pick);
      } else {
        forall i: nat | i < |q.requests| ensures NotLost(Next(q, e), i) {
          StillNotLost(q', Next(q, e), i);
        }
      }
  }

  // ---------- What is called next ----------

  /** At the head of its loop the worker starts the full sync, if one is asked for, and forgets the items that this covers;
      otherwise the item picked, which alone is taken out; and stops if there is neither. */
  lemma NextCall(q: Queue, e: Event)
    requires Enabled(q, e) && (e.Fire? || (e.Return? && e.completed))
    ensures var q' := Next(q, e);
            && q'.requests == q.requests && q'.schedulerRunning == q.schedulerRunning
            && (HasWork(q) ==>
                  && |q'.calls| == |q.calls| + 1 && q'.workerRunning && q'.job == (if e.Fire? then None else q.job)
                  && Last(q'.calls).accepted == |q.requests| && Last(q'.calls).outcome == Awaited)
            && (q.fullRequested ==> Last(q'.calls).work == FullSync && !q'.fullRequested && q'.pending == {})
            && (!q.fullRequested && q.pending != {} ==>
                  && Last(q'.calls).work == ItemSync(e.pick) && e.pick in q.pending
                  && q'.pending == q.pending - {e.pick} && !q'.fullRequested)
            && (!HasWork(q) ==> |q'.calls| == |q.calls| && !q'.workerRunning && !HasWork(q'))
  {
  }

  /** A call that is turned away ends the worker; its work is put back, and all of it is taken up after two seconds. */
  lemma TurnedAwayWaits(q: Queue, pick: string)
    requires Enabled(q, Return(false, pick))
    ensures var q', work := Next(q, Return(false, pick)), Last(q.calls).work;
            && !q'.workerRunning && q'.job == Some(2) && q'.requests == q.requests && |q'.calls| == |q.calls|
            && q'.fullRequested == (q.fullRequested || work == FullSync)
            && q'.pending == q.pending + (if work.ItemSync? then {work.torrentId} else {})
  {
  }

  /** A request that is accepted is taken up at once, unless the worker is running and will come to it. */
  lemma EnqueuedIsTakenUp(q: Queue, torrentId: Option<string>)
    ensures var q' := Next(q, Enqueue(torrentId));
            && (!q.schedulerRunning ==> q' == q)
            && (q.schedulerRunning ==>
                  && q'.job == (if q.workerRunning then q.job else Some(0)) && q'.workerRunning == q.workerRunning
                  && (torrentId.None? ==> q'.fullRequested && q'.pending == q.pending)
                  && (torrentId.Some? ==> q'.fullRequested == q.fullRequested && q'.pending == q.pending + {torrentId.value}))
  {
  }

  /** The states of a run from the empty queue, one after each event. */
  ghost predicate IsRun(states: seq<Queue>, events: seq<Event>) {
    && |states| == |events| + 1
    && states[0] == EmptyQueue
    && forall k :: 0 <= k < |events| ==> Enabled(states[k], events[k]) && states[k + 1] == Next(states[k], events[k])
  }

  lemma {:induction false} RunKeepsInv(states: seq<Queue>, events: seq<Event>, k: nat)
    requires IsRun(states, events) && k < |states|
    ensures Inv(states[k])
  {
    if k > 0 {
      RunKeepsInv(states, events, k - 1);
      NextKeepsInv(states[k - 1], events[k - 1]);
    }
  }

  /** Under every interleaving no accepted request is lost: at each moment it is queued with a worker
      or a job to take it up, or a call that started after it is doing or has done its work. */
  lemma NoRequestIsLost(states: seq<Queue>, events: seq<Event>, k: nat, i: nat)
    requires IsRun(states, events) && k < |states| && i < |states[k].requests|
    ensures var q := states[k];
            || (Queued(q, i) && (q.workerRunning || q.job.Some?))
            || exists c :: Serves(q, c, i) && (q.calls[c].outcome == Ran || (q.workerRunning && c == |q.calls| - 1))
  {
    RunKeepsInv(states, events, k);
    var q := states[k];
    assert NotLost(q, i);
    if !Queued(q, i) {
      var c :| Serves(q, c, i);
      assert q.calls[c].outcome.Awaited? ==> c == |q.calls| - 1;
    }
  }

  /** Whenever nothing is queued and the worker is idle, every request accepted so far was served by
      a call that started after it and ran to its end. */
  lemma QuietMeansServed(states: seq<Queue>, events: seq<Event>, k: nat, i: nat)
    requires IsRun(states, events) && k < |states| && i < |states[k].requests|
    requires !states[k].workerRunning && states[k].job.None?
    ensures exists c :: Serves(states[k], c, i) && states[k].calls[c].outcome == Ran
  {
    NoRequestIsLost(states, events, k, i);
  }

  // ---------- Liveness ----------

  /** How many more runner calls the work at hand can take. */
  function Backlog(q: Queue): nat {
    if q.fullRequested then 1 else |q.pending|
  }

  lemma CompletionDecreasesBacklog(q: Queue, pick: string)
    requires Inv(q) && Enabled(q, Return(true, pick))
    ensures var q' := Next(q, Return(true, pick));
            if HasWork(q) then q'.workerRunning && Backlog(q') < Backlog(q)
            else !q'.workerRunning && q'.job.None? && !HasWork(q')
  {
  }

  /** While nothing new is enqueued and runs complete, the worker needs at most one call more than
      the backlog, and then stops with everything served. */
  lemma {:induction false} QueueDrains(q: Queue, states: seq<Queue>, picks: seq<string>)
    requires Inv(q) && q.workerRunning
    requires |states| == |picks| + 1 && states[0] == q
    requires forall k :: 0 <= k < |picks| ==>
               Enabled(states[k], Return(true, picks[k])) && states[k + 1] == Next(states[k], Return(true, picks[k]))
    ensures |picks| <= Backlog(q) + 1
    ensures !Last(states).workerRunning ==> !HasWork(Last(states)) && Last(states).job.None?
    ensures |picks| == Backlog(q) + 1 ==> !Last(states).workerRunning
    decreases |picks|
  {
    if picks != [] {
      assert |picks| > 1 ==> Enabled(states[1], Return(true, picks[1]));
      CompletionDecreasesBacklog(q, picks[0]);
      NextKeepsInv(q, Return(true, picks[0]));
      if HasWork(q) {
        QueueDrains(states[1], states[1..], picks[1..]);
      }
    }
  }

  // ---------- The scheduler ----------

  /** The coroutine `run_queued_syncs` is cut at its awaits: it starts when its job fires, and goes on
      whenever the runner call that it awaits returns. */
  class AutoSyncScheduler {
    var pendingTorrentIds: set<string>
    var fullSyncRequested: bool
    var queuedWorkerRunning: bool
    var queuedJob: Option<nat>
    var schedulerRunning: bool
    var awaited: Work                    // the suspended worker's place: the call that it awaits
    ghost var requests: seq<Work>
    ghost var calls: seq<Call>

    ghost function State(): Queue
      reads this
    {
      Queue(pendingTorrentIds, fullSyncRequested, queuedWorkerRunning, queuedJob, schedulerRunning, requests, calls)
    }

    ghost predicate Valid()
      reads this
    {
      Inv(State()) && (queuedWorkerRunning ==> Last(calls).work == awaited)
    }

    constructor ()
      ensures State() == EmptyQueue && Valid()
    {
      pendingTorrentIds, fullSyncRequested, queuedWorkerRunning := {}, false, false;
      queuedJob, schedulerRunning, awaited := None, false, FullSync;
      requests, calls := [], [];
    }

    method EnqueuePostAddSync(torrentId: Option<string>) returns (accepted: bool)
      requires Valid()
      modifies this
      ensures Valid() && State() == Next(old(State()), Enqueue(torrentId))
      ensures accepted == old(schedulerRunning)
      ensures requests == if accepted then old(requests) + [WorkOf(torrentId)] else old(requests)
    {
      NextKeepsInv(State(), Enqueue(torrentId));
      if !schedulerRunning {
        return false;
      }
      requests := requests + [WorkOf(torrentId)];
      match torrentId {
        case None => fullSyncRequested := true;
        case Some(id) => pendingTorrentIds := pendingTorrentIds + {id};
      }
      if !queuedWorkerRunning {
        ScheduleQueuedSync(0);
      }
      return true;
    }

    /** The job fires: the worker runs up to its first await, or to its end. */
    method RunQueuedSyncs() returns (ghost pick: string)
      requires Valid() && queuedJob.Some? && !queuedWorkerRunning
      modifies this
      ensures Enabled(old(State()), Fire(pick)) && State() == Next(old(State()), Fire(pick))
      ensures Valid()
    {
      ghost var before := State();
      queuedJob := None;
      queuedWorkerRunning := true;
      pick := Continue();
      NextKeepsInv(before, Fire(pick));
    }

    /** The awaited runner call returns: work turned away is put back for a retry, and otherwise the
        worker goes on with its loop. */
    method ResumeQueuedSyncs(completed: bool) returns (ghost pick: string)
      requires Valid() && queuedWorkerRunning
      modifies this
      ensures Enabled(old(State()), Return(completed, pick)) && State() == Next(old(State()), Return(completed, pick))
      ensures Valid()
    {
      ghost var before := State();
      calls := Front(calls) + [Last(calls).(outcome := if completed then Ran else TurnedAway)];
      pick := "";
      if completed {
        pick := Continue();
      } else {
        match awaited {
          case FullSync => fullSyncRequested := true;
          case ItemSync(id) => pendingTorrentIds := pendingTorrentIds + {id};
        }
        Finish(QUEUED_SYNC_RETRY_SECONDS);
      }
      NextKeepsInv(before, Return(completed, pick));
    }

    method Continue() returns (ghost pick: string)
      modifies this
      ensures !old(fullSyncRequested) && old(pendingTorrentIds) != {} ==> pick in old(pendingTorrentIds)
      ensures State() == Continued(old(State()), pick)
      ensures queuedWorkerRunning && HasWork(old(State())) ==> Last(calls).work == awaited
    {
      pick := "";
      if fullSyncRequested {
        fullSyncRequested := false;
        pendingTorrentIds := {};
        awaited := FullSync;
        calls := calls + [Call(FullSync, |requests|, Awaited)];
      } else if pendingTorrentIds != {} {
        var torrentId :| torrentId in pendingTorrentIds;
        pick := torrentId;
        pendingTorrentIds := pendingTorrentIds - {torrentId};
        awaited := ItemSync(torrentId);
        calls := calls + [Call(ItemSync(torrentId), |requests|, Awaited)];
      } else {
        Finish(0);
      }
    }

    method Finish(retryDelay: nat)
      modifies this
      ensures State() == Stopped(old(State()), retryDelay)
    {
      queuedWorkerRunning := false;
      if fullSyncRequested || pendingTorrentIds != {} {
        ScheduleQueuedSync(retryDelay);
      }
    }

    method ScheduleQueuedSync(delaySeconds: nat)
      modifies `queuedJob
      ensures queuedJob == Some(delaySeconds)
    {
      queuedJob := Some(delaySeconds);
    }
  }
}
