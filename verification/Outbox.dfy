// The notification outbox of workers/notification_worker.py: polling, delivery, Celery
// retries and crashes, over any number of workers.
module Outbox {
  import opened Decimal
  import opened Results

  datatype Status = Pending | Sent | Failed | Suppressed

  /** A row of notification_outbox. Times are in seconds. Its id is its place in the table. */
  datatype Row = Row(created: int, status: Status, retryCount: nat, maxRetries: nat, nextRetryAt: Option<int>,
                     sentAt: Option<int>, reason: Option<string>)

  /** A queued deliver_notification task: the row's id and Celery's retry counter. */
  datatype Job = Job(id: nat, retries: nat)

  const BATCH: nat := 100
  const TASK_MAX_RETRIES: nat := 3

  function Backoff(n: nat): nat {
    if n == 0 then 60 else if n == 1 then 120 else if n == 2 then 240 else 480
  }

  // ---- one delivery ----

  datatype Verdict = NotFound | AlreadySent | IsSuppressed | Exhausted | Attempt

  /** The guards of _deliver_notification_async, in order. next_retry_at is not among them. */
  function Decide(rows: seq<Row>, id: nat): Verdict {
    if id >= |rows| then NotFound
    else if rows[id].status == Sent then AlreadySent
    else if rows[id].status == Suppressed then IsSuppressed
    else if rows[id].retryCount >= rows[id].maxRetries then Exhausted
    else Attempt
  }

  function ExhaustedText(max: nat): string { "Max retries (" + Dec(max) + ") exhausted" }

  function AfterExhausted(r: Row): Row {
    r.(status := Failed, reason := Some(ExhaustedText(r.maxRetries)))
  }

  function AfterSuccess(r: Row, now: int): Row { r.(status := Sent, sentAt := Some(now), reason := None) }

  function AfterFailure(r: Row, why: string, now: int): Row {
    r.(retryCount := r.retryCount + 1,
       reason := Some(if |why| <= 500 then why else why[..500]),
       nextRetryAt := Some(now + Backoff(r.retryCount + 1)),
       status := if r.retryCount + 1 >= r.maxRetries then Failed else r.status)
  }

  /** What the channel does with a dispatch. */
  datatype Response = Accepted | Refused(why: string)

  function AfterResponse(r: Row, response: Response, now: int): Row {
    match response
    case Accepted => AfterSuccess(r, now)
    case Refused(why) => AfterFailure(r, why, now)
  }

  /** self.retry puts the task back after a refused dispatch, until its counter is used up. */
  function Requeued(queue: multiset<Job>, job: Job, response: Response): multiset<Job> {
    if response.Refused? && job.retries < TASK_MAX_RETRIES
    then queue + multiset{Job(job.id, job.retries + 1)}
    else queue
  }

  /** The table and the queue after a whole delivery task. */
  function RowsAfter(rows: seq<Row>, id: nat, response: Response, now: int): seq<Row> {
    match Decide(rows, id)
    case Exhausted => rows[id := AfterExhausted(rows[id])]
    case Attempt => rows[id := AfterResponse(rows[id], response, now)]
    case _ => rows
  }

  function QueueAfter(rows: seq<Row>, queue: multiset<Job>, job: Job, response: Response): multiset<Job> {
    if Decide(rows, job.id).Attempt? then Requeued(queue - multiset{job}, job, response) else queue - multiset{job}
  }

  function ResultOf(verdict: Verdict, response: Response): Result {
    match verdict
    case NotFound => ResultNotFound
    case AlreadySent => ResultAlreadySent
    case IsSuppressed => ResultSuppressed
    case Exhausted => ResultMaxRetries
    case Attempt => if response.Accepted? then ResultSent else ResultRaised(response.why)
  }

  // ---- polling ----

  predicate Due(r: Row, now: int) {
    r.status == Pending && (r.nextRetryAt.None? || r.nextRetryAt.value <= now)
  }

  /** What the poll query may return: due rows that nobody holds, oldest first, all of them
      or the BATCH oldest. */
  ghost predicate IsPoll(rows: seq<Row>, locked: set<nat>, now: int, picks: seq<nat>) {
    && |picks| <= BATCH
    && (forall k | 0 <= k < |picks| :: picks[k] < |rows| && picks[k] !in locked && Due(rows[picks[k]], now))
    && (forall i, k | 0 <= i < k < |picks| ::
          picks[i] != picks[k] && rows[picks[i]].created <= rows[picks[k]].created)
    && (forall id: nat, k | id < |rows| && id !in locked && Due(rows[id], now) && id !in picks && 0 <= k < |picks| ::
          rows[picks[k]].created <= rows[id].created)
    && (|picks| < BATCH ==> forall id: nat | id < |rows| && id !in locked && Due(rows[id], now) :: id in picks)
  }

  /** What a refused dispatch leaves for the next polls: a row that is FAILED exactly when its
      retries are used up, and otherwise due again after two, four, and from then on eight
      minutes. The first delay of the table, one minute, never gets into next_retry_at. */
  lemma RefusalMeans(r: Row, why: string, now: int, later: int)
    requires r.status == Pending && r.retryCount < r.maxRetries
    ensures var t := AfterResponse(r, Refused(why), now);
            var delay := if r.retryCount == 0 then 120 else if r.retryCount == 1 then 240 else 480;
            && t.retryCount == r.retryCount + 1 <= t.maxRetries == r.maxRetries
            && (t.status == Failed <==> t.retryCount == t.maxRetries) && (t.status == Pending || t.status == Failed)
            && t.sentAt == r.sentAt && (Due(t, later) <==> t.retryCount < t.maxRetries && later >= now + delay)
            && t.reason.Some? && t.reason.value <= why && (|why| <= 500 ==> t.reason == Some(why))
            && (|why| > 500 ==> |t.reason.value| == 500)
  {}

  /** A row with no retries left is given up without a dispatch. */
  lemma ExhaustedMeans(rows: seq<Row>, id: nat, response: Response, now: int)
    requires id < |rows| && rows[id].status == Pending && rows[id].retryCount >= rows[id].maxRetries == 3
    ensures var after := RowsAfter(rows, id, response, now);
            && |after| == |rows| && (forall k | 0 <= k < |rows| && k != id :: after[k] == rows[k])
            && after[id] == rows[id].(status := Failed, reason := Some("Max retries (3) exhausted"))
  {
    assert Dec(3) == ['3'];
    assert "Max retries (" + ['3'] + ") exhausted" == "Max retries (3) exhausted";
  }

  function Enqueued(picks: seq<nat>): multiset<Job> {
    if picks == [] then multiset{}
    else Enqueued(picks[..|picks| - 1]) + multiset{Job(picks[|picks| - 1], 0)}
  }

  /** A poll queues one fresh task per row it returned, and nothing else. */
  lemma {:induction false} EnqueuedHolds(picks: seq<nat>)
    ensures |Enqueued(picks)| == |picks|
    ensures forall job: Job :: Enqueued(picks)[job] == if job.retries == 0 then multiset(picks)[job.id] else 0
  {
    if picks != [] {
      EnqueuedHolds(picks[..|picks| - 1]);
      assert picks == picks[..|picks| - 1] + [picks[|picks| - 1]];
    }
  }

  // ---- the worker, task by task ----

  datatype Result = ResultNotFound | ResultAlreadySent | ResultSuppressed | ResultMaxRetries | ResultSent
                  | ResultRaised(why: string)

  lemma QueueAfterResult(rows: seq<Row>, queue: multiset<Job>, job: Job, response: Response)
    ensures QueueAfter(rows, queue, job, response)
            == if ResultOf(Decide(rows, job.id), response).ResultRaised? && job.retries < TASK_MAX_RETRIES
               then queue - multiset{job} + multiset{Job(job.id, job.retries + 1)}
               else queue - multiset{job}
  {
    hide Decide;
  }

  /** What a delivery returns tells what it found or did. */
  lemma ResultTells(rows: seq<Row>, id: nat, response: Response, now: int)
    ensures var r := ResultOf(Decide(rows, id), response);
            && (r == ResultNotFound <==> id >= |rows|)
            && (id < |rows| ==>
                  var before, after := rows[id], RowsAfter(rows, id, response, now)[id];
                  && (r == ResultAlreadySent <==> before.status == Sent)
                  && (r == ResultSuppressed <==> before.status == Suppressed)
                  && (r == ResultSent <==> before.status != Sent && after.status == Sent)
                  && (r.ResultRaised? <==> after.retryCount == before.retryCount + 1)
                  && (r.ResultRaised? ==> response == Refused(r.why))
                  && (r == ResultMaxRetries <==>
                        before.status in {Pending, Failed} && before.retryCount >= before.maxRetries))
  {
    hide ExhaustedText, Backoff;
  }

  class Worker {
    var rows: seq<Row>
    var queue: multiset<Job>

    constructor ()
      ensures rows == [] && queue == multiset{}
    {
      rows, queue := [], multiset{};
    }

    /** _poll_outbox_async, with the rows the query returned. No row changes. */
    method PollOutbox(now: int, picks: seq<nat>)
      requires IsPoll(rows, {}, now, picks)
      modifies this`queue
      ensures queue == old(queue) + Enqueued(picks)
    {
      hide IsPoll;
      for i := 0 to |picks|
        invariant queue == old(queue) + Enqueued(picks[..i])
      {
        assert picks[..i + 1][..i] == picks[..i];
        queue := queue + multiset{Job(picks[i], 0)};
      }
      assert picks[..|picks|] == picks;
    }

    /** _deliver_notification_async, with nothing going wrong but the channel itself. */
    method DeliverRow(id: nat, response: Response, now: int) returns (r: Result)
      modifies this`rows
      ensures rows == RowsAfter(old(rows), id, response, now)
      ensures r == ResultOf(Decide(old(rows), id), response)
    {
      hide ExhaustedText, AfterFailure, AfterSuccess;
      if id >= |rows| { return ResultNotFound; }
      var row := rows[id];
      if row.status == Sent { return ResultAlreadySent; }
      if row.status == Suppressed { return ResultSuppressed; }
      if row.retryCount >= row.maxRetries {
        rows := rows[id := row.(status := Failed, reason := Some(ExhaustedText(row.maxRetries)))];
        return ResultMaxRetries;
      }
      if response.Accepted? {
        row := RecordSuccess(row, now);
        rows := rows[id := row];
        return ResultSent;
      }
      row := RecordFailure(row, response.why, now);
      rows := rows[id := row];
      return ResultRaised(response.why);
    }

    /** deliver_notification: the task leaves the queue, and self.retry puts it back with a
        higher counter when the delivery raised. */
    method DeliverNotification(job: Job, response: Response, now: int) returns (r: Result)
      requires job in queue
      modifies this
      ensures rows == RowsAfter(old(rows), job.id, response, now)
      ensures queue == QueueAfter(old(rows), old(queue), job, response)
      ensures r == ResultOf(Decide(old(rows), job.id), response)
    {
      hide RowsAfter, Decide, QueueAfter, ResultOf;
      QueueAfterResult(rows, queue, job, response);
      queue := queue - multiset{job};
      r := DeliverRow(job.id, response, now);
      if r.ResultRaised? && job.retries < TASK_MAX_RETRIES {
        queue := queue + multiset{Job(job.id, job.retries + 1)};
      }
    }
  }

  method RecordSuccess(row: Row, now: int) returns (r: Row)
    ensures r == AfterSuccess(row, now)
  {
    r := row.(status := Sent);
    r := r.(sentAt := Some(now));
    r := r.(reason := None);
  }

  /** The except branch: count the attempt, keep the error, set the retry stamp. */
  method RecordFailure(row: Row, why: string, now: int) returns (r: Row)
    ensures r == AfterFailure(row, why, now)
  {
    r := row.(retryCount := row.retryCount + 1);
    r := r.(reason := Some(if |why| <= 500 then why else why[..500]));
    var backoff := Backoff(r.retryCount);
    r := r.(nextRetryAt := Some(now + backoff));
    if r.retryCount >= r.maxRetries { r := r.(status := Failed); }
  }

  // ---- all workers at once ----

  /** A delivery in progress: its task and, once dispatched, the channel's answer. It holds
      the row lock. */
  datatype Delivery = Delivery(job: Job, response: Option<Response>)

  /** Counters of what happened to one row. lost counts the crashes between dispatch and
      commit, lostSends those of them after an accepted dispatch. */
  datatype Log = Log(dispatches: nat, sends: nat, lost: nat, lostSends: nat)

  datatype System = System(rows: seq<Row>, queue: multiset<Job>, flying: map<nat, Delivery>, logs: seq<Log>)

  datatype Event =
    | Insert(row: Row)
    | Poll(now: int, picks: seq<nat>, sent: nat)
    | Start(job: Job)
    | Dispatch(id: nat, response: Response)
    | Commit(id: nat, now: int)
    | Crash(id: nat)

  const EMPTY := System([], multiset{}, map[], [])

  /** A poll that dies before its commit has queued only part of its picks. */
  ghost predicate Enabled(s: System, e: Event) {
    match e
    case Insert(row) =>
      row.status in {Pending, Suppressed} && row.retryCount == 0 && row.nextRetryAt.None? && row.sentAt.None?
    case Poll(now, picks, sent) => IsPoll(s.rows, s.flying.Keys, now, picks) && sent <= |picks|
    case Start(job) => job in s.queue && job.id !in s.flying
    case Dispatch(id, response) => id in s.flying && s.flying[id].response.None?
    case Commit(id, now) => id in s.flying && id < |s.rows| && s.flying[id].response.Some?
    case Crash(id) => id in s.flying && id < |s.logs|
  }

  function Bump(log: Log, response: Response): Log {
    log.(dispatches := log.dispatches + 1, sends := log.sends + if response.Accepted? then 1 else 0)
  }

  function Lose(log: Log, response: Option<Response>): Log {
    if response.None? then log
    else log.(lost := log.lost + 1, lostSends := log.lostSends + if response.value.Accepted? then 1 else 0)
  }

  function Apply(s: System, e: Event): System {
    match e
    case Insert(row) => s.(rows := s.rows + [row], logs := s.logs + [Log(0, 0, 0, 0)])
    case Poll(now, picks, sent) => if sent <= |picks| then s.(queue := s.queue + Enqueued(picks[..sent])) else s
    case Start(job) =>
      var t := s.(queue := s.queue - multiset{job});
      var verdict := Decide(s.rows, job.id);
      if verdict.Exhausted? then t.(rows := s.rows[job.id := AfterExhausted(s.rows[job.id])])
      else if verdict.Attempt? then t.(flying := s.flying[job.id := Delivery(job, None)])
      else t
    case Dispatch(id, response) =>
      if id !in s.flying || id >= |s.logs| then s
      else s.(flying := s.flying[id := Delivery(s.flying[id].job, Some(response))],
              logs := s.logs[id := Bump(s.logs[id], response)])
    case Commit(id, now) =>
      if id !in s.flying || id >= |s.rows| || s.flying[id].response.None? then s
      else
        var d := s.flying[id];
        s.(rows := s.rows[id := AfterResponse(s.rows[id], d.response.value, now)],
           queue := Requeued(s.queue, d.job, d.response.value),
           flying := s.flying - {id})
    case Crash(id) =>
      if id !in s.flying || id >= |s.logs| then s
      else s.(queue := s.queue + multiset{s.flying[id].job}, flying := s.flying - {id},
              logs := s.logs[id := Lose(s.logs[id], s.flying[id].response)])
  }

  /** es is a possible history from s. */
  ghost predicate History(s: System, es: seq<Event>)
    decreases |es|
  {
    es == [] || (Enabled(s, es[0]) && History(Apply(s, es[0]), es[1..]))
  }

  function After(s: System, es: seq<Event>): System
    decreases |es|
  {
    if es == [] then s else After(Apply(s, es[0]), es[1..])
  }

  // ---- what every reachable state satisfies ----

  function InFlight(s: System, id: nat): Option<Delivery> {
    if id in s.flying then Some(s.flying[id]) else None
  }

  function One(b: bool): nat { if b then 1 else 0 }

  predicate RowOk(r: Row) {
    && r.retryCount <= r.maxRetries
    && (r.status == Failed ==> r.retryCount >= r.maxRetries)
    && (r.status == Sent ==> r.retryCount < r.maxRetries)
    && (r.status == Sent <==> r.sentAt.Some?)
  }

  /** Every dispatch is a counted failure, the recorded success, lost in a crash, or still
      waiting for its commit. */
  predicate Accounted(r: Row, log: Log, d: Option<Delivery>) {
    var answer := if d.Some? then d.value.response else None;
    && log.dispatches == r.retryCount + One(r.status == Sent) + log.lost + One(answer.Some?)
    && log.sends == One(r.status == Sent) + log.lostSends + One(answer == Some(Accepted))
    && log.lostSends <= log.lost
  }

  predicate SlotOk(id: nat, r: Row, log: Log, d: Option<Delivery>) {
    && RowOk(r) && Accounted(r, log, d)
    && (d.Some? ==> d.value.job.id == id && r.status == Pending && r.retryCount < r.maxRetries)
  }

  ghost predicate Inv(s: System) {
    && |s.logs| == |s.rows| && (forall id <- s.flying :: id < |s.rows|)
    && (forall id | 0 <= id < |s.rows| :: SlotOk(id, s.rows[id], s.logs[id], InFlight(s, id)))
  }

  /** No row but the one named is touched. */
  ghost predicate OnlyAt(s: System, t: System, id: nat) {
    && |t.rows| == |s.rows| && |t.logs| == |s.logs|
    && forall k: nat | k < |s.rows| && k < |s.logs| && k != id ::
         t.rows[k] == s.rows[k] && t.logs[k] == s.logs[k] && InFlight(t, k) == InFlight(s, k)
  }

  lemma ChangeAt(s: System, t: System, id: nat)
    requires Inv(s) && OnlyAt(s, t, id) && (forall k <- t.flying :: k < |t.rows|)
    requires id < |s.rows| ==> SlotOk(id, t.rows[id], t.logs[id], InFlight(t, id))
    ensures Inv(t)
  {
    hide SlotOk;
    forall k | 0 <= k < |t.rows| ensures SlotOk(k, t.rows[k], t.logs[k], InFlight(t, k)) {
      assert SlotOk(k, s.rows[k], s.logs[k], InFlight(s, k));
    }
  }

  lemma StartStep(s: System, job: Job)
    requires Inv(s) && Enabled(s, Start(job))
    ensures OnlyAt(s, Apply(s, Start(job)), job.id) && Inv(Apply(s, Start(job)))
  {
    hide IsPoll, ExhaustedText;
    if job.id < |s.rows| { assert SlotOk(job.id, s.rows[job.id], s.logs[job.id], InFlight(s, job.id)); }
    ChangeAt(s, Apply(s, Start(job)), job.id);
  }

  lemma DispatchStep(s: System, id: nat, response: Response)
    requires Inv(s) && Enabled(s, Dispatch(id, response))
    ensures OnlyAt(s, Apply(s, Dispatch(id, response)), id) && Inv(Apply(s, Dispatch(id, response)))
  {
    hide IsPoll;
    assert SlotOk(id, s.rows[id], s.logs[id], InFlight(s, id));
    ChangeAt(s, Apply(s, Dispatch(id, response)), id);
  }

  lemma CommitStep(s: System, id: nat, now: int)
    requires Inv(s) && Enabled(s, Commit(id, now))
    ensures OnlyAt(s, Apply(s, Commit(id, now)), id) && Inv(Apply(s, Commit(id, now)))
  {
    hide IsPoll, Backoff;
    assert SlotOk(id, s.rows[id], s.logs[id], InFlight(s, id));
    ChangeAt(s, Apply(s, Commit(id, now)), id);
  }

  lemma CrashStep(s: System, id: nat)
    requires Inv(s) && Enabled(s, Crash(id))
    ensures OnlyAt(s, Apply(s, Crash(id)), id) && Inv(Apply(s, Crash(id)))
  {
    hide IsPoll;
    assert SlotOk(id, s.rows[id], s.logs[id], InFlight(s, id));
    ChangeAt(s, Apply(s, Crash(id)), id);
  }

  lemma InsertStep(s: System, row: Row)
    requires Inv(s) && Enabled(s, Insert(row))
    ensures Inv(Apply(s, Insert(row)))
  {
    hide IsPoll;
    var t := Apply(s, Insert(row));
    forall k | 0 <= k < |t.rows| ensures SlotOk(k, t.rows[k], t.logs[k], InFlight(t, k)) {
      if k < |s.rows| { assert SlotOk(k, s.rows[k], s.logs[k], InFlight(s, k)); }
    }
  }

  lemma StepKeepsInv(s: System, e: Event)
    requires Inv(s) && Enabled(s, e)
    ensures Inv(Apply(s, e))
  {
    hide IsPoll, Apply, SlotOk;
    match e {
      case Insert(row) => InsertStep(s, row);
      case Poll(now, picks, sent) => PollChangesNoRow(s, e);
      case Start(job) => StartStep(s, job);
      case Dispatch(id, response) => DispatchStep(s, id, response);
      case Commit(id, now) => CommitStep(s, id, now);
      case Crash(id) => CrashStep(s, id);
    }
  }

  lemma PollChangesNoRow(s: System, e: Event)
    requires e.Poll?
    ensures var t := Apply(s, e);
            t.rows == s.rows && t.logs == s.logs && t.flying == s.flying
    ensures Inv(s) ==> Inv(Apply(s, e))
  {
    hide SlotOk;
    var t := Apply(s, e);
    assert forall id: nat :: InFlight(t, id) == InFlight(s, id);
  }

  lemma {:induction false} HistoryKeepsInv(s: System, es: seq<Event>)
    requires Inv(s) && History(s, es)
    ensures Inv(After(s, es))
    decreases |es|
  {
    hide Inv, Enabled, Apply;
    if es != [] {
      StepKeepsInv(s, es[0]);
      HistoryKeepsInv(Apply(s, es[0]), es[1..]);
    }
  }

  /** Over every interleaving, however many duplicate tasks polls and Celery retries queue: a
      row is dispatched at most max_retries times plus the crashes between dispatch and
      commit, and accepted at most once plus those crashes. */
  lemma DeliveryCounting(es: seq<Event>, id: nat)
    requires History(EMPTY, es) && id < |After(EMPTY, es).rows|
    ensures id < |After(EMPTY, es).logs|
    ensures var s := After(EMPTY, es);
            && s.logs[id].dispatches <= s.rows[id].maxRetries + s.logs[id].lost
            && s.logs[id].sends <= 1 + s.logs[id].lostSends <= 1 + s.logs[id].lost
            && (s.rows[id].status == Sent ==> s.logs[id].sends == 1 + s.logs[id].lostSends)
            && (s.rows[id].status in {Failed, Suppressed} ==> s.logs[id].sends == s.logs[id].lostSends)
  {
    hide History, After;
    HistoryKeepsInv(EMPTY, es);
    assert SlotOk(id, After(EMPTY, es).rows[id], After(EMPTY, es).logs[id], InFlight(After(EMPTY, es), id));
  }

  /** In every reachable state: FAILED rows have used up their retries, retry_count stays
      within max_retries, and sent_at is set exactly on SENT rows. */
  lemma ReachableRows(es: seq<Event>, id: nat)
    requires History(EMPTY, es) && id < |After(EMPTY, es).rows|
    ensures RowOk(After(EMPTY, es).rows[id])
  {
    hide History, After, RowOk;
    HistoryKeepsInv(EMPTY, es);
    assert SlotOk(id, After(EMPTY, es).rows[id], After(EMPTY, es).logs[id], InFlight(After(EMPTY, es), id));
  }

  /** How a row may change in a step. */
  predicate Evolves(r: Row, t: Row) {
    && t.maxRetries == r.maxRetries && t.created == r.created && t.retryCount >= r.retryCount
    && (r.status != Pending ==> t.status == r.status && t.retryCount == r.retryCount && t.sentAt == r.sentAt)
  }

  lemma StepEvolves(s: System, e: Event, id: nat)
    requires Inv(s) && Enabled(s, e) && id < |s.rows|
    ensures id < |Apply(s, e).rows| && Evolves(s.rows[id], Apply(s, e).rows[id])
  {
    hide IsPoll, Backoff, Accounted, AfterResponse, Bump, Lose, Requeued, Enqueued, ExhaustedText;
    assert SlotOk(id, s.rows[id], s.logs[id], InFlight(s, id));
    match e {
      case Start(job) =>
      case Commit(at, now) => if at == id { ResponseEvolves(s.rows[id], s.flying[id].response.value, now); }
      case _ => assert Apply(s, e).rows[id] == s.rows[id];
    }
  }

  lemma ResponseEvolves(r: Row, response: Response, now: int)
    requires r.status == Pending
    ensures Evolves(r, AfterResponse(r, response, now))
  {}

  /** SENT, FAILED and SUPPRESSED are never left and retry_count never drops, whatever
      happens after any reachable state. */
  lemma {:induction false} RowsOnlyAdvance(s: System, es: seq<Event>, id: nat)
    requires Inv(s) && History(s, es) && id < |s.rows|
    ensures id < |After(s, es).rows| && Evolves(s.rows[id], After(s, es).rows[id])
    decreases |es|
  {
    hide Inv, Enabled, Apply;
    if es != [] {
      StepKeepsInv(s, es[0]);
      StepEvolves(s, es[0], id);
      RowsOnlyAdvance(Apply(s, es[0]), es[1..], id);
    }
  }

  // ---- draining ----

  /** How many deliveries a row can still take. */
  function Left(r: Row): nat {
    if r.status == Pending && r.maxRetries >= r.retryCount then r.maxRetries - r.retryCount + 1 else 0
  }

  function Measure(rows: seq<Row>): nat {
    if rows == [] then 0 else Left(rows[0]) + Measure(rows[1..])
  }

  lemma {:induction false} MeasureUpdate(rows: seq<Row>, id: nat, r: Row)
    requires id < |rows|
    ensures Measure(rows[id := r]) + Left(rows[id]) == Measure(rows) + Left(r)
    decreases |rows|
  {
    if id > 0 {
      MeasureUpdate(rows[1..], id - 1, r);
      assert rows[id := r][1..] == rows[1..][id - 1 := r];
    } else {
      assert rows[id := r][1..] == rows[1..];
    }
  }

  lemma {:induction false} MeasureZero(rows: seq<Row>)
    requires Measure(rows) == 0 && forall r <- rows :: RowOk(r)
    ensures forall r <- rows :: r.status != Pending
  {
    if rows != [] { MeasureZero(rows[1..]); }
  }

  /** A delivery that ends in a commit on a PENDING row. */
  predicate Delivers(s: System, e: Event) {
    match e
    case Commit(id, now) => true
    case Start(job) => Decide(s.rows, job.id) == Exhausted && s.rows[job.id].status == Pending
    case _ => false
  }

  function Deliveries(s: System, es: seq<Event>): nat
    decreases |es|
  {
    if es == [] then 0 else One(Delivers(s, es[0])) + Deliveries(Apply(s, es[0]), es[1..])
  }

  lemma StepDrops(s: System, e: Event)
    requires Inv(s) && Enabled(s, e) && !e.Insert?
    ensures Measure(Apply(s, e).rows) + One(Delivers(s, e)) <= Measure(s.rows)
  {
    hide IsPoll, Measure;
    match e {
      case Commit(id, now) =>
        assert SlotOk(id, s.rows[id], s.logs[id], InFlight(s, id));
        MeasureUpdate(s.rows, id, AfterResponse(s.rows[id], s.flying[id].response.value, now));
      case Start(job) =>
        if Decide(s.rows, job.id).Exhausted? {
          assert SlotOk(job.id, s.rows[job.id], s.logs[job.id], InFlight(s, job.id));
          MeasureUpdate(s.rows, job.id, AfterExhausted(s.rows[job.id]));
        }
      case _ =>
    }
  }

  /** Without new rows, crashes allowed: the deliveries committed on PENDING rows are bounded
      by what the measure loses. */
  lemma {:induction false} DeliveriesBounded(s: System, es: seq<Event>)
    requires Inv(s) && History(s, es) && forall e <- es :: !e.Insert?
    ensures Deliveries(s, es) + Measure(After(s, es).rows) <= Measure(s.rows)
    decreases |es|
  {
    hide Inv, Enabled, Apply, Delivers, Measure;
    if es != [] {
      StepKeepsInv(s, es[0]);
      StepDrops(s, es[0]);
      DeliveriesBounded(Apply(s, es[0]), es[1..]);
    }
  }

  /** One round, with any number of workers: a poll that finds every PENDING row due, and
      then deliveries in any interleaving and with any answers, until none is in progress.
      Nothing crashes, and of every task in the queue that the poll has filled one copy at
      least is taken. */
  ghost predicate IsRound(s: System, es: seq<Event>) {
    && es != [] && es[0].Poll? && es[0].sent == |es[0].picks| && (forall e <- es :: !e.Insert? && !e.Crash?)
    && History(s, es) && s.flying == map[] && After(s, es).flying == map[]
    && (forall r <- s.rows | r.status == Pending :: Due(r, es[0].now))
    && (forall job <- Apply(s, es[0]).queue :: Start(job) in es)
  }

  /** No event of es ends a delivery of a PENDING row, and one of them starts a task for the
      PENDING row id: then that delivery is in progress at the end. */
  lemma {:induction false} StillFlying(s: System, es: seq<Event>, id: nat, job: Job)
    requires Inv(s) && History(s, es) && (forall e <- es :: !e.Insert? && !e.Crash?) && Deliveries(s, es) == 0
    requires id in s.flying || (id < |s.rows| && s.rows[id].status == Pending && job.id == id && Start(job) in es)
    ensures id in After(s, es).flying
    decreases |es|
  {
    hide Inv, Enabled, Apply, Delivers;
    if es != [] {
      StepKeepsInv(s, es[0]);
      QuietStep(s, es[0], id);
      if id !in Apply(s, es[0]).flying { assert es[0] != Start(job) && Start(job) in es[1..]; }
      StillFlying(Apply(s, es[0]), es[1..], id, job);
    }
  }

  lemma QuietStep(s: System, e: Event, id: nat)
    requires Inv(s) && Enabled(s, e) && !e.Insert? && !e.Crash? && !Delivers(s, e)
    ensures id in s.flying ==> id in Apply(s, e).flying
    ensures id < |s.rows| && s.rows[id].status == Pending ==>
              && id < |Apply(s, e).rows| && Apply(s, e).rows[id].status == Pending
              && (e.Start? && e.job.id == id ==> id in Apply(s, e).flying)
  {
    hide IsPoll, Accounted;
  }

  /** While a row is PENDING, a round commits a delivery. */
  lemma RoundDelivers(s: System, es: seq<Event>, at: nat)
    requires Inv(s) && IsRound(s, es) && at < |s.rows| && s.rows[at].status == Pending
    ensures Deliveries(s, es) > 0
  {
    hide Inv, Enabled, Deliveries, After, IsPoll, Apply, Due, History;
    assert s.rows[at] in s.rows;
    PolledFirst(s, es);
    FirstPick(s.rows, s.flying.Keys, es[0].now, es[0].picks, at);
    var id := es[0].picks[0];
    assert Start(Job(id, 0)) in es;
    if Deliveries(s, es) == 0 { StillFlying(s, es, id, Job(id, 0)); }
  }

  /** The poll that starts a round is one, and its picks are in the queue after it. */
  lemma PolledFirst(s: System, es: seq<Event>)
    requires History(s, es) && es != [] && es[0].Poll? && es[0].sent == |es[0].picks|
    ensures IsPoll(s.rows, s.flying.Keys, es[0].now, es[0].picks)
    ensures es[0].picks != [] ==> Job(es[0].picks[0], 0) in Apply(s, es[0]).queue
  {
    hide IsPoll, Enqueued;
    var picks := es[0].picks;
    EnqueuedHolds(picks);
    assert picks[..|picks|] == picks;
    if picks != [] { assert picks[0] in multiset(picks); }
  }

  lemma FirstPick(rows: seq<Row>, locked: set<nat>, now: int, picks: seq<nat>, at: nat)
    requires IsPoll(rows, locked, now, picks) && at < |rows| && at !in locked && Due(rows[at], now)
    ensures picks != [] && picks[0] < |rows| && rows[picks[0]].status == Pending
  {}

  ghost predicate AllRounds(s: System, rounds: seq<seq<Event>>)
    decreases |rounds|
  {
    rounds == [] || (IsRound(s, rounds[0]) && AllRounds(After(s, rounds[0]), rounds[1..]))
  }

  function AfterRounds(s: System, rounds: seq<seq<Event>>): System
    decreases |rounds|
  {
    if rounds == [] then s else AfterRounds(After(s, rounds[0]), rounds[1..])
  }

  lemma AllRowsOk(s: System)
    requires Inv(s)
    ensures forall r <- s.rows :: RowOk(r)
  {
    hide RowOk, Accounted;
    forall r <- s.rows ensures RowOk(r) {
      var id :| 0 <= id < |s.rows| && s.rows[id] == r;
      assert SlotOk(id, s.rows[id], s.logs[id], InFlight(s, id));
    }
  }

  /** Without new rows and crashes the outbox drains through its queue: after as many rounds
      as the measure says, no row is PENDING. */
  lemma {:induction false} OutboxDrains(s: System, rounds: seq<seq<Event>>)
    requires Inv(s) && AllRounds(s, rounds) && |rounds| >= Measure(s.rows)
    ensures forall r <- AfterRounds(s, rounds).rows :: r.status != Pending
    decreases |rounds|
  {
    hide Inv, IsRound, After, Measure;
    AllRowsOk(s);
    if rounds == [] {
      MeasureZero(s.rows);
    } else {
      RoundKeeps(s, rounds[0]);
      if exists r <- s.rows :: r.status == Pending {
        var at: nat :| at < |s.rows| && s.rows[at].status == Pending;
        RoundDelivers(s, rounds[0], at);
        OutboxDrains(After(s, rounds[0]), rounds[1..]);
      } else {
        StaysDrained(s, rounds);
      }
    }
  }

  /** A round keeps the invariant, and its deliveries are paid for by the measure. */
  lemma RoundKeeps(s: System, es: seq<Event>)
    requires Inv(s) && IsRound(s, es)
    ensures Inv(After(s, es)) && Deliveries(s, es) + Measure(After(s, es).rows) <= Measure(s.rows)
  {
    hide Inv, Deliveries, After, History, Measure;
    HistoryKeepsInv(s, es);
    DeliveriesBounded(s, es);
  }

  lemma {:induction false} StaysDrained(s: System, rounds: seq<seq<Event>>)
    requires Inv(s) && AllRounds(s, rounds) && forall r <- s.rows :: r.status != Pending
    ensures forall r <- AfterRounds(s, rounds).rows :: r.status != Pending
    decreases |rounds|
  {
    hide Inv, IsRound, After, Measure;
    if rounds != [] {
      RoundKeeps(s, rounds[0]);
      NoneLeft(s.rows);
      AllRowsOk(After(s, rounds[0]));
      MeasureZero(After(s, rounds[0]).rows);
      StaysDrained(After(s, rounds[0]), rounds[1..]);
    }
  }

  lemma {:induction false} NoneLeft(rows: seq<Row>)
    requires forall r <- rows :: r.status != Pending
    ensures Measure(rows) == 0
  {
    if rows != [] { NoneLeft(rows[1..]); }
  }

  // ---- the task-by-task worker is a schedule of the system ----

  /** Starting, dispatching and committing in a row does to rows and queue what
      DeliverNotification does. */
  lemma DeliveryIsASchedule(s: System, job: Job, response: Response, now: int)
    requires Inv(s) && job in s.queue && job.id !in s.flying
    ensures var es := if Decide(s.rows, job.id).Attempt?
                      then [Start(job), Dispatch(job.id, response), Commit(job.id, now)] else [Start(job)];
            && History(s, es)
            && After(s, es).rows == RowsAfter(s.rows, job.id, response, now)
            && After(s, es).queue == QueueAfter(s.rows, s.queue, job, response)
            && After(s, es).flying == s.flying
  {
    hide IsPoll, SlotOk, AfterResponse, AfterExhausted, Accounted, History, After, ExhaustedText, Requeued;
    var s1 := Apply(s, Start(job));
    if Decide(s.rows, job.id).Attempt? {
      AttemptSchedule(s, job, response, now);
      var s2 := Apply(s1, Dispatch(job.id, response));
      var s3 := Apply(s2, Commit(job.id, now));
      Nothing(s3);
      var e1, e2, e3 := Start(job), Dispatch(job.id, response), Commit(job.id, now);
      Then(s2, e3, []);
      Then(s1, e2, [e3] + []);
      Then(s, e1, [e2] + ([e3] + []));
      assert [e1] + ([e2] + ([e3] + [])) == [e1, e2, e3];
    } else {
      Nothing(s1);
      Then(s, Start(job), []);
      assert [Start(job)] + [] == [Start(job)];
    }
  }

  lemma {:induction false} HistoryConcat(s: System, a: seq<Event>, b: seq<Event>)
    requires History(s, a) && History(After(s, a), b)
    ensures History(s, a + b) && After(s, a + b) == After(After(s, a), b)
    decreases |a|
  {
    hide Enabled, Apply;
    if a == [] {
      assert a + b == b;
    } else {
      HistoryConcat(Apply(s, a[0]), a[1..], b);
      assert (a + b)[1..] == a[1..] + b;
    }
  }

  /** Every task in the queue can be served, with any answers. */
  lemma {:induction false} ServeAll(s: System, todo: multiset<Job>, answer: Response, now: int) returns (es: seq<Event>)
    requires Inv(s) && s.flying == map[] && todo <= s.queue
    ensures History(s, es) && After(s, es).flying == map[] && (forall e <- es :: e.Start? || e.Dispatch? || e.Commit?)
    ensures forall job <- todo :: Start(job) in es
    decreases |todo|
  {
    hide Inv, History, After, Decide, Requeued;
    es := [];
    if todo == multiset{} {
      Nothing(s);
    } else {
      var job :| job in todo;
      es := if Decide(s.rows, job.id).Attempt?
            then [Start(job), Dispatch(job.id, answer), Commit(job.id, now)] else [Start(job)];
      DeliveryIsASchedule(s, job, answer, now);
      assert Start(job) in es;
      HistoryKeepsInv(s, es);
      OthersStay(s.rows, s.queue, job, answer);
      var more := ServeAll(After(s, es), todo - multiset{job}, answer, now);
      HistoryConcat(s, es, more);
      es := es + more;
    }
  }

  lemma OthersStay(rows: seq<Row>, queue: multiset<Job>, job: Job, response: Response)
    ensures queue - multiset{job} <= QueueAfter(rows, queue, job, response)
  {
    hide Decide;
  }

  /** So whatever a poll returns can be followed up to a whole round. */
  lemma RoundPossible(s: System, now: int, picks: seq<nat>, answer: Response) returns (es: seq<Event>)
    requires Inv(s) && s.flying == map[] && IsPoll(s.rows, {}, now, picks)
    requires forall r <- s.rows | r.status == Pending :: Due(r, now)
    ensures IsRound(s, es) && es[0] == Poll(now, picks, |picks|)
  {
    hide Inv, History, After, IsPoll, Due;
    var poll := Poll(now, picks, |picks|);
    assert s.flying.Keys == {};
    StepKeepsInv(s, poll);
    PollChangesNoRow(s, poll);
    var t := Apply(s, poll);
    es := ServeAll(t, t.queue, answer, now);
    Then(s, poll, es);
    es := [poll] + es;
  }

  lemma AttemptSchedule(s: System, job: Job, response: Response, now: int)
    requires Inv(s) && job in s.queue && job.id !in s.flying && Decide(s.rows, job.id).Attempt?
    ensures Enabled(s, Start(job))
    ensures var s1 := Apply(s, Start(job));
            var s2 := Apply(s1, Dispatch(job.id, response));
            var s3 := Apply(s2, Commit(job.id, now));
            && Enabled(s1, Dispatch(job.id, response)) && Enabled(s2, Commit(job.id, now))
            && s3.rows == RowsAfter(s.rows, job.id, response, now)
            && s3.queue == QueueAfter(s.rows, s.queue, job, response) && s3.flying == s.flying
            && job.id < |s.logs| && s3.logs == s.logs[job.id := Bump(s.logs[job.id], response)]
  {
    hide IsPoll, SlotOk, AfterResponse, Accounted, Bump;
    var d := Delivery(job, None);
    var e := Delivery(job, Some(response));
    assert s.flying[job.id := d][job.id := e] - {job.id} == s.flying;
  }

  lemma Nothing(s: System)
    ensures History(s, []) && After(s, []) == s
  {}

  lemma Then(s: System, e: Event, es: seq<Event>)
    requires Enabled(s, e) && History(Apply(s, e), es)
    ensures History(s, [e] + es) && After(s, [e] + es) == After(Apply(s, e), es)
  {
    hide Enabled, Apply;
    assert ([e] + es)[1..] == es;
  }

  /** The bound on accepted dispatches is reached: from any state with a deliverable row and a
      task for it, a worker that dies after an accepted dispatch makes it go out twice. */
  lemma CrashSendsTwice(s: System, job: Job, now: int)
    requires Inv(s) && job in s.queue && job.id !in s.flying && Decide(s.rows, job.id).Attempt?
    ensures var id := job.id;
            var es := [Start(job), Dispatch(id, Accepted), Crash(id), Start(job), Dispatch(id, Accepted), Commit(id, now)];
            && id < |s.logs| && History(s, es)
            && After(s, es).logs == s.logs[id := Log(s.logs[id].dispatches + 2, s.logs[id].sends + 2,
                                                     s.logs[id].lost + 1, s.logs[id].lostSends + 1)]
            && After(s, es).rows == s.rows[id := AfterSuccess(s.rows[id], now)]
  {
    hide History, After, Apply, Enabled, Inv, Bump, Lose, AfterSuccess, Decide, Requeued;
    var id := job.id;
    LostSend(s, job);
    var s3 := Apply(Apply(Apply(s, Start(job)), Dispatch(id, Accepted)), Crash(id));
    AttemptSchedule(s3, job, Accepted, now);
    Chain6(s, Start(job), Dispatch(id, Accepted), Crash(id), Start(job), Dispatch(id, Accepted), Commit(id, now));
    TwiceSent(s.logs, id, s3.logs);
  }

  lemma TwiceSent(logs: seq<Log>, id: nat, lost: seq<Log>)
    requires id < |logs| && lost == logs[id := Lose(Bump(logs[id], Accepted), Some(Accepted))]
    ensures lost[id := Bump(lost[id], Accepted)]
            == logs[id := Log(logs[id].dispatches + 2, logs[id].sends + 2, logs[id].lost + 1, logs[id].lostSends + 1)]
  {}

  /** A send that is lost leaves only its trace in the counters: the task is queued again. */
  lemma LostSend(s: System, job: Job)
    requires Inv(s) && job in s.queue && job.id !in s.flying && Decide(s.rows, job.id).Attempt?
    ensures var s1 := Apply(s, Start(job));
            var s2 := Apply(s1, Dispatch(job.id, Accepted));
            && Enabled(s, Start(job)) && Enabled(s1, Dispatch(job.id, Accepted)) && Enabled(s2, Crash(job.id))
            && job.id < |s.logs| && Inv(Apply(s2, Crash(job.id)))
            && Apply(s2, Crash(job.id))
               == s.(logs := s.logs[job.id := Lose(Bump(s.logs[job.id], Accepted), Some(Accepted))])
  {
    hide IsPoll, SlotOk, Accounted, Bump, Lose;
    var s1 := Apply(s, Start(job));
    var s2 := Apply(s1, Dispatch(job.id, Accepted));
    assert s2.flying - {job.id} == s.flying;
    StepKeepsInv(s, Start(job));
    StepKeepsInv(s1, Dispatch(job.id, Accepted));
    StepKeepsInv(s2, Crash(job.id));
  }

  lemma Chain6(s: System, e1: Event, e2: Event, e3: Event, e4: Event, e5: Event, e6: Event)
    requires var s1 := Apply(s, e1); var s2 := Apply(s1, e2); var s3 := Apply(s2, e3); var s4 := Apply(s3, e4);
             var s5 := Apply(s4, e5);
             Enabled(s, e1) && Enabled(s1, e2) && Enabled(s2, e3) && Enabled(s3, e4) && Enabled(s4, e5) && Enabled(s5, e6)
    ensures History(s, [e1, e2, e3, e4, e5, e6])
    ensures After(s, [e1, e2, e3, e4, e5, e6]) == Apply(Apply(Apply(Apply(Apply(Apply(s, e1), e2), e3), e4), e5), e6)
  {
    hide Enabled, Apply, History, After;
    var s1 := Apply(s, e1);
    var s2 := Apply(s1, e2);
    var s3 := Apply(s2, e3);
    var s4 := Apply(s3, e4);
    var s5 := Apply(s4, e5);
    Nothing(Apply(s5, e6));
    Then(s5, e6, []);
    Then(s4, e5, [e6] + []);
    Then(s3, e4, [e5] + ([e6] + []));
    Then(s2, e3, [e4] + ([e5] + ([e6] + [])));
    Then(s1, e2, [e3] + ([e4] + ([e5] + ([e6] + []))));
    Then(s, e1, [e2] + ([e3] + ([e4] + ([e5] + ([e6] + [])))));
    assert [e1] + ([e2] + ([e3] + ([e4] + ([e5] + ([e6] + []))))) == [e1, e2, e3, e4, e5, e6];
  }
}
