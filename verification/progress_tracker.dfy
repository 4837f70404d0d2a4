/** `ProgressTracker` of `backend/app/utils/progress_tracker.py`: a status record
    per transcription job and the event queues of the job's subscribers, as a
    map-valued state machine. Each `asyncio.Queue` is modelled by the sequence of
    events put on it so far, which only ever grows. */
module ProgressTracker {
  import opened Outcomes

  /** `JobStatus` of the response models. */
  datatype JobStatus =
    | Queued | Downloading | Separating | Preprocessing | Analyzing
    | Quantizing | Generating | Completed | Failed

  /** `status.value`, the stage name sent to subscribers. */
  function StatusValue(s: JobStatus): string
  {
    match s
    case Queued => "queued"
    case Downloading => "downloading"
    case Separating => "separating"
    case Preprocessing => "preprocessing"
    case Analyzing => "analyzing"
    case Quantizing => "quantizing"
    case Generating => "generating"
    case Completed => "completed"
    case Failed => "failed"
  }

  /** The tracked record of one job; `R` is the transcription result, which the
      tracker stores and forwards without looking into it. */
  datatype Job<R> = Job(status: JobStatus, progress: int, message: string, result: Option<R>, error: Option<string>)

  /** What a subscriber's queue receives: `('progress', ProgressEvent)`,
      `('complete', result)` or `('error', {'error': ...})`. */
  datatype Event<R> =
    | ProgressEvent(stage: string, percent: int, message: string)
    | CompleteEvent(result: R)
    | ErrorEvent(error: string)

  type QueueId = nat

  /** `_jobs` and `_queues`, plus the contents of every queue ever handed out
      and the identity the next `asyncio.Queue()` will get. */
  datatype Tracker<R> = Tracker(
    jobs: map<string, Job<R>>,
    subscribers: map<string, set<QueueId>>,
    queues: map<QueueId, seq<Event<R>>>,
    nextQueue: QueueId)

  function NewTracker<R>(): Tracker<R>
  {
    Tracker(map[], map[], map[], 0)
  }

  /** Every subscribed queue exists and every queue identity is already taken. */
  ghost predicate Valid<R>(t: Tracker<R>)
  {
    && (forall id, q :: id in t.subscribers && q in t.subscribers[id] ==> q in t.queues)
    && (forall q :: q in t.queues ==> q < t.nextQueue)
  }

  predicate Subscribed<R>(t: Tracker<R>, jobId: string, q: QueueId)
  {
    jobId in t.subscribers && q in t.subscribers[jobId]
  }

  /** Each subscriber of `jobId` in `t` received `es` and every other queue
      nothing; jobs other than `jobId` and all subscriber sets are unchanged. */
  ghost predicate Delivered<R>(t: Tracker<R>, r: Tracker<R>, jobId: string, es: seq<Event<R>>)
  {
    && r.subscribers == t.subscribers
    && r.nextQueue == t.nextQueue
    && r.queues.Keys == t.queues.Keys
    && (forall q :: q in t.queues ==> r.queues[q] == t.queues[q] + (if Subscribed(t, jobId, q) then es else []))
    && (forall other :: other != jobId ==> GetJobStatus(r, other) == GetJobStatus(t, other))
  }

  /** `queue.put(event)` on every queue subscribed to `jobId`. */
  function Broadcast<R>(t: Tracker<R>, jobId: string, e: Event<R>): Tracker<R>
  {
    if jobId !in t.subscribers then t
    else t.(queues := map q | q in t.queues :: if q in t.subscribers[jobId] then t.queues[q] + [e] else t.queues[q])
  }

  /** `get_job_status`: the record, or `None` for an unknown id. */
  function GetJobStatus<R>(t: Tracker<R>, jobId: string): Option<Job<R>>
  {
    if jobId in t.jobs then Some(t.jobs[jobId]) else None
  }

  /** `create_job`: a queued record at 0 percent and an empty subscriber set,
      replacing whatever the id held before. */
  function CreateJob<R>(t: Tracker<R>, jobId: string): (r: Tracker<R>)
    ensures GetJobStatus(r, jobId) == Some(Job(Queued, 0, "Job queued", None, None))
    ensures jobId in r.subscribers && r.subscribers[jobId] == {}
    ensures forall other :: other != jobId ==> GetJobStatus(r, other) == GetJobStatus(t, other)
    ensures forall other :: other != jobId ==> (other in r.subscribers <==> other in t.subscribers)
    ensures forall other :: other != jobId && other in t.subscribers ==> r.subscribers[other] == t.subscribers[other]
    ensures r.queues == t.queues && r.nextQueue == t.nextQueue
  {
    t.(jobs := t.jobs[jobId := Job(Queued, 0, "Job queued", None, None)], subscribers := t.subscribers[jobId := {}])
  }

  /** `subscribe`: a fresh, empty queue joins the job's subscribers; the
      subscriber set is created when missing, even for an unknown job. */
  function Subscribe<R>(t: Tracker<R>, jobId: string): (r: (Tracker<R>, QueueId))
    ensures Valid(t) ==> r.1 !in t.queues
    ensures r.0.queues == t.queues[r.1 := []]
    ensures jobId in r.0.subscribers
    ensures r.0.subscribers[jobId] == (if jobId in t.subscribers then t.subscribers[jobId] else {}) + {r.1}
    ensures forall other :: other != jobId ==> (other in r.0.subscribers <==> other in t.subscribers)
    ensures forall other :: other != jobId && other in t.subscribers ==> r.0.subscribers[other] == t.subscribers[other]
    ensures r.0.jobs == t.jobs
  {
    var q := t.nextQueue;
    var subs := if jobId in t.subscribers then t.subscribers[jobId] else {};
    (t.(subscribers := t.subscribers[jobId := subs + {q}], queues := t.queues[q := []], nextQueue := q + 1), q)
  }

  /** `unsubscribe`: the queue leaves the job's subscribers; an unknown job or
      queue changes nothing. */
  function Unsubscribe<R>(t: Tracker<R>, jobId: string, q: QueueId): (r: Tracker<R>)
    ensures jobId in t.subscribers ==> r.subscribers == t.subscribers[jobId := t.subscribers[jobId] - {q}]
    ensures !Subscribed(t, jobId, q) ==> r == t
    ensures r.jobs == t.jobs && r.queues == t.queues && r.nextQueue == t.nextQueue
  {
    if jobId in t.subscribers then
      var subs := t.subscribers[jobId] - {q};
      assert q !in t.subscribers[jobId] ==> subs == t.subscribers[jobId];
      assert t.subscribers[jobId := t.subscribers[jobId]] == t.subscribers;
      t.(subscribers := t.subscribers[jobId := subs])
    else t
  }

  /** Subscribing and then unsubscribing the queue just handed out leaves the
      job's subscribers as they were (or empty, when there were none). */
  lemma SubscribeThenUnsubscribe<R>(t: Tracker<R>, jobId: string)
    requires Valid(t)
    ensures var (t1, q) := Subscribe(t, jobId);
            var t2 := Unsubscribe(t1, jobId, q);
            t2.subscribers[jobId] == (if jobId in t.subscribers then t.subscribers[jobId] else {})
  {
    var (t1, q) := Subscribe(t, jobId);
    if jobId in t.subscribers {
      assert q !in t.subscribers[jobId];
    }
  }

  /** `update_progress`. The record is updated before the `ProgressEvent` is
      built, so a percentage outside 0..100 still lands in the record but raises
      before anything is sent; an unknown job changes nothing. */
  function UpdateProgress<R>(t: Tracker<R>, jobId: string, status: JobStatus, percent: int, message: string)
    : (r: (Tracker<R>, Option<Error>))
    ensures jobId !in t.jobs ==> r == (t, None)
    ensures r.1.Some? <==> jobId in t.jobs && !(0 <= percent <= 100)
    ensures r.1.Some? ==> r.1.value == InvalidPercent(percent)
    ensures jobId in t.jobs ==>
              GetJobStatus(r.0, jobId) == Some(t.jobs[jobId].(status := status, progress := percent, message := message))
    ensures Delivered(t, r.0, jobId,
                      if jobId in t.jobs && r.1.None? then [ProgressEvent(StatusValue(status), percent, message)] else [])
  {
    if jobId !in t.jobs then (t, None)
    else
      var updated := t.(jobs := t.jobs[jobId := t.jobs[jobId].(status := status, progress := percent, message := message)]);
      if !(0 <= percent <= 100) then (updated, Some(InvalidPercent(percent)))
      else (Broadcast(updated, jobId, ProgressEvent(StatusValue(status), percent, message)), None)
  }

  /** `complete_job`: completed at 100 percent with the result, which every
      subscriber receives once; an unknown job changes nothing. */
  function CompleteJob<R>(t: Tracker<R>, jobId: string, result: R): (r: Tracker<R>)
    ensures jobId !in t.jobs ==> r == t
    ensures jobId in t.jobs ==>
              GetJobStatus(r, jobId) == Some(t.jobs[jobId].(status := Completed, progress := 100,
                                                            message := "Transcription completed", result := Some(result)))
    ensures Delivered(t, r, jobId, if jobId in t.jobs then [CompleteEvent(result)] else [])
  {
    if jobId !in t.jobs then t
    else
      var job := t.jobs[jobId].(status := Completed, progress := 100, message := "Transcription completed", result := Some(result));
      Broadcast(t.(jobs := t.jobs[jobId := job]), jobId, CompleteEvent(result))
  }

  /** `fail_job`: failed with the error, progress kept; every subscriber
      receives the error once; an unknown job changes nothing. */
  function FailJob<R>(t: Tracker<R>, jobId: string, error: string): (r: Tracker<R>)
    ensures jobId !in t.jobs ==> r == t
    ensures jobId in t.jobs ==>
              GetJobStatus(r, jobId) == Some(t.jobs[jobId].(status := Failed, message := "Failed: " + error, error := Some(error)))
    ensures Delivered(t, r, jobId, if jobId in t.jobs then [ErrorEvent(error)] else [])
  {
    if jobId !in t.jobs then t
    else
      var job := t.jobs[jobId].(status := Failed, message := "Failed: " + error, error := Some(error));
      Broadcast(t.(jobs := t.jobs[jobId := job]), jobId, ErrorEvent(error))
  }

  /** `cleanup_job`: the record and the subscriber set go; queues already
      handed out keep their contents. */
  function CleanupJob<R>(t: Tracker<R>, jobId: string): (r: Tracker<R>)
    ensures GetJobStatus(r, jobId) == None && jobId !in r.subscribers
    ensures forall other :: other != jobId ==> GetJobStatus(r, other) == GetJobStatus(t, other)
    ensures forall other :: other != jobId ==> (other in r.subscribers <==> other in t.subscribers)
    ensures forall other :: other != jobId && other in t.subscribers ==> r.subscribers[other] == t.subscribers[other]
    ensures r.queues == t.queues && r.nextQueue == t.nextQueue
  {
    t.(jobs := t.jobs - {jobId}, subscribers := t.subscribers - {jobId})
  }

  /** Cleaning up twice is cleaning up once. */
  lemma CleanupIdempotent<R>(t: Tracker<R>, jobId: string)
    ensures CleanupJob(CleanupJob(t, jobId), jobId) == CleanupJob(t, jobId)
  {
    var once := CleanupJob(t, jobId);
    assert once.jobs - {jobId} == once.jobs;
    assert once.subscribers - {jobId} == once.subscribers;
  }

  /** After cleanup, progress, completion and failure of the job are ignored. */
  lemma CleanedUpJobIsInert<R>(t: Tracker<R>, jobId: string, status: JobStatus, percent: int, message: string, result: R)
    ensures var c := CleanupJob(t, jobId);
            && UpdateProgress(c, jobId, status, percent, message) == (c, None)
            && CompleteJob(c, jobId, result) == c
            && FailJob(c, jobId, message) == c
  {
  }

  // ---------------------------------------------------------------- runs

  /** One call on the tracker; the queue `subscribe` returns and the error
      `update_progress` raises are dropped. */
  datatype Op<R> =
    | Create(jobId: string)
    | Subscribe(jobId: string)
    | Unsubscribe(jobId: string, queue: QueueId)
    | Update(jobId: string, status: JobStatus, percent: int, message: string)
    | Complete(jobId: string, result: R)
    | Fail(jobId: string, error: string)
    | Cleanup(jobId: string)

  function Apply<R>(t: Tracker<R>, op: Op<R>): Tracker<R>
  {
    match op
    case Create(id) => CreateJob(t, id)
    case Subscribe(id) => Subscribe(t, id).0
    case Unsubscribe(id, q) => Unsubscribe(t, id, q)
    case Update(id, s, p, m) => UpdateProgress(t, id, s, p, m).0
    case Complete(id, res) => CompleteJob(t, id, res)
    case Fail(id, e) => FailJob(t, id, e)
    case Cleanup(id) => CleanupJob(t, id)
  }

  function Run<R>(t: Tracker<R>, ops: seq<Op<R>>): Tracker<R>
  {
    if |ops| == 0 then t else Apply(Run(t, ops[..|ops| - 1]), ops[|ops| - 1])
  }

  /** Queues are append-only: none disappears and none loses an event. */
  ghost predicate Grows<R>(t: Tracker<R>, r: Tracker<R>)
  {
    && t.nextQueue <= r.nextQueue
    && (forall q :: q in t.queues ==> q in r.queues && t.queues[q] <= r.queues[q])
  }

  /** Every call keeps the tracker valid and only appends to queues. */
  lemma ApplyKeeps<R>(t: Tracker<R>, op: Op<R>)
    requires Valid(t)
    ensures Valid(Apply(t, op)) && Grows(t, Apply(t, op))
  {
    match op
    case Subscribe(id) =>
      var (r, q) := Subscribe(t, id);
      assert forall p :: p in t.queues ==> r.queues[p] == t.queues[p];
    case Update(id, s, p, m) =>
      var (r, raised) := UpdateProgress(t, id, s, p, m);
      DeliveredKeeps(t, r, id, if id in t.jobs && raised.None? then [ProgressEvent(StatusValue(s), p, m)] else []);
    case Complete(id, res) =>
      DeliveredKeeps(t, CompleteJob(t, id, res), id, if id in t.jobs then [CompleteEvent(res)] else []);
    case Fail(id, e) =>
      DeliveredKeeps(t, FailJob(t, id, e), id, if id in t.jobs then [ErrorEvent(e)] else []);
    case _ =>
  }

  /** Delivering events keeps the tracker valid and only appends to queues. */
  lemma DeliveredKeeps<R>(t: Tracker<R>, r: Tracker<R>, jobId: string, es: seq<Event<R>>)
    requires Valid(t) && Delivered(t, r, jobId, es)
    ensures Valid(r) && Grows(t, r)
  {
    forall q | q in t.queues ensures t.queues[q] <= r.queues[q] {
      assert r.queues[q] == t.queues[q] + (if Subscribed(t, jobId, q) then es else []);
    }
  }

  /** Any run of calls from a valid tracker, the fresh one included, stays
      valid and only appends to queues. */
  lemma {:induction false} RunKeeps<R>(t: Tracker<R>, ops: seq<Op<R>>)
    requires Valid(t)
    ensures Valid(Run(t, ops)) && Grows(t, Run(t, ops))
    decreases |ops|
  {
    if |ops| > 0 {
      var before := Run(t, ops[..|ops| - 1]);
      RunKeeps(t, ops[..|ops| - 1]);
      ApplyKeeps(before, ops[|ops| - 1]);
      GrowsTransitive(t, before, Run(t, ops));
    }
  }

  lemma GrowsTransitive<R>(a: Tracker<R>, b: Tracker<R>, c: Tracker<R>)
    requires Grows(a, b) && Grows(b, c)
    ensures Grows(a, c)
  {
    forall q | q in a.queues ensures q in c.queues && a.queues[q] <= c.queues[q] {
      assert a.queues[q] <= b.queues[q] <= c.queues[q];
    }
  }

  lemma NewTrackerValid<R>()
    ensures Valid(NewTracker<R>())
  {
  }
}
