/** Submit and the queue insert in their own, sequential form: from a request to
    the rows, and from the rows to the queue items. */
module Submission {
  import opened JobState
  import opened JobProtocol
  import opened Wrappers
  import opened Repository
  import opened FareWorker
  import opened Schedules
  import opened Calendar
  import Geo
  import Routes
  import opened Tuples

  const MAX_PAIRS := 5000
  const QUEUE_NAME := "search"

  datatype QueueItem = QueueItem(args: Args, maxAttempts: nat, queue: string)

  function ItemFor(r: Result): QueueItem {
    QueueItem(Args(r.id, r.row.job, r.row.origin, r.row.destination, r.row.date), MAX_ATTEMPTS, QUEUE_NAME)
  }

  class RiverQueue {
    var items: seq<QueueItem>

    constructor ()
      ensures items == []
    {
      items := [];
    }

    /** One insert of all items; an empty batch never reaches the queue. */
    method EnqueueBatch(results: seq<Result>, f: Fault) returns (ok: bool)
      modifies this
      ensures ok <==> results == [] || f.NoFault?
      ensures f.Lost? ==> items == old(items)
      ensures !f.Lost? ==>
        items == old(items) + seq(|results|, k requires 0 <= k < |results| => ItemFor(results[k]))
    {
      if |results| == 0 {
        return true;
      }
      var inserts: seq<QueueItem> := [];
      for k := 0 to |results|
        invariant inserts == seq(k, i requires 0 <= i < k => ItemFor(results[i]))
      {
        inserts := inserts + [ItemFor(results[k])];
      }
      if !f.Lost? {
        items := items + inserts;
      }
      ok := f.NoFault?;
    }
  }

  datatype SubmitFaults = SubmitFaults(create: Fault, readBack: Fault, enqueue: Fault, mark: Fault)

  datatype SubmitResult =
    | Accepted(total: nat)
    | Rejected(error: TupleError)
    | TooManyPairs(total: nat)
    | NotPersisted
    | NotFetched(total: nat)
    | NotEnqueued(total: nat)
    | NotMarked(total: nat)

  function PairsOf(ts: seq<GeneratedPair>): seq<Pair> {
    seq(|ts|, k requires 0 <= k < |ts| => Pair(ts[k].origin, ts[k].destination, ts[k].date))
  }

  /** The queue items of a job whose first row has the id `base`: one a row, in order. */
  function NewItems(base: nat, j: JobId, pairs: seq<Pair>): seq<QueueItem> {
    seq(|pairs|, k requires 0 <= k < |pairs| => ItemFor(Result(base + k, FreshRow(j, pairs[k]))))
  }

  function TupleOf(a: Args): GeneratedPair { GeneratedPair(a.origin, a.destination, a.date) }

  /** The item is for row `id` of job j, which is pending and holds the tuple. */
  predicate Carries(q: QueueItem, rows: seq<Row>, j: JobId, id: nat, tuple: GeneratedPair) {
    && q.args.jobId == j && q.args.resultId == id && q.maxAttempts == 5 && q.queue == "search"
    && q.args.origin == tuple.origin && q.args.destination == tuple.destination && q.args.date == tuple.date
    && id < |rows| && rows[id].job == j && rows[id].status.RowPending?
    && rows[id].origin == tuple.origin && rows[id].destination == tuple.destination && rows[id].date == tuple.date
    && rows[id].fare.None? && rows[id].error.None? && !rows[id].stamped
  }

  lemma CarriesAt(before: seq<Row>, j: JobId, tuples: seq<GeneratedPair>, k: nat)
    requires k < |tuples|
    ensures Carries(NewItems(|before|, j, PairsOf(tuples))[k], before + FreshRows(j, PairsOf(tuples)), j,
                    |before| + k, tuples[k])
  {
    assert (before + FreshRows(j, PairsOf(tuples)))[|before| + k] == FreshRows(j, PairsOf(tuples))[k];
  }

  /** Main result: from tuples to rows to items nothing is lost, added, repeated or
      reordered.  In the tables after the job's transaction the k-th item carries the
      id of the job's k-th row, that row is pending and holds the k-th tuple, every
      row of the job has an item, and no tuple is in two items. */
  lemma ItemsConserve(before: Tables, j: JobId, tuples: seq<GeneratedPair>)
    requires ForeignKeys(before) && j !in before.jobs && NoDuplicates(tuples)
    ensures Conserved(NewItems(|before.rows|, j, PairsOf(tuples)),
                      before.rows + FreshRows(j, PairsOf(tuples)), j, tuples)
  {
    FreshViews(before.rows, j, PairsOf(tuples));
    var items, rows := NewItems(|before.rows|, j, PairsOf(tuples)), before.rows + FreshRows(j, PairsOf(tuples));
    forall k | 0 <= k < |items| ensures Carries(items[k], rows, j, IdsOf(rows, j)[k], tuples[k]) {
      CarriesAt(before.rows, j, tuples, k);
    }
    forall id | 0 <= id < |rows| && rows[id].job == j ensures HasItem(items, id) {
      ItemOf(before, j, tuples, id);
    }
  }

  predicate HasItem(items: seq<QueueItem>, id: nat) {
    exists k :: 0 <= k < |items| && items[k].args.resultId == id
  }

  /** The items are those of job j's rows in order, each with its tuple. */
  predicate Conserved(items: seq<QueueItem>, rows: seq<Row>, j: JobId, tuples: seq<GeneratedPair>) {
    && |items| == |tuples| == |IdsOf(rows, j)|
    && (forall k :: 0 <= k < |items| ==> Carries(items[k], rows, j, IdsOf(rows, j)[k], tuples[k]))
    && (forall id :: 0 <= id < |rows| && rows[id].job == j ==> HasItem(items, id))
    && (forall i, k :: 0 <= i < k < |tuples| ==> tuples[i] != tuples[k])
  }

  /** So no two items are for the same tuple or the same row. */
  lemma ItemsDiffer(items: seq<QueueItem>, rows: seq<Row>, j: JobId, tuples: seq<GeneratedPair>, i: nat, k: nat)
    requires Conserved(items, rows, j, tuples) && i < k < |items|
    ensures TupleOf(items[i].args) != TupleOf(items[k].args) && items[i].args.resultId < items[k].args.resultId
  {
    assert Carries(items[i], rows, j, IdsOf(rows, j)[i], tuples[i]);
    assert Carries(items[k], rows, j, IdsOf(rows, j)[k], tuples[k]);
    IdsExact(rows, j, |rows|);
  }

  /** A row of the new job is one of the new rows, and has an item. */
  lemma ItemOf(before: Tables, j: JobId, tuples: seq<GeneratedPair>, id: nat)
    requires ForeignKeys(before) && j !in before.jobs
    requires id < |before.rows| + |tuples| && (before.rows + FreshRows(j, PairsOf(tuples)))[id].job == j
    ensures HasItem(NewItems(|before.rows|, j, PairsOf(tuples)), id)
  {
    var k := id - |before.rows|;
    assert k >= 0;
    assert NewItems(|before.rows|, j, PairsOf(tuples))[k].args.resultId == id;
  }

  /** A freshly created job looks like NewJob, whatever jobs there were. */
  lemma CreatedView(before: Tables, j: JobId, pairs: seq<Pair>)
    requires ForeignKeys(before) && j !in before.jobs
    ensures RowsOf(before.rows + FreshRows(j, pairs), j) == NewJob(|pairs|).rows
    ensures forall k :: k in before.jobs ==> RowsOf(before.rows + FreshRows(j, pairs), k) == RowsOf(before.rows, k)
  {
    FreshViews(before.rows, j, pairs);
    forall k | k in before.jobs ensures RowsOf(before.rows + FreshRows(j, pairs), k) == RowsOf(before.rows, k) {
      OthersBefore(before.rows, j, pairs, k);
    }
  }

  /** Main result: accepted exactly when no statement fails, and each error exactly when
      its statement is the first to fail; an empty batch is no statement. */
  lemma PersistResultExactly(n: nat, f: SubmitFaults)
    ensures PersistResult(n, f).Accepted? <==>
      f.create.NoFault? && f.readBack.NoFault? && (n == 0 || f.enqueue.NoFault?) && f.mark.NoFault?
    ensures PersistResult(n, f).NotPersisted? <==> !f.create.NoFault?
    ensures PersistResult(n, f).NotFetched? <==> f.create.NoFault? && !f.readBack.NoFault?
    ensures PersistResult(n, f).NotEnqueued? <==>
      f.create.NoFault? && f.readBack.NoFault? && n > 0 && !f.enqueue.NoFault?
    ensures PersistResult(n, f).NotMarked? <==>
      f.create.NoFault? && f.readBack.NoFault? && (n == 0 || f.enqueue.NoFault?) && !f.mark.NoFault?
    ensures PersistResult(n, f) in [Accepted(n), NotPersisted, NotFetched(n), NotEnqueued(n), NotMarked(n)]
  {
  }

  /** What Submit does next when its statements come out as in f. */
  function SubmitScript(f: SubmitFaults): Script {
    (s: St) =>
      match s.sub
      case ReadingBack => Some(Submit(f.readBack))
      case Enqueuing(_) => Some(Submit(f.enqueue))
      case MarkingRunning => Some(Submit(f.mark))
      case MarkingFailed => Some(Submit(f.mark))
      case Returned(_) => None
  }

  /** One more statement of Submit. */
  lemma SubmitStatement(f: SubmitFaults, s: St, es: Events, t: St, g: Fault) returns (es': Events, t': St)
    requires Schedule(SubmitScript(f), s, es, t) && SubmitScript(f)(t) == Some(Submit(g)) && SubmitStep(t, g).Some?
    ensures Schedule(SubmitScript(f), s, es', t') && t' == SubmitStep(t, g).value
  {
    es', t' := Proceed(SubmitScript(f), s, es, t);
  }

  /** The first error decides; an empty batch cannot fail. */
  function PersistResult(n: nat, f: SubmitFaults): SubmitResult {
    if !f.create.NoFault? then NotPersisted
    else if !f.readBack.NoFault? then NotFetched(n)
    else if n > 0 && !f.enqueue.NoFault? then NotEnqueued(n)
    else if !f.mark.NoFault? then NotMarked(n)
    else Accepted(n)
  }

  /** Submit's whole run from the read-back on. */
  lemma WholeSubmit(n: nat, f: SubmitFaults) returns (es: Events, t: St)
    ensures Schedule(SubmitScript(f), Init(n, true), es, t) && SubmitScript(f)(t).None?
    ensures var sent := f.readBack.NoFault? && (n == 0 || f.enqueue.NoFault?);
      && t.sub == Returned(sent && f.mark.NoFault?)
      && t.v == (if f.mark.Lost? then NewJob(n)
                 else SetStatus(NewJob(n), if sent then JobStatus.Running else JobStatus.Failed))
    ensures t.workers == if f.readBack.NoFault? && !f.enqueue.Lost? then seq(5 * n, _ => Queued) else []
  {
    var s := Init(n, true);
    AllSent(n);
    es, t := SubmitStatement(f, s, NoEvents, s, f.readBack);
    if t.sub.Enqueuing? { es, t := SubmitStatement(f, s, es, t, f.enqueue); }
    es, t := SubmitStatement(f, s, es, t, f.mark);
  }

  /** Main result: what Submit's one whole run decides, whatever comes of its statements:
      running when all items are out, failed when not, and pending when that could not
      be written. */
  lemma SubmitDecides(n: nat, f: SubmitFaults, es: Events, t: St)
    requires Schedule(SubmitScript(f), Init(n, true), es, t) && t.sub.Returned?
    ensures var sent := f.readBack.NoFault? && (n == 0 || f.enqueue.NoFault?);
      && (t.sub == Returned(true) <==> sent && f.mark.NoFault?)
      && t.v.rows == NewJob(n).rows
      && t.v.job.status == (if f.mark.Lost? then Pending else if sent then JobStatus.Running else JobStatus.Failed)
      && (t.v.job.stamped <==> !f.mark.Lost? && !sent)
    ensures t.workers == if f.readBack.NoFault? && !f.enqueue.Lost? then seq(5 * n, _ => Queued) else []
  {
    var fs, u := WholeSubmit(n, f);
    OneSchedule(SubmitScript(f), Init(n, true), es, t, fs, u);
  }

  /** The tables and items after Submit's statements: the job, its rows and its items
      are there as the one run es of the script says, and nothing else has changed. */
  predicate Persisted(before: Tables, items: seq<QueueItem>, id: JobId, tuples: seq<GeneratedPair>, f: SubmitFaults,
                      es: Events, t: St, after: Tables, items': seq<QueueItem>)
  {
    if f.create.Lost? then after == before && items' == items
    else
      && Schedule(SubmitScript(f), Init(|tuples|, f.create.NoFault?), es, t) && t.sub.Returned?
      && id in after.jobs && after.jobs == before.jobs[id := after.jobs[id]]
      && after.rows == before.rows + FreshRows(id, PairsOf(tuples))
      && View(after, id) == t.v
      && items' == items + if t.workers == [] then [] else NewItems(|before.rows|, id, PairsOf(tuples))
  }

  class Service {
    const repo: PostgresRepository
    const queue: RiverQueue
    const hubs: seq<string>

    constructor (repo: PostgresRepository, queue: RiverQueue, hubs: seq<string>)
      ensures this.repo == repo && this.queue == queue && this.hubs == hubs
    {
      this.repo, this.queue, this.hubs := repo, queue, hubs;
    }

    /** After the job's transaction: read the ids back, enqueue, mark running. */
    method Dispatch(id: JobId, ghost base: nat, tuples: seq<GeneratedPair>, f: SubmitFaults)
      returns (r: SubmitResult, ghost es: Events, ghost t: St)
      requires id in repo.jobs && View(repo.Contents(), id) == NewJob(|tuples|) && f.create.NoFault?
      requires base + |tuples| == |repo.rows|
      requires PendingOf(repo.rows, id)
               == seq(|tuples|, k requires 0 <= k < |tuples| => Result(base + k, FreshRow(id, PairsOf(tuples)[k])))
      modifies repo`jobs, queue
      ensures r == PersistResult(|tuples|, f)
      ensures r.Accepted? <==> f.readBack.NoFault? && (tuples == [] || f.enqueue.NoFault?) && f.mark.NoFault?
      ensures r.Accepted? <==> t.sub == Returned(true)
      ensures r.Accepted? ==> r.total == |tuples| && t.wrote.WroteRunning? && |t.workers| == MAX_ATTEMPTS * |tuples|
      ensures Schedule(SubmitScript(f), Init(|tuples|, true), es, t) && t.sub.Returned?
      ensures id in repo.jobs && repo.jobs == old(repo.jobs)[id := repo.jobs[id]]
      ensures repo.jobs[id].job == t.v.job && t.v.rows == NewJob(|tuples|).rows
      ensures t.workers == [] || |t.workers| == MAX_ATTEMPTS * |tuples|
      ensures queue.items == old(queue.items) + (if t.workers == [] then [] else NewItems(base, id, PairsOf(tuples)))
    {
      ghost var start := Init(|tuples|, true);
      AllSent(|tuples|);
      es, t := SubmitStatement(f, start, NoEvents, start, f.readBack);
      var inserted, fetched := repo.GetPendingResults(id, f.readBack);
      if !fetched {
        es, t := MarkFailedBestEffort(id, "fetch result ids", f, start, es, t);
        return NotFetched(|tuples|), es, t;
      }
      var enqueued := queue.EnqueueBatch(inserted, f.enqueue);
      assert seq(|inserted|, k requires 0 <= k < |inserted| => ItemFor(inserted[k]))
             == NewItems(base, id, PairsOf(tuples));
      es, t := SubmitStatement(f, start, es, t, f.enqueue);
      if !enqueued {
        es, t := MarkFailedBestEffort(id, "enqueue", f, start, es, t);
        return NotEnqueued(|tuples|), es, t;
      }
      var marked := repo.MarkJobStatus(id, JobStatus.Running, None, f.mark);
      es, t := SubmitStatement(f, start, es, t, f.mark);
      r := if marked then Accepted(|tuples|) else NotMarked(|tuples|);
    }

    /** Everything after tuple generation. */
    method Persist(id: JobId, tuples: seq<GeneratedPair>, f: SubmitFaults)
      returns (r: SubmitResult, ghost es: Events, ghost t: St)
      requires ForeignKeys(repo.Contents()) && id !in repo.jobs
      modifies repo, queue
      ensures r == PersistResult(|tuples|, f)
      ensures r.Accepted? <==>
        f.create.NoFault? && f.readBack.NoFault? && (tuples == [] || f.enqueue.NoFault?) && f.mark.NoFault?
      ensures r.Accepted? <==> t.sub == Returned(true)
      ensures r.Accepted? ==> r.total == |tuples| && t.wrote.WroteRunning? && |t.workers| == MAX_ATTEMPTS * |tuples|
      ensures Persisted(old(repo.Contents()), old(queue.items), id, tuples, f, es, t, repo.Contents(), queue.items)
    {
      ghost var before := repo.Contents();
      var pairs := PairsOf(tuples);
      es, t := NoEvents, Init(|tuples|, f.create.NoFault?);
      var created := repo.CreateJob(id, |tuples|, pairs, f.create);
      CreatedView(before, id, pairs);
      if !created {
        return NotPersisted, es, t;
      }
      FreshPending(before.rows, id, pairs);
      r, es, t := Dispatch(id, |before.rows|, tuples, f);
    }

    /** Its own error is only logged. */
    method MarkFailedBestEffort(id: JobId, cause: string, f: SubmitFaults, ghost s: St, ghost es: Events, ghost t: St)
      returns (ghost es': Events, ghost t': St)
      requires Schedule(SubmitScript(f), s, es, t) && t.sub.MarkingFailed?
      requires id in repo.jobs && repo.jobs[id].job == t.v.job
      modifies repo`jobs
      ensures Schedule(SubmitScript(f), s, es', t') && t'.sub == Returned(false)
      ensures t'.workers == t.workers && t'.v.rows == t.v.rows
      ensures id in repo.jobs && repo.jobs[id].job == t'.v.job
      ensures repo.jobs == if f.mark.Lost? then old(repo.jobs)
        else old(repo.jobs)[id := JobRow(SetStatus(old(View(repo.Contents(), id)), JobStatus.Failed).job, Some(cause))]
    {
      es', t' := SubmitStatement(f, s, es, t, f.mark);
      var _ := repo.MarkJobStatus(id, JobStatus.Failed, Some(cause), f.mark);
    }

    /** On success the rows are exactly the wanted tuples of the request, none twice,
        the new queue items are theirs in order, and their number is total_pairs and
        at most 5000.  A request that is refused changes nothing. */
    method Submit(id: JobId, req: Request, airports: Option<seq<Geo.Airport>>, graph: Option<Routes.RouteGraph>,
                  dist: Geo.Metric, f: SubmitFaults)
      returns (r: SubmitResult, ghost tuples: seq<GeneratedPair>, ghost es: Events, ghost t: St)
      requires ForeignKeys(repo.Contents()) && id !in repo.jobs
      modifies repo, queue
      ensures r.Rejected? <==> TupleFailure(req, airports, graph).Some?
      ensures r.Rejected? ==> r.error == TupleFailure(req, airports, graph).value
      ensures r.Rejected? || r.TooManyPairs? ==>
        repo.Contents() == old(repo.Contents()) && queue.items == old(queue.items)
      ensures !r.Rejected? ==>
        ExactTuples(tuples, World(airports.value, graph.value, hubs, dist), req,
                    Parse(req.departFrom).value, Parse(req.departTo).value)
      ensures !r.Rejected? ==> (r.TooManyPairs? <==> |tuples| > 5000)
      ensures !r.Rejected? && !r.TooManyPairs? ==>
        && r == PersistResult(|tuples|, f)
        && (r.Accepted? <==> t.sub == Returned(true))
        && (r.Accepted? <==>
              f.create.NoFault? && f.readBack.NoFault? && (tuples == [] || f.enqueue.NoFault?) && f.mark.NoFault?)
        && Persisted(old(repo.Contents()), old(queue.items), id, tuples, f, es, t, repo.Contents(), queue.items)
      ensures r.Accepted? ==>
        && r.total == |tuples| && t.wrote.WroteRunning? && |t.workers| == MAX_ATTEMPTS * |tuples|
        && queue.items == old(queue.items) + NewItems(|old(repo.rows)|, id, PairsOf(tuples))
    {
      tuples, es, t := [], NoEvents, Init(0, true);
      var generated := GenerateTuples(req, airports, graph, hubs, dist);
      if generated.Fails? {
        return Rejected(generated.error), tuples, es, t;
      }
      tuples := generated.tuples;
      if |generated.tuples| > MAX_PAIRS {
        return TooManyPairs(|generated.tuples|), tuples, es, t;
      }
      r, es, t := Persist(id, generated.tuples, f);
    }
  }
}
