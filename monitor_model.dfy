/**
 The monitor's registry: a map from worker id to the most recently known
 worker record, with membership tests, an insert-if-absent registration and
 an unconditional overwrite.
 */
module MonitorModel {
  import opened WorkerModel

  /** Every entry is stored under its own record's id. */
  ghost predicate KeyedById(workers: map<string, Worker>) {
    forall k :: k in workers ==> workers[k].id == k
  }

  /** The registry after registering `w`: inserted only if its id is absent. */
  function Registered(workers: map<string, Worker>, w: Worker): (r: map<string, Worker>)
    ensures r.Keys == workers.Keys + {w.id}
    ensures forall k :: k in workers ==> r[k] == workers[k]
    ensures w.id !in workers ==> r[w.id] == w
    ensures KeyedById(workers) ==> KeyedById(r)
  {
    if w.id !in workers then workers[w.id := w] else workers
  }

  /** The registry after storing `w` under its id, present or not. */
  function Updated(workers: map<string, Worker>, w: Worker): (r: map<string, Worker>)
    ensures r.Keys == workers.Keys + {w.id}
    ensures r[w.id] == w
    ensures forall k :: k in workers && k != w.id ==> r[k] == workers[k]
    ensures KeyedById(workers) ==> KeyedById(r)
  {
    workers[w.id := w]
  }

  /** Registering the same record twice is the same as registering it once. */
  lemma RegisteredIdempotent(workers: map<string, Worker>, w: Worker)
    ensures Registered(Registered(workers, w), w) == Registered(workers, w)
  {
  }

  /** A registration never replaces a stored record, whatever it carries. */
  lemma RegisteredKeepsStored(workers: map<string, Worker>, w: Worker)
    requires w.id in workers
    ensures Registered(workers, w) == workers
  {
  }

  /** An overwrite on an absent id inserts it, growing the registry by one. */
  lemma UpdatedInsertsAbsent(workers: map<string, Worker>, w: Worker)
    requires w.id !in workers
    ensures |Updated(workers, w)| == |workers| + 1
    ensures Updated(workers, w) == Registered(workers, w)
  {
  }

  class Monitor {
    const id: string
    const name: string
    var workers: map<string, Worker>
    const queueReg: string
    const queueStt: string

    /** The registry's object invariant: entries are keyed by their own id. */
    ghost predicate Valid()
      reads this
    {
      KeyedById(workers)
    }

    constructor (id: string, name: string, queueReg: string, queueStt: string)
      ensures Valid()
      ensures this.id == id && this.name == name
      ensures this.queueReg == queueReg && this.queueStt == queueStt
      ensures workers == map[]
    {
      this.id := id;
      this.name := name;
      this.queueReg := queueReg;
      this.queueStt := queueStt;
      workers := map[];
    }

    /** Is the given id a key of the registry? */
    predicate CheckWorkerById(workerId: string)
      reads this
      ensures Valid() ==> (CheckWorkerById(workerId) <==> exists w :: w in workers.Values && w.id == workerId)
    {
      assert workerId in workers ==> workers[workerId] in workers.Values;
      workerId in workers
    }

    /** Is the record's id a key of the registry? */
    predicate CheckWorker(worker: Worker)
      reads this
      ensures CheckWorker(worker) <==> CheckWorkerById(worker.id)
    {
      worker.id in workers
    }

    /** Adds `worker` if its id is not registered yet; a known id is left as stored. */
    method RegisterWorker(worker: Worker)
      requires Valid()
      modifies this
      ensures Valid()
      ensures workers == Registered(old(workers), worker)
    {
      if worker.id !in workers {
        workers := workers[worker.id := worker];
      }
    }

    /** Stores `worker` under its id, replacing or inserting. */
    method UpdateWorker(worker: Worker)
      requires Valid()
      modifies this
      ensures Valid()
      ensures workers == Updated(old(workers), worker)
    {
      workers := workers[worker.id := worker];
    }
  }
}
