/**
 The worker process: its local record, the one-off announcement, the
 field-by-field application of a command, and one tick of the periodic
 status sender. Each callback or tick is one atomic step.
 */
module WorkerAgent {
  import opened WorkerModel
  import opened Broker

  /** The record a worker starts with, named after its host. */
  function InitialWorker(hostname: string, name: string, now: Instant): (w: Worker)
    ensures w.id == hostname && w.name == name
    ensures w.queueCmd == CommandQueuePrefix + w.id
    ensures w.queueReg == RegistrationQueue && w.queueStt == StatusQueue
    ensures w.counter == 0 && w.timestamp == now && !w.active
  {
    Worker(hostname, name, RegistrationQueue, CommandQueuePrefix + hostname, StatusQueue, 0, now, false)
  }

  /** The local record after one status tick at time `now`. */
  function StatusTick(w: Worker, now: Instant): (r: Worker)
    ensures r.counter >= w.counter
    ensures w.active ==> r.counter == w.counter + 1 && r.timestamp == now
    ensures r.(counter := w.counter, timestamp := w.timestamp) == w
    ensures !w.active ==> r == w
  {
    if w.active then w.(counter := w.counter + 1, timestamp := now) else w
  }

  /** The local record after one status tick at each time of `nows`, in order. */
  function StatusTicks(w: Worker, nows: seq<Instant>): (r: Worker)
    decreases |nows|
  {
    if nows == [] then w else StatusTicks(StatusTick(w, nows[0]), nows[1..])
  }

  /** Ticking never changes `active`, so an active worker advances its counter by one per tick
      and an inactive one not at all; identity and addresses never change. */
  lemma {:induction false} StatusTicksCount(w: Worker, nows: seq<Instant>)
    ensures StatusTicks(w, nows).counter == w.counter + (if w.active then |nows| else 0)
    ensures StatusTicks(w, nows).counter >= w.counter
    ensures StatusTicks(w, nows).(counter := w.counter, timestamp := w.timestamp) == w
    ensures !w.active ==> StatusTicks(w, nows) == w
    decreases |nows|
  {
    if nows != [] {
      StatusTicksCount(StatusTick(w, nows[0]), nows[1..]);
    }
  }

  /** Applying a command that carries the current record changes and logs nothing. */
  lemma SecondCommandIsNoOp(u: Worker)
    ensures Diff(u, u) == []
  {
    DiffEmptyIffEqual(u, u);
  }

  class Agent {
    var worker: Worker
    const channel: Channel

    /** The worker as it starts on host `hostname` at time `now`, having declared its
        registration queue, its own command queue and the status queue, in that order. */
    constructor (hostname: string, name: string, now: Instant)
      ensures worker == InitialWorker(hostname, name, now)
      ensures fresh(channel) && channel.published == []
      ensures channel.declared == [RegistrationQueue, CommandQueuePrefix + hostname, StatusQueue]
    {
      var w := InitialWorker(hostname, name, now);
      var c := new Channel();
      c.QueueDeclare(w.queueReg);
      c.QueueDeclare(w.queueCmd);
      c.QueueDeclare(w.queueStt);
      worker := w;
      channel := c;
    }

    /** Announces the local record on the registration queue. */
    method RegWorker()
      modifies channel
      ensures channel.published == old(channel.published) + [Message(worker.queueReg, worker)]
      ensures channel.declared == old(channel.declared)
    {
      channel.BasicPublish(worker.queueReg, worker);
    }

    /** Overwrites, field by field in declaration order, every field in which the local record
        differs from `updatedWorker`, and returns the names of the overwritten fields. */
    method CmdCallback(updatedWorker: Worker) returns (logged: seq<Field>)
      modifies this
      ensures worker == updatedWorker
      ensures logged == Diff(old(worker), updatedWorker)
    {
      AllFieldsExactlyOnce();
      logged := ReconcileFields(updatedWorker, AllFields);
      FieldsDetermineWorker(worker, updatedWorker);
    }

    /** The loop of the command handler over the field names `fields`: each field whose local
        value differs from the incoming one is overwritten and logged. */
    method ReconcileFields(updatedWorker: Worker, fields: seq<Field>) returns (logged: seq<Field>)
      requires Distinct(fields)
      modifies this
      ensures forall f :: f in fields ==> Get(worker, f) == Get(updatedWorker, f)
      ensures forall f :: f !in fields ==> Get(worker, f) == Get(old(worker), f)
      ensures logged == DiffOver(old(worker), updatedWorker, fields)
    {
      ghost var was := worker;
      logged := [];
      var i := 0;
      while i < |fields|
        invariant 0 <= i <= |fields|
        invariant forall f :: f in fields[..i] ==> Get(worker, f) == Get(updatedWorker, f)
        invariant forall f :: f !in fields[..i] ==> Get(worker, f) == Get(was, f)
        invariant logged + DiffOver(was, updatedWorker, fields[i..]) == DiffOver(was, updatedWorker, fields)
      {
        var field := fields[i];
        DiffOverStep(was, updatedWorker, fields, i);
        assert fields[..i + 1] == fields[..i] + [field];
        assert field !in fields[..i];
        var value := Get(worker, field);
        var updatedValue := Get(updatedWorker, field);
        if value != updatedValue {
          logged := logged + [field];
          worker := Set(worker, field, updatedValue);
        }
        i := i + 1;
      }
      assert fields[..i] == fields;
    }

    /** One tick of the status sender: an active worker advances its counter, stamps the time
        and reports on the status queue; an inactive one does nothing. */
    method SttSenderTick(now: Instant)
      modifies this, channel
      ensures worker == StatusTick(old(worker), now)
      ensures channel.published ==
        old(channel.published) + (if old(worker).active then [Message(worker.queueStt, worker)] else [])
      ensures channel.declared == old(channel.declared)
    {
      if worker.active {
        worker := worker.(counter := worker.counter + 1);
        worker := worker.(timestamp := now);
        channel.BasicPublish(worker.queueStt, worker);
      }
    }
  }
}
