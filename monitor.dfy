/**
 The monitor process: the registration handler, the status handler, the
 command publisher and one tick of the periodic command sender. Each handler
 or tick is one atomic step over the registry and the command channel's logs;
 `MonitorState` is that pair as a value and the step functions below say what
 each handler does to it.
 */
module MonitorService {
  import opened WorkerModel
  import opened MonitorModel
  import opened Broker

  /** The registry, the command channel's declaration and publish logs, and the records
      that were newly registered, in the order they were registered. */
  datatype MonitorState = MonitorState(
    workers: map<string, Worker>,
    declared: seq<string>,
    published: seq<Message>,
    registrations: seq<Worker>)

  /** The state at start-up: no worker known, nothing declared, published or registered. */
  const Initial: MonitorState := MonitorState(map[], [], [], [])

  /** Handling one registration message carrying `w`. */
  function RegStep(s: MonitorState, w: Worker): (r: MonitorState)
    ensures r.workers == Registered(s.workers, w)
    ensures r.declared == s.declared + (if w.id in s.workers then [] else [w.queueCmd])
    ensures r.published == s.published
    ensures r.registrations == s.registrations + (if w.id in s.workers then [] else [w])
    ensures w.id in s.workers ==> r == s
  {
    if w.id !in s.workers then
      MonitorState(Registered(s.workers, w), s.declared + [w.queueCmd], s.published, s.registrations + [w])
    else
      s
  }

  /** Handling one status message carrying `w`. */
  function StatusStep(s: MonitorState, w: Worker): (r: MonitorState)
    ensures r.workers.Keys == s.workers.Keys && |r.workers| == |s.workers|
    ensures w.id in s.workers ==> r.workers[w.id] == w
    ensures forall k :: k in s.workers && k != w.id ==> r.workers[k] == s.workers[k]
    ensures w.id !in s.workers ==> r == s
    ensures r.declared == s.declared && r.published == s.published && r.registrations == s.registrations
  {
    if w.id in s.workers then s.(workers := Updated(s.workers, w)) else s
  }

  /** One tick of the command sender, with `choice` standing for the random pick. */
  function CmdTick(s: MonitorState, choice: string): (r: MonitorState)
    requires s.workers != map[] ==> choice in s.workers
    ensures s.workers == map[] ==> r == s
    ensures s.workers != map[] ==>
      && r.workers.Keys == s.workers.Keys
      && r.workers[choice].active == !s.workers[choice].active
      && r.workers[choice].(active := s.workers[choice].active) == s.workers[choice]
      && (forall k :: k in s.workers && k != choice ==> r.workers[k] == s.workers[k])
      && r.declared == s.declared
      && r.published == s.published + [Message(r.workers[choice].queueCmd, r.workers[choice])]
      && r.registrations == s.registrations
  {
    if s.workers != map[] then
      var target := s.workers[choice].(active := !s.workers[choice].active);
      s.(workers := s.workers[choice := target], published := s.published + [Message(target.queueCmd, target)])
    else
      s
  }

  /** Registering the same record n >= 1 times. */
  function RegRepeat(s: MonitorState, w: Worker, n: nat): (r: MonitorState)
    decreases n
  {
    if n == 0 then s else RegStep(RegRepeat(s, w, n - 1), w)
  }

  /** Delivering one registration message any number of times has the effect of delivering it once:
      one registry entry, and at most one declaration of its command queue. */
  lemma {:induction false} RegRepeatIsRegOnce(s: MonitorState, w: Worker, n: nat)
    requires n >= 1
    ensures RegRepeat(s, w, n) == RegStep(s, w)
    ensures |RegRepeat(s, w, n).declared| == |s.declared| + (if w.id in s.workers then 0 else 1)
  {
    if n > 1 {
      RegRepeatIsRegOnce(s, w, n - 1);
      assert w.id in RegStep(s, w).workers;
    }
  }

  /** The i-th declaration is the command queue of the i-th newly registered record, and the
      registered records carry distinct ids that are exactly `ids`. */
  ghost predicate Provisioned(ids: set<string>, declared: seq<string>, regs: seq<Worker>) {
    && |declared| == |regs|
    && (forall i :: 0 <= i < |regs| ==> declared[i] == regs[i].queueCmd && regs[i].id in ids)
    && (forall i, j :: 0 <= i < j < |regs| ==> regs[i].id != regs[j].id)
    && (forall k :: k in ids ==> exists i :: 0 <= i < |regs| && regs[i].id == k)
  }

  /** Registering a record with a new id, declaring its command queue, keeps the log provisioned. */
  lemma ProvisionNew(ids: set<string>, declared: seq<string>, regs: seq<Worker>, w: Worker)
    requires Provisioned(ids, declared, regs) && w.id !in ids
    ensures Provisioned(ids + {w.id}, declared + [w.queueCmd], regs + [w])
  {
    var regs', declared' := regs + [w], declared + [w.queueCmd];
    forall i | 0 <= i < |regs'|
      ensures declared'[i] == regs'[i].queueCmd && regs'[i].id in ids + {w.id}
    {
      if i < |regs| {
        assert declared'[i] == declared[i] && regs'[i] == regs[i];
      }
    }
    forall k | k in ids + {w.id}
      ensures exists i :: 0 <= i < |regs'| && regs'[i].id == k
    {
      if k == w.id {
        assert regs'[|regs|].id == k;
      } else {
        var i :| 0 <= i < |regs| && regs[i].id == k;
        assert regs'[i].id == k;
      }
    }
  }

  /** Entries are keyed by id, there are as many declarations as entries, and every registered
      worker had the command queue it announced declared exactly once, in registration order. */
  ghost predicate Consistent(s: MonitorState) {
    && KeyedById(s.workers)
    && |s.declared| == |s.workers|
    && Provisioned(s.workers.Keys, s.declared, s.registrations)
  }

  /** Every registry entry's command queue was declared, and so was every queue a command went to. */
  ghost predicate Routable(s: MonitorState) {
    && (forall k :: k in s.workers ==> s.workers[k].queueCmd in s.declared)
    && (forall i :: 0 <= i < |s.published| ==> s.published[i].routingKey in s.declared)
  }

  lemma InitialIsConsistentAndRoutable()
    ensures Consistent(Initial) && Routable(Initial)
  {
  }

  /** Registration declares the new worker's queue in the same step that registers it. */
  lemma RegStepPreserves(s: MonitorState, w: Worker)
    ensures Consistent(s) ==> Consistent(RegStep(s, w))
    ensures Routable(s) ==> Routable(RegStep(s, w))
  {
    if Consistent(s) && w.id !in s.workers {
      ProvisionNew(s.workers.Keys, s.declared, s.registrations, w);
    }
  }

  /** A status report never adds an entry, so each entry stays provisioned exactly once. */
  lemma StatusStepPreserves(s: MonitorState, w: Worker)
    ensures Consistent(s) ==> Consistent(StatusStep(s, w))
    ensures Routable(s) && (w.id in s.workers ==> w.queueCmd == s.workers[w.id].queueCmd) ==>
      Routable(StatusStep(s, w))
  {
  }

  /** A command goes to a queue that was declared when its target registered. */
  lemma CmdTickPreserves(s: MonitorState, choice: string)
    requires s.workers != map[] ==> choice in s.workers
    ensures Consistent(s) ==> Consistent(CmdTick(s, choice))
    ensures Routable(s) ==> Routable(CmdTick(s, choice))
  {
  }

  /** A status report naming a different command queue leaves a registry entry whose queue was never declared. */
  lemma StatusCanRedirectCommands()
    ensures var w := Worker("w1", "worker_w1", RegistrationQueue, CommandQueuePrefix + "w1", StatusQueue);
            var s := RegStep(Initial, w);
            Routable(s) && !Routable(StatusStep(s, w.(queueCmd := "elsewhere")))
  {
  }

  /** The inbound events the monitor handles. */
  datatype Event = Registration(announced: Worker) | Status(report: Worker) | Command(choice: string)

  /** A command tick needs its pick to be a registered id when there is one. */
  predicate Enabled(s: MonitorState, e: Event) {
    e.Command? ==> (s.workers != map[] ==> e.choice in s.workers)
  }

  function Apply(s: MonitorState, e: Event): (r: MonitorState)
    requires Enabled(s, e)
  {
    match e
    case Registration(w) => RegStep(s, w)
    case Status(w) => StatusStep(s, w)
    case Command(k) => CmdTick(s, k)
  }

  /** Handling the events `es` in order takes `s` to `t`. */
  ghost predicate Reaches(s: MonitorState, es: seq<Event>, t: MonitorState)
    decreases |es|
  {
    if es == [] then t == s else Enabled(s, es[0]) && Reaches(Apply(s, es[0]), es[1..], t)
  }

  /** The ids announced by the registration events of `es`. */
  function AnnouncedIds(es: seq<Event>): (ids: set<string>) {
    if es == [] then {}
    else (if es[0].Registration? then {es[0].announced.id} else {}) + AnnouncedIds(es[1..])
  }

  /** One handled event keeps the state consistent. */
  lemma ApplyPreserves(s: MonitorState, e: Event)
    requires Enabled(s, e)
    requires Consistent(s)
    ensures Consistent(Apply(s, e))
  {
    match e
    case Registration(w) => RegStepPreserves(s, w);
    case Status(w) => StatusStepPreserves(s, w);
    case Command(k) => CmdTickPreserves(s, k);
  }

  /** One handled event adds at most the id it announces, and only appends to the logs. */
  lemma ApplyGrows(s: MonitorState, e: Event)
    requires Enabled(s, e)
    ensures Apply(s, e).workers.Keys == s.workers.Keys + (if e.Registration? then {e.announced.id} else {})
    ensures s.declared <= Apply(s, e).declared && s.published <= Apply(s, e).published
    ensures s.registrations <= Apply(s, e).registrations
  {
  }

  /** Over any run, every registered worker keeps exactly one declaration, that of the command queue it announced. */
  lemma {:induction false} RunConsistent(s: MonitorState, es: seq<Event>, t: MonitorState)
    requires Reaches(s, es, t)
    requires Consistent(s)
    ensures Consistent(t)
    decreases |es|
  {
    if es != [] {
      ApplyPreserves(s, es[0]);
      RunConsistent(Apply(s, es[0]), es[1..], t);
    }
  }

  /** Over any run, the monitor learns ids only from registrations, never forgets one, and
      only appends to its logs. */
  lemma {:induction false} RunGrowsOnlyByRegistration(s: MonitorState, es: seq<Event>, t: MonitorState)
    requires Reaches(s, es, t)
    ensures t.workers.Keys == s.workers.Keys + AnnouncedIds(es)
    ensures s.declared <= t.declared && s.published <= t.published
    ensures s.registrations <= t.registrations
    decreases |es|
  {
    if es != [] {
      ApplyGrows(s, es[0]);
      RunGrowsOnlyByRegistration(Apply(s, es[0]), es[1..], t);
    }
  }

  class MonitorProcess {
    const monitor: Monitor
    const cmdChannel: Channel
    /** The records registered so far, in order; the source keeps no such list. */
    ghost var registrations: seq<Worker>

    ghost predicate Valid()
      reads monitor
    {
      monitor.Valid()
    }

    /** The process state as a value. */
    ghost function State(): MonitorState
      reads this, monitor, cmdChannel
    {
      MonitorState(monitor.workers, cmdChannel.declared, cmdChannel.published, registrations)
    }

    /** The monitor named after its host, listening on the two shared queues. */
    constructor (hostname: string, name: string)
      ensures Valid() && fresh(monitor) && fresh(cmdChannel)
      ensures State() == Initial
      ensures monitor.id == hostname && monitor.name == name
      ensures monitor.queueReg == RegistrationQueue && monitor.queueStt == StatusQueue
    {
      monitor := new Monitor(hostname, name, RegistrationQueue, StatusQueue);
      cmdChannel := new Channel();
      registrations := [];
    }

    /** Registers an unknown worker and declares its command queue; a known one is skipped. */
    method RegCallback(worker: Worker)
      requires Valid()
      modifies this, monitor, cmdChannel
      ensures Valid()
      ensures State() == RegStep(old(State()), worker)
    {
      if !monitor.CheckWorker(worker) {
        monitor.RegisterWorker(worker);
        cmdChannel.QueueDeclare(worker.queueCmd);
        registrations := registrations + [worker];
      }
    }

    /** Publishes the full record to the worker's own command queue. */
    method SendCmd(worker: Worker)
      modifies cmdChannel
      ensures cmdChannel.published == old(cmdChannel.published) + [Message(worker.queueCmd, worker)]
      ensures cmdChannel.declared == old(cmdChannel.declared)
    {
      cmdChannel.BasicPublish(worker.queueCmd, worker);
    }

    /** One tick of the command sender: toggles the chosen worker in place and sends it. */
    method CmdSenderTick(choice: string)
      requires Valid()
      requires monitor.workers != map[] ==> choice in monitor.workers
      modifies monitor, cmdChannel
      ensures Valid()
      ensures State() == CmdTick(old(State()), choice)
    {
      if monitor.workers != map[] {
        var target := monitor.workers[choice];
        target := target.(active := !target.active);
        // the record inside the registry is the one that is flipped
        monitor.workers := monitor.workers[choice := target];
        SendCmd(target);
      }
    }

    /** Merges a status report, but only for a registered worker. */
    method SttCallback(updatedWorker: Worker)
      requires Valid()
      modifies monitor
      ensures Valid()
      ensures State() == StatusStep(old(State()), updatedWorker)
    {
      if monitor.CheckWorker(updatedWorker) {
        monitor.UpdateWorker(updatedWorker);
      }
    }
  }
}
