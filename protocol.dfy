/**
 Both sides together: what one announcement, one command and one status
 report do when they travel between a worker and the monitor. A message
 published to a queue is taken to be delivered to its consumer unchanged.
 */
module Protocol {
  import opened WorkerModel
  import opened Broker
  import opened MonitorService
  import opened WorkerAgent

  /** A worker announces itself, the monitor toggles it on, the worker applies the command
      and reports once; the monitor's copy then shows the advanced counter. */
  lemma FullCycle(t0: Instant, t1: Instant)
    ensures
      var w := InitialWorker("w1", "worker_w1", t0);
      var s1 := RegStep(Initial, w);
      var s2 := CmdTick(s1, "w1");
      var command := s2.published[0];
      var local := command.body;
      var report := StatusTick(local, t1);
      var s3 := StatusStep(s2, report);
      && s1.workers.Keys == {"w1"} && s1.declared == ["worker_cmd_w1"]
      && command == Message("worker_cmd_w1", w.(active := true))
      && Diff(w, local) == [Active]
      && report == w.(active := true, counter := 1, timestamp := t1)
      && s3.workers["w1"].counter == 1 && s3.workers["w1"].active
  {
    var w := InitialWorker("w1", "worker_w1", t0);
    assert w.queueCmd == "worker_cmd_w1";
    DiffOfToggle(w);
  }

  /** The monitor's copy lags the worker's, and a command carries the whole copy: a worker
      that has ticked past its last report gets its counter moved back when the next
      toggle arrives. */
  lemma StaleCommandRewindsCounter(t0: Instant, t1: Instant, t2: Instant)
    ensures
      var w := InitialWorker("w1", "worker_w1", t0);
      var s2 := CmdTick(RegStep(Initial, w), "w1");
      var report := StatusTick(s2.published[0].body, t1);
      var s3 := StatusStep(s2, report);
      var local := StatusTick(report, t2);
      var s4 := CmdTick(s3, "w1");
      var command := s4.published[1].body;
      && local.counter == 2
      && command.counter == 1
      && Counter in Diff(local, command)
  {
    var w := InitialWorker("w1", "worker_w1", t0);
    var s2 := CmdTick(RegStep(Initial, w), "w1");
    var report := StatusTick(s2.published[0].body, t1);
    var local := StatusTick(report, t2);
    var command := CmdTick(StatusStep(s2, report), "w1").published[1].body;
    assert Get(local, Counter) != Get(command, Counter);
    AllFieldsExactlyOnce();
    DiffOverMembers(local, command, AllFields);
  }
}
