/** The ARINC 653 services the harness provides to its partition
(`ArincProvider for Arc<PartitionContext>`), as far as they decide
anything: process creation and start, the switch to NORMAL mode, and the
sampling-port services.

The locks around the tables are left out: each service is one step on a
Partition value. A panic (an `unwrap` on None or on an error) is the
`Panic` error value, and the partition is left as it was. Logging services
(`report_application_message`, `raise_application_error`) only log and are
not modelled.
 */
module Partition {
  import opened Wrappers
  import opened Ints
  import opened Ascii
  import PT = ProcessTable
  import Ch = Channel

  datatype OperatingMode = Idle | ColdStart | WarmStart | Normal

  datatype Partition = Partition(
    configuredPorts: seq<Ch.Port>,
    samplingPorts: Ch.SamplingPortTable,
    processes: PT.ProcessTable,
    mode: OperatingMode)

  datatype ProviderError =
    | ProcessFailed(pe: PT.ProcessError)
    | PortNotDefined(name: string)
    | ChannelFailed(ce: Ch.ChannelError)
    | NoSamplingPort(sid: I64)
    /** A panic of the harness, modelled as a value. */
    | Panic

  /** `create_process`: `insert(...).unwrap()`, so a process whose name
      equals an existing one ignoring ASCII case panics; otherwise the new,
      disabled process gets the next pid. */
  function CreateProcess(s: Partition, attr: PT.ProcessAttribute): (r: (Result<nat, ProviderError>, Partition))
    ensures r.0.Err? <==> PT.Contains(s.processes, PT.NewProcess(attr))
    ensures r.0.Err? ==> r.0.error == Panic && r.1 == s
    ensures r.0.Ok? ==> && r.0.value == |s.processes.procs|
                        && r.1 == s.(processes := PT.ProcessTable(s.processes.procs + [PT.NewProcess(attr)]))
  {
    var (res, table) := PT.Insert(s.processes, PT.NewProcess(attr));
    if res.Err? then (Err(Panic), s)
    else (Ok(res.value), s.(processes := table))
  }

  /** `start`: `get_from_pid_mut(pid).unwrap().enable()`: an unknown pid
      panics; otherwise exactly that process becomes enabled. */
  function Start(s: Partition, pid: I64): (r: (Outcome<ProviderError>, Partition))
    ensures r.0.Fail? <==> PT.GetFromPid(s.processes, pid).None?
    ensures r.0.Fail? ==> r.0.error == Panic && r.1 == s
    ensures r.0.Pass? ==> r.1 == s.(processes := PT.EnablePid(s.processes, pid).value)
  {
    match PT.EnablePid(s.processes, pid)
    case None => (Fail(Panic), s)
    case Some(table) => (Pass, s.(processes := table))
  }

  /** A process created and then started is enabled and not yet running. */
  lemma CreateThenStart(s: Partition, attr: PT.ProcessAttribute)
    requires CreateProcess(s, attr).0.Ok? && |s.processes.procs| < ISIZE_MAX
    ensures var (pid, s1) := (CreateProcess(s, attr).0.value, CreateProcess(s, attr).1);
            var (out, s2) := Start(s1, pid);
            out.Pass? && PT.GetFromPid(s2.processes, pid) == Some(PT.Process(attr, None, true))
  {
  }

  /** How a spawn error reaches the guest: an error of `spawn` is returned
      by `set_partition_mode`, a panic in `instantiate_process` is a panic. */
  function SpawnErrorToProvider(e: PT.ProcessError): (r: ProviderError)
    ensures r == Panic <==> e.Panicked?
    ensures !e.Panicked? ==> r == ProcessFailed(e)
  {
    if e.Panicked? then Panic else ProcessFailed(e)
  }

  /** `set_partition_mode`: only NORMAL does anything. It spawns every
      enabled process and then records NORMAL. The first failing spawn ends
      the call with the mode unchanged and the threads spawned so far kept:
      an error is returned, a panic of `instantiate_process` (a full slot
      table, say) is the `Panic` value. Waiting for the shutdown signal
      afterwards is not modelled. */
  method SetPartitionMode(s: Partition, mode: OperatingMode, launch: nat -> PT.Launch)
    returns (r: Outcome<ProviderError>, s': Partition)
    ensures mode != Normal ==> r.Pass? && s' == s
    ensures |s'.processes.procs| == |s.processes.procs|
    ensures mode == Normal && r.Pass? ==> s'.mode == Normal
    ensures mode == Normal && r.Pass? ==> forall i :: 0 <= i < |s.processes.procs| && s.processes.procs[i].enabled ==>
              PT.Launched(launch(i)) && s'.processes.procs[i].handle == launch(i).thread
    ensures mode == Normal && r.Fail? ==> s'.mode == s.mode
    ensures mode == Normal && r.Fail? ==> exists k :: (0 <= k < |s.processes.procs| && s.processes.procs[k].enabled
              && PT.Spawn(s.processes.procs[k], launch(k)).Err?
              && r.error == SpawnErrorToProvider(PT.Spawn(s.processes.procs[k], launch(k)).error)
              && (forall i :: 0 <= i < k && s.processes.procs[i].enabled ==> PT.Spawn(s.processes.procs[i], launch(i)).Ok?)
              && (forall i :: 0 <= i < k ==> PT.SpawnedAt(s.processes.procs, s'.processes.procs, i, launch))
              && (forall i :: k <= i < |s.processes.procs| ==> s'.processes.procs[i] == s.processes.procs[i]))
    ensures s'.configuredPorts == s.configuredPorts && s'.samplingPorts == s.samplingPorts
    ensures mode == Normal ==> forall i :: 0 <= i < |s.processes.procs| && !s.processes.procs[i].enabled ==>
              s'.processes.procs[i] == s.processes.procs[i]
  {
    if mode != Normal {
      return Pass, s;
    }
    var out, table := PT.SpawnAll(s.processes, launch);
    if out.Fail? {
      var k :| 0 <= k < |s.processes.procs| && s.processes.procs[k].enabled
               && PT.Spawn(s.processes.procs[k], launch(k)) == Err(out.error)
               && (forall i :: 0 <= i < k ==> PT.SpawnedAt(s.processes.procs, table.procs, i, launch))
               && (forall i :: k <= i < |s.processes.procs| ==> table.procs[i] == s.processes.procs[i]);
      forall i | 0 <= i < k && s.processes.procs[i].enabled
        ensures PT.Spawn(s.processes.procs[i], launch(i)).Ok?
      {
        assert PT.SpawnedAt(s.processes.procs, table.procs, i, launch);
      }
      return Fail(SpawnErrorToProvider(out.error)), s.(processes := table);
    }
    forall i | 0 <= i < |s.processes.procs| && s.processes.procs[i].enabled
      ensures PT.Launched(launch(i)) && table.procs[i].handle == launch(i).thread
    {
      assert PT.SpawnedAt(s.processes.procs, table.procs, i, launch);
    }
    return Pass, s.(processes := table, mode := Normal);
  }

  /** The configuration's port lookup in `create_sampling_port`: the first
      configured port whose name equals `name` ignoring ASCII case. */
  function FindConfiguredPort(ports: seq<Ch.Port>, name: string): (r: Option<Ch.Port>)
    ensures r.None? <==> forall i :: 0 <= i < |ports| ==> !EqIgnoreAsciiCase(ports[i].name, name)
    ensures r.Some? ==> exists i :: 0 <= i < |ports| && ports[i] == r.value
                          && EqIgnoreAsciiCase(ports[i].name, name)
                          && forall j :: 0 <= j < i ==> !EqIgnoreAsciiCase(ports[j].name, name)
    decreases |ports|
  {
    if ports == [] then None
    else if EqIgnoreAsciiCase(ports[0].name, name) then Some(ports[0])
    else
      var rest := FindConfiguredPort(ports[1..], name);
      assert forall i :: 1 <= i < |ports| ==> ports[i] == ports[1..][i - 1];
      if rest.Some? then
        var i :| 0 <= i < |ports[1..]| && ports[1..][i] == rest.value
                 && EqIgnoreAsciiCase(ports[1..][i].name, name)
                 && forall j :: 0 <= j < i ==> !EqIgnoreAsciiCase(ports[1..][j].name, name);
        assert ports[i + 1] == rest.value;
        rest
      else rest
  }

  /** How a channel error reaches the guest: a panic while setting up the
      socket is a panic, every other error is returned. */
  function ChannelErrorToProvider(e: Ch.ChannelError): (r: ProviderError)
    ensures r == Panic <==> e.Panic?
    ensures !e.Panic? ==> r == ChannelFailed(e)
  {
    if e.Panic? then Panic else ChannelFailed(e)
  }

  /** `create_sampling_port`: the configured port must exist; the new port
      is set up and then inserted, which fails if a port of that name was
      already created. A source port whose bind or connect fails panics. */
  function CreateSamplingPort(s: Partition, name: string, maxSize: Usize, direction: Ch.PortDirection,
                              refresh: Ch.Duration, setup: Ch.Setup, now: Ch.Instant)
    : (r: (Result<nat, ProviderError>, Partition))
    ensures FindConfiguredPort(s.configuredPorts, name).None? ==> r == (Err(PortNotDefined(name)), s)
    ensures r.0.Err? ==> r.1 == s
    ensures r.0.Ok? <==> var cfg := FindConfiguredPort(s.configuredPorts, name);
              && cfg.Some? && setup == Ch.Ready
              && !Ch.Contains(s.samplingPorts, Ch.NewSamplingPort(cfg.value, direction, maxSize, refresh, setup, now).value)
    ensures r.0 == Err(Panic) <==> && FindConfiguredPort(s.configuredPorts, name).Some?
                                   && direction == Ch.Source && setup == Ch.BindFailed
    ensures r.0.Ok? ==> var cfg := FindConfiguredPort(s.configuredPorts, name);
              && cfg.Some? && setup == Ch.Ready
              && r.0.value == |s.samplingPorts.ports|
              && |r.1.samplingPorts.ports| == |s.samplingPorts.ports| + 1
              && r.1.samplingPorts.ports[r.0.value].config == cfg.value
              && r.1.samplingPorts.ports[r.0.value].lastMsg.bytes == []
              && r.1.processes == s.processes && r.1.mode == s.mode
    ensures r.0.Ok? ==> var cfg := FindConfiguredPort(s.configuredPorts, name);
              && cfg.Some?
              && r.1 == s.(samplingPorts := Ch.SamplingPortTable(s.samplingPorts.ports
                             + [Ch.NewSamplingPort(cfg.value, direction, maxSize, refresh, setup, now).value]))
  {
    match FindConfiguredPort(s.configuredPorts, name)
    case None => (Err(PortNotDefined(name)), s)
    case Some(cfg) =>
      match Ch.NewSamplingPort(cfg, direction, maxSize, refresh, setup, now)
      case Err(e) => (Err(ChannelErrorToProvider(e)), s)
      case Ok(port) =>
        var (res, table) := Ch.Insert(s.samplingPorts, port);
        if res.Err? then (Err(ChannelFailed(res.error)), s)
        else (Ok(res.value), s.(samplingPorts := table))
  }

  /** Creating the same port twice, under any spelling of its name, fails
      the second time. */
  lemma SecondCreateFails(s: Partition, name1: string, name2: string, maxSize: Usize,
                          direction: Ch.PortDirection, refresh: Ch.Duration, now: Ch.Instant)
    requires EqIgnoreAsciiCase(name1, name2)
    requires CreateSamplingPort(s, name1, maxSize, direction, refresh, Ch.Ready, now).0.Ok?
    ensures var s1 := CreateSamplingPort(s, name1, maxSize, direction, refresh, Ch.Ready, now).1;
            CreateSamplingPort(s1, name2, maxSize, direction, refresh, Ch.Ready, now).0.Err?
  {
    var (res, s1) := CreateSamplingPort(s, name1, maxSize, direction, refresh, Ch.Ready, now);
    var cfg1 := FindConfiguredPort(s.configuredPorts, name1).value;
    var cfg2 := FindConfiguredPort(s.configuredPorts, name2);
    EqIgnoreAsciiCaseIsEquivalence(name1, name2, cfg1.name);
    assert cfg2.Some?;
    EqIgnoreAsciiCaseIsEquivalence(cfg2.value.name, name2, name1);
    EqIgnoreAsciiCaseIsEquivalence(cfg2.value.name, name1, cfg1.name);
    var port2 := Ch.NewSamplingPort(cfg2.value, direction, maxSize, refresh, Ch.Ready, now).value;
    assert Ch.SamePort(s1.samplingPorts.ports[res.value].config, port2.config);
    assert Ch.Contains(s1.samplingPorts, port2);
  }

  /** `write_sampling_message`: an unknown sid is an error; otherwise the
      port's write, which always succeeds. */
  function WriteSamplingMessage(s: Partition, sid: I64, msg: seq<U8>, sendOk: bool)
    : (r: (Outcome<ProviderError>, Partition))
    ensures r.0.Fail? <==> Ch.GetPort(s.samplingPorts, sid).None?
    ensures r.0.Fail? ==> r.0.error == NoSamplingPort(sid)
    ensures r.1 == s
  {
    match Ch.GetPort(s.samplingPorts, sid)
    case None => (Fail(NoSamplingPort(sid)), s)
    case Some(port) =>
      var (_, port') := Ch.Write(port, msg, sendOk);
      assert port' == port;
      (Pass, s)
  }

  /** `read_sampling_message`: an unknown sid is an error; otherwise the
      port's (possibly refreshed) last message with its validity at `now`. */
  function ReadSamplingMessage(s: Partition, sid: I64, recv: Ch.Recv, now: Ch.Instant)
    : (r: (Result<(Ch.SamplingMessage, Ch.Validity), ProviderError>, Partition))
    ensures r.0.Err? <==> Ch.GetPort(s.samplingPorts, sid).None?
    ensures r.0.Err? ==> r.0.error == NoSamplingPort(sid) && r.1 == s
    ensures r.0.Ok? ==> var port := Ch.GetPort(r.1.samplingPorts, sid);
              && port.Some? && r.0.value.0 == port.value.lastMsg
              && r.0.value.1 == Ch.MessageValidity(r.0.value.0, port.value.refresh, now)
    ensures r.1.processes == s.processes && r.1.mode == s.mode && r.1.configuredPorts == s.configuredPorts
    ensures |r.1.samplingPorts.ports| == |s.samplingPorts.ports|
    ensures forall i :: 0 <= i < |s.samplingPorts.ports| && i != I64AsUsize(sid) ==>
              r.1.samplingPorts.ports[i] == s.samplingPorts.ports[i]
    ensures r.0.Ok? ==> var before := Ch.GetPort(s.samplingPorts, sid).value;
                        var after := Ch.GetPort(r.1.samplingPorts, sid).value;
                        && after == before.(lastMsg := after.lastMsg)
                        && after == Ch.Read(before, recv, now).1
  {
    match Ch.GetPort(s.samplingPorts, sid)
    case None => (Err(NoSamplingPort(sid)), s)
    case Some(port) =>
      var (res, port') := Ch.Read(port, recv, now);
      var msg := res.value;
      (Ok((msg, Ch.MessageValidity(msg, port'.refresh, now))),
       s.(samplingPorts := Ch.PutPort(s.samplingPorts, sid, port')))
  }

  /** Reading twice with nothing received in between returns the same
      message; only its validity may change with time. */
  lemma RereadWithoutTrafficReturnsSameMessage(s: Partition, sid: I64, recv: Ch.Recv,
                                               now1: Ch.Instant, now2: Ch.Instant)
    requires ReadSamplingMessage(s, sid, recv, now1).0.Ok?
    ensures var (r1, s1) := ReadSamplingMessage(s, sid, recv, now1);
            var (r2, s2) := ReadSamplingMessage(s1, sid, Ch.RecvFailed, now2);
            r2.Ok? && r2.value.0 == r1.value.0
  {
  }
}
