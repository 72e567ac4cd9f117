/** Sampling ports of the harness (`SamplingPortTable`, `SamplingPort`,
`SamplingMessage`, `UdpPort`).

A sampling port keeps the last message it received and hands out copies of
it; a message is valid while its age does not exceed the port's refresh
period. The UDP socket is not modelled: what `recv` and `send` returned,
and whether the socket could be set up, are parameters. Time is an
`Instant` in nanoseconds on a monotonic clock, `now` a parameter.
 */
module Channel {
  import opened Wrappers
  import opened Ints
  import opened Ascii

  datatype PortDirection = Source | Destination

  datatype Protocol = Udp | Tcp

  /** An abstract socket address of the configuration. */
  type SocketAddr = nat

  /** `config::Port`: a named channel and the addresses it is bound to. */
  datatype Port = Port(name: string, addrs: seq<SocketAddr>, protocol: Protocol)

  /** `PartialEq for Port` (and therefore for `SamplingPort`): names equal
      ignoring ASCII case. */
  predicate SamePort(a: Port, b: Port)
  {
    EqIgnoreAsciiCase(a.name, b.name)
  }

  /** Nanoseconds on a monotonic clock. */
  type Instant = nat
  /** Nanoseconds. */
  type Duration = nat

  datatype SamplingMessage = SamplingMessage(bytes: seq<U8>, when: Instant)

  datatype Validity = Valid | Invalid

  /** `Instant::elapsed`: saturates at zero if `now` were earlier. */
  function Elapsed(when: Instant, now: Instant): (d: Duration)
    ensures now >= when ==> when + d == now
    ensures now < when ==> d == 0
  {
    if now >= when then now - when else 0
  }

  /** `SamplingMessage::validity`: Invalid iff strictly older than the
      refresh period; a message exactly `refresh` old is still valid. */
  function MessageValidity(msg: SamplingMessage, refresh: Duration, now: Instant): (v: Validity)
    ensures v == Invalid <==> now > msg.when + refresh
  {
    if Elapsed(msg.when, now) > refresh then Invalid else Valid
  }

  /** Validity only decays: a message that is invalid stays invalid later on. */
  lemma ValidityIsMonotone(msg: SamplingMessage, refresh: Duration, t1: Instant, t2: Instant)
    requires t1 <= t2 && MessageValidity(msg, refresh, t1) == Invalid
    ensures MessageValidity(msg, refresh, t2) == Invalid
  {
  }

  /** `SamplingMessage::default`: no bytes, stamped with the current time. */
  function DefaultMessage(now: Instant): (m: SamplingMessage)
    ensures m.bytes == [] && m.when == now
  {
    SamplingMessage([], now)
  }

  datatype ChannelError =
    | CannotReadSource
    | CannotWriteDestination
    | Io
    | AlreadyExists(name: string)
    /** A panic of the harness (an `unwrap` on an error), modelled as a value. */
    | Panic

  /** `UdpPort`: the socket is abstract; `bufferSize` is the `max_size`
      the receive buffer was allocated with. */
  datatype UdpPort = UdpPort(direction: PortDirection, bufferSize: Usize)

  /** How setting up the socket went: binding (and for a source port,
      connecting), then the remaining configuration calls. */
  datatype Setup = Ready | BindFailed | ConfigureFailed

  /** `UdpPort::new`: a source port `unwrap`s bind and connect, so their
      failure is a panic; every other failure is an error. */
  function NewUdpPort(direction: PortDirection, maxSize: Usize, setup: Setup): (r: Result<UdpPort, ChannelError>)
    ensures r.Ok? <==> setup == Ready
    ensures r.Ok? ==> r.value == UdpPort(direction, maxSize)
    ensures r == Err(Panic) <==> direction == Source && setup == BindFailed
  {
    match setup
    case Ready => Ok(UdpPort(direction, maxSize))
    case BindFailed => if direction == Source then Err(Panic) else Err(Io)
    case ConfigureFailed => Err(Io)
  }

  /** What `recv` on the non-blocking socket returned. */
  datatype Recv = Received(datagram: seq<U8>) | RecvFailed

  /** `UdpPort::read`: only a destination port can be read. A datagram
      longer than the buffer is truncated to the buffer's length. */
  function UdpRead(p: UdpPort, recv: Recv, now: Instant): (r: Result<SamplingMessage, ChannelError>)
    ensures p.direction != Destination ==> r == Err(CannotReadSource)
    ensures r.Ok? <==> p.direction == Destination && recv.Received?
    ensures r.Ok? ==> r.value.when == now && |r.value.bytes| <= p.bufferSize
                      && r.value.bytes <= recv.datagram
                      && (|recv.datagram| <= p.bufferSize ==> r.value.bytes == recv.datagram)
  {
    if p.direction != Destination then Err(CannotReadSource)
    else match recv
      case RecvFailed => Err(Io)
      case Received(d) =>
        var size := if |d| <= p.bufferSize then |d| else p.bufferSize;
        Ok(SamplingMessage(d[..size], now))
  }

  /** `UdpPort::write`: only a source port can be written; `sendOk` is
      whether `send` succeeded. */
  function UdpWrite(p: UdpPort, msg: seq<U8>, sendOk: bool): (r: Outcome<ChannelError>)
    ensures p.direction != Source ==> r == Fail(CannotWriteDestination)
    ensures r.Pass? <==> p.direction == Source && sendOk
  {
    if p.direction != Source then Fail(CannotWriteDestination)
    else if !sendOk then Fail(Io)
    else Pass
  }

  datatype SamplingPort = SamplingPort(config: Port, port: UdpPort, refresh: Duration, lastMsg: SamplingMessage)

  /** `SamplingPort::new`: a fresh port's last message is empty. */
  function NewSamplingPort(config: Port, direction: PortDirection, maxSize: Usize, refresh: Duration,
                           setup: Setup, now: Instant): (r: Result<SamplingPort, ChannelError>)
    ensures r.Ok? <==> setup == Ready
    ensures r.Ok? ==> r.value.config == config && r.value.refresh == refresh
                      && r.value.port == UdpPort(direction, maxSize)
                      && r.value.lastMsg.bytes == []
  {
    var port :- NewUdpPort(direction, maxSize, setup);
    Ok(SamplingPort(config, port, refresh, DefaultMessage(now)))
  }

  /** `SamplingPort::read`: a received message replaces the last one, a
      failed receive is only logged; either way the result is Ok with a
      copy of the (possibly new) last message. */
  function Read(sp: SamplingPort, recv: Recv, now: Instant): (r: (Result<SamplingMessage, ChannelError>, SamplingPort))
    ensures r.0.Ok? && r.0.value == r.1.lastMsg
    ensures r.1.config == sp.config && r.1.port == sp.port && r.1.refresh == sp.refresh
    ensures UdpRead(sp.port, recv, now).Ok? ==> r.1.lastMsg == UdpRead(sp.port, recv, now).value
    ensures UdpRead(sp.port, recv, now).Err? ==> r.1 == sp
  {
    match UdpRead(sp.port, recv, now)
    case Ok(msg) => var sp' := sp.(lastMsg := msg); (Ok(sp'.lastMsg), sp')
    case Err(_) => (Ok(sp.lastMsg), sp)
  }

  /** A source port never receives: every read returns the message it
      was created with, however often it is read. */
  lemma SourcePortReadsStayPut(sp: SamplingPort, recv: Recv, now: Instant)
    requires sp.port.direction == Source
    ensures Read(sp, recv, now) == (Ok(sp.lastMsg), sp)
  {
  }

  /** A freshly created destination port reads back an empty message until
      a datagram arrives. */
  lemma FreshPortReadsEmpty(config: Port, maxSize: Usize, refresh: Duration, t0: Instant, now: Instant)
    ensures var p := NewSamplingPort(config, Destination, maxSize, refresh, Ready, t0);
            p.Ok? && Read(p.value, RecvFailed, now).0 == Ok(SamplingMessage([], t0))
  {
  }

  /** `SamplingPort::write`: errors of the underlying port are only logged,
      so the result is always Ok and the port is unchanged. */
  function Write(sp: SamplingPort, msg: seq<U8>, sendOk: bool): (r: (Outcome<ChannelError>, SamplingPort))
    ensures r.0.Pass? && r.1 == sp
  {
    var _ := UdpWrite(sp.port, msg, sendOk);
    (Pass, sp)
  }

  /** Writing to a destination port "succeeds" although nothing is sent. */
  lemma WriteHidesDirectionError(sp: SamplingPort, msg: seq<U8>, sendOk: bool)
    requires sp.port.direction == Destination
    ensures UdpWrite(sp.port, msg, sendOk).Fail? && Write(sp, msg, sendOk).0.Pass?
  {
  }

  datatype SamplingPortTable = SamplingPortTable(ports: seq<SamplingPort>)

  predicate Contains(t: SamplingPortTable, p: SamplingPort)
  {
    exists i :: 0 <= i < |t.ports| && SamePort(t.ports[i].config, p.config)
  }

  predicate NamesDistinct(t: SamplingPortTable)
  {
    forall i, j :: 0 <= i < j < |t.ports| ==> !SamePort(t.ports[i].config, t.ports[j].config)
  }

  /** `SamplingPortTable::insert`: rejects a port whose name equals an
      existing one ignoring ASCII case, leaving the table as it was;
      otherwise appends and returns the previous length as id. */
  function Insert(t: SamplingPortTable, p: SamplingPort): (r: (Result<nat, ChannelError>, SamplingPortTable))
    ensures r.0.Err? <==> Contains(t, p)
    ensures r.0.Err? ==> r.0.error == AlreadyExists(p.config.name) && r.1 == t
    ensures r.0.Ok? ==> r.0.value == |t.ports| && r.1.ports == t.ports + [p]
  {
    if Contains(t, p) then (Err(AlreadyExists(p.config.name)), t)
    else (Ok(|t.ports|), SamplingPortTable(t.ports + [p]))
  }

  lemma InsertKeepsNamesDistinct(t: SamplingPortTable, p: SamplingPort)
    ensures NamesDistinct(t) ==> NamesDistinct(Insert(t, p).1)
  {
    var t' := Insert(t, p).1;
    if NamesDistinct(t) && !Contains(t, p) {
      forall i, j | 0 <= i < j < |t'.ports|
        ensures !SamePort(t'.ports[i].config, t'.ports[j].config)
      {
        if j == |t.ports| {
          assert !SamePort(t.ports[i].config, p.config);
        }
      }
    }
  }

  /** `get_port_mut`: the id-th port; negative ids wrap beyond any table. */
  function GetPort(t: SamplingPortTable, id: I64): (r: Option<SamplingPort>)
    ensures id >= 0 ==> (r.Some? <==> id < |t.ports|)
    ensures id >= 0 && r.Some? ==> r.value == t.ports[id]
    ensures id < 0 && |t.ports| <= ISIZE_MAX ==> r.None?
  {
    var index := I64AsUsize(id);
    if index < |t.ports| then Some(t.ports[index]) else None
  }

  /** Storing back the port obtained through `get_port_mut` after it was
      changed in place. */
  function PutPort(t: SamplingPortTable, id: I64, p: SamplingPort): (r: SamplingPortTable)
    requires GetPort(t, id).Some?
    ensures |r.ports| == |t.ports| && GetPort(r, id) == Some(p)
    ensures forall i :: 0 <= i < |t.ports| && i != I64AsUsize(id) ==> r.ports[i] == t.ports[i]
  {
    SamplingPortTable(t.ports[I64AsUsize(id) := p])
  }

  /** The id handed out by `insert` finds the port inserted. */
  lemma InsertThenGet(t: SamplingPortTable, p: SamplingPort)
    requires Insert(t, p).0.Ok? && |t.ports| < ISIZE_MAX
    ensures GetPort(Insert(t, p).1, Insert(t, p).0.value) == Some(p)
  {
  }
}
