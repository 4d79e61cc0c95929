/** The event loop as a state machine: one step is one round of `run`. */
module Proxy {
  import opened Bytes
  import opened Net
  import Lists
  import opened Relay
  import opened Table
  import opened ExtNatPmp

  /** What the proxy does with datagrams, in order. `origin` is the number of the query that is concerned. */
  datatype Entry =
    | QueryOut(origin: nat, fd: int, ip: Addr, port: int, data: seq<byte>)
    | ResponseOut(origin: nat, fd: int, ip: Addr, port: int, data: seq<byte>)
    | Expiry(origin: nat)
    | McastOut(fd: int, ip: Addr, port: int, data: seq<byte>)
    | ExtRequestOut(fd: int, data: seq<byte>)
    | ExtReplyOut(fd: int, ip: Addr, port: int, data: seq<byte>)

  /** The context, the kernel, the UDP packets handled so far (a packet's position is its number), the journal
      and the last reading of the clock. */
  datatype State = State(mappings: seq<Mapping>, sockets: seq<Sock>, pktCnt: nat,
                         kernel: Kernel, received: seq<Pkt>, journal: seq<Entry>, clock: int)
  {
    function Net(): Sockets {
      Sockets(sockets, kernel)
    }

    function WithNet(ns: Sockets): State {
      this.(sockets := ns.list, kernel := ns.kernel)
    }
  }

  datatype Datagram = Datagram(srcIP: Addr, dstIP: Addr, srcPort: Port, data: seq<byte>)

  /** What the system calls of one round bring: a datagram or stream bytes from recvmsg (None: it fails), the
      result of send on a stream, whether a datagram was sent without error, and the outcome of accept, socket and
      connect. */
  datatype Io = Io(datagram: Option<Datagram>, stream: Option<seq<byte>>, sendResult: int, sentOk: bool,
                   accepting: Accepting)

  /** One round: the readings of the clock in ctx_timeout_get, after select, in mapping_add and in
      ctx_mappings_remove_expired, and the descriptors select reports (None: timeout or failure). */
  datatype Event = Event(tGet: int, tWake: int, tAdd: int, tPurge: int, ready: Option<set<int>>, io: Io)

  /** The first listed socket that is ready. */
  function FirstReady(list: seq<Sock>, fds: set<int>): (i: nat)
    ensures i <= |list|
    ensures i < |list| ==> list[i].fd in fds
    ensures forall j :: 0 <= j < i ==> list[j].fd !in fds
  {
    if list == [] || list[0].fd in fds then 0 else 1 + FirstReady(list[1..], fds)
  }

  /** The socket that a round serves. */
  function Served(st: State, ev: Event): (s: Option<Sock>)
    ensures s.Some? ==> s.value in st.sockets && ev.ready.Some? && s.value.fd in ev.ready.value
    ensures s.Some? ==> exists i :: 0 <= i < |st.sockets| && st.sockets[i] == s.value
                                    && forall j :: 0 <= j < i ==> st.sockets[j].fd !in ev.ready.value
    ensures s.None? ==> ev.ready.None? || forall x :: x in st.sockets ==> x.fd !in ev.ready.value
  {
    if ev.ready.None? then None
    else
      var i := FirstReady(st.sockets, ev.ready.value);
      if i < |st.sockets| then Some(st.sockets[i]) else None
  }

  /** sock_udp_receive and sock_udp6_receive; the latter leaves the addresses zero. */
  function UdpPkt(cfg: Config, s: Sock, d: Datagram): Pkt {
    if s.state.Udp? then Pkt(d.srcIP, d.dstIP, d.srcPort, cfg.PortOf(s.fd), UDP, d.data, s.fd)
    else Pkt(0, 0, 0, cfg.PortOf(s.fd), UDP, d.data, s.fd)
  }

  function TcpPkt(fd: int, data: seq<byte>): Pkt {
    Pkt(0, 0, 0, 0, TCP, data, fd)
  }

  /** wait_for_traffic */
  function Wait(cfg: Config, st: State, ev: Event): (State, Option<Pkt>) {
    match Served(st, ev)
    case None => (st, None)
    case Some(s) =>
      match s.state
      case TcpListening => (st.WithNet(Accept(cfg, st.Net(), s.fd, ev.io.accepting)), None)
      case TcpConnected =>
        if ev.io.stream.None? then (st, None)
        else (st.(kernel := st.kernel.Receive(s.fd, ev.io.stream.value)), Some(TcpPkt(s.fd, ev.io.stream.value)))
      case _ =>
        if ev.io.datagram.None? then (st, None)
        else (st, Some(UdpPkt(cfg, s, ev.io.datagram.value)))
  }

  /** handle_packet on a datagram in the extended mode */
  function HandleExt(cfg: Config, st: State, pkt: Pkt): State {
    if pkt.sock == cfg.extSock then
      match Reply(pkt.data)
      case None => st
      case Some(a) => st.(journal := st.journal + [ExtReplyOut(cfg.natPmpLan, a.ip, a.port, a.payload)])
    else
      match Request(cfg, pkt)
      case None => st
      case Some(data) => st.(journal := st.journal + [ExtRequestOut(cfg.extSock, data)])
  }

  /** handle_packet on a datagram in the classic mode: a response to a mapping, or a new query */
  function HandleClassic(cfg: Config, st: State, pkt: Pkt, number: nat, now: int): State {
    var i := Lookup(st.mappings, pkt);
    if i < |st.mappings| then
      var m := st.mappings[i];
      st.(mappings := Lists.Without(st.mappings, i),
          journal := st.journal + [ResponseOut(m.origin, m.lanSock, m.clientIP, m.clientPort, pkt.data)])
    else
      var m := Created(cfg, pkt, number, now);
      st.(mappings := [m] + st.mappings,
          journal := st.journal + [QueryOut(number, m.wanSock, m.aftrIPv4, m.routerPort, pkt.data)])
  }

  /** packet_wan_mcast */
  predicate FromWanGroup(cfg: Config, pkt: Pkt) {
    pkt.dstIP == MCAST && pkt.sock == cfg.wanSsdp
  }

  function HandleUdp(cfg: Config, st: State, pkt: Pkt, now: int): State {
    var st' := st.(received := st.received + [pkt]);
    if FromWanGroup(cfg, pkt) then
      st'.(journal := st.journal + [McastOut(cfg.lanSsdp, MCAST, pkt.dstPort, pkt.data)])
    else if cfg.extEnabled then HandleExt(cfg, st', pkt)
    else HandleClassic(cfg, st', pkt, |st.received|, now)
  }

  /** handle_packet */
  function Handle(cfg: Config, st: State, pkt: Pkt, io: Io, now: int): State {
    if pkt.proto == TCP then
      st.WithNet(if pkt.data != [] then Forward(st.Net(), pkt.sock, pkt.data, io.sendResult)
                 else Hangup(st.Net(), pkt.sock))
    else HandleUdp(cfg, st, pkt, now)
  }

  /** What handle_packet returns on a datagram: 0, or -1 if it was dropped or could not be sent on. An error in
      sending a response or an announcement goes unnoticed. */
  function UdpCode(cfg: Config, st: State, pkt: Pkt, sentOk: bool): int {
    if FromWanGroup(cfg, pkt) then 0
    else if cfg.extEnabled then
      if pkt.sock == cfg.extSock then ExtCode(Reply(pkt.data), sentOk) else ExtCode(Request(cfg, pkt), sentOk)
    else if Lookup(st.mappings, pkt) < |st.mappings| || sentOk then 0 else -1
  }

  function ExtCode<T>(output: Option<T>, sentOk: bool): int {
    if output.None? || !sentOk then -1 else 0
  }

  /** What handle_tcp_packet and handle_tcp_close return. */
  function TcpCode(list: seq<Sock>, pkt: Pkt, result: int): int {
    if !Listed(list, pkt.sock) then -1
    else if pkt.data == [] then 0
    else if !Listed(list, list[Find(list, pkt.sock)].peer) then -1
    else if result < 0 then result
    else 0
  }

  /** What handle_packet returns. */
  function Code(cfg: Config, st: State, pkt: Pkt, io: Io): int {
    if pkt.proto == TCP then TcpCode(st.sockets, pkt, io.sendResult) else UdpCode(cfg, st, pkt, io.sentOk)
  }

  function Expiries(ms: seq<Mapping>): (es: seq<Entry>)
    ensures |es| == |ms|
  {
    seq(|ms|, i requires 0 <= i < |ms| => Expiry(ms[i].origin))
  }

  /** ctx_mappings_remove_expired */
  function Purge(st: State, now: int): State {
    st.(mappings := Alive(st.mappings, now), journal := st.journal + Expiries(Dead(st.mappings, now)), clock := now)
  }

  /** One round of `run`. */
  function Step(cfg: Config, st: State, ev: Event): State {
    var (st1, pkt) := Wait(cfg, st, ev);
    var st2 := if pkt.None? then st1 else Handle(cfg, st1.(pktCnt := st1.pktCnt + 1), pkt.value, ev.io, ev.tAdd);
    Purge(st2, ev.tPurge)
  }

  function Run(cfg: Config, st: State, evs: seq<Event>): State
    decreases |evs|
  {
    if evs == [] then st else Step(cfg, Run(cfg, st, evs[..|evs| - 1]), evs[|evs| - 1])
  }

  // ----- what the rest of the world is assumed to do

  /** Clock readings do not go back and stay, with the mapping timeout added, within a C int; select wakes no
      later than it was asked to; accept and socket return descriptors that are not open. */
  predicate Admissible(cfg: Config, st: State, ev: Event) {
    && 0 <= st.clock <= ev.tGet <= ev.tWake <= ev.tAdd <= ev.tPurge
    && ev.tPurge + cfg.timeout < U31_LIMIT
    && MayWake(st.mappings, ev.tGet, ev.tWake)
    && Fresh(st.kernel, ev.io.accepting)
  }

  ghost predicate AdmissibleRun(cfg: Config, st: State, evs: seq<Event>) {
    forall n :: 0 <= n < |evs| ==> Admissible(cfg, Run(cfg, st, evs[..n]), evs[n])
  }

  lemma AdmissibleSoFar(cfg: Config, st: State, evs: seq<Event>)
    requires AdmissibleRun(cfg, st, evs) && evs != []
    ensures AdmissibleRun(cfg, st, evs[..|evs| - 1])
    ensures Admissible(cfg, Run(cfg, st, evs[..|evs| - 1]), evs[|evs| - 1])
  {
    hide Admissible, Run;
    var past := evs[..|evs| - 1];
    forall n | 0 <= n < |past| ensures Admissible(cfg, Run(cfg, st, past[..n]), past[n]) {
      assert past[..n] == evs[..n] && past[n] == evs[n];
    }
  }

  /** The first `n` rounds of a run, and the next one. */
  lemma Prefix(cfg: Config, st: State, evs: seq<Event>, n: nat)
    requires AdmissibleRun(cfg, st, evs) && n < |evs|
    ensures AdmissibleRun(cfg, st, evs[..n]) && Admissible(cfg, Run(cfg, st, evs[..n]), evs[n])
    ensures Run(cfg, st, evs[..n + 1]) == Step(cfg, Run(cfg, st, evs[..n]), evs[n])
  {
    hide Admissible, Step;
    assert forall m :: 0 <= m < n ==> evs[..n][m] == evs[m] && evs[..n][..m] == evs[..m];
    assert evs[..n + 1][..n] == evs[..n];
  }

  /** The state in which a successful sockets_bind starts the run phase. */
  ghost predicate Initial(cfg: Config, st: State) {
    && st.mappings == [] && st.pktCnt == 0 && st.received == [] && st.journal == [] && 0 <= st.clock
    && 0 <= cfg.timeout
    && Bound(st.Net())
  }
}
