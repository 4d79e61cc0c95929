/** What single rounds do with what the system calls bring: the interface between events and the state. */
module Rounds {
  import opened Bytes
  import opened Net
  import opened Relay
  import opened Table
  import opened ExtNatPmp
  import opened Proxy
  import opened Invariants

  // ----- datagrams

  /** The packet that a datagram on socket `s` becomes. Nothing of it is lost; the sender's address is known unless
      it came by IPv6. */
  predicate Carries(cfg: Config, s: Sock, d: Datagram, p: Pkt) {
    && p.data == d.data && p.sock == s.fd && p.proto == 17
    && p.dstPort == (if s.fd in cfg.ports then cfg.ports[s.fd] else -1)
    && (s.state.Udp? ==> p.srcIP == d.srcIP && p.dstIP == d.dstIP && p.srcPort == d.srcPort)
    && (s.state.Udp6? ==> p.srcIP == 0 && p.dstIP == 0 && p.srcPort == 0)
  }

  /** A datagram on the socket served is handed on, once and whole, and leaves the sockets alone. After the round no
      mapping is due, and one that is new was made for it, at the time it was handled. */
  lemma DatagramRound(cfg: Config, st: State, ev: Event, s: Sock, d: Datagram)
    requires Served(st, ev) == Some(s) && (s.state.Udp? || s.state.Udp6?) && ev.io.datagram == Some(d)
    ensures var st' := Step(cfg, st, ev);
      && |st'.received| == |st.received| + 1 && st'.received[..|st.received|] == st.received
      && Carries(cfg, s, d, st'.received[|st.received|])
      && UdpInput(cfg, st, ev) == Some(st'.received[|st.received|])
      && st'.pktCnt == st.pktCnt + 1 && st'.Net() == st.Net()
    ensures forall m :: m in Step(cfg, st, ev).mappings ==>
      && ev.tPurge < m.timeout
      && (m in st.mappings || (m.origin == |st.received| && m.timeout == ToInt32(ev.tAdd + cfg.timeout)))
  {
    hide Lookup, Created, Forward, Hangup, Accept, Alive, Dead;
    RoundSeenByTable(cfg, st, ev);
    RoundSeenByNet(cfg, st, ev);
    RoundCounts(cfg, st, ev);
    AliveSelects(BeforePurge(cfg, st, ev).mappings, ev.tPurge);
    OnlyNewMapping(cfg, st, UdpInput(cfg, st, ev).value, ev.tAdd);
  }

  lemma OnlyNewMapping(cfg: Config, st: State, pkt: Pkt, now: int)
    ensures forall m :: m in HandleUdp(cfg, st, pkt, now).mappings ==>
      m in st.mappings || (m.origin == |st.received| && m.timeout == ToInt32(now + cfg.timeout))
  {
    hide Matches;
  }

  lemma RoundCounts(cfg: Config, st: State, ev: Event)
    ensures Step(cfg, st, ev).pktCnt == st.pktCnt + if Wait(cfg, st, ev).1.Some? then 1 else 0
  {
    hide Lookup, Created, Forward, Hangup, Accept, UdpPkt;
  }

  /** A round without a datagram hands on none, and does nothing to the table but let mappings expire. */
  lemma OtherRound(cfg: Config, st: State, ev: Event)
    requires var s := Served(st, ev);
      s.None? || s.value.state.TcpListening? || s.value.state.TcpConnected? || ev.io.datagram.None?
    ensures var st' := Step(cfg, st, ev);
      && UdpInput(cfg, st, ev).None? && st'.received == st.received
      && (forall m :: m in st'.mappings <==> m in st.mappings && m.timeout > ev.tPurge)
      && (forall e :: e in st'.journal && e !in st.journal ==> e.Expiry?)
  {
    hide Lookup, Created, Forward, Hangup, Accept, Alive, Dead;
    RoundSeenByTable(cfg, st, ev);
    AliveSelects(st.mappings, ev.tPurge);
    var es := Expiries(Dead(st.mappings, ev.tPurge));
    assert forall i :: 0 <= i < |es| ==> es[i].Expiry?;
  }

  /** An announcement from the group, and only that, is multicast on the LAN; it leaves the table alone. */
  lemma AnnouncementsGoToLan(cfg: Config, st: State, pkt: Pkt, now: int)
    ensures var st' := HandleUdp(cfg, st, pkt, now);
      if pkt.dstIP == MCAST && pkt.sock == cfg.wanSsdp then
        && st'.journal == st.journal + [McastOut(cfg.lanSsdp, MCAST, pkt.dstPort, pkt.data)]
        && st'.mappings == st.mappings
      else forall e :: e in st'.journal && e !in st.journal ==> !e.McastOut?
  {
    hide Lookup, Created, Request, Reply;
  }

  /** What handle_packet returns for a datagram tells whether it was sent on, except for responses and
      announcements, which are never reported as failed. */
  lemma CodeOfDatagram(cfg: Config, st: State, pkt: Pkt, io: Io, now: int)
    requires pkt.proto == 17
    ensures var before, after, code := st.journal, HandleUdp(cfg, st, pkt, now).journal, Code(cfg, st, pkt, io);
      if |after| == |before| then code == -1
      else
        && |after| == |before| + 1
        && var sent := after[|before|];
        code == if sent.ResponseOut? || sent.McastOut? || io.sentOk then 0 else -1
  {
    hide Matches, Created, Header;
  }

  // ----- streams

  /** How many bytes a send with this result has taken. */
  function TakenOf(data: seq<byte>, result: int): nat {
    if result < 0 then 0 else if result < |data| then result else |data|
  }

  /** A connected socket: what arrived on it goes into its history, and what send takes of it into that of the
      other end of its connection; the end of the stream closes both ends and takes both sockets off the list; a
      failure to read changes nothing. */
  lemma StreamRound(cfg: Config, st: State, ev: Event, s: Sock)
    requires Inv(st.Net()) && Served(st, ev) == Some(s) && s.state.TcpConnected?
    ensures s.fd in st.kernel.open && s.peer in st.kernel.open
    ensures var st', k := Step(cfg, st, ev), st.kernel;
      var a, b := k.open[s.fd], k.open[s.peer];
      && a < |k.ends| && b < |k.ends| && a != b && k.ends[a].mate == Some(b)
      && match ev.io.stream
         case None => st'.Net() == st.Net() && st'.pktCnt == st.pktCnt
         case Some(data) =>
           && st'.pktCnt == st.pktCnt + 1
           && (data == [] ==>
                && st'.kernel.ends == k.ends && st'.kernel.open == k.open - {s.fd, s.peer}
                && st'.kernel.closed == k.closed + [a, b]
                && forall t :: t in st'.sockets <==> t in st.sockets && t.fd != s.fd && t.fd != s.peer)
           && (data != [] ==>
                && st'.sockets == st.sockets && st'.kernel.open == k.open && st'.kernel.closed == k.closed
                && |st'.kernel.ends| == |k.ends|
                && st'.kernel.ends[a].rx == k.ends[a].rx + data && st'.kernel.ends[a].tx == k.ends[a].tx
                && st'.kernel.ends[b].tx == k.ends[b].tx + data[..TakenOf(data, ev.io.sendResult)]
                && st'.kernel.ends[b].rx == k.ends[b].rx
                && forall c :: 0 <= c < |k.ends| && c != a && c != b ==> st'.kernel.ends[c] == k.ends[c])
  {
    hide Tracked, Paired, Hangup, Forward, IsSubsequence, Step;
    RoundSeenByNet(cfg, st, ev);
    RoundCounts(cfg, st, ev);
    var ns := st.Net();
    if ev.io.stream.Some? {
      var data := ev.io.stream.value;
      if data == [] {
        ReceiveNothing(ns.kernel, s.fd);
        HangupKeepsInv(ns, s);
        HangupCloses(ns, s);
      } else {
        ArriveIsTransfer(ns, s, data, ev.io.sendResult);
      }
    }
  }

  // ----- connections

  /** A listening socket, for each outcome of the calls that follow accept. A client's connection becomes the last
      but one end, and the connection to the AFTR, on the port of this very socket, the last one. */
  lemma ListeningRound(cfg: Config, st: State, ev: Event, s: Sock)
    requires Inv(st.Net()) && Fresh(st.kernel, ev.io.accepting)
    requires Served(st, ev) == Some(s) && s.state.TcpListening?
    ensures var st', k := Step(cfg, st, ev), st.kernel;
      var n := |k.ends|;
      && st'.pktCnt == st.pktCnt
      && match ev.io.accepting
         case AcceptFails => st'.Net() == st.Net()
         case SocketFails(_) =>
           && st'.sockets == st.sockets && st'.kernel.open == k.open && st'.kernel.closed == k.closed + [n]
           && st'.kernel.ends == k.ends + [NEW_END]
         case ConnectFails(_, _) =>
           && st'.sockets == st.sockets && st'.kernel.open == k.open && st'.kernel.closed == k.closed + [n, n + 1]
           && st'.kernel.ends == k.ends + [NEW_END, NEW_END]
         case Connected(lan, wan) =>
           && st'.sockets == [Sock(wan, TcpConnected, lan), Sock(lan, TcpConnected, wan)] + st.sockets
           && st'.kernel.open == k.open[lan := n][wan := n + 1] && st'.kernel.closed == k.closed
           && st'.kernel.ends == k.ends + [End([], [], 0, Some(n + 1), None),
                                           End([], [], 0, Some(n), Some((cfg.aftrIPv4, cfg.PortOf(s.fd))))]
  {
    hide Tracked, Paired, Conserved, Accounted, Wired, Step;
    RoundSeenByNet(cfg, st, ev);
    RoundCounts(cfg, st, ev);
    var k := st.kernel;
    match ev.io.accepting
    case AcceptFails =>
    case SocketFails(lan) =>
      assert k.Open(lan).Close(lan).open == k.open;
    case ConnectFails(lan, wan) =>
      assert k.Open(lan).Open(wan).Close(lan).Close(wan).open == k.open;
    case Connected(lan, wan) =>
  }
}
