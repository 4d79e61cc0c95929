/** context_t on the heap: the two linked lists, and the procedures of the event loop that work on them in place. */
module Context {
  import opened Bytes
  import opened Net
  import opened Lists
  import opened Relay
  import opened Table
  import opened ExtNatPmp
  import opened Proxy

  /** The nodes that are not expired: the same nodes in the same order. */
  ghost function AliveNodes(nodes: seq<Node<Mapping>>, now: int): seq<Node<Mapping>>
    reads nodes`value
  {
    if nodes == [] then []
    else if nodes[0].value.timeout > now then [nodes[0]] + AliveNodes(nodes[1..], now)
    else AliveNodes(nodes[1..], now)
  }

  lemma {:induction false} AllAlive(nodes: seq<Node<Mapping>>, now: int)
    requires forall n :: n in nodes ==> n.value.timeout > now
    ensures AliveNodes(nodes, now) == nodes
    ensures Alive(Values(nodes), now) == Values(nodes) && Expiries(Dead(Values(nodes), now)) == []
  {
    if nodes != [] {
      assert nodes[0] in nodes;
      AllAlive(nodes[1..], now);
    }
  }

  lemma ExpiriesCons(m: Mapping, rest: seq<Mapping>)
    ensures Expiries([m] + rest) == [Expiry(m.origin)] + Expiries(rest)
  {
  }

  /** Taking out the first expired node changes neither which nodes are alive nor the order of the others. */
  lemma {:induction false} FirstDeadOut(nodes: seq<Node<Mapping>>, k: nat, now: int)
    requires k < |nodes| && nodes[k].value.timeout <= now
    requires forall i :: 0 <= i < k ==> nodes[i].value.timeout > now
    ensures var rest := Without(nodes, k);
      && AliveNodes(rest, now) == AliveNodes(nodes, now)
      && Alive(Values(rest), now) == Alive(Values(nodes), now)
      && Dead(Values(nodes), now) == [nodes[k].value] + Dead(Values(rest), now)
  {
    hide Values, AliveNodes, Alive, Dead;
    var rest := Without(nodes, k);
    FirstNode(nodes, now);
    if k == 0 {
      assert rest == nodes[1..];
    } else {
      FirstDeadOut(nodes[1..], k - 1, now);
      FirstNode(rest, now);
      assert rest[0] == nodes[0] && rest[1..] == Without(nodes[1..], k - 1);
    }
  }

  lemma FirstNode(nodes: seq<Node<Mapping>>, now: int)
    requires nodes != []
    ensures var n, rest := nodes[0], nodes[1..];
      var alive, dead := Alive(Values(rest), now), Dead(Values(rest), now);
      if n.value.timeout > now then
        && AliveNodes(nodes, now) == [n] + AliveNodes(rest, now)
        && Alive(Values(nodes), now) == [n.value] + alive && Dead(Values(nodes), now) == dead
      else
        && AliveNodes(nodes, now) == AliveNodes(rest, now)
        && Alive(Values(nodes), now) == alive && Dead(Values(nodes), now) == [n.value] + dead
  {
    assert Values(nodes)[1..] == Values(nodes[1..]);
  }

  lemma DeleteAt(ns: Sockets, k: nat, fd: int)
    requires k < |ns.list| && ns.list[k].fd == fd && forall j :: 0 <= j < k ==> ns.list[j].fd != fd
    ensures Delete(ns, fd) == Sockets(Without(ns.list, k), ns.kernel.Close(fd)) && Listed(ns.list, fd)
  {
  }

  lemma DeleteNone(ns: Sockets, fd: int)
    requires forall j :: 0 <= j < |ns.list| ==> ns.list[j].fd != fd
    ensures Delete(ns, fd) == ns && !Listed(ns.list, fd)
  {
  }

  class Ctx {
    const cfg: Config
    var mappings: Node?<Mapping>
    var sockets: Node?<Sock>
    var pktCnt: nat
    // the nodes of the lists, in order, and all nodes that have ever been in them
    ghost var mnodes: seq<Node<Mapping>>
    ghost var snodes: seq<Node<Sock>>
    ghost var mrepr: set<Node<Mapping>>
    ghost var srepr: set<Node<Sock>>
    // what happens outside the process, which the C program keeps no record of
    var kernel: Kernel
    var received: seq<Pkt>
    var journal: seq<Entry>
    var clock: int

    ghost predicate ValidM()
      reads this`mappings, this`mnodes, this`mrepr, mnodes`next
    {
      Linked(mappings, mnodes) && forall n :: n in mnodes ==> n in mrepr
    }

    ghost predicate ValidS()
      reads this`sockets, this`snodes, this`srepr, snodes`next
    {
      Linked(sockets, snodes) && forall n :: n in snodes ==> n in srepr
    }

    ghost predicate Valid()
      reads this, mnodes`next, snodes`next
    {
      ValidM() && ValidS()
    }

    ghost function Maps(): seq<Mapping>
      reads this`mnodes, mnodes`value
    {
      Values(mnodes)
    }

    ghost function Net(): Sockets
      reads this`snodes, snodes`value, this`kernel
    {
      Sockets(Values(snodes), kernel)
    }

    /** The state that the event loop's specification speaks of. */
    ghost function View(): State
      reads this, mnodes`value, snodes`value
    {
      State(Maps(), Values(snodes), pktCnt, kernel, received, journal, clock)
    }

    /** ctx_create */
    constructor (cfg: Config, kernel: Kernel, clock: int)
      ensures Valid() && this.cfg == cfg && View() == State([], [], 0, kernel, [], [], clock)
      ensures fresh(mrepr) && fresh(srepr)
    {
      this.cfg, this.kernel, this.clock := cfg, kernel, clock;
      mappings, sockets, pktCnt, received, journal := null, null, 0, [], [];
      mnodes, snodes, mrepr, srepr := [], [], {}, {};
    }

    /** What sockets_bind adds to an empty list, one by one and the last of the list first. */
    method AddSockets(socks: seq<Sock>)
      requires ValidS() && snodes == []
      modifies this`sockets, this`snodes, this`srepr
      ensures ValidS() && fresh(srepr - old(srepr)) && Values(snodes) == socks
    {
      hide Ctx.ValidS, Values;
      var n: nat := |socks|;
      while n > 0
        invariant n <= |socks|
        invariant ValidS() && fresh(srepr - old(srepr)) && Values(snodes) == socks[n..]
      {
        n := n - 1;
        SocketAdd(socks[n]);
      }
    }

    // ----- mappings

    /** mapping_find */
    method MappingFind(pkt: Pkt) returns (m: Node?<Mapping>)
      requires ValidM()
      ensures Points(m, mnodes, Lookup(Maps(), pkt))
    {
      m := mappings;
      ghost var k := 0;
      while m != null
        invariant k <= |mnodes| && Points(m, mnodes, k)
        invariant forall j :: 0 <= j < k ==> !Matches(Maps()[j], pkt)
        decreases |mnodes| - k
      {
        assert m.value == Maps()[k];
        if Matches(m.value, pkt) {
          return;
        }
        m, k := m.next, k + 1;
      }
    }

    /** mapping_create */
    method MappingCreate(pkt: Pkt, sock: int, number: nat) returns (m: Node<Mapping>)
      requires sock == cfg.sharedFd
      ensures fresh(m) && m.next == null
      ensures forall now :: m.value.(timeout := ToInt32(now + cfg.timeout)) == Created(cfg, pkt, number, now)
    {
      if pkt.dstIP != MCAST {
        m := new Node(Mapping(pkt.srcIP, pkt.dstIP, cfg.wanIP, cfg.aftrIPv4, pkt.proto, pkt.srcPort, pkt.dstPort,
                              cfg.PortOf(sock), pkt.dstPort, pkt.sock, sock, 0, number));
      } else {
        m := new Node(Mapping(pkt.srcIP, pkt.dstIP, cfg.wanIP, MCAST, pkt.proto, pkt.srcPort, pkt.dstPort,
                              cfg.PortOf(sock), pkt.dstPort, pkt.sock, sock, 0, number));
      }
    }

    /** mapping_add */
    method MappingAdd(m: Node<Mapping>, now: int)
      requires ValidM() && m !in mrepr
      modifies this`mappings, this`mnodes, this`mrepr, m
      ensures ValidM() && mnodes == [m] + old(mnodes) && mrepr == old(mrepr) + {m}
      ensures Maps() == [old(m.value).(timeout := ToInt32(now + cfg.timeout))] + old(Maps())
    {
      m.next := mappings;
      m.value := m.value.(timeout := ToInt32(now + cfg.timeout));
      mappings := m;
      Pushed(m, mnodes);
      mnodes, mrepr := [m] + mnodes, mrepr + {m};
    }

    /** mapping_delete; `k` is where the node is, if it is in the list. The list must not be empty. */
    method MappingDelete(m: Node<Mapping>, ghost k: nat) returns (r: int)
      requires ValidM() && mnodes != [] && (m in mnodes ==> k < |mnodes| && mnodes[k] == m)
      modifies this`mappings, this`mnodes, mrepr`next
      ensures ValidM()
      ensures m in old(mnodes) ==>
        r == 0 && mnodes == Without(old(mnodes), k) && Maps() == Without(old(Maps()), k)
      ensures m !in old(mnodes) ==> r == -1 && mnodes == old(mnodes)
    {
      hide Values;
      if m in mnodes { ValuesWithout(mnodes, k); }
      var tmp := mappings;
      if tmp == m {
        mappings := tmp.next;
        Unlinked(mappings, mnodes, k);
        mnodes := Without(mnodes, k);
        return 0;
      }
      ghost var i := 0;
      while tmp.next != null
        invariant i < |mnodes| && tmp == mnodes[i]
        invariant forall j :: 0 <= j <= i ==> mnodes[j] != m
        decreases |mnodes| - i
      {
        if tmp.next == m {
          tmp.next := tmp.next.next;
          Unlinked(mappings, mnodes, k);
          mnodes := Without(mnodes, k);
          return 0;
        }
        tmp, i := tmp.next, i + 1;
      }
      r := -1;
    }

    /** ctx_mappings_remove_expired, which starts over from the head after each deletion */
    method RemoveExpired(now: int)
      requires ValidM()
      modifies this`mappings, this`mnodes, this`journal, this`clock, mrepr`next
      ensures ValidM() && mnodes == AliveNodes(old(mnodes), now)
      ensures Maps() == Alive(old(Maps()), now)
      ensures journal == old(journal) + Expiries(Dead(old(Maps()), now)) && clock == now
    {
      hide AliveNodes, Alive, Dead, Expiries, Values;
      var m := mappings;
      ghost var k := 0;
      while m != null
        invariant ValidM() && k <= |mnodes| && Points(m, mnodes, k)
        invariant forall j :: 0 <= j < k ==> mnodes[j].value.timeout > now
        invariant AliveNodes(mnodes, now) == AliveNodes(old(mnodes), now)
        invariant Alive(Maps(), now) == Alive(old(Maps()), now)
        invariant journal + Expiries(Dead(Maps(), now)) == old(journal) + Expiries(Dead(old(Maps()), now))
        decreases |mnodes|, |mnodes| - k
      {
        if m.value.timeout <= now {
          Expire(m, k, now);
          m, k := mappings, 0;
          continue;
        }
        m, k := m.next, k + 1;
      }
      AllAlive(mnodes, now);
      clock := now;
    }

    /** What ctx_mappings_remove_expired does with the first expired mapping. */
    method Expire(m: Node<Mapping>, ghost k: nat, ghost now: int)
      requires ValidM() && k < |mnodes| && mnodes[k] == m && m.value.timeout <= now
      requires forall j :: 0 <= j < k ==> mnodes[j].value.timeout > now
      modifies this`mappings, this`mnodes, this`journal, mrepr`next
      ensures ValidM() && |mnodes| == |old(mnodes)| - 1
      ensures AliveNodes(mnodes, now) == AliveNodes(old(mnodes), now)
      ensures Alive(Maps(), now) == Alive(old(Maps()), now)
      ensures journal + Expiries(Dead(Maps(), now)) == old(journal) + Expiries(Dead(old(Maps()), now))
    {
      hide AliveNodes, Alive, Dead, Expiries, Values, Linked;
      FirstDeadOut(mnodes, k, now);
      ExpiriesCons(m.value, Dead(Values(Without(mnodes, k)), now));
      var _ := MappingDelete(m, k);
      Regroup(journal, Expiry(m.value.origin), Expiries(Dead(Maps(), now)));
      journal := journal + [Expiry(m.value.origin)];
    }

    /** ctx_timeout_get */
    method TimeoutGet(time: int) returns (timeout: int)
      requires ValidM()
      ensures timeout == WaitTime(Maps(), time)
    {
      timeout := MAX_WAIT;
      var now := ToUint32(time);
      var m := mappings;
      ghost var k := 0;
      while m != null
        invariant k <= |mnodes| && Points(m, mnodes, k)
        invariant Shortest(Maps(), now, MAX_WAIT) == Shortest(Maps()[k..], now, timeout)
        decreases |mnodes| - k
      {
        assert Maps()[k..][0] == m.value && Maps()[k..][1..] == Maps()[k + 1..];
        if ToUint32(m.value.timeout) < now {
          timeout := 0;
          break;
        }
        if timeout > ToUint32(m.value.timeout) - now {
          timeout := ToUint32(m.value.timeout) - now;
        }
        m, k := m.next, k + 1;
      }
      if timeout == 0 {
        timeout := 1;
      }
    }

    // ----- sockets

    /** socket_find */
    method SocketFind(fd: int) returns (s: Node?<Sock>)
      requires ValidS()
      ensures Points(s, snodes, Find(Values(snodes), fd))
    {
      s := sockets;
      ghost var k := 0;
      while s != null
        invariant k <= |snodes| && Points(s, snodes, k)
        invariant forall j :: 0 <= j < k ==> snodes[j].value.fd != fd
        decreases |snodes| - k
      {
        if s.value.fd == fd {
          return;
        }
        s, k := s.next, k + 1;
      }
    }

    /** socket_add2 */
    method SocketAdd2(s: Node<Sock>)
      requires ValidS() && s !in srepr
      modifies this`sockets, this`snodes, this`srepr, s`next
      ensures ValidS() && snodes == [s] + old(snodes) && srepr == old(srepr) + {s}
      ensures Values(snodes) == [s.value] + old(Values(snodes))
    {
      hide Values;
      ValuesPushed(s, snodes);
      s.next := sockets;
      sockets := s;
      Pushed(s, snodes);
      snodes, srepr := [s] + snodes, srepr + {s};
    }

    /** socket_add and socket6_add, once the socket is bound */
    method SocketAdd(sock: Sock)
      requires ValidS()
      modifies this`sockets, this`snodes, this`srepr
      ensures ValidS() && fresh(srepr - old(srepr)) && old(srepr) <= srepr
      ensures Values(snodes) == [sock] + old(Values(snodes))
    {
      hide Ctx.ValidS, Values;
      var s := new Node(sock);
      SocketAdd2(s);
    }

    /** socket_del */
    method SocketDel(fd: int) returns (r: int)
      requires ValidS()
      modifies this`sockets, this`snodes, this`kernel, srepr`next
      ensures ValidS() && Net() == Delete(old(Net()), fd)
      ensures r == if Listed(old(Values(snodes)), fd) then 0 else -1
    {
      hide Values, Find, Delete, Kernel.Close;
      var s, prev: Node?<Sock> := sockets, null;
      ghost var k := 0;
      while s != null
        invariant k <= |snodes| && Points(s, snodes, k)
        invariant prev == if k == 0 then null else snodes[k - 1]
        invariant forall j :: 0 <= j < k ==> snodes[j].value.fd != fd
        decreases |snodes| - k
      {
        if s.value.fd == fd {
          DeleteAt(Net(), k, fd);
          ValuesWithout(snodes, k);
          SocketUnlink(prev, s, k);
          kernel := kernel.Close(s.value.fd);
          return 0;
        }
        prev, s, k := s, s.next, k + 1;
      }
      DeleteNone(Net(), fd);
      r := -1;
    }

    /** The part of socket_del that takes the node out, once it is found. */
    method SocketUnlink(prev: Node?<Sock>, s: Node<Sock>, ghost k: nat)
      requires ValidS() && k < |snodes| && s == snodes[k] && prev == if k == 0 then null else snodes[k - 1]
      modifies this`sockets, this`snodes, srepr`next
      ensures ValidS() && snodes == Without(old(snodes), k)
    {
      if prev != null {
        prev.next := s.next;
      } else {
        sockets := s.next;
      }
      Unlinked(sockets, snodes, k);
      snodes := Without(snodes, k);
    }

    /** sockets_close */
    method SocketsClose()
      requires ValidS()
      modifies this`sockets, this`snodes, this`kernel, srepr`next
      ensures ValidS() && sockets == null && Net() == CloseAll(old(Net()))
    {
      while sockets != null
        invariant ValidS() && CloseAll(Net()) == CloseAll(old(Net()))
        decreases |snodes|
      {
        assert Values(snodes)[0].fd == sockets.value.fd && Find(Values(snodes), sockets.value.fd) == 0;
        var _ := SocketDel(sockets.value.fd);
      }
    }

    /** sock_tcp_accept, given what accept, socket and connect will do */
    method SockTcpAccept(sock: Sock, acc: Accepting)
      requires ValidS()
      modifies this`sockets, this`snodes, this`srepr, this`kernel
      ensures ValidS() && Net() == Accept(cfg, old(Net()), sock.fd, acc)
      ensures fresh(srepr - old(srepr)) && old(srepr) <= srepr
    {
      hide Ctx.ValidS, Values, Linked, Points, Kernel.Close, Kernel.Connect;
      if acc.AcceptFails? {
        return;
      }
      kernel := kernel.Open(acc.lan);
      var lansock := new Node(Sock(acc.lan, TcpConnected, 0));
      if acc.SocketFails? {
        kernel := kernel.Close(lansock.value.fd);
        return;
      }
      kernel := kernel.Open(acc.wan);
      var wansock := new Node(Sock(acc.wan, TcpConnected, 0));
      if acc.ConnectFails? {
        kernel := kernel.Close(lansock.value.fd);
        kernel := kernel.Close(wansock.value.fd);
        return;
      }
      kernel := kernel.Connect((cfg.aftrIPv4, cfg.PortOf(sock.fd)));
      wansock.value := wansock.value.(peer := lansock.value.fd);
      lansock.value := lansock.value.(peer := wansock.value.fd);
      AddPair(lansock, wansock);
    }

    /** The two calls of socket_add2 for an established connection. */
    method AddPair(lansock: Node<Sock>, wansock: Node<Sock>)
      requires ValidS() && lansock !in srepr && wansock !in srepr && lansock != wansock
      modifies this`sockets, this`snodes, this`srepr, lansock`next, wansock`next
      ensures ValidS() && srepr == old(srepr) + {lansock, wansock}
      ensures Values(snodes) == [wansock.value, lansock.value] + old(Values(snodes))
    {
      hide Ctx.ValidS, Values, Linked, Points;
      SocketAdd2(lansock);
      SocketAdd2(wansock);
    }

    /** handle_tcp_packet, given the result of send */
    method HandleTcpPacket(pkt: Pkt, result: int) returns (r: int)
      requires ValidS()
      modifies this`kernel
      ensures Net() == Forward(old(Net()), pkt.sock, pkt.data, result)
      ensures pkt.data != [] ==> r == TcpCode(Values(snodes), pkt, result)
    {
      hide Ctx.ValidS, Values, Find, Kernel.Send;
      var sock := SocketFind(pkt.sock);
      if sock == null {
        return -1;
      }
      sock := SocketFind(sock.value.peer);
      if sock == null {
        return -1;
      }
      kernel := kernel.Send(sock.value.fd, pkt.data, result);
      return if result < 0 then result else 0;
    }

    /** handle_tcp_close */
    method HandleTcpClose(pkt: Pkt) returns (r: int)
      requires ValidS()
      modifies this`sockets, this`snodes, this`kernel, srepr`next
      ensures ValidS()
      ensures Net() == if pkt.data == [] then Hangup(old(Net()), pkt.sock) else old(Net())
      ensures r == if pkt.data == [] && Listed(old(Values(snodes)), pkt.sock) then 0 else -1
    {
      if pkt.data != [] {
        return -1;
      }
      var sock := SocketFind(pkt.sock);
      if sock == null {
        return -1;
      }
      var peer := sock.value.peer;
      var _ := SocketDel(pkt.sock);
      var _ := SocketDel(peer);
      return 0;
    }

    // ----- the loop

    /** wait_for_traffic, given what the system calls bring; `asked` is the timeout passed to select */
    method WaitForTraffic(ev: Event) returns (asked: int, pkt: Option<Pkt>)
      requires Valid()
      modifies this`sockets, this`snodes, this`srepr, this`kernel
      ensures Valid() && fresh(srepr - old(srepr)) && old(srepr) <= srepr
      ensures asked == WaitTime(old(Maps()), ev.tGet)
      ensures (View(), pkt) == Wait(cfg, old(View()), ev)
    {
      hide Values, Accept, WaitTime, Shortest, Kernel.Receive;
      asked := TimeoutGet(ev.tGet);
      if ev.ready.None? {
        return asked, None;
      }
      var sock := sockets;
      ghost var k := 0;
      while sock != null
        invariant k <= |snodes| && Points(sock, snodes, k)
        invariant forall j :: 0 <= j < k ==> snodes[j].value.fd !in ev.ready.value
        decreases |snodes| - k
      {
        if sock.value.fd in ev.ready.value {
          assert k == FirstReady(Values(snodes), ev.ready.value);
          match sock.value.state {
            case Udp => return asked, Receive(sock.value, ev.io.datagram);
            case Udp6 => return asked, Receive(sock.value, ev.io.datagram);
            case TcpListening =>
              SockTcpAccept(sock.value, ev.io.accepting);
              return asked, None;
            case TcpConnected =>
              pkt := SockTcpReceive(sock.value, ev.io.stream);
              return asked, pkt;
          }
        }
        sock, k := sock.next, k + 1;
      }
      return asked, None;
    }

    /** sock_udp_receive and sock_udp6_receive, given the outcome of recvmsg */
    function Receive(sock: Sock, datagram: Option<Datagram>): Option<Pkt> {
      match datagram
      case None => None
      case Some(d) => Some(UdpPkt(cfg, sock, d))
    }

    /** sock_tcp_receive, given the outcome of recvmsg */
    method SockTcpReceive(sock: Sock, stream: Option<seq<byte>>) returns (pkt: Option<Pkt>)
      modifies this`kernel
      ensures kernel == if stream.None? then old(kernel) else old(kernel).Receive(sock.fd, stream.value)
      ensures pkt == if stream.None? then None else Some(TcpPkt(sock.fd, stream.value))
    {
      if stream.None? {
        return None;
      }
      kernel := kernel.Receive(sock.fd, stream.value);
      return Some(TcpPkt(sock.fd, stream.value));
    }

    /** handle_nat_pmp_ext_fromclient, with the request assembled in a local buffer; `sentOk` tells whether send
        will succeed */
    method HandleFromClient(pkt: Pkt, sentOk: bool) returns (r: int)
      modifies this`journal
      ensures r == ExtCode(Request(cfg, pkt), sentOk)
      ensures match Request(cfg, pkt)
        case None => journal == old(journal)
        case Some(data) => journal == old(journal) + [ExtRequestOut(cfg.extSock, data)]
    {
      if |pkt.data| > MAX_REQUEST {
        return -1;
      }
      var buf := new byte[128];
      buf[0] := 12;
      buf[1] := 80;
      Put16(buf, 2, pkt.srcPort % U16_LIMIT);
      Put32(buf, 4, cfg.lanIP);
      Put32(buf, 8, pkt.srcIP);
      Copy(buf, SHIM, pkt.data);
      assert buf[..SHIM + |pkt.data|] == Header(cfg, pkt) + pkt.data;
      journal := journal + [ExtRequestOut(cfg.extSock, buf[..SHIM + |pkt.data|])];
      return if sentOk then 0 else -1;
    }

    /** handle_nat_pmp_ext_fromserver */
    method HandleFromServer(pkt: Pkt, sentOk: bool) returns (r: int)
      modifies this`journal
      ensures r == ExtCode(Reply(pkt.data), sentOk)
      ensures match Reply(pkt.data)
        case None => journal == old(journal)
        case Some(a) => journal == old(journal) + [ExtReplyOut(cfg.natPmpLan, a.ip, a.port, a.payload)]
    {
      if |pkt.data| < SHIM {
        return -1;
      }
      if pkt.data[0] != 12 || pkt.data[1] != 80 {
        return -1;
      }
      var sinPort := Swap16(U16(pkt.data, 2));
      var address := U32(pkt.data, 8);
      journal := journal + [ExtReplyOut(cfg.natPmpLan, address, Swap16(sinPort), pkt.data[SHIM..])];
      return if sentOk then 0 else -1;
    }

    /** The part of handle_packet that works with the mapping table. `number` is the packet's number. */
    method HandleClassicPacket(pkt: Pkt, now: int, number: nat, sentOk: bool) returns (r: int)
      requires ValidM()
      modifies this`mappings, this`mnodes, this`mrepr, this`journal, mrepr`next
      ensures ValidM() && fresh(mrepr - old(mrepr)) && old(mrepr) <= mrepr
      ensures View() == HandleClassic(cfg, old(View()), pkt, number, now)
      ensures r == if Lookup(old(Maps()), pkt) < |old(Maps())| || sentOk then 0 else -1
    {
      hide Values, Linked, Lookup, Matches, Created, Without;
      var m := MappingFind(pkt);
      if m != null {
        ghost var k := Lookup(Maps(), pkt);
        var v := m.value;
        journal := journal + [ResponseOut(v.origin, v.lanSock, v.clientIP, v.clientPort, pkt.data)];
        var _ := MappingDelete(m, k);
        return 0;
      }
      var q := MappingCreate(pkt, cfg.sharedFd, number);
      MappingAdd(q, now);
      assert q.value == Maps()[0] == Created(cfg, pkt, number, now);
      journal := journal + [QueryOut(number, q.value.wanSock, q.value.aftrIPv4, q.value.routerPort, pkt.data)];
      return if sentOk then 0 else -1;
    }

    /** The part of handle_packet for what came from a connected socket. */
    method HandleStream(pkt: Pkt, result: int) returns (r: int)
      requires ValidS()
      modifies this`sockets, this`snodes, this`kernel, srepr`next
      ensures ValidS()
      ensures Net() == if pkt.data != [] then Forward(old(Net()), pkt.sock, pkt.data, result)
                       else Hangup(old(Net()), pkt.sock)
      ensures r == TcpCode(old(Values(snodes)), pkt, result)
    {
      hide Ctx.ValidS, Values, Linked, Forward, Hangup, Find;
      if pkt.data != [] {
        r := HandleTcpPacket(pkt, result);
      } else {
        r := HandleTcpClose(pkt);
      }
    }

    /** The part of handle_packet for datagrams. */
    method HandleDatagram(pkt: Pkt, now: int, sentOk: bool) returns (r: int)
      requires ValidM()
      modifies this`mappings, this`mnodes, this`mrepr, this`received, this`journal, mrepr`next
      ensures ValidM() && fresh(mrepr - old(mrepr)) && old(mrepr) <= mrepr
      ensures View() == HandleUdp(cfg, old(View()), pkt, now)
      ensures r == UdpCode(cfg, old(View()), pkt, sentOk)
    {
      hide Ctx.ValidM, Values, Linked, HandleClassic, Reply, Request, ExtCode;
      var number := |received|;
      received := received + [pkt];
      if pkt.dstIP == MCAST && pkt.sock == cfg.wanSsdp {
        journal := journal + [McastOut(cfg.lanSsdp, MCAST, pkt.dstPort, pkt.data)];
        return 0;
      }
      if cfg.extEnabled {
        if pkt.sock == cfg.extSock {
          r := HandleFromServer(pkt, sentOk);
        } else {
          r := HandleFromClient(pkt, sentOk);
        }
        return;
      }
      r := HandleClassicPacket(pkt, now, number, sentOk);
    }

    /** handle_packet */
    method HandlePacket(pkt: Pkt, io: Io, now: int) returns (r: int)
      requires Valid()
      modifies this, mrepr`next, srepr`next
      ensures Valid() && fresh(srepr - old(srepr)) && fresh(mrepr - old(mrepr))
      ensures old(srepr) <= srepr && old(mrepr) <= mrepr
      ensures View() == Handle(cfg, old(View()), pkt, io, now)
      ensures r == Code(cfg, old(View()), pkt, io)
    {
      hide Ctx.ValidM, Ctx.ValidS, Values, Linked, HandleUdp, UdpCode, Forward, Hangup, TcpCode;
      if pkt.proto == TCP {
        r := HandleStream(pkt, io.sendResult);
      } else {
        r := HandleDatagram(pkt, now, io.sentOk);
      }
    }

    /** One round of the loop in `run`. */
    method Round(ev: Event)
      requires Valid()
      modifies this, mrepr`next, srepr`next
      ensures Valid() && fresh(srepr - old(srepr)) && fresh(mrepr - old(mrepr))
      ensures View() == Step(cfg, old(View()), ev)
    {
      hide Ctx.ValidM, Ctx.ValidS, Wait, Handle, Code, Run, WaitTime, Linked, Points, Values,
           AliveNodes, Alive, Dead, Expiries;
      var _, pkt := WaitForTraffic(ev);
      if pkt.Some? {
        pktCnt := pktCnt + 1;
        var _ := HandlePacket(pkt.value, ev.io, ev.tAdd);
      }
      RemoveExpired(ev.tPurge);
    }

    /** run, until a signal ends it after the given rounds */
    method Loop(evs: seq<Event>)
      requires Valid()
      modifies this, mrepr`next, srepr`next
      ensures Valid() && View() == Run(cfg, old(View()), evs)
      ensures fresh(srepr - old(srepr)) && fresh(mrepr - old(mrepr))
    {
      var n := 0;
      while n < |evs|
        invariant n <= |evs| && Valid()
        invariant fresh(srepr - old(srepr)) && fresh(mrepr - old(mrepr))
        invariant View() == Run(cfg, old(View()), evs[..n])
      {
        assert evs[..n + 1][..n] == evs[..n];
        Round(evs[n]);
        n := n + 1;
      }
      assert evs[..n] == evs;
    }
  }
}
