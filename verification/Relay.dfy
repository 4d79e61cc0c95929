/** The socket list and the TCP relay, over a kernel that hands out descriptors and reuses them after close. */
module Relay {
  import opened Bytes
  import opened Net
  import Lists

  /** One end of the proxy that a descriptor stands for while it is open. Descriptors are reused, ends are not.
      `lost` counts bytes passed to send that it did not take; `target` is what connect was called with. */
  datatype End = End(rx: seq<byte>, tx: seq<byte>, lost: nat, mate: Option<nat>, target: Option<(Addr, int)>)

  const NEW_END := End([], [], 0, None, None)

  datatype Kernel = Kernel(open: map<int, nat>, ends: seq<End>, closed: seq<nat>, badCloses: nat) {
    predicate Knows(fd: int) {
      fd in open && open[fd] < |ends|
    }

    /** accept and socket */
    function Open(fd: int): Kernel {
      this.(open := open[fd := |ends|], ends := ends + [NEW_END])
    }

    function Close(fd: int): Kernel {
      if fd in open then this.(open := open - {fd}, closed := closed + [open[fd]])
      else this.(badCloses := badCloses + 1)
    }

    /** The two last opened ends become the two sides of one relayed connection. */
    function Connect(target: (Addr, int)): Kernel
      requires |ends| >= 2
    {
      var a, b := |ends| - 2, |ends| - 1;
      this.(ends := ends[a := ends[a].(mate := Some(b))][b := ends[b].(mate := Some(a), target := Some(target))])
    }

    /** recvmsg on a stream */
    function Receive(fd: int, data: seq<byte>): Kernel {
      if !Knows(fd) then this
      else this.(ends := ends[open[fd] := ends[open[fd]].(rx := ends[open[fd]].rx + data)])
    }

    /** send, which may take fewer bytes than it is given, or fail */
    function Send(fd: int, data: seq<byte>, result: int): Kernel {
      if !Knows(fd) then this
      else
        var e := ends[open[fd]];
        var t := Taken(data, result);
        this.(ends := ends[open[fd] := e.(tx := e.tx + t, lost := e.lost + |data| - |t|)])
    }
  }

  /** The bytes that a send with this result has taken. */
  function Taken(data: seq<byte>, result: int): (t: seq<byte>)
    ensures |t| <= |data|
    ensures t == data[..|t|]
    ensures |t| == |data| <==> data == [] || |data| <= result
  {
    if result < 0 then [] else if result < |data| then data[..result] else data
  }

  /** The socket list and the kernel beneath it. */
  datatype Sockets = Sockets(list: seq<Sock>, kernel: Kernel)

  /** Where socket_find finds a descriptor; the length of the list if nowhere. */
  function Find(list: seq<Sock>, fd: int): (i: nat)
    ensures i <= |list|
    ensures i < |list| ==> list[i].fd == fd
    ensures forall j :: 0 <= j < i ==> list[j].fd != fd
  {
    if list == [] || list[0].fd == fd then 0 else 1 + Find(list[1..], fd)
  }

  /** socket_del */
  function Delete(ns: Sockets, fd: int): Sockets {
    var i := Find(ns.list, fd);
    if i == |ns.list| then ns else Sockets(Lists.Without(ns.list, i), ns.kernel.Close(fd))
  }

  /** The outcome of the system calls in sock_tcp_accept. */
  datatype Accepting =
    | AcceptFails
    | SocketFails(lan: int)
    | ConnectFails(lan: int, wan: int)
    | Connected(lan: int, wan: int)

  /** sock_tcp_accept on the listening descriptor `fd` */
  function Accept(cfg: Config, ns: Sockets, fd: int, acc: Accepting): Sockets {
    match acc
    case AcceptFails => ns
    case SocketFails(lan) => ns.(kernel := ns.kernel.Open(lan).Close(lan))
    case ConnectFails(lan, wan) => ns.(kernel := ns.kernel.Open(lan).Open(wan).Close(lan).Close(wan))
    case Connected(lan, wan) =>
      Sockets([Sock(wan, TcpConnected, lan), Sock(lan, TcpConnected, wan)] + ns.list,
              ns.kernel.Open(lan).Open(wan).Connect((cfg.aftrIPv4, cfg.PortOf(fd))))
  }

  /** handle_tcp_packet */
  function Forward(ns: Sockets, fd: int, data: seq<byte>, result: int): Sockets {
    var i := Find(ns.list, fd);
    if i == |ns.list| then ns
    else
      var j := Find(ns.list, ns.list[i].peer);
      if j == |ns.list| then ns else ns.(kernel := ns.kernel.Send(ns.list[j].fd, data, result))
  }

  /** handle_tcp_close */
  function Hangup(ns: Sockets, fd: int): Sockets {
    var i := Find(ns.list, fd);
    if i == |ns.list| then ns else Delete(Delete(ns, fd), ns.list[i].peer)
  }

  /** Data or the end of a stream arriving on a connected socket, and what is done about it. */
  function Arrive(ns: Sockets, fd: int, data: seq<byte>, result: int): Sockets {
    var ns' := ns.(kernel := ns.kernel.Receive(fd, data));
    if data == [] then Hangup(ns', fd) else Forward(ns', fd, data, result)
  }

  /** sockets_close */
  function CloseAll(ns: Sockets): Sockets
    decreases |ns.list|
  {
    if ns.list == [] then ns else CloseAll(Delete(ns, ns.list[0].fd))
  }

  // ----- the invariants

  /** What the OS promises about the descriptors it returns. */
  predicate Fresh(k: Kernel, acc: Accepting) {
    match acc
    case AcceptFails => true
    case SocketFails(lan) => lan !in k.open
    case ConnectFails(lan, wan) => lan !in k.open && wan !in k.open && lan != wan
    case Connected(lan, wan) => lan !in k.open && wan !in k.open && lan != wan
  }

  predicate Listed(list: seq<Sock>, fd: int) {
    Find(list, fd) < |list|
  }

  /** No descriptor is listed twice, and exactly the listed descriptors are open. */
  ghost predicate Tracked(list: seq<Sock>, k: Kernel) {
    && Distinct(list)
    && (forall s :: s in list ==> s.fd in k.open)
    && (forall fd :: fd in k.open ==> Listed(list, fd))
  }

  /** Every end ever opened is open under one descriptor or has been closed once, and nothing else was closed. */
  ghost predicate Accounted(k: Kernel) {
    && (forall fd :: fd in k.open ==> k.open[fd] < |k.ends|)
    && (forall a, b :: a in k.open && b in k.open && k.open[a] == k.open[b] ==> a == b)
    && (forall i, j :: 0 <= i < j < |k.closed| ==> k.closed[i] != k.closed[j])
    && (forall id :: id in k.closed ==> id < |k.ends|)
    && (forall fd :: fd in k.open ==> k.open[fd] !in k.closed)
    && (forall id: nat :: id < |k.ends| ==> id in k.closed || IsOpen(k, id))
    && k.badCloses == 0
  }

  ghost predicate IsOpen(k: Kernel, id: nat) {
    exists fd :: fd in k.open && k.open[fd] == id
  }

  /** `peer` pairs the connected sockets of the list two by two. */
  ghost predicate Paired(list: seq<Sock>) {
    forall s :: s in list && s.state.TcpConnected? ==>
      s.peer != s.fd && Sock(s.peer, TcpConnected, s.fd) in list
  }

  /** `t` is `r` with some bytes left out. */
  predicate IsSubsequence(t: seq<byte>, r: seq<byte>)
    decreases |r|
  {
    t == [] ||
    (r != [] &&
     var r' := r[..|r| - 1];
     (t[|t| - 1] == r[|r| - 1] && IsSubsequence(t[..|t| - 1], r')) || IsSubsequence(t, r'))
  }

  /** Bytes of which the first `n` are passed on keep it so. */
  lemma {:induction false} PassedOnPart(t: seq<byte>, r: seq<byte>, x: seq<byte>, n: nat)
    requires IsSubsequence(t, r) && n <= |x|
    ensures IsSubsequence(t + x[..n], r + x)
    decreases |x|
  {
    if x == [] {
      assert t + x[..n] == t && r + x == r;
    } else {
      var x' := x[..|x| - 1];
      assert (r + x)[..|r + x| - 1] == r + x';
      if n < |x| {
        PassedOnPart(t, r, x', n);
        assert x'[..n] == x[..n];
      } else {
        PassedOnPart(t, r, x', n - 1);
        var u := t + x[..n];
        assert u[..|u| - 1] == t + x'[..n - 1];
      }
    }
  }

  /** What `a` received has gone out on `b`, in order, less the bytes that send did not take. */
  predicate Relayed(a: End, b: End) {
    && |a.rx| == |b.tx| + b.lost
    && IsSubsequence(b.tx, a.rx)
    && (b.lost == 0 ==> b.tx == a.rx)
  }

  /** Each connection's bytes have gone to its other end, and nothing has come or gone elsewhere. */
  ghost predicate Conserved(ends: seq<End>) {
    forall a :: 0 <= a < |ends| ==>
      match ends[a].mate
      case None => ends[a].rx == [] && ends[a].tx == [] && ends[a].lost == 0
      case Some(b) => b < |ends| && b != a && ends[b].mate == Some(a) && Relayed(ends[a], ends[b])
  }

  /** Sockets that are peers stand for the two ends of one connection. */
  ghost predicate Wired(list: seq<Sock>, k: Kernel) {
    forall s :: s in list && s.state.TcpConnected? ==>
      s.fd in k.open && s.peer in k.open && k.open[s.fd] < |k.ends| && k.ends[k.open[s.fd]].mate == Some(k.open[s.peer])
  }

  ghost predicate Inv(ns: Sockets) {
    && Tracked(ns.list, ns.kernel) && Accounted(ns.kernel) && Paired(ns.list)
    && Conserved(ns.kernel.ends) && Wired(ns.list, ns.kernel)
  }

  /** The sockets as a successful sockets_bind leaves them: all open, none connected, no history. */
  ghost predicate Bound(ns: Sockets) {
    && Tracked(ns.list, ns.kernel) && Accounted(ns.kernel) && ns.kernel.closed == []
    && (forall s :: s in ns.list ==> !s.state.TcpConnected?)
    && forall e :: e in ns.kernel.ends ==> e == NEW_END
  }

  lemma BoundHasInv(ns: Sockets)
    requires Bound(ns)
    ensures Inv(ns)
  {
    assert forall a :: 0 <= a < |ns.kernel.ends| ==> ns.kernel.ends[a] in ns.kernel.ends;
  }

  // ----- single kernel steps

  lemma ListedIff(list: seq<Sock>, fd: int)
    ensures Listed(list, fd) <==> exists s :: s in list && s.fd == fd
  {
    if Listed(list, fd) { assert list[Find(list, fd)] in list; }
  }

  lemma OpenAccounted(k: Kernel, fd: int)
    requires Accounted(k) && Conserved(k.ends) && fd !in k.open
    ensures Accounted(k.Open(fd)) && Conserved(k.Open(fd).ends)
  {
    var k' := k.Open(fd);
    forall id: nat | id < |k'.ends| ensures id in k'.closed || IsOpen(k', id) {
      if id == |k.ends| {
        assert k'.open[fd] == id;
      } else if id !in k.closed {
        var f :| f in k.open && k.open[f] == id;
        assert k'.open[f] == id;
      }
    }
  }

  lemma CloseAccounted(k: Kernel, fd: int)
    requires Accounted(k) && fd in k.open
    ensures Accounted(k.Close(fd))
  {
    var k' := k.Close(fd);
    forall id: nat | id < |k'.ends| ensures id in k'.closed || IsOpen(k', id) {
      if id !in k.closed && id != k.open[fd] {
        var f :| f in k.open && k.open[f] == id;
        assert k'.open[f] == id;
      } else if id == k.open[fd] {
        assert k'.closed[|k.closed|] == id;
      } else {
        var i :| 0 <= i < |k.closed| && k.closed[i] == id;
        assert k'.closed[i] == id;
      }
    }
    forall f | f in k'.open ensures k'.open[f] !in k'.closed {
      assert k.open[f] != k.open[fd];
    }
  }

  ghost predicate Distinct(list: seq<Sock>) {
    forall i, j :: 0 <= i < j < |list| ==> list[i].fd != list[j].fd
  }

  lemma OneListed(list: seq<Sock>, s: Sock, t: Sock)
    requires Distinct(list) && s in list && t in list && s.fd == t.fd
    ensures s == t
  {
  }

  /** Taking the only socket with a descriptor out of a list. */
  lemma WithoutIsDistinct(list: seq<Sock>, i: nat)
    requires Distinct(list) && i < |list|
    ensures Distinct(Lists.Without(list, i))
    ensures forall s :: s in Lists.Without(list, i) <==> s in list && s.fd != list[i].fd
  {
    forall s | s in Lists.Without(list, i) ensures s.fd != list[i].fd {
      var j :| 0 <= j < |Lists.Without(list, i)| && Lists.Without(list, i)[j] == s;
      assert s == if j < i then list[j] else list[j + 1];
    }
    assert list[i] in list;
  }

  /** What closing a listed descriptor leaves of the list invariants. */
  lemma DeleteTracked(ns: Sockets, fd: int)
    requires Tracked(ns.list, ns.kernel) && Accounted(ns.kernel) && Listed(ns.list, fd)
    ensures var ns' := Delete(ns, fd);
      && Tracked(ns'.list, ns'.kernel) && Accounted(ns'.kernel)
      && ns'.kernel.ends == ns.kernel.ends
      && ns'.kernel.open == ns.kernel.open - {fd}
      && forall s :: s in ns'.list <==> s in ns.list && s.fd != fd
  {
    hide Accounted, Lists.Without;
    var i := Find(ns.list, fd);
    var ns' := Delete(ns, fd);
    assert ns.list[i] in ns.list;
    CloseAccounted(ns.kernel, fd);
    WithoutIsDistinct(ns.list, i);
    forall f | f in ns'.kernel.open ensures Listed(ns'.list, f) {
      ListedIff(ns.list, f);
      ListedIff(ns'.list, f);
    }
  }

  // ----- the operations keep the invariant

  /** Accounts depend on the ends only through their number. */
  lemma SameAccounts(k: Kernel, k': Kernel)
    requires Accounted(k) && k'.open == k.open && k'.closed == k.closed && k'.badCloses == k.badCloses
    requires |k'.ends| == |k.ends|
    ensures Accounted(k')
  {
    forall id: nat | id < |k'.ends| ensures id in k'.closed || IsOpen(k', id) {
      assert id in k.closed || IsOpen(k, id);
    }
  }

  /** Ends that came and went without entering the list leave it as it was. */
  lemma PassingEnds(ns: Sockets, k': Kernel)
    requires Inv(ns) && k'.open == ns.kernel.open && ns.kernel.ends <= k'.ends
    requires Accounted(k') && Conserved(k'.ends)
    ensures Inv(ns.(kernel := k'))
  {
  }

  /** Every exit of sock_tcp_accept, the two failure paths included. */
  lemma AcceptKeepsInv(cfg: Config, ns: Sockets, fd: int, acc: Accepting)
    requires Inv(ns) && Fresh(ns.kernel, acc)
    ensures Inv(Accept(cfg, ns, fd, acc))
  {
    hide Tracked, Accounted, Paired, Conserved, Wired;
    var k := ns.kernel;
    match acc
    case AcceptFails =>
    case SocketFails(lan) =>
      OpenAccounted(k, lan);
      CloseAccounted(k.Open(lan), lan);
      assert k.Open(lan).Close(lan).open == k.open;
      PassingEnds(ns, k.Open(lan).Close(lan));
    case ConnectFails(lan, wan) =>
      OpenAccounted(k, lan);
      OpenAccounted(k.Open(lan), wan);
      CloseAccounted(k.Open(lan).Open(wan), lan);
      CloseAccounted(k.Open(lan).Open(wan).Close(lan), wan);
      assert k.Open(lan).Open(wan).Close(lan).Close(wan).open == k.open;
      PassingEnds(ns, k.Open(lan).Open(wan).Close(lan).Close(wan));
    case Connected(lan, wan) =>
      OpenAccounted(k, lan);
      OpenAccounted(k.Open(lan), wan);
      ConnectKeepsInv(cfg, ns, fd, lan, wan);
  }

  lemma ConnectKeepsInv(cfg: Config, ns: Sockets, fd: int, lan: int, wan: int)
    requires Inv(ns) && Fresh(ns.kernel, Connected(lan, wan))
    requires Accounted(ns.kernel.Open(lan).Open(wan)) && Conserved(ns.kernel.Open(lan).Open(wan).ends)
    ensures Inv(Accept(cfg, ns, fd, Connected(lan, wan)))
  {
    hide Tracked, Accounted, Paired, Conserved, Wired;
    var ns' := Accept(cfg, ns, fd, Connected(lan, wan));
    ConnectKeepsAccounts(ns.kernel.Open(lan).Open(wan), (cfg.aftrIPv4, cfg.PortOf(fd)));
    PushKeepsTracked(ns.list, ns.kernel, ns'.list, ns'.kernel, lan, wan);
    PushKeepsWired(ns, ns', lan, wan);
  }

  lemma PushKeepsWired(ns: Sockets, ns': Sockets, lan: int, wan: int)
    requires Inv(ns) && lan !in ns.kernel.open && wan !in ns.kernel.open && lan != wan
    requires ns'.list == [Sock(wan, TcpConnected, lan), Sock(lan, TcpConnected, wan)] + ns.list
    requires ns'.kernel.open == ns.kernel.open[lan := |ns.kernel.ends|][wan := |ns.kernel.ends| + 1]
    requires |ns'.kernel.ends| == |ns.kernel.ends| + 2 && ns.kernel.ends <= ns'.kernel.ends
    requires ns'.kernel.ends[|ns.kernel.ends|].mate == Some(|ns.kernel.ends| + 1)
    requires ns'.kernel.ends[|ns.kernel.ends| + 1].mate == Some(|ns.kernel.ends|)
    ensures Paired(ns'.list) && Wired(ns'.list, ns'.kernel)
  {
    hide Accounted, Conserved;
    assert ns'.list[0] in ns'.list && ns'.list[1] in ns'.list;
    assert forall s :: s in ns'.list <==> s in ns.list || s == ns'.list[0] || s == ns'.list[1];
  }

  lemma ConnectKeepsAccounts(k: Kernel, target: (Addr, int))
    requires Accounted(k) && Conserved(k.ends) && |k.ends| >= 2
    requires k.ends[|k.ends| - 2] == k.ends[|k.ends| - 1] == NEW_END
    ensures Accounted(k.Connect(target)) && Conserved(k.Connect(target).ends)
  {
    hide Conserved, Accounted;
    SameAccounts(k, k.Connect(target));
    ConnectConserves(k, target);
  }

  lemma ConnectConserves(k: Kernel, target: (Addr, int))
    requires Conserved(k.ends) && |k.ends| >= 2 && k.ends[|k.ends| - 2] == k.ends[|k.ends| - 1] == NEW_END
    ensures Conserved(k.Connect(target).ends)
  {
    assert IsSubsequence([], []);
    hide IsSubsequence;
  }

  lemma PushKeepsTracked(list: seq<Sock>, k: Kernel, list': seq<Sock>, k': Kernel, lan: int, wan: int)
    requires Tracked(list, k) && lan !in k.open && wan !in k.open && lan != wan
    requires list' == [Sock(wan, TcpConnected, lan), Sock(lan, TcpConnected, wan)] + list
    requires k'.open.Keys == k.open.Keys + {lan, wan}
    ensures Tracked(list', k')
  {
    assert list'[0] in list' && list'[1] in list';
    assert forall s :: s in list' <==> s in list || s == list'[0] || s == list'[1];
    forall f | f in k'.open ensures Listed(list', f) {
      if f in k.open { ListedIff(list, f); }
      ListedIff(list', f);
    }
    forall i, j | 0 <= i < j < |list'| ensures list'[i].fd != list'[j].fd {
      if i < 2 <= j { assert list'[j] == list[j - 2] && list[j - 2] in list; }
    }
  }

  /** Data on a connected socket goes to the other end of its own connection, and to no other. */
  lemma ForwardKeepsInv(ns: Sockets, s: Sock, data: seq<byte>, result: int)
    requires Inv(ns) && s in ns.list && s.state.TcpConnected? && data != []
    ensures Inv(Arrive(ns, s.fd, data, result))
  {
    ArriveIsTransfer(ns, s, data, result);
    Transfer(ns.kernel, s.fd, s.peer, data, result);
  }

  lemma ArriveIsTransfer(ns: Sockets, s: Sock, data: seq<byte>, result: int)
    requires Inv(ns) && s in ns.list && s.state.TcpConnected? && data != []
    ensures Arrive(ns, s.fd, data, result) == ns.(kernel := ns.kernel.Receive(s.fd, data).Send(s.peer, data, result))
  {
    hide Accounted, Conserved;
    ListedIff(ns.list, s.fd);
    OneListed(ns.list, s, ns.list[Find(ns.list, s.fd)]);
    var p := Sock(s.peer, TcpConnected, s.fd);
    ListedIff(ns.list, s.peer);
    OneListed(ns.list, p, ns.list[Find(ns.list, s.peer)]);
  }

  /** Receiving on one end of a connection and sending the same bytes on the other. */
  lemma Transfer(k: Kernel, from: int, to: int, data: seq<byte>, result: int)
    requires Accounted(k) && Conserved(k.ends) && from in k.open && to in k.open
    requires k.ends[k.open[from]].mate == Some(k.open[to])
    ensures var k' := k.Receive(from, data).Send(to, data, result);
      && Accounted(k') && Conserved(k'.ends) && k'.open == k.open && |k'.ends| == |k.ends|
      && forall id :: 0 <= id < |k.ends| ==> k'.ends[id].mate == k.ends[id].mate
  {
    var a, b := k.open[from], k.open[to];
    var k' := k.Receive(from, data).Send(to, data, result);
    hide IsSubsequence;
    SameAccounts(k, k');
    assert Relayed(k.ends[a], k.ends[b]);
    var t := Taken(data, result);
    PassedOnPart(k.ends[b].tx, k.ends[a].rx, data, |t|);
    assert k'.ends[a] == k.ends[a].(rx := k.ends[a].rx + data);
    forall x | 0 <= x < |k'.ends| && x != a && x != b ensures k'.ends[x] == k.ends[x] {
    }
  }

  /** The end of a stream takes down both sockets of the connection, and nothing else. */
  lemma HangupKeepsInv(ns: Sockets, s: Sock)
    requires Inv(ns) && s in ns.list && s.state.TcpConnected?
    ensures var ns' := Hangup(ns, s.fd);
      && Inv(ns') && ns'.kernel.ends == ns.kernel.ends
      && ns'.kernel.open == ns.kernel.open - {s.fd, s.peer}
      && forall t :: t in ns'.list <==> t in ns.list && t.fd != s.fd && t.fd != s.peer
  {
    hide Accounted, Conserved, Lists.Without;
    ListedIff(ns.list, s.fd);
    OneListed(ns.list, s, ns.list[Find(ns.list, s.fd)]);
    var ns1 := Delete(ns, s.fd);
    DeleteTracked(ns, s.fd);
    assert Sock(s.peer, TcpConnected, s.fd) in ns1.list;
    ListedIff(ns1.list, s.peer);
    DeleteTracked(ns1, s.peer);
    PairRemoved(ns.list, s, Delete(ns1, s.peer).list);
  }

  lemma HangupCloses(ns: Sockets, s: Sock)
    requires Inv(ns) && s in ns.list && s.state.TcpConnected?
    ensures s.fd in ns.kernel.open && s.peer in ns.kernel.open
    ensures Hangup(ns, s.fd).kernel.closed == ns.kernel.closed + [ns.kernel.open[s.fd], ns.kernel.open[s.peer]]
  {
    hide Accounted, Conserved, Lists.Without;
    ListedIff(ns.list, s.fd);
    OneListed(ns.list, s, ns.list[Find(ns.list, s.fd)]);
    DeleteTracked(ns, s.fd);
    var ns1 := Delete(ns, s.fd);
    assert Sock(s.peer, TcpConnected, s.fd) in ns1.list;
    ListedIff(ns1.list, s.peer);
  }

  lemma PairRemoved(list: seq<Sock>, s: Sock, rest: seq<Sock>)
    requires Distinct(list) && Paired(list) && s in list && s.state.TcpConnected?
    requires forall t :: t in rest <==> t in list && t.fd != s.fd && t.fd != s.peer
    ensures Paired(rest)
    ensures forall t :: t in rest && t.state.TcpConnected? ==> t.peer != s.fd && t.peer != s.peer
  {
    forall t | t in rest && t.state.TcpConnected?
      ensures Sock(t.peer, TcpConnected, t.fd) in rest
    {
      var q := Sock(t.peer, TcpConnected, t.fd);
      assert q in list;
      if q.fd == s.fd { OneListed(list, q, s); }
      if q.fd == s.peer { OneListed(list, q, Sock(s.peer, TcpConnected, s.fd)); }
    }
  }

  lemma ReceiveNothing(k: Kernel, fd: int)
    ensures k.Receive(fd, []) == k
  {
    if k.Knows(fd) {
      assert k.ends[k.open[fd]].rx + [] == k.ends[k.open[fd]].rx;
      assert k.Receive(fd, []).ends == k.ends;
    }
  }

  lemma ArriveKeepsInv(ns: Sockets, s: Sock, data: seq<byte>, result: int)
    requires Inv(ns) && s in ns.list && s.state.TcpConnected?
    ensures Inv(Arrive(ns, s.fd, data, result))
  {
    if data == [] {
      ReceiveNothing(ns.kernel, s.fd);
      HangupKeepsInv(ns, s);
    } else {
      ForwardKeepsInv(ns, s, data, result);
    }
  }

  /** sockets_close leaves nothing open: every end that was ever opened has then been closed exactly once. */
  lemma {:induction false} CloseAllClosesOnce(ns: Sockets)
    requires Tracked(ns.list, ns.kernel) && Accounted(ns.kernel)
    ensures var ns' := CloseAll(ns);
      && ns'.list == [] && (forall fd :: fd !in ns'.kernel.open) && ns'.kernel.badCloses == 0
      && ns'.kernel.ends == ns.kernel.ends
      && (forall i, j :: 0 <= i < j < |ns'.kernel.closed| ==> ns'.kernel.closed[i] != ns'.kernel.closed[j])
      && forall id: nat :: id in ns'.kernel.closed <==> id < |ns.kernel.ends|
    decreases |ns.list|
  {
    if ns.list == [] {
      assert forall fd :: !Listed(ns.list, fd);
    } else {
      DeleteTracked(ns, ns.list[0].fd);
      CloseAllClosesOnce(Delete(ns, ns.list[0].fd));
    }
  }

  // ----- losses

  /** How many of the bytes that end `a` received have been lost on their way out. */
  function LostFrom(ends: seq<End>, a: nat): nat {
    if a < |ends| && ends[a].mate.Some? && ends[a].mate.value < |ends| then ends[ends[a].mate.value].lost else 0
  }

  lemma AcceptLosesNothing(cfg: Config, ns: Sockets, fd: int, acc: Accepting, a: nat)
    requires Conserved(ns.kernel.ends)
    ensures LostFrom(Accept(cfg, ns, fd, acc).kernel.ends, a) == LostFrom(ns.kernel.ends, a)
  {
    hide Relayed;
  }

  /** Bytes are lost exactly when send takes fewer than it is given, and then they are bytes of the end that the
      served socket stands for. */
  lemma ArriveLoses(ns: Sockets, s: Sock, data: seq<byte>, result: int, a: nat)
    requires Inv(ns) && s in ns.list && s.state.TcpConnected?
    ensures s.fd in ns.kernel.open
    ensures LostFrom(Arrive(ns, s.fd, data, result).kernel.ends, a) ==
            LostFrom(ns.kernel.ends, a)
            + if a == ns.kernel.open[s.fd] && data != [] then |data| - |Taken(data, result)| else 0
  {
    hide Tracked, Accounted, Paired, Conserved, Hangup, Forward, Kernel.Send, LostFrom, Taken;
    var k := ns.kernel;
    if data == [] {
      ReceiveNothing(k, s.fd);
      HangupKeepsInv(ns, s);
    } else {
      ArriveIsTransfer(ns, s, data, result);
      TransferLoses(k, s.fd, s.peer, data, result, a);
    }
  }

  lemma TransferLoses(k: Kernel, from: int, to: int, data: seq<byte>, result: int, a: nat)
    requires Accounted(k) && Conserved(k.ends) && from in k.open && to in k.open
    requires k.ends[k.open[from]].mate == Some(k.open[to])
    ensures LostFrom(k.Receive(from, data).Send(to, data, result).ends, a) ==
            LostFrom(k.ends, a) + if a == k.open[from] then |data| - |Taken(data, result)| else 0
  {
    hide Relayed, Taken;
  }

  // ----- histories

  /** Later ends are earlier ends with longer histories; who is connected to whom does not change, and an end
      that was not in use is not in use again. */
  ghost predicate Grown(k: Kernel, k': Kernel) {
    && |k.ends| <= |k'.ends|
    && (forall a :: 0 <= a < |k.ends| ==>
         && k.ends[a].rx <= k'.ends[a].rx && k.ends[a].tx <= k'.ends[a].tx
         && k.ends[a].mate == k'.ends[a].mate && k.ends[a].target == k'.ends[a].target)
    && k.closed <= k'.closed
  }

  lemma GrownTrans(k0: Kernel, k1: Kernel, k2: Kernel)
    requires Grown(k0, k1) && Grown(k1, k2)
    ensures Grown(k0, k2)
  {
  }

  lemma AcceptGrows(cfg: Config, ns: Sockets, fd: int, acc: Accepting)
    ensures Grown(ns.kernel, Accept(cfg, ns, fd, acc).kernel)
  {
  }

  lemma ArriveGrows(ns: Sockets, fd: int, data: seq<byte>, result: int)
    ensures Grown(ns.kernel, Arrive(ns, fd, data, result).kernel)
  {
    hide Hangup, Forward;
    var k1 := ns.kernel.Receive(fd, data);
    assert Grown(ns.kernel, k1);
    var ns1 := ns.(kernel := k1);
    if data == [] {
      HangupGrows(ns1, fd);
      GrownTrans(ns.kernel, k1, Hangup(ns1, fd).kernel);
    } else {
      ForwardGrows(ns1, fd, data, result);
      GrownTrans(ns.kernel, k1, Forward(ns1, fd, data, result).kernel);
    }
  }

  lemma HangupGrows(ns: Sockets, fd: int)
    ensures Grown(ns.kernel, Hangup(ns, fd).kernel) && Hangup(ns, fd).kernel.ends == ns.kernel.ends
  {
    hide Find, Lists.Without;
  }

  lemma ForwardGrows(ns: Sockets, fd: int, data: seq<byte>, result: int)
    ensures Grown(ns.kernel, Forward(ns, fd, data, result).kernel)
  {
  }

  /** A connection was made to the AFTR, on the port of one of the listening sockets. */
  ghost predicate AimedAt(cfg: Config, list: seq<Sock>, target: (Addr, int)) {
    exists s :: s in list && s.state.TcpListening? && target == (cfg.aftrIPv4, cfg.PortOf(s.fd))
  }

  /** Of two connected ends exactly one was connected by the proxy, and to the AFTR. */
  ghost predicate Aimed(cfg: Config, list: seq<Sock>, ends: seq<End>) {
    forall a :: 0 <= a < |ends| ==>
      && (ends[a].target.Some? ==> AimedAt(cfg, list, ends[a].target.value))
      && match ends[a].mate
         case None => ends[a].target.None?
         case Some(b) => b < |ends| && (ends[a].target.Some? <==> ends[b].target.None?)
  }

  lemma AcceptKeepsAim(cfg: Config, ns: Sockets, s: Sock, acc: Accepting)
    requires Aimed(cfg, ns.list, ns.kernel.ends) && s in ns.list && s.state.TcpListening?
    ensures var ns' := Accept(cfg, ns, s.fd, acc);
      Aimed(cfg, ns'.list, ns'.kernel.ends)
  {
    var ns' := Accept(cfg, ns, s.fd, acc);
    assert forall t :: t in ns.list ==> t in ns'.list;
    assert AimedAt(cfg, ns'.list, (cfg.aftrIPv4, cfg.PortOf(s.fd)));
    forall t | AimedAt(cfg, ns.list, t) ensures AimedAt(cfg, ns'.list, t) {
    }
    hide AimedAt;
  }

  lemma ArriveKeepsAim(cfg: Config, ns: Sockets, s: Sock, data: seq<byte>, result: int)
    requires Inv(ns) && s in ns.list && s.state.TcpConnected? && Aimed(cfg, ns.list, ns.kernel.ends)
    ensures var ns' := Arrive(ns, s.fd, data, result);
      Aimed(cfg, ns'.list, ns'.kernel.ends)
  {
    hide Accounted, Conserved, Wired;
    var ns' := Arrive(ns, s.fd, data, result);
    ArriveGrows(ns, s.fd, data, result);
    assert |ns'.kernel.ends| == |ns.kernel.ends|;
    forall t | t in ns.list && t.state.TcpListening? ensures t in ns'.list {
      if data == [] {
        var k := ns.kernel;
        HangupKeepsListeners(ns.(kernel := k.Receive(s.fd, data)), s, t);
      }
    }
  }

  lemma HangupKeepsListeners(ns: Sockets, s: Sock, t: Sock)
    requires Distinct(ns.list) && Paired(ns.list) && s in ns.list && s.state.TcpConnected?
    requires t in ns.list && t.state.TcpListening?
    ensures t in Hangup(ns, s.fd).list
  {
    var i := Find(ns.list, s.fd);
    OneListed(ns.list, s, ns.list[i]);
    var ns1 := Delete(ns, s.fd);
    assert t in ns1.list;
    var p := Sock(s.peer, TcpConnected, s.fd);
    if t.fd == s.peer { OneListed(ns.list, t, p); }
    assert t in Delete(ns1, s.peer).list;
  }
}
