/** The TCP relay over whole runs. */
module RelayRuns {
  import opened Bytes
  import opened Net
  import opened Relay
  import opened Proxy
  import opened Invariants
  import opened Rounds

  /** The round reads bytes of a connected socket, and its send takes fewer of them than it is given, or fails. */
  predicate FallsShort(st: State, ev: Event) {
    && Served(st, ev).Some? && Served(st, ev).value.state.TcpConnected?
    && ev.io.stream.Some? && ev.io.stream.value != [] && ev.io.sendResult < |ev.io.stream.value|
  }

  /** The round falls short on bytes of end `a`. */
  predicate FallsShortOn(st: State, ev: Event, a: nat) {
    FallsShort(st, ev) && var fd := Served(st, ev).value.fd; fd in st.kernel.open && st.kernel.open[fd] == a
  }

  ghost predicate NeverShortOn(cfg: Config, init: State, evs: seq<Event>, a: nat) {
    forall n :: 0 <= n < |evs| ==> !FallsShortOn(Run(cfg, init, evs[..n]), evs[n], a)
  }

  /** A round loses bytes of an end exactly if it falls short on it. */
  lemma RoundLoses(cfg: Config, st: State, ev: Event, a: nat)
    requires Inv(st.Net()) && Fresh(st.kernel, ev.io.accepting)
    ensures var before, after := LostFrom(st.kernel.ends, a), LostFrom(Step(cfg, st, ev).kernel.ends, a);
      before <= after && (before < after <==> FallsShortOn(st, ev, a))
  {
    hide Tracked, Accounted, Paired, Conserved, Wired, Arrive, Accept, Step, LostFrom;
    RoundSeenByNet(cfg, st, ev);
    if Served(st, ev).Some? {
      var s := Served(st, ev).value;
      if s.state.TcpListening? {
        AcceptLosesNothing(cfg, st.Net(), s.fd, ev.io.accepting, a);
      } else if s.state.TcpConnected? && ev.io.stream.Some? {
        ArriveLoses(st.Net(), s, ev.io.stream.value, ev.io.sendResult, a);
      }
    }
  }

  lemma {:induction false} LostIffShort(cfg: Config, init: State, evs: seq<Event>, a: nat)
    requires Initial(cfg, init) && AdmissibleRun(cfg, init, evs)
    ensures LostFrom(Run(cfg, init, evs).kernel.ends, a) == 0 <==> NeverShortOn(cfg, init, evs, a)
    decreases |evs|
  {
    hide Inv, UdpInv, Step, FallsShortOn, AdmissibleRun, Admissible, LostFrom;
    if evs == [] {
      NothingLostYet(cfg, init, a);
    } else {
      var past, ev := evs[..|evs| - 1], evs[|evs| - 1];
      AdmissibleSoFar(cfg, init, evs);
      LostIffShort(cfg, init, past, a);
      RunIsGood(cfg, init, past);
      FreshOf(cfg, Run(cfg, init, past), ev);
      RoundLoses(cfg, Run(cfg, init, past), ev, a);
      NeverShortSplits(cfg, init, evs, a);
    }
  }

  lemma NeverShortSplits(cfg: Config, init: State, evs: seq<Event>, a: nat)
    requires evs != []
    ensures var past := evs[..|evs| - 1];
      NeverShortOn(cfg, init, evs, a)
      <==> NeverShortOn(cfg, init, past, a) && !FallsShortOn(Run(cfg, init, past), evs[|evs| - 1], a)
  {
    hide FallsShortOn, Run;
    var past := evs[..|evs| - 1];
    assert forall n :: 0 <= n < |past| ==> past[n] == evs[n] && past[..n] == evs[..n];
    if NeverShortOn(cfg, init, past, a) && !FallsShortOn(Run(cfg, init, past), evs[|evs| - 1], a) {
      forall n | 0 <= n < |evs| ensures !FallsShortOn(Run(cfg, init, evs[..n]), evs[n], a) {
        if n < |past| { assert past[n] == evs[n]; }
      }
    }
    if NeverShortOn(cfg, init, evs, a) {
      forall n | 0 <= n < |past| ensures !FallsShortOn(Run(cfg, init, past[..n]), past[n], a) {
        assert past[n] == evs[n];
      }
    }
  }

  lemma NothingLostYet(cfg: Config, init: State, a: nat)
    requires Initial(cfg, init)
    ensures LostFrom(init.kernel.ends, a) == 0
  {
    if a < |init.kernel.ends| { assert init.kernel.ends[a] in init.kernel.ends; }
  }

  /** After any run of accepts, data, hang-ups and reuse of descriptors: what an end received has gone out on the
      one end it was connected to, in order and with at most bytes left out; it has gone out completely exactly if
      no round has fallen short on it. An end that never was connected has sent and received nothing. */
  lemma RelayOverRuns(cfg: Config, init: State, evs: seq<Event>, a: nat)
    requires Initial(cfg, init) && AdmissibleRun(cfg, init, evs)
    ensures var ends := Run(cfg, init, evs).kernel.ends;
      a < |ends| ==>
      match ends[a].mate
      case None => ends[a].rx == [] && ends[a].tx == []
      case Some(b) =>
        && b < |ends| && b != a && ends[b].mate == Some(a)
        && IsSubsequence(ends[b].tx, ends[a].rx)
        && (ends[b].tx == ends[a].rx <==> NeverShortOn(cfg, init, evs, a))
  {
    hide Run, UdpInv, Tracked, Accounted, Paired, Wired, NeverShortOn, IsSubsequence;
    RunIsGood(cfg, init, evs);
    LostIffShort(cfg, init, evs, a);
  }

  ghost predicate NeverShort(cfg: Config, init: State, evs: seq<Event>) {
    forall n :: 0 <= n < |evs| ==> !FallsShort(Run(cfg, init, evs[..n]), evs[n])
  }

  /** A round that falls short does so on an end. */
  lemma ShortOnSomeEnd(cfg: Config, init: State, evs: seq<Event>, n: nat)
    requires Initial(cfg, init) && AdmissibleRun(cfg, init, evs) && n < |evs|
    ensures FallsShort(Run(cfg, init, evs[..n]), evs[n])
            <==> exists a: nat :: FallsShortOn(Run(cfg, init, evs[..n]), evs[n], a)
  {
    hide Run, UdpInv, Admissible, Paired, Conserved, Wired, FallsShort;
    Prefix(cfg, init, evs, n);
    RunIsGood(cfg, init, evs[..n]);
    var st := Run(cfg, init, evs[..n]);
    if FallsShort(st, evs[n]) {
      var fd := FallsOn(st, evs[n]);
      assert FallsShortOn(st, evs[n], st.kernel.open[fd]);
    }
  }

  function FallsOn(st: State, ev: Event): (fd: int)
    requires FallsShort(st, ev) && Tracked(st.sockets, st.kernel)
    ensures fd == Served(st, ev).value.fd && fd in st.kernel.open
  {
    Served(st, ev).value.fd
  }

  /** All connections of a run have relayed all their bytes exactly if no round fell short. */
  lemma RelayIsExact(cfg: Config, init: State, evs: seq<Event>)
    requires Initial(cfg, init) && AdmissibleRun(cfg, init, evs)
    ensures AllBytesPassed(Run(cfg, init, evs)) <==> NeverShort(cfg, init, evs)
  {
    hide Run, FallsShort, FallsShortOn, Inv, UdpInv, AdmissibleRun;
    var st := Run(cfg, init, evs);
    forall a: nat ensures BytesPassed(st, a) <==> NeverShortOn(cfg, init, evs, a) {
      LostIffShort(cfg, init, evs, a);
      RelayOverRuns(cfg, init, evs, a);
    }
    forall n | 0 <= n < |evs|
      ensures FallsShort(Run(cfg, init, evs[..n]), evs[n])
              <==> exists a: nat :: FallsShortOn(Run(cfg, init, evs[..n]), evs[n], a)
    {
      ShortOnSomeEnd(cfg, init, evs, n);
    }
    if !NeverShort(cfg, init, evs) {
      var n :| 0 <= n < |evs| && FallsShort(Run(cfg, init, evs[..n]), evs[n]);
      var a: nat :| FallsShortOn(Run(cfg, init, evs[..n]), evs[n], a);
      assert !NeverShortOn(cfg, init, evs, a);
    }
    if NeverShort(cfg, init, evs) {
      forall a: nat ensures NeverShortOn(cfg, init, evs, a) {
      }
    }
  }

  /** What end `a` received, its mate has sent on. */
  predicate BytesPassed(st: State, a: nat) {
    var ends := st.kernel.ends;
    a < |ends| && ends[a].mate.Some? && ends[a].mate.value < |ends| ==> ends[ends[a].mate.value].tx == ends[a].rx
  }

  ghost predicate AllBytesPassed(st: State) {
    forall a: nat :: BytesPassed(st, a)
  }

  /** After any run, what handle_packet returns for stream data is the error of send or 0: no socket is ever looked
      for in vain. So a send that takes some of the bytes and loses the rest is reported as success. */
  lemma CodeIsSendError(cfg: Config, init: State, evs: seq<Event>, ev: Event)
    requires Initial(cfg, init) && AdmissibleRun(cfg, init, evs)
    ensures var st := Run(cfg, init, evs);
      var (st', pkt) := Wait(cfg, st, ev);
      pkt.Some? && pkt.value.proto == TCP ==>
      var code := Code(cfg, st', pkt.value, ev.io);
      && code == (if pkt.value.data == [] || ev.io.sendResult >= 0 then 0 else ev.io.sendResult)
      && (FallsShort(st, ev) && 0 <= ev.io.sendResult ==> code == 0)
  {
    hide Run, UdpInv, Tracked, Paired, Accounted, Conserved, Wired, AdmissibleRun, Wait, UdpCode, FallsShort;
    RunIsGood(cfg, init, evs);
    var st := Run(cfg, init, evs);
    var pkt := Wait(cfg, st, ev).1;
    if pkt.Some? && pkt.value.proto == TCP {
      StreamInput(cfg, st, ev);
      BothListed(st.Net(), Served(st, ev).value);
    }
  }

  lemma StreamInput(cfg: Config, st: State, ev: Event)
    ensures var (st', pkt) := Wait(cfg, st, ev);
      pkt.Some? && pkt.value.proto == TCP ==>
      && Served(st, ev).Some? && Served(st, ev).value.state.TcpConnected?
      && pkt.value.sock == Served(st, ev).value.fd && st'.sockets == st.sockets
      && (FallsShort(st, ev) ==> pkt.value.data != [])
  {
    hide Accept, Kernel.Receive;
  }

  lemma BothListed(ns: Sockets, s: Sock)
    requires Inv(ns) && s in ns.list && s.state.TcpConnected?
    ensures Listed(ns.list, s.fd) && ns.list[Find(ns.list, s.fd)] == s && Listed(ns.list, s.peer)
  {
    hide Accounted, Conserved, Wired, Find;
    ListedIff(ns.list, s.fd);
    OneListed(ns.list, s, ns.list[Find(ns.list, s.fd)]);
    ListedIff(ns.list, s.peer);
  }

  // ----- a run that loses a byte

  function ShortConfig(): Config {
    Config(lanIP := 1, wanIP := 2, aftrIPv4 := 3, timeout := 1, extEnabled := false,
           sharedFd := 0, wanSsdp := 1, lanSsdp := 2, extSock := -1, natPmpLan := 2, ports := map[3 := 5000])
  }

  /** One listening socket. */
  function ShortInit(): State {
    State([], [Sock(3, TcpListening, 0)], 0, Kernel(map[3 := 0], [NEW_END], [], 0), [], [], 0)
  }

  /** A connection is accepted; then two bytes arrive on it, of which send takes one. */
  function ShortRun(): seq<Event> {
    var accepting := Io(None, None, 0, true, Connected(4, 5));
    var arriving := Io(None, Some([1, 2]), 1, true, AcceptFails);
    [Event(0, 0, 0, 0, Some({3}), accepting), Event(0, 0, 0, 0, Some({4}), arriving)]
  }

  /** Between the two rounds. */
  function Established(): State {
    State([], [Sock(5, TcpConnected, 4), Sock(4, TcpConnected, 5), Sock(3, TcpListening, 0)], 0,
          Kernel(map[3 := 0, 4 := 1, 5 := 2],
                 [NEW_END, NEW_END.(mate := Some(2)), NEW_END.(mate := Some(1), target := Some((3, 5000)))], [], 0),
          [], [], 0)
  }

  lemma ShortInitIsInitial()
    ensures Initial(ShortConfig(), ShortInit())
  {
    var st := ShortInit();
    assert st.sockets[0] in st.sockets;
    assert Find(st.sockets, 3) == 0;
    assert st.kernel.open[3] == 0 && IsOpen(st.kernel, 0);
  }

  lemma FirstShortRound()
    ensures Step(ShortConfig(), ShortInit(), ShortRun()[0]) == Established()
  {
    var st, ev := ShortInit(), ShortRun()[0];
    assert FirstReady(st.sockets, {3}) == 0;
  }

  lemma SecondShortRound()
    ensures var ends := Step(ShortConfig(), Established(), ShortRun()[1]).kernel.ends;
      |ends| == 3 && ends[1].mate == Some(2) && ends[1].rx == [1, 2] && ends[2].tx == [1]
  {
    var st, ev := Established(), ShortRun()[1];
    RoundSeenByNet(ShortConfig(), st, ev);
    assert Served(st, ev) == Some(st.sockets[1]) by {
      assert FirstReady(st.sockets[1..], {4}) == 0;
    }
    assert Find(st.sockets, 5) == 0;
    assert Find(st.sockets[1..], 4) == 0;
  }

  /** On this run the proxy does not pass on all it received: of two bytes only the first goes out. */
  lemma ShortSendLosesBytes()
    ensures Initial(ShortConfig(), ShortInit()) && AdmissibleRun(ShortConfig(), ShortInit(), ShortRun())
    ensures var ends := Run(ShortConfig(), ShortInit(), ShortRun()).kernel.ends;
      |ends| == 3 && ends[1].mate == Some(2) && ends[1].rx == [1, 2] && ends[2].tx == [1]
  {
    hide Step, Initial;
    var cfg, init, evs := ShortConfig(), ShortInit(), ShortRun();
    ShortInitIsInitial();
    FirstShortRound();
    SecondShortRound();
    assert evs[..0] == [] && evs[..1][..0] == [] && evs[..2] == evs;
    assert Run(cfg, init, evs[..1]) == Established();
  }

  lemma StepGrows(cfg: Config, st: State, ev: Event)
    ensures Grown(st.kernel, Step(cfg, st, ev).kernel)
  {
    hide Arrive, Accept, Step;
    RoundSeenByNet(cfg, st, ev);
    if Served(st, ev).Some? {
      var s := Served(st, ev).value;
      if s.state.TcpListening? {
        AcceptGrows(cfg, st.Net(), s.fd, ev.io.accepting);
      } else if s.state.TcpConnected? && ev.io.stream.Some? {
        ArriveGrows(st.Net(), s.fd, ev.io.stream.value, ev.io.sendResult);
      }
    }
  }

  /** Whatever happens after a point in a run, connections stay as they were made, what was received and sent
      stays at the front of the histories, and what was closed stays closed. */
  lemma {:induction false} HistoriesOnlyGrow(cfg: Config, init: State, evs: seq<Event>, n: nat)
    requires n <= |evs|
    ensures Grown(Run(cfg, init, evs[..n]).kernel, Run(cfg, init, evs).kernel)
    decreases |evs|
  {
    hide Step;
    if n == |evs| {
      assert evs[..n] == evs;
    } else {
      var past := evs[..|evs| - 1];
      HistoriesOnlyGrow(cfg, init, past, n);
      assert past[..n] == evs[..n];
      StepGrows(cfg, Run(cfg, init, past), evs[|evs| - 1]);
      GrownTrans(Run(cfg, init, evs[..n]).kernel, Run(cfg, init, past).kernel, Run(cfg, init, evs).kernel);
    }
  }

  /** So after any run a connection is still as its acceptance made it: the two ends belong together, and the one
      that the proxy opened goes to the AFTR, on the port of the socket that the client had connected to. */
  lemma ConnectionsAreAsAccepted(cfg: Config, init: State, evs: seq<Event>, n: nat, s: Sock)
    requires Initial(cfg, init) && AdmissibleRun(cfg, init, evs)
    ensures n < |evs| && AcceptsOn(Run(cfg, init, evs[..n]), evs[n], s) ==>
      var a, ends := |Run(cfg, init, evs[..n]).kernel.ends|, Run(cfg, init, evs).kernel.ends;
      && a + 1 < |ends| && ends[a].mate == Some(a + 1) && ends[a + 1].mate == Some(a)
      && ends[a].target == None && ends[a + 1].target == Some((cfg.aftrIPv4, cfg.PortOf(s.fd)))
  {
    hide Run, Step, Inv, UdpInv, Grown, Admissible, AdmissibleRun, Served;
    if n < |evs| && AcceptsOn(Run(cfg, init, evs[..n]), evs[n], s) {
      Prefix(cfg, init, evs, n);
      RunIsGood(cfg, init, evs[..n]);
      var st := Run(cfg, init, evs[..n]);
      FreshOf(cfg, st, evs[n]);
      ListeningRound(cfg, st, evs[n], s);
      HistoriesOnlyGrow(cfg, init, evs, n + 1);
      StillConnected(Step(cfg, st, evs[n]).kernel, Run(cfg, init, evs).kernel, |st.kernel.ends|);
    }
  }

  lemma StillConnected(k: Kernel, k': Kernel, a: nat)
    requires Grown(k, k') && a + 1 < |k.ends|
    ensures a + 1 < |k'.ends|
    ensures k'.ends[a].mate == k.ends[a].mate && k'.ends[a].target == k.ends[a].target
    ensures k'.ends[a + 1].mate == k.ends[a + 1].mate && k'.ends[a + 1].target == k.ends[a + 1].target
  {
  }

  /** The round accepts a connection on the listening socket `s`, and connects to the AFTR. */
  predicate AcceptsOn(st: State, ev: Event, s: Sock) {
    Served(st, ev) == Some(s) && s.state.TcpListening? && ev.io.accepting.Connected?
  }

  /** Of two connected ends exactly one was connected by the proxy: to the AFTR, on the port of a listening socket. */
  lemma {:induction false} ConnectionsGoToAftr(cfg: Config, init: State, evs: seq<Event>)
    requires Initial(cfg, init) && AdmissibleRun(cfg, init, evs)
    ensures Aimed(cfg, Run(cfg, init, evs).sockets, Run(cfg, init, evs).kernel.ends)
    decreases |evs|
  {
    hide Step, Aimed, Inv, UdpInv, Arrive, Accept, AdmissibleRun, Admissible;
    if evs == [] {
      NothingAimed(cfg, init);
    } else {
      var past, ev := evs[..|evs| - 1], evs[|evs| - 1];
      var st := Run(cfg, init, past);
      AdmissibleSoFar(cfg, init, evs);
      ConnectionsGoToAftr(cfg, init, past);
      RunIsGood(cfg, init, past);
      RoundSeenByNet(cfg, st, ev);
      if Served(st, ev).Some? {
        var s := Served(st, ev).value;
        if s.state.TcpListening? {
          AcceptKeepsAim(cfg, st.Net(), s, ev.io.accepting);
        } else if s.state.TcpConnected? && ev.io.stream.Some? {
          ArriveKeepsAim(cfg, st.Net(), s, ev.io.stream.value, ev.io.sendResult);
        }
      }
    }
  }

  lemma NothingAimed(cfg: Config, init: State)
    requires Initial(cfg, init)
    ensures Aimed(cfg, init.sockets, init.kernel.ends)
  {
    assert forall a :: 0 <= a < |init.kernel.ends| ==> init.kernel.ends[a] in init.kernel.ends;
  }

  /** After any run and the closing of all sockets, every descriptor ever obtained has been closed exactly once. */
  lemma EverythingIsClosedOnce(cfg: Config, init: State, evs: seq<Event>)
    requires Initial(cfg, init) && AdmissibleRun(cfg, init, evs)
    ensures var st := Run(cfg, init, evs);
      var k := CloseAll(st.Net()).kernel;
      && (forall fd :: fd !in k.open) && k.badCloses == 0 && k.ends == st.kernel.ends
      && (forall i, j :: 0 <= i < j < |k.closed| ==> k.closed[i] != k.closed[j])
      && forall id: nat :: id in k.closed <==> id < |st.kernel.ends|
  {
    hide Run, UdpInv, Tracked, Accounted, Paired, Wired, Conserved, CloseAll;
    RunIsGood(cfg, init, evs);
    CloseAllClosesOnce(Run(cfg, init, evs).Net());
  }
}
