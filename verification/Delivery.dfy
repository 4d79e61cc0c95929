/** Where datagrams go and how old the mappings are that responses use, over whole runs. */
module Delivery {
  import opened Bytes
  import opened Net
  import Lists
  import opened Relay
  import opened Table
  import opened ExtNatPmp
  import opened Proxy
  import opened Invariants
  import opened Rounds
  import opened Conservation

  // ----- the classic mode

  /** Packet `r` is a possible response to query `q`. Any source will do if the query went to a group. */
  predicate Responds(cfg: Config, q: Pkt, r: Pkt) {
    && (q.dstIP == MCAST || cfg.aftrIPv4 == MCAST || r.srcIP == cfg.aftrIPv4)
    && r.dstIP == cfg.wanIP
    && r.srcPort == q.dstPort
    && r.dstPort == cfg.PortOf(cfg.sharedFd)
    && r.proto == q.proto
  }

  lemma MatchIsResponse(cfg: Config, received: seq<Pkt>, m: Mapping, r: Pkt)
    requires FromQuery(cfg, received, m)
    ensures Matches(m, r) <==> Responds(cfg, received[m.origin], r)
  {
  }

  /** Query `q` is outstanding and `r` could be its response. */
  ghost predicate Candidate(cfg: Config, st: State, q: nat, r: Pkt) {
    q < |st.received| && Outstanding(st.mappings, q) && Responds(cfg, st.received[q], r)
  }

  ghost predicate NoCandidate(cfg: Config, st: State, r: Pkt) {
    forall q: nat :: !Candidate(cfg, st, q, r)
  }

  ghost predicate NewestCandidate(cfg: Config, st: State, q: nat, r: Pkt) {
    Candidate(cfg, st, q, r) && forall x: nat :: Candidate(cfg, st, x, r) ==> x <= q
  }

  /** mapping_find picks the newest candidate, and finds nothing exactly if there is none. */
  lemma LookupIsNewest(cfg: Config, st: State, r: Pkt)
    requires TableInv(cfg, st.mappings, st.received, st.clock)
    ensures var i := Lookup(st.mappings, r);
      if i < |st.mappings| then NewestCandidate(cfg, st, st.mappings[i].origin, r) else NoCandidate(cfg, st, r)
  {
    hide Created, Matches, Responds;
    var i := Lookup(st.mappings, r);
    if i < |st.mappings| {
      assert st.mappings[i] in st.mappings;
      MatchIsResponse(cfg, st.received, st.mappings[i], r);
    }
    forall q: nat | Candidate(cfg, st, q, r)
      ensures i < |st.mappings| && q <= st.mappings[i].origin
    {
      var m :| m in st.mappings && m.origin == q;
      var j :| 0 <= j < |st.mappings| && st.mappings[j] == m;
      MatchIsResponse(cfg, st.received, m, r);
      assert !(j < i);
    }
  }

  lemma OutstandingWithout(ms: seq<Mapping>, i: nat)
    requires Ordered(ms) && i < |ms|
    ensures forall x :: Outstanding(Lists.Without(ms, i), x) <==> Outstanding(ms, x) && x != ms[i].origin
  {
    forall x | Outstanding(ms, x) && x != ms[i].origin ensures Outstanding(Lists.Without(ms, i), x) {
      var m :| m in ms && m.origin == x;
      assert m in Lists.Without(ms, i);
    }
    forall m | m in Lists.Without(ms, i) ensures m.origin != ms[i].origin {
      var j :| 0 <= j < |ms| - 1 && Lists.Without(ms, i)[j] == m;
      assert m == if j < i then ms[j] else ms[j + 1];
    }
  }

  /** A classic-mode datagram goes out on the socket and to the address and port of the newest query it could
      answer. That query is then no longer outstanding; all others still are. */
  lemma ResponseGoesToNewestAsker(cfg: Config, st: State, r: Pkt, now: int, q: nat)
    requires UdpInv(cfg, st) && !cfg.extEnabled && !FromWanGroup(cfg, r) && NewestCandidate(cfg, st, q, r)
    ensures var st', asker := HandleUdp(cfg, st, r, now), st.received[q];
      && st'.journal == st.journal + [ResponseOut(q, asker.sock, asker.srcIP, asker.srcPort, r.data)]
      && forall x :: Outstanding(st'.mappings, x) <==> Outstanding(st.mappings, x) && x != q
  {
    hide Ordered, Matches, Responds, Lists.Without, JournalInv, Outstanding;
    LookupIsNewest(cfg, st, r);
    var i := Lookup(st.mappings, r);
    assert st.mappings[i] in st.mappings;
    OutstandingWithout(st.mappings, i);
  }

  /** A datagram that is a response to nothing outstanding becomes a query: it goes out on the shared socket, and
      from then on it is outstanding, with the configured time to live; the other mappings are left as they are. */
  lemma OthersBecomeQueries(cfg: Config, st: State, r: Pkt, now: int)
    requires UdpInv(cfg, st) && !cfg.extEnabled && !FromWanGroup(cfg, r) && NoCandidate(cfg, st, r)
    ensures var st' := HandleUdp(cfg, st, r, now);
      && st'.journal == st.journal + [QueryOut(|st.received|, cfg.sharedFd,
                                               if r.dstIP == MCAST then MCAST else cfg.aftrIPv4, r.dstPort, r.data)]
      && st'.received == st.received + [r]
      && |st'.mappings| > 0 && st'.mappings[1..] == st.mappings && st'.mappings[0].origin == |st.received|
      && (0 <= now + cfg.timeout < U31_LIMIT ==> st'.mappings[0].timeout == now + cfg.timeout)
      && forall x :: Outstanding(st'.mappings, x) <==> Outstanding(st.mappings, x) || x == |st.received|
  {
    LookupIsNewest(cfg, st, r);
    var st' := HandleUdp(cfg, st, r, now);
    assert forall m :: m in st'.mappings <==> m == st'.mappings[0] || m in st.mappings;
    assert st'.mappings[0] in st'.mappings;
  }

  /** After any run: if of all queries that are neither answered nor expired only number `q` could be meant by the
      datagram of the next round, that round sends it on to the very sender of that query. */
  lemma SoleCandidateIsAnswered(cfg: Config, init: State, evs: seq<Event>, ev: Event, q: nat)
    requires Initial(cfg, init) && AdmissibleRun(cfg, init, evs) && !cfg.extEnabled
    ensures var st := Run(cfg, init, evs);
      OnlyMeant(cfg, st, ev, q) ==>
      && q < |st.received|
      && st.journal + [ResponseOut(q, st.received[q].sock, st.received[q].srcIP, st.received[q].srcPort,
                                   UdpPacket(cfg, st, ev).data)]
         <= Step(cfg, st, ev).journal
  {
    hide Inv, UdpInv, Run, HandleUdp, Responds, Outstanding, Asked, Answered, Expired, Step, Wait, Handle, BeforePurge,
         AdmissibleRun;
    var st := Run(cfg, init, evs);
    if OnlyMeant(cfg, st, ev, q) {
      var r := UdpPacket(cfg, st, ev);
      RunIsGood(cfg, init, evs);
      forall x: nat ensures Candidate(cfg, st, x, r) <==> Pending(st, x) && Responds(cfg, st.received[x], r) {
        EachQueryOneFate(cfg, init, evs, x);
      }
      ResponseGoesToNewestAsker(cfg, st, r, ev.tAdd, q);
      RoundSeenByTable(cfg, st, ev);
    }
  }

  /** What a run has received it keeps. */
  lemma {:induction false} ReceivedGrows(cfg: Config, init: State, evs: seq<Event>, n: nat)
    requires n <= |evs|
    ensures Run(cfg, init, evs[..n]).received <= Run(cfg, init, evs).received
    decreases |evs|
  {
    hide Step;
    if n == |evs| {
      assert evs[..n] == evs;
    } else {
      var past := evs[..|evs| - 1];
      ReceivedGrows(cfg, init, past, n);
      assert past[..n] == evs[..n];
      StepReceives(cfg, Run(cfg, init, past), evs[|evs| - 1]);
    }
  }

  lemma StepReceives(cfg: Config, st: State, ev: Event)
    ensures st.received <= Step(cfg, st, ev).received
  {
    hide Step, Wait, Handle, BeforePurge, UdpInput, Lookup, Created, Request, Reply;
    RoundSeenByTable(cfg, st, ev);
  }

  /** From one event to another: a client's datagram `d` came in on socket `s` in round `n`. If in the next round
      a datagram `a` comes in, and of all pending queries it could only mean that one, then the bytes of `a` go to
      the address and port that `d` came from, on the socket that it came in on. */
  lemma QuestionIsAnswered(cfg: Config, init: State, evs: seq<Event>, n: nat, s: Sock, d: Datagram,
                           ev: Event, s': Sock, a: Datagram)
    requires Initial(cfg, init) && AdmissibleRun(cfg, init, evs) && !cfg.extEnabled
    ensures n < |evs| && Brought(Run(cfg, init, evs[..n]), evs[n], s, d) && s.state.Udp? ==>
      var st, q := Run(cfg, init, evs), |Run(cfg, init, evs[..n]).received|;
      Brought(st, ev, s', a) && OnlyMeant(cfg, st, ev, q) ==>
      st.journal + [ResponseOut(q, s.fd, d.srcIP, d.srcPort, a.data)] <= Step(cfg, st, ev).journal
  {
    hide Run, Step, Served, UdpInput, OnlyMeant, Admissible, AdmissibleRun, Initial;
    if n < |evs| && Brought(Run(cfg, init, evs[..n]), evs[n], s, d) && s.state.Udp? {
      var st, before := Run(cfg, init, evs), Run(cfg, init, evs[..n]);
      var q := |before.received|;
      if Brought(st, ev, s', a) && OnlyMeant(cfg, st, ev, q) {
        Prefix(cfg, init, evs, n);
        DatagramRound(cfg, before, evs[n], s, d);
        ReceivedGrows(cfg, init, evs, n + 1);
        SoleCandidateIsAnswered(cfg, init, evs, ev, q);
        DatagramRound(cfg, st, ev, s', a);
      }
    }
  }

  /** The round brings datagram `d` on socket `s`. */
  predicate Brought(st: State, ev: Event, s: Sock, d: Datagram) {
    Served(st, ev) == Some(s) && (s.state.Udp? || s.state.Udp6?) && ev.io.datagram == Some(d)
  }

  /** The round handles a datagram that could answer pending query `q`, and no other. */
  ghost predicate OnlyMeant(cfg: Config, st: State, ev: Event, q: nat) {
    && UdpInput(cfg, st, ev).Some? && !FromWanGroup(cfg, UdpPacket(cfg, st, ev))
    && forall x: nat :: Pending(st, x) && Responds(cfg, st.received[x], UdpPacket(cfg, st, ev)) <==> x == q
  }

  /** By the journal alone: asked, not answered, not expired. */
  ghost predicate Pending(st: State, q: nat) {
    q < |st.received| && Asked(st.journal, q) && !Answered(st.journal, q) && !Expired(st.journal, q)
  }

  /** What every mapping of a reachable table says of the query it was made for; the multicast address stands in
      for the AFTR in the mappings of queries to the group, and only there. */
  lemma ReachableTable(cfg: Config, init: State, evs: seq<Event>, m: Mapping)
    requires Initial(cfg, init) && AdmissibleRun(cfg, init, evs)
    ensures var st := Run(cfg, init, evs);
      m in st.mappings ==>
      && m.origin < |st.received|
      && var q := st.received[m.origin];
      && m.clientIP == q.srcIP && m.clientPort == q.srcPort && m.lanSock == q.sock
      && m.lanIP == q.dstIP && m.lanPort == q.dstPort && m.routerPort == q.dstPort && m.proto == 17
      && m.wanIP == cfg.wanIP && m.wanPort == cfg.PortOf(cfg.sharedFd) && m.wanSock == cfg.sharedFd
      && m.aftrIPv4 == (if q.dstIP == MCAST then MCAST else cfg.aftrIPv4)
      && (cfg.aftrIPv4 != MCAST ==> (m.aftrIPv4 == MCAST <==> m.lanIP == MCAST))
  {
    hide Run, Inv, JournalInv, Ordered, AdmissibleRun;
    RunIsGood(cfg, init, evs);
    if m in Run(cfg, init, evs).mappings {
      assert FromQuery(cfg, Run(cfg, init, evs).received, m);
    }
  }

  /** A reachable table is a deque ordered by time: newest and longest-lived first. Expiry at any time takes
      exactly the overdue end off it. */
  lemma ReachableTableIsDeque(cfg: Config, init: State, evs: seq<Event>, now: int)
    requires Initial(cfg, init) && AdmissibleRun(cfg, init, evs)
    ensures var ms := Run(cfg, init, evs).mappings;
      && Ordered(ms)
      && Alive(ms, now) + Dead(ms, now) == ms
      && (forall m :: m in ms ==> (m in Alive(ms, now) <==> m.timeout > now))
  {
    hide Run, Inv, JournalInv, FromQuery, Ordered;
    RunIsGood(cfg, init, evs);
    var ms := Run(cfg, init, evs).mappings;
    ExpiryCutsSuffix(ms, now);
    AliveSelects(ms, now);
  }

  /** So a datagram that is not addressed to the proxy's WAN address never uses up a mapping. */
  lemma OnlyWanPacketsConsume(cfg: Config, init: State, evs: seq<Event>, r: Pkt, now: int, x: nat)
    requires Initial(cfg, init) && AdmissibleRun(cfg, init, evs) && r.dstIP != cfg.wanIP
    ensures Outstanding(Run(cfg, init, evs).mappings, x)
            ==> Outstanding(HandleUdp(cfg, Run(cfg, init, evs), r, now).mappings, x)
  {
    hide Run, Inv, JournalInv, Ordered;
    var st := Run(cfg, init, evs);
    RunIsGood(cfg, init, evs);
    if !FromWanGroup(cfg, r) && !cfg.extEnabled {
      OthersBecomeQueries(cfg, st, r, now);
    }
  }

  /** And only a datagram that could be the response to a query uses its mapping up. */
  lemma OnlyResponsesConsume(cfg: Config, st: State, r: Pkt, now: int, x: nat)
    requires UdpInv(cfg, st)
    ensures Outstanding(st.mappings, x) && !Outstanding(HandleUdp(cfg, st, r, now).mappings, x)
            ==> x < |st.received| && Responds(cfg, st.received[x], r)
  {
    hide Ordered, JournalInv, Responds, FromWanGroup;
    if !FromWanGroup(cfg, r) && !cfg.extEnabled {
      LookupIsNewest(cfg, st, r);
      var i := Lookup(st.mappings, r);
      if i < |st.mappings| {
        ResponseGoesToNewestAsker(cfg, st, r, now, st.mappings[i].origin);
      } else {
        OthersBecomeQueries(cfg, st, r, now);
      }
    }
  }

  /** After any run, a search sent to the real SSDP group is handled as if it were sent to a single host: it goes
      to the AFTR, and nothing but a datagram from the AFTR will use its mapping up. */
  lemma SsdpSearchGoesToAftr(cfg: Config, init: State, evs: seq<Event>, r: Pkt, now: int, a: Pkt, later: int)
    requires Initial(cfg, init) && AdmissibleRun(cfg, init, evs)
    ensures var st := Run(cfg, init, evs);
      var st', x := HandleUdp(cfg, st, r, now), |st.received|;
      r.dstIP == SSDP_GROUP && cfg.wanIP != SSDP_GROUP && !cfg.extEnabled ==>
      && st'.journal == st.journal + [QueryOut(x, cfg.sharedFd, cfg.aftrIPv4, r.dstPort, r.data)]
      && Outstanding(st'.mappings, x)
      && (cfg.aftrIPv4 != MCAST && ReceivedAt(cfg, st, r, now)
          && !Outstanding(HandleUdp(cfg, st'.(clock := now), a, later).mappings, x)
          ==> a.srcIP == cfg.aftrIPv4)
  {
    hide Run, Inv, JournalInv, Ordered, HandleUdp;
    McastIsNotTheSsdpGroup();
    var st := Run(cfg, init, evs);
    RunIsGood(cfg, init, evs);
    if r.dstIP == SSDP_GROUP && cfg.wanIP != SSDP_GROUP && !cfg.extEnabled {
      OthersBecomeQueries(cfg, st, r, now);
      if ReceivedAt(cfg, st, r, now) {
        HandleUdpKeepsInv(cfg, st, r, now);
        OnlyResponsesConsume(cfg, HandleUdp(cfg, st, r, now).(clock := now), a, later, |st.received|);
      }
    }
  }

  /** A datagram that a round can bring to this state at this time. */
  predicate ReceivedAt(cfg: Config, st: State, r: Pkt, now: int) {
    st.clock <= now && now + cfg.timeout < U31_LIMIT && 0 <= r.srcPort < U16_LIMIT && r.proto == UDP
  }

  // ----- freshness

  /** In any round of any run, the mapping that a response uses is not overdue at the time select wakes, unless
      select was asked for one second only; and never if the clock has not ticked since the last purge. */
  lemma ResponsesAreFresh(cfg: Config, init: State, evs: seq<Event>, ev: Event, k: nat)
    requires Initial(cfg, init) && AdmissibleRun(cfg, init, evs + [ev])
    ensures var st := Run(cfg, init, evs);
      var after := Step(cfg, st, ev).journal;
      |st.journal| <= k < |after| && after[k].ResponseOut? ==>
      exists m :: m in st.mappings && m.origin == after[k].origin
        && Matches(m, UdpPacket(cfg, st, ev))
        && (ev.tWake <= m.timeout || ev.tWake <= ev.tGet + 1)
        && (ev.tGet == st.clock ==> ev.tWake <= m.timeout)
  {
    hide Run, Inv, JournalInv, Ordered, WaitTime, FromQuery, Step, Matches, AdmissibleRun;
    var st := Run(cfg, init, evs);
    assert (evs + [ev])[..|evs|] == evs;
    AdmissibleSoFar(cfg, init, evs + [ev]);
    RunIsGood(cfg, init, evs);
    LateByOneSecond(st.mappings, ev.tGet, ev.tWake);
    FreshIffNoneDue(st.mappings, ev.tGet);
    assert MayWake(st.mappings, ev.tGet, ev.tWake);
    var after := Step(cfg, st, ev).journal;
    if |st.journal| <= k < |after| && after[k].ResponseOut? {
      ResponseIsFirstMatch(cfg, st, ev, k);
      assert st.mappings[Lookup(st.mappings, UdpPacket(cfg, st, ev))] in st.mappings;
    }
  }

  function UdpPacket(cfg: Config, st: State, ev: Event): Pkt {
    var pkt := UdpInput(cfg, st, ev);
    if pkt.Some? then pkt.value else Pkt(0, 0, 0, 0, 0, [], 0)
  }

  /** A response is sent for the datagram of the round, by the first mapping that it matches. */
  lemma ResponseIsFirstMatch(cfg: Config, st: State, ev: Event, k: nat)
    requires |st.journal| <= k < |Step(cfg, st, ev).journal| && Step(cfg, st, ev).journal[k].ResponseOut?
    ensures UdpInput(cfg, st, ev).Some? && !FromWanGroup(cfg, UdpPacket(cfg, st, ev))
    ensures var i := Lookup(st.mappings, UdpPacket(cfg, st, ev));
      i < |st.mappings| && Step(cfg, st, ev).journal[k].origin == st.mappings[i].origin
  {
    hide Matches, Created, Wait, Step, Handle, BeforePurge, Lists.Without;
    RoundSeenByTable(cfg, st, ev);
    var b := BeforePurge(cfg, st, ev);
    var es := Expiries(Dead(b.mappings, ev.tPurge));
    assert Step(cfg, st, ev).journal == b.journal + es;
    assert forall i :: 0 <= i < |es| ==> es[i].Expiry?;
  }

  /** A datagram that could come in on a listed socket is matched first by a mapping that is due. */
  predicate MeetsDue(cfg: Config, st: State, now: int, s: Sock, d: Datagram) {
    && s in st.sockets && (s.state.Udp? || s.state.Udp6?)
    && var pkt := UdpPkt(cfg, s, d);
    && !FromWanGroup(cfg, pkt)
    && var i := Lookup(st.mappings, pkt);
    && i < |st.mappings| && st.mappings[i].timeout <= now
  }

  ghost predicate DueIsUsable(cfg: Config, st: State, now: int) {
    exists s, d :: MeetsDue(cfg, st, now, s, d)
  }

  /** Every response that the round sends uses a mapping that is not overdue when select wakes. */
  ghost predicate AnswersInTime(cfg: Config, st: State, ev: Event) {
    forall k, m ::
      && |st.journal| <= k < |Step(cfg, st, ev).journal| && Step(cfg, st, ev).journal[k].ResponseOut?
      && m in st.mappings && m.origin == Step(cfg, st, ev).journal[k].origin
      ==> ev.tWake <= m.timeout
  }

  ghost predicate AlwaysInTime(cfg: Config, st: State, now: int) {
    forall ev: Event :: ev.tGet == now && Admissible(cfg, st, ev) ==> AnswersInTime(cfg, st, ev)
  }

  /** In any state of any run, when the clock reads `now` before the wait: whatever the next round brings, it uses
      no overdue mapping, exactly if no datagram on any of the sockets would be matched first by a mapping that
      is due already. */
  lemma InTimeIffNoDueMatch(cfg: Config, init: State, evs: seq<Event>, now: int)
    requires Initial(cfg, init) && AdmissibleRun(cfg, init, evs)
    ensures var st := Run(cfg, init, evs);
      st.clock <= now && now + 1 + cfg.timeout < U31_LIMIT ==>
      (AlwaysInTime(cfg, st, now) <==> !DueIsUsable(cfg, st, now))
  {
    hide Run, Inv, UdpInv, AnswersInTime, Admissible, MeetsDue, AdmissibleRun;
    RunIsGood(cfg, init, evs);
    var st := Run(cfg, init, evs);
    if st.clock <= now && now + 1 + cfg.timeout < U31_LIMIT {
      forall ev: Event | ev.tGet == now && Admissible(cfg, st, ev) && !DueIsUsable(cfg, st, now)
        ensures AnswersInTime(cfg, st, ev)
      {
        NoDueMatchIsInTime(cfg, st, ev);
      }
      forall s, d | MeetsDue(cfg, st, now, s, d) ensures !AlwaysInTime(cfg, st, now) {
        DueMatchIsLate(cfg, st, now, s, d);
      }
    }
  }

  lemma InputIsDatagram(cfg: Config, st: State, ev: Event)
    requires UdpInput(cfg, st, ev).Some?
    ensures exists s, d :: s in st.sockets && (s.state.Udp? || s.state.Udp6?)
                           && UdpPkt(cfg, s, d) == UdpInput(cfg, st, ev).value
  {
    var s := Served(st, ev).value;
    assert UdpPkt(cfg, s, ev.io.datagram.value) == UdpInput(cfg, st, ev).value;
  }

  lemma NoDueMatchIsInTime(cfg: Config, st: State, ev: Event)
    requires UdpInv(cfg, st) && Admissible(cfg, st, ev) && !DueIsUsable(cfg, st, ev.tGet)
    ensures AnswersInTime(cfg, st, ev)
  {
    hide Step, UdpInput, Lookup, FromWanGroup, UdpPkt, JournalInv, FromQuery, WaitTime;
    var after := Step(cfg, st, ev).journal;
    forall k, m | |st.journal| <= k < |after| && after[k].ResponseOut?
                   && m in st.mappings && m.origin == after[k].origin
      ensures ev.tWake <= m.timeout
    {
      ResponseIsFirstMatch(cfg, st, ev, k);
      var i := Lookup(st.mappings, UdpPacket(cfg, st, ev));
      assert m == st.mappings[i];
      InputIsDatagram(cfg, st, ev);
      var s, d :| s in st.sockets && (s.state.Udp? || s.state.Udp6?) && UdpPkt(cfg, s, d) == UdpPacket(cfg, st, ev);
      assert !MeetsDue(cfg, st, ev.tGet, s, d);
      LateByOneSecond(st.mappings, ev.tGet, ev.tWake);
    }
  }

  /** The round in which the datagram comes in a second after the clock was read. */
  function OneSecondLater(now: int, s: Sock, d: Datagram): Event {
    Event(now, now + 1, now + 1, now + 1, Some({s.fd}), Brings(d))
  }

  lemma DueMatchIsLate(cfg: Config, st: State, now: int, s: Sock, d: Datagram)
    requires GoodState(cfg, st) && st.clock <= now && now + 1 + cfg.timeout < U31_LIMIT
    requires MeetsDue(cfg, st, now, s, d)
    ensures !AlwaysInTime(cfg, st, now)
  {
    hide Accounted, Paired, Conserved, Wired, JournalInv, FromQuery, Step, WaitTime, Handle, HandleUdp, Lookup,
         FromWanGroup;
    var ev := OneSecondLater(now, s, d);
    WaitIsLongest(st.mappings, now);
    assert Admissible(cfg, st, ev);
    ServesOnly(st, s, ev);
    AnswersWithFirst(cfg, st, ev, UdpPkt(cfg, s, d));
    var m := st.mappings[Lookup(st.mappings, UdpPkt(cfg, s, d))];
    assert m in st.mappings && !AnswersInTime(cfg, st, ev);
  }

  lemma ServesOnly(st: State, s: Sock, ev: Event)
    requires Distinct(st.sockets) && s in st.sockets && ev.ready == Some({s.fd})
    ensures Served(st, ev) == Some(s)
  {
    var i := FirstReady(st.sockets, {s.fd});
    var j :| 0 <= j < |st.sockets| && st.sockets[j] == s;
    assert i == j;
  }

  lemma AnswersWithFirst(cfg: Config, st: State, ev: Event, pkt: Pkt)
    requires UdpInput(cfg, st, ev) == Some(pkt) && !FromWanGroup(cfg, pkt) && !cfg.extEnabled
    requires Lookup(st.mappings, pkt) < |st.mappings|
    ensures var after := Step(cfg, st, ev).journal;
      && |after| > |st.journal| && after[|st.journal|].ResponseOut?
      && after[|st.journal|].origin == st.mappings[Lookup(st.mappings, pkt)].origin
  {
    hide Wait, Step, Handle, BeforePurge, Lists.Without, Dead, Matches;
    RoundSeenByTable(cfg, st, ev);
  }

  // ----- a run that uses an overdue mapping

  function LateConfig(): Config {
    Config(lanIP := 1, wanIP := 2, aftrIPv4 := 3, timeout := 1, extEnabled := false,
           sharedFd := 7, wanSsdp := 5, lanSsdp := 6, extSock := -1, natPmpLan := 8,
           ports := map[7 := 40000, 8 := 5351])
  }

  /** The shared socket and the one that clients ask on. */
  function LateInit(): State {
    State([], [Sock(8, Udp, 0), Sock(7, Udp, 0)], 0, Kernel(map[7 := 0, 8 := 1], [NEW_END, NEW_END], [], 0), [], [], 0)
  }

  function Brings(d: Datagram): Io {
    Io(Some(d), None, 0, true, AcceptFails)
  }

  /** A client asks at time 0. The clock ticks before the next wait, which is asked for the least, one second;
      then the AFTR's response arrives. */
  function LateRun(): seq<Event> {
    [Event(0, 0, 0, 0, Some({8}), Brings(Datagram(10, 1, 1234, [1]))),
     Event(1, 2, 2, 2, Some({7}), Brings(Datagram(3, 2, 5351, [2])))]
  }

  function LateMapping(): Mapping {
    Mapping(10, 1, 2, 3, UDP, 1234, 5351, 40000, 5351, 8, 7, 1, 0)
  }

  /** After the first round. */
  function Waiting(): State {
    LateInit().(mappings := [LateMapping()], pktCnt := 1, received := [Pkt(10, 1, 1234, 5351, UDP, [1], 8)],
                journal := [QueryOut(0, 7, 3, 5351, [1])])
  }

  lemma LateInitIsInitial()
    ensures Initial(LateConfig(), LateInit())
  {
    hide Tracked, Accounted;
    LateInitIsTracked();
    LateInitIsAccounted();
  }

  lemma LateInitIsTracked()
    ensures Tracked(LateInit().sockets, LateInit().kernel)
  {
    var st := LateInit();
    assert Find(st.sockets, 8) == 0;
    assert Find(st.sockets[1..], 7) == 0;
  }

  lemma LateInitIsAccounted()
    ensures Accounted(LateInit().kernel)
  {
    var st := LateInit();
    assert st.kernel.open[7] == 0 && IsOpen(st.kernel, 0);
    assert st.kernel.open[8] == 1 && IsOpen(st.kernel, 1);
  }

  lemma FirstLateRound()
    ensures Step(LateConfig(), LateInit(), LateRun()[0]) == Waiting()
  {
    McastIsNotTheSsdpGroup();
    var st := LateInit();
    assert FirstReady(st.sockets, {8}) == 0;
    assert Expiries([]) == [];
    assert Alive([LateMapping()], 0) == [LateMapping()];
  }

  lemma SecondLateRound()
    ensures Step(LateConfig(), Waiting(), LateRun()[1]).journal ==
            [QueryOut(0, 7, 3, 5351, [1]), ResponseOut(0, 8, 10, 1234, [2])]
  {
    McastIsNotTheSsdpGroup();
    var st, ev := Waiting(), LateRun()[1];
    assert FirstReady(st.sockets[1..], {7}) == 0;
    var pkt := Pkt(3, 2, 5351, 40000, UDP, [2], 7);
    assert Wait(LateConfig(), st, ev) == (st, Some(pkt));
    assert Matches(LateMapping(), pkt);
    assert Lookup(st.mappings, pkt) == 0;
    assert Expiries([]) == [];
  }

  /** On this run the response is sent by a mapping whose time was over before select woke. */
  lemma OverdueMappingAnswers()
    ensures Initial(LateConfig(), LateInit()) && AdmissibleRun(LateConfig(), LateInit(), LateRun())
    ensures var st := Run(LateConfig(), LateInit(), LateRun()[..1]);
      st.mappings == [LateMapping()] && LateMapping().timeout < LateRun()[1].tWake
    ensures Run(LateConfig(), LateInit(), LateRun()).journal ==
            [QueryOut(0, 7, 3, 5351, [1]), ResponseOut(0, 8, 10, 1234, [2])]
  {
    hide Step, Initial;
    var cfg, init, evs := LateConfig(), LateInit(), LateRun();
    LateInitIsInitial();
    FirstLateRound();
    SecondLateRound();
    assert evs[..0] == [] && evs[..1][..0] == [] && evs[..2] == evs;
    assert Run(cfg, init, evs[..1]) == Waiting();
    ShortestBounds(Waiting().mappings, 1, MAX_WAIT);
  }
}
