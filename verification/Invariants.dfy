/** What every round of the loop keeps. */
module Invariants {
  import opened Bytes
  import opened Net
  import Lists
  import opened Relay
  import opened Table
  import opened ExtNatPmp
  import opened Proxy

  // ----- sockets

  /** What a round does to the sockets: nothing, one accept, or one arrival on a connected socket. */
  function NetStep(cfg: Config, st: State, ev: Event): Sockets {
    match Served(st, ev)
    case None => st.Net()
    case Some(s) =>
      match s.state
      case TcpListening => Accept(cfg, st.Net(), s.fd, ev.io.accepting)
      case TcpConnected =>
        if ev.io.stream.None? then st.Net()
        else Arrive(st.Net(), s.fd, ev.io.stream.value, ev.io.sendResult)
      case _ => st.Net()
  }

  lemma RoundSeenByNet(cfg: Config, st: State, ev: Event)
    ensures Step(cfg, st, ev).Net() == NetStep(cfg, st, ev)
  {
    hide Hangup, Forward, Accept;
  }

  lemma StepKeepsNet(cfg: Config, st: State, ev: Event)
    requires Inv(st.Net()) && Fresh(st.kernel, ev.io.accepting)
    ensures Inv(Step(cfg, st, ev).Net())
  {
    hide Inv, Arrive, Accept, Step;
    RoundSeenByNet(cfg, st, ev);
    if Served(st, ev).Some? {
      var s := Served(st, ev).value;
      if s.state.TcpListening? {
        AcceptKeepsInv(cfg, st.Net(), s.fd, ev.io.accepting);
      } else if s.state.TcpConnected? && ev.io.stream.Some? {
        ArriveKeepsInv(st.Net(), s, ev.io.stream.value, ev.io.sendResult);
      }
    }
  }

  // ----- the mapping table

  /** The mapping is the one that mapping_create makes of the query with its number. */
  ghost predicate FromQuery(cfg: Config, received: seq<Pkt>, m: Mapping) {
    && m.origin < |received|
    && received[m.origin].proto == UDP
    && m == Created(cfg, received[m.origin], m.origin, 0).(timeout := m.timeout)
  }

  /** Newest first, each made of its query, none with more time left than a mapping made at time `now`. */
  ghost predicate TableInv(cfg: Config, ms: seq<Mapping>, received: seq<Pkt>, now: int) {
    && Ordered(ms)
    && (forall m :: m in ms ==> FromQuery(cfg, received, m))
    && (forall m :: m in ms ==> 0 <= m.timeout <= now + cfg.timeout)
  }

  lemma WithoutKeepsTable(cfg: Config, ms: seq<Mapping>, received: seq<Pkt>, now: int, i: nat)
    requires TableInv(cfg, ms, received, now) && i < |ms|
    ensures TableInv(cfg, Lists.Without(ms, i), received, now)
  {
    hide FromQuery;
  }

  lemma AddKeepsTable(cfg: Config, ms: seq<Mapping>, received: seq<Pkt>, pkt: Pkt, before: int, now: int)
    requires TableInv(cfg, ms, received, before) && before <= now && pkt.proto == UDP
    requires 0 <= now && 0 <= cfg.timeout && now + cfg.timeout < U31_LIMIT
    ensures TableInv(cfg, [Created(cfg, pkt, |received|, now)] + ms, received + [pkt], now)
  {
    var ms' := [Created(cfg, pkt, |received|, now)] + ms;
    assert forall m :: m in ms' <==> m == ms'[0] || m in ms;
    forall i, j | 0 <= i < j < |ms'| ensures ms'[i].timeout >= ms'[j].timeout && ms'[i].origin > ms'[j].origin {
      assert ms'[j] == ms[j - 1] && ms[j - 1] in ms;
    }
  }

  lemma LaterKeepsTable(cfg: Config, ms: seq<Mapping>, received: seq<Pkt>, pkt: Pkt, before: int, now: int)
    requires TableInv(cfg, ms, received, before) && before <= now
    ensures TableInv(cfg, ms, received + [pkt], now)
  {
  }

  lemma PurgeKeepsTable(cfg: Config, ms: seq<Mapping>, received: seq<Pkt>, before: int, now: int)
    requires TableInv(cfg, ms, received, before) && before <= now
    ensures TableInv(cfg, Alive(ms, now), received, now)
    ensures forall m :: m in Alive(ms, now) ==> now < m.timeout
  {
    hide FromQuery, Alive, Dead;
    ExpiryCutsSuffix(ms, now);
    AliveSelects(ms, now);
    assert forall i :: 0 <= i < |Alive(ms, now)| ==> Alive(ms, now)[i] == ms[i];
  }

  // ----- the journal

  /** What an entry has to do with the packets received. */
  ghost predicate EntryOk(cfg: Config, received: seq<Pkt>, e: Entry) {
    match e
    case QueryOut(q, fd, ip, port, data) =>
      && !cfg.extEnabled && q < |received| && fd == cfg.sharedFd && port == received[q].dstPort
      && data == received[q].data
      && ip == if received[q].dstIP == MCAST then MCAST else cfg.aftrIPv4
    case ResponseOut(q, fd, ip, port, _) =>
      !cfg.extEnabled && q < |received| && fd == received[q].sock
      && ip == received[q].srcIP && port == received[q].srcPort
    case Expiry(q) => !cfg.extEnabled && q < |received|
    case McastOut(fd, ip, port, data) =>
      fd == cfg.lanSsdp && ip == MCAST
      && exists pkt :: pkt in received && pkt.dstIP == MCAST && pkt.sock == cfg.wanSsdp
                       && port == pkt.dstPort && data == pkt.data
    case ExtRequestOut(fd, data) =>
      cfg.extEnabled && fd == cfg.extSock
      && exists pkt :: pkt in received && pkt.sock != cfg.extSock && (pkt.dstIP != MCAST || pkt.sock != cfg.wanSsdp)
           && Request(cfg, pkt) == Some(data)
    case ExtReplyOut(fd, ip, port, payload) =>
      cfg.extEnabled && fd == cfg.natPmpLan
      && exists i :: 0 <= i < |received| && AnswersWith(cfg, received[i], ip, port, payload)
  }

  predicate AnswersWith(cfg: Config, pkt: Pkt, ip: Addr, port: int, payload: seq<byte>) {
    pkt.sock == cfg.extSock && (pkt.dstIP != MCAST || pkt.sock != cfg.wanSsdp) && Reply(pkt.data).Some? &&
    var a := Reply(pkt.data).value;
    a.ip == ip && a.port == port && a.payload == payload
  }

  ghost predicate JournalInv(cfg: Config, received: seq<Pkt>, journal: seq<Entry>) {
    && (forall e :: e in journal ==> EntryOk(cfg, received, e))
    && (forall pkt :: pkt in received ==> 0 <= pkt.srcPort < U16_LIMIT && pkt.proto == UDP)
  }

  lemma EntryStaysOk(cfg: Config, received: seq<Pkt>, pkt: Pkt, e: Entry)
    requires EntryOk(cfg, received, e)
    ensures EntryOk(cfg, received + [pkt], e)
  {
    if e.ExtReplyOut? {
      var i :| 0 <= i < |received| && AnswersWith(cfg, received[i], e.ip, e.port, e.data);
      assert (received + [pkt])[i] == received[i];
    } else if e.McastOut? || e.ExtRequestOut? {
      assert forall p :: p in received ==> p in received + [pkt];
    }
  }

  lemma ReceiveKeepsJournal(cfg: Config, received: seq<Pkt>, journal: seq<Entry>, pkt: Pkt)
    requires JournalInv(cfg, received, journal) && 0 <= pkt.srcPort < U16_LIMIT && pkt.proto == UDP
    ensures JournalInv(cfg, received + [pkt], journal)
  {
    forall e | e in journal ensures EntryOk(cfg, received + [pkt], e) {
      EntryStaysOk(cfg, received, pkt, e);
    }
  }

  lemma EntryKeepsJournal(cfg: Config, received: seq<Pkt>, journal: seq<Entry>, e: Entry)
    requires JournalInv(cfg, received, journal) && EntryOk(cfg, received, e)
    ensures JournalInv(cfg, received, journal + [e])
  {
    hide EntryOk;
  }

  // ----- both

  ghost predicate UdpInv(cfg: Config, st: State) {
    && TableInv(cfg, st.mappings, st.received, st.clock)
    && JournalInv(cfg, st.received, st.journal)
    && (cfg.extEnabled ==> st.mappings == [])
    && 0 <= st.clock && 0 <= cfg.timeout
  }

  /** Between a purge and the next round nothing overdue is left. */
  ghost predicate Purged(st: State) {
    forall m :: m in st.mappings ==> st.clock < m.timeout
  }

  lemma HandleUdpKeepsInv(cfg: Config, st: State, pkt: Pkt, now: int)
    requires UdpInv(cfg, st) && st.clock <= now && now + cfg.timeout < U31_LIMIT
    requires 0 <= pkt.srcPort < U16_LIMIT && pkt.proto == UDP
    ensures UdpInv(cfg, HandleUdp(cfg, st, pkt, now).(clock := now))
  {
    var received := st.received + [pkt];
    assert received[|st.received|] == pkt && pkt in received;
    ReceiveKeepsJournal(cfg, st.received, st.journal, pkt);
    LaterKeepsTable(cfg, st.mappings, st.received, pkt, st.clock, now);
    var st' := HandleUdp(cfg, st, pkt, now);
    if FromWanGroup(cfg, pkt) {
      EntryKeepsJournal(cfg, received, st.journal, McastOut(cfg.lanSsdp, MCAST, pkt.dstPort, pkt.data));
    } else if cfg.extEnabled {
      ExtKeepsJournal(cfg, st.(received := received), pkt);
    } else {
      var i := Lookup(st.mappings, pkt);
      if i < |st.mappings| {
        var m := st.mappings[i];
        assert FromQuery(cfg, received, m);
        WithoutKeepsTable(cfg, st.mappings, received, now, i);
        EntryKeepsJournal(cfg, received, st.journal,
                          ResponseOut(m.origin, m.lanSock, m.clientIP, m.clientPort, pkt.data));
      } else {
        var m := Created(cfg, pkt, |st.received|, now);
        AddKeepsTable(cfg, st.mappings, st.received, pkt, st.clock, now);
        EntryKeepsJournal(cfg, received, st.journal,
                          QueryOut(|st.received|, m.wanSock, m.aftrIPv4, m.routerPort, pkt.data));
      }
    }
  }

  lemma ExtKeepsJournal(cfg: Config, st: State, pkt: Pkt)
    requires JournalInv(cfg, st.received, st.journal) && |st.received| > 0 && st.received[|st.received| - 1] == pkt
    requires !FromWanGroup(cfg, pkt) && cfg.extEnabled
    ensures JournalInv(cfg, st.received, HandleExt(cfg, st, pkt).journal)
  {
    var i := |st.received| - 1;
    if pkt.sock == cfg.extSock {
      if Reply(pkt.data).Some? {
        var a := Reply(pkt.data).value;
        assert AnswersWith(cfg, st.received[i], a.ip, a.port, a.payload);
        EntryKeepsJournal(cfg, st.received, st.journal, ExtReplyOut(cfg.natPmpLan, a.ip, a.port, a.payload));
      }
    } else if Request(cfg, pkt).Some? {
      assert pkt in st.received;
      EntryKeepsJournal(cfg, st.received, st.journal, ExtRequestOut(cfg.extSock, Request(cfg, pkt).value));
    }
  }

  lemma PurgeKeepsInv(cfg: Config, st: State, now: int)
    requires UdpInv(cfg, st) && st.clock <= now
    ensures UdpInv(cfg, Purge(st, now)) && Purged(Purge(st, now))
  {
    hide EntryOk, FromQuery, Ordered;
    PurgeKeepsTable(cfg, st.mappings, st.received, st.clock, now);
    AliveSelects(st.mappings, now);
    var dead := Dead(st.mappings, now);
    if cfg.extEnabled {
      assert dead == [] && Expiries(dead) == [];
    } else {
      forall e | e in Expiries(dead) ensures EntryOk(cfg, st.received, e) {
        var i :| 0 <= i < |dead| && Expiries(dead)[i] == e;
        assert dead[i] in dead;
        ExpiryOk(cfg, st.received, dead[i]);
      }
    }
  }

  lemma ExpiryOk(cfg: Config, received: seq<Pkt>, m: Mapping)
    requires FromQuery(cfg, received, m) && !cfg.extEnabled
    ensures EntryOk(cfg, received, Expiry(m.origin))
  {
  }

  /** What a round hands to Purge, as far as mappings, packets and journal go. */
  function BeforePurge(cfg: Config, st: State, ev: Event): State {
    var (st1, pkt) := Wait(cfg, st, ev);
    if pkt.None? then st1 else Handle(cfg, st1.(pktCnt := st1.pktCnt + 1), pkt.value, ev.io, ev.tAdd)
  }

  /** The datagram that a round handles, if any. */
  function UdpInput(cfg: Config, st: State, ev: Event): Option<Pkt> {
    var pkt := Wait(cfg, st, ev).1;
    if pkt.Some? && pkt.value.proto != TCP then pkt else None
  }

  /** Seen from the mapping table, a round handles at most one datagram. */
  lemma RoundSeenByTable(cfg: Config, st: State, ev: Event)
    ensures var st' := BeforePurge(cfg, st, ev);
      match UdpInput(cfg, st, ev)
      case None =>
        && st'.mappings == st.mappings && st'.received == st.received
        && st'.journal == st.journal && st'.clock == st.clock
      case Some(pkt) => var u := HandleUdp(cfg, st, pkt, ev.tAdd);
        && st'.mappings == u.mappings && st'.received == u.received && st'.journal == u.journal && st'.clock == u.clock
        && 0 <= pkt.srcPort < U16_LIMIT && pkt.proto == UDP
    ensures Step(cfg, st, ev) == Purge(BeforePurge(cfg, st, ev), ev.tPurge)
  {
    hide Lookup, Created, Request, Reply, Forward, Hangup, Accept;
  }

  lemma StepKeepsUdp(cfg: Config, st: State, ev: Event)
    requires UdpInv(cfg, st) && Admissible(cfg, st, ev)
    ensures UdpInv(cfg, Step(cfg, st, ev)) && Purged(Step(cfg, st, ev))
  {
    hide HandleUdp, Wait, Handle, Purge, TableInv, JournalInv, WaitTime;
    RoundSeenByTable(cfg, st, ev);
    match UdpInput(cfg, st, ev)
    case None => PurgeKeepsInv(cfg, BeforePurge(cfg, st, ev), ev.tPurge);
    case Some(pkt) =>
      HandleUdpKeepsInv(cfg, st, pkt, ev.tAdd);
      PurgeKeepsInv(cfg, HandleUdp(cfg, st, pkt, ev.tAdd).(clock := ev.tAdd), ev.tPurge);
      var b := BeforePurge(cfg, st, ev);
      PurgeIgnoresRest(b, HandleUdp(cfg, st, pkt, ev.tAdd).(clock := ev.tAdd), ev.tPurge);
  }

  lemma PurgeIgnoresRest(a: State, b: State, now: int)
    requires a.mappings == b.mappings && a.received == b.received && a.journal == b.journal
    ensures var x, y := Purge(a, now), Purge(b, now);
      x.mappings == y.mappings && x.received == y.received && x.journal == y.journal && x.clock == y.clock
  {
  }

  // ----- whole runs

  ghost predicate GoodState(cfg: Config, st: State) {
    Inv(st.Net()) && UdpInv(cfg, st) && Purged(st)
  }

  lemma InitialIsGood(cfg: Config, st: State)
    requires Initial(cfg, st)
    ensures GoodState(cfg, st)
  {
    BoundHasInv(st.Net());
  }

  lemma FreshOf(cfg: Config, st: State, ev: Event)
    requires Admissible(cfg, st, ev)
    ensures Fresh(st.kernel, ev.io.accepting)
  {
  }

  /** All of it holds after every run. */
  lemma {:induction false} RunIsGood(cfg: Config, init: State, evs: seq<Event>)
    requires Initial(cfg, init) && AdmissibleRun(cfg, init, evs)
    ensures GoodState(cfg, Run(cfg, init, evs))
    decreases |evs|
  {
    hide Inv, UdpInv, Purged, Step, Admissible, AdmissibleRun;
    if evs == [] {
      InitialIsGood(cfg, init);
    } else {
      var past := evs[..|evs| - 1];
      AdmissibleSoFar(cfg, init, evs);
      RunIsGood(cfg, init, past);
      FreshOf(cfg, Run(cfg, init, past), evs[|evs| - 1]);
      StepKeepsNet(cfg, Run(cfg, init, past), evs[|evs| - 1]);
      StepKeepsUdp(cfg, Run(cfg, init, past), evs[|evs| - 1]);
    }
  }
}
