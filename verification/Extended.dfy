/** The extended mode over whole runs: what goes to the AFTR, and where its answers go. */
module Extended {
  import opened Bytes
  import opened Net
  import Relay
  import opened ExtNatPmp
  import opened Proxy
  import opened Invariants
  import opened Rounds

  // ----- the datagrams that go out

  /** The datagrams that a packet gives rise to. */
  function OutputOf(cfg: Config, pkt: Pkt): seq<Entry> {
    if FromWanGroup(cfg, pkt) then [McastOut(cfg.lanSsdp, MCAST, pkt.dstPort, pkt.data)]
    else if pkt.sock == cfg.extSock then
      var a := Reply(pkt.data);
      if a.None? then [] else [ExtReplyOut(cfg.natPmpLan, a.value.ip, a.value.port, a.value.payload)]
    else
      var r := Request(cfg, pkt);
      if r.None? then [] else [ExtRequestOut(cfg.extSock, r.value)]
  }

  function Outputs(cfg: Config, pkts: seq<Pkt>): seq<Entry> {
    if pkts == [] then [] else OutputOf(cfg, pkts[0]) + Outputs(cfg, pkts[1..])
  }

  lemma {:induction false} OutputsAppend(cfg: Config, a: seq<Pkt>, b: seq<Pkt>)
    ensures Outputs(cfg, a + b) == Outputs(cfg, a) + Outputs(cfg, b)
  {
    hide OutputOf;
    if a == [] {
      assert a + b == b;
    } else {
      assert (a + b)[1..] == a[1..] + b;
      OutputsAppend(cfg, a[1..], b);
    }
  }

  lemma OutputsOne(cfg: Config, pkt: Pkt)
    ensures Outputs(cfg, [pkt]) == OutputOf(cfg, pkt)
  {
  }

  /** After any run, the journal is what the packets received give rise to one by one, in order; nothing is dropped,
      repeated, or dependent on other packets. */
  lemma {:induction false} ExtendedModeActsPacketwise(cfg: Config, init: State, evs: seq<Event>)
    requires Initial(cfg, init) && AdmissibleRun(cfg, init, evs)
    ensures cfg.extEnabled ==>
      Run(cfg, init, evs).journal == Outputs(cfg, Run(cfg, init, evs).received)
    decreases |evs|
  {
    hide Step, Relay.Inv, TableInv, JournalInv, OutputOf, UdpInput, Admissible, AdmissibleRun;
    if evs != [] && cfg.extEnabled {
      var past, ev := evs[..|evs| - 1], evs[|evs| - 1];
      AdmissibleSoFar(cfg, init, evs);
      ExtendedModeActsPacketwise(cfg, init, past);
      RunIsGood(cfg, init, past);
      var st := Run(cfg, init, past);
      RoundOutput(cfg, st, ev);
      match UdpInput(cfg, st, ev) {
        case None =>
        case Some(pkt) =>
          OutputsAppend(cfg, st.received, [pkt]);
          OutputsOne(cfg, pkt);
      }
    }
  }

  lemma RoundOutput(cfg: Config, st: State, ev: Event)
    requires cfg.extEnabled && st.mappings == []
    ensures var st' := Step(cfg, st, ev);
      match UdpInput(cfg, st, ev)
      case None => st'.received == st.received && st'.journal == st.journal
      case Some(pkt) => st'.received == st.received + [pkt] && st'.journal == st.journal + OutputOf(cfg, pkt)
  {
    hide Step, Wait, Handle, OutputOf, BeforePurge, UdpInput, HandleUdp;
    RoundSeenByTable(cfg, st, ev);
    assert Expiries([]) == [];
    if UdpInput(cfg, st, ev).Some? {
      HandleExtExact(cfg, st, UdpInput(cfg, st, ev).value, ev.tAdd);
    }
  }

  lemma HandleExtExact(cfg: Config, st: State, pkt: Pkt, now: int)
    requires cfg.extEnabled
    ensures var st' := HandleUdp(cfg, st, pkt, now);
      && st'.received == st.received + [pkt] && st'.mappings == st.mappings
      && st'.journal == st.journal + OutputOf(cfg, pkt)
  {
    hide Reply, Request;
  }

  // ----- and what they contain

  /** A packet of at most 100 bytes that came from a client. */
  predicate Requested(cfg: Config, pkt: Pkt) {
    pkt.sock != cfg.extSock && (pkt.dstIP != MCAST || pkt.sock != cfg.wanSsdp) && |pkt.data| <= 100
  }

  /** A packet that came from the AFTR and begins with the signature. */
  predicate Answered(cfg: Config, pkt: Pkt) {
    && pkt.sock == cfg.extSock && (pkt.dstIP != MCAST || pkt.sock != cfg.wanSsdp)
    && |pkt.data| >= 12 && pkt.data[0] == 12 && pkt.data[1] == 80
  }

  /** `out` is what has to go out for this packet, byte by byte. */
  predicate RightOutput(cfg: Config, pkt: Pkt, out: seq<Entry>) {
    if pkt.dstIP == MCAST && pkt.sock == cfg.wanSsdp then
      out == [McastOut(cfg.lanSsdp, MCAST, pkt.dstPort, pkt.data)]
    else if Requested(cfg, pkt) then
      && |out| == 1 && out[0].ExtRequestOut? && out[0].fd == cfg.extSock
      && BeginsWithShim(cfg, out[0].data, pkt) && out[0].data[12..] == pkt.data
    else if Answered(cfg, pkt) then
      out == [ExtReplyOut(cfg.natPmpLan, U32(pkt.data, 8), U16(pkt.data, 2), pkt.data[12..])]
    else out == []
  }

  lemma OutputIsRight(cfg: Config, pkt: Pkt)
    requires 0 <= pkt.srcPort < U16_LIMIT
    ensures RightOutput(cfg, pkt, OutputOf(cfg, pkt))
  {
    hide U16, U32, Header, BeginsWithShim, Request, Reply;
    RequestFormat(cfg, pkt);
    ReplyFormat(pkt.data);
  }

  /** After any run, for every packet received: the right datagram for it has gone out in its turn, after those for
      all packets before it and before those for all packets after it; and if it begins with the shim of another
      packet, that datagram went to where the other packet came from. */
  lemma EachAnswerIsSentOn(cfg: Config, init: State, evs: seq<Event>, i: nat)
    requires Initial(cfg, init) && AdmissibleRun(cfg, init, evs)
    ensures var st := Run(cfg, init, evs);
      cfg.extEnabled && i < |st.received| ==>
      var pkt, out := st.received[i], OutputOf(cfg, st.received[i]);
      && st.journal == Outputs(cfg, st.received[..i]) + out + Outputs(cfg, st.received[i + 1..])
      && RightOutput(cfg, pkt, out)
      && forall q: Pkt :: Answered(cfg, pkt) && BeginsWithShim(cfg, pkt.data, q) ==>
           out == [ExtReplyOut(cfg.natPmpLan, q.srcIP, q.srcPort, pkt.data[12..])]
  {
    hide Run, Relay.Inv, TableInv, OutputOf, AdmissibleRun, Outputs, RightOutput;
    var st := Run(cfg, init, evs);
    if cfg.extEnabled && i < |st.received| {
      var pkt := st.received[i];
      RunIsGood(cfg, init, evs);
      ExtendedModeActsPacketwise(cfg, init, evs);
      assert st.received == st.received[..i] + ([pkt] + st.received[i + 1..]);
      OutputsAppend(cfg, st.received[..i], [pkt] + st.received[i + 1..]);
      OutputsAppend(cfg, [pkt], st.received[i + 1..]);
      OutputsOne(cfg, pkt);
      assert pkt in st.received;
      OutputIsRight(cfg, pkt);
      forall q: Pkt | Answered(cfg, pkt) && BeginsWithShim(cfg, pkt.data, q)
        ensures OutputOf(cfg, pkt) == [ExtReplyOut(cfg.natPmpLan, q.srcIP, q.srcPort, pkt.data[12..])]
      {
        AnswerLeadsBack(cfg, pkt, q);
      }
    }
  }

  lemma AnswerLeadsBack(cfg: Config, pkt: Pkt, q: Pkt)
    requires Answered(cfg, pkt) && BeginsWithShim(cfg, pkt.data, q)
    ensures OutputOf(cfg, pkt) == [ExtReplyOut(cfg.natPmpLan, q.srcIP, q.srcPort, pkt.data[12..])]
  {
    hide U16, U32, Reply;
    ShimLeadsBack(cfg, pkt.data, q);
  }

  // ----- a question and its answer

  /** A client's datagram of at most 100 bytes comes in on socket `s`. */
  predicate Asks(cfg: Config, st: State, ev: Event, s: Sock, d: Datagram) {
    && Served(st, ev) == Some(s) && s.state.Udp? && ev.io.datagram == Some(d)
    && s.fd != cfg.extSock && (d.dstIP != MCAST || s.fd != cfg.wanSsdp) && |d.data| <= 100
  }

  /** A datagram that begins with these twelve bytes comes in from the AFTR. */
  predicate Answers(cfg: Config, st: State, ev: Event, shim: seq<byte>, s: Sock, d: Datagram) {
    && Served(st, ev) == Some(s) && (s.state.Udp? || s.state.Udp6?) && ev.io.datagram == Some(d)
    && s.fd == cfg.extSock && s.fd != cfg.wanSsdp && |d.data| >= 12 && d.data[..12] == shim
  }

  /** What the proxy sends the AFTR for a question. */
  function SentFor(cfg: Config, st: State, ev: Event): seq<byte> {
    var after := Step(cfg, st, ev).journal;
    if |after| > |st.journal| && after[|st.journal|].ExtRequestOut? then after[|st.journal|].data else []
  }

  /** From one event of a run to another: a client asks, and its datagram goes to the AFTR whole behind twelve bytes.
      Whenever after that, and however often, a datagram from the AFTR begins with these twelve bytes, the rest of
      it goes to the address and port of that client, whatever has happened in between. */
  lemma AnswersComeBack(cfg: Config, init: State, evs: seq<Event>, n: nat, m: nat,
                        s: Sock, d: Datagram, s': Sock, d': Datagram)
    requires Initial(cfg, init) && AdmissibleRun(cfg, init, evs)
    ensures cfg.extEnabled && n < m < |evs| && Asks(cfg, Run(cfg, init, evs[..n]), evs[n], s, d) ==>
      var st, st' := Run(cfg, init, evs[..n]), Run(cfg, init, evs[..m]);
      var sent := SentFor(cfg, st, evs[n]);
      && |sent| == 12 + |d.data| && sent[12..] == d.data
      && Run(cfg, init, evs[..n + 1]).journal == st.journal + [ExtRequestOut(cfg.extSock, sent)]
      && (Answers(cfg, st', evs[m], sent[..12], s', d') ==>
           Run(cfg, init, evs[..m + 1]).journal
           == st'.journal + [ExtReplyOut(cfg.natPmpLan, d.srcIP, d.srcPort, d'.data[12..])])
  {
    hide Run, Step, Served, Relay.Inv, TableInv, JournalInv, Admissible, AdmissibleRun, OutputOf, UdpInput;
    if cfg.extEnabled && n < m < |evs| && Asks(cfg, Run(cfg, init, evs[..n]), evs[n], s, d) {
      var st, st' := Run(cfg, init, evs[..n]), Run(cfg, init, evs[..m]);
      Prefix(cfg, init, evs, n);
      RunIsGood(cfg, init, evs[..n]);
      QuestionRound(cfg, st, evs[n], s, d);
      if Answers(cfg, st', evs[m], SentFor(cfg, st, evs[n])[..12], s', d') {
        Prefix(cfg, init, evs, m);
        RunIsGood(cfg, init, evs[..m]);
        AnswerRound(cfg, st', evs[m], s', d', Asker(cfg, s, d), SentFor(cfg, st, evs[n]));
      }
    }
  }

  function Asker(cfg: Config, s: Sock, d: Datagram): Pkt {
    Pkt(d.srcIP, d.dstIP, d.srcPort, cfg.PortOf(s.fd), UDP, d.data, s.fd)
  }

  lemma QuestionRound(cfg: Config, st: State, ev: Event, s: Sock, d: Datagram)
    requires cfg.extEnabled && st.mappings == [] && Asks(cfg, st, ev, s, d)
    ensures var sent := SentFor(cfg, st, ev);
      && BeginsWithShim(cfg, sent, Asker(cfg, s, d)) && sent[12..] == d.data
      && Step(cfg, st, ev).journal == st.journal + [ExtRequestOut(cfg.extSock, sent)]
  {
    hide Step, Served, BeginsWithShim, OutputOf, UdpInput;
    DatagramRound(cfg, st, ev, s, d);
    RoundOutput(cfg, st, ev);
    OutputIsRight(cfg, Asker(cfg, s, d));
  }

  lemma AnswerRound(cfg: Config, st: State, ev: Event, s: Sock, d: Datagram, q: Pkt, sent: seq<byte>)
    requires cfg.extEnabled && st.mappings == []
    requires BeginsWithShim(cfg, sent, q) && Answers(cfg, st, ev, sent[..12], s, d)
    ensures Step(cfg, st, ev).journal
         == st.journal + [ExtReplyOut(cfg.natPmpLan, q.srcIP, q.srcPort, d.data[12..])]
  {
    hide Step, Served, OutputOf, UdpInput, U16, U32;
    DatagramRound(cfg, st, ev, s, d);
    RoundOutput(cfg, st, ev);
    SameShim(cfg, sent, d.data, q);
    AnswerLeadsBack(cfg, UdpInput(cfg, st, ev).value, q);
  }

  lemma SameShim(cfg: Config, a: seq<byte>, b: seq<byte>, q: Pkt)
    requires BeginsWithShim(cfg, a, q) && |b| >= 12 && b[..12] == a[..12]
    ensures BeginsWithShim(cfg, b, q)
  {
    assert forall i :: 0 <= i < 12 ==> b[i] == b[..12][i] == a[..12][i] == a[i];
  }

  // ----- no state

  /** What the proxy assumes of the AFTR: every signed packet from it begins with the shim of a request that was
      sent to it before. It may answer late, twice, out of order or not at all. */
  ghost predicate EchoesShims(cfg: Config, received: seq<Pkt>) {
    forall i :: 0 <= i < |received| && Answered(cfg, received[i]) ==>
      exists q :: 0 <= q < i && Requested(cfg, received[q]) && BeginsWithShim(cfg, received[i].data, received[q])
  }

  /** The reply answers a packet of the AFTR, which carries the shim of the earlier request `q`, and goes to the
      sender of `q` with what follows the shim. */
  ghost predicate GoesToAsker(cfg: Config, received: seq<Pkt>, e: Entry)
    requires e.ExtReplyOut?
  {
    exists q, i :: 0 <= q < i < |received| && Requested(cfg, received[q]) && Answered(cfg, received[i])
      && e.ip == received[q].srcIP && e.port == received[q].srcPort
      && BeginsWithShim(cfg, received[i].data, received[q]) && received[i].data[12..] == e.data
  }

  /** The request is the packet of a client, whole, behind its shim. */
  ghost predicate CarriesPacket(cfg: Config, received: seq<Pkt>, e: Entry)
    requires e.ExtRequestOut?
  {
    exists pkt :: pkt in received && Requested(cfg, pkt) && BeginsWithShim(cfg, e.data, pkt) && e.data[12..] == pkt.data
  }

  /** After any run: every response that went out went to the address and port of a client whose request the
      answer carried, with the answer's payload unchanged; every request that went out is a client's packet behind
      its shim; and the mapping table is empty. */
  lemma ExtendedModeIsStateless(cfg: Config, init: State, evs: seq<Event>, e: Entry)
    requires Initial(cfg, init) && AdmissibleRun(cfg, init, evs) && cfg.extEnabled
    ensures Run(cfg, init, evs).mappings == []
    ensures var st := Run(cfg, init, evs);
      e in st.journal ==>
      && (e.ExtReplyOut? ==> e.fd == cfg.natPmpLan)
      && (e.ExtReplyOut? && EchoesShims(cfg, st.received) ==> GoesToAsker(cfg, st.received, e))
      && (e.ExtRequestOut? ==> e.fd == cfg.extSock && CarriesPacket(cfg, st.received, e))
      && !e.QueryOut? && !e.ResponseOut? && !e.Expiry?
  {
    hide Run, Relay.Inv, TableInv, Header, Reply, U16, U32, AdmissibleRun, Request;
    var st := Run(cfg, init, evs);
    RunIsGood(cfg, init, evs);
    assert e in st.journal ==> EntryOk(cfg, st.received, e);
    if e in st.journal && e.ExtReplyOut? && EchoesShims(cfg, st.received) {
      ReplyGoesToAsker(cfg, st.received, e);
    }
    if e in st.journal && e.ExtRequestOut? {
      var pkt :| pkt in st.received && pkt.sock != cfg.extSock && (pkt.dstIP != MCAST || pkt.sock != cfg.wanSsdp)
              && Request(cfg, pkt) == Some(e.data);
      RequestFormat(cfg, pkt);
    }
  }

  lemma ReplyGoesToAsker(cfg: Config, received: seq<Pkt>, e: Entry)
    requires e.ExtReplyOut? && EchoesShims(cfg, received) && EntryOk(cfg, received, e)
    ensures GoesToAsker(cfg, received, e)
  {
    hide Reply, U16, U32;
    var i :| 0 <= i < |received| && AnswersWith(cfg, received[i], e.ip, e.port, e.data);
    ReplyFormat(received[i].data);
    var q :| 0 <= q < i && Requested(cfg, received[q]) && BeginsWithShim(cfg, received[i].data, received[q]);
    ShimLeadsBack(cfg, received[i].data, received[q]);
  }
}
