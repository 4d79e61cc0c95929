/** The 12-byte shim of extended NAT-PMP: what goes to the AFTR, and where its answers go. */
module ExtNatPmp {
  import opened Bytes
  import opened Net

  const SHIM := 12
  const MAX_REQUEST := 100

  /** What the shim carries for a packet: a signature, the sender's port, our LAN address, the sender's address. */
  function Header(cfg: Config, pkt: Pkt): (b: seq<byte>)
    ensures |b| == SHIM
  {
    [12, 80] + Le16(pkt.srcPort % U16_LIMIT) + Dotted(cfg.lanIP) + Dotted(pkt.srcIP)
  }

  predicate Signed(data: seq<byte>) {
    |data| >= SHIM && data[0] == 12 && data[1] == 80
  }

  /** handle_nat_pmp_ext_fromclient, up to the send: nothing for a packet of more than 100 bytes. */
  function Request(cfg: Config, pkt: Pkt): Option<seq<byte>> {
    if |pkt.data| > MAX_REQUEST then None else Some(Header(cfg, pkt) + pkt.data)
  }

  /** ntohs and htons on a little-endian host */
  function Swap16(x: Port): Port {
    x % 256 * 256 + x / 256
  }

  datatype Answer = Answer(ip: Addr, port: Port, payload: seq<byte>)

  /** handle_nat_pmp_ext_fromserver, up to the send. The field `sin_port` holds the port in network order, so that
      the datagram goes to its swap. */
  function Reply(data: seq<byte>): Option<Answer> {
    if !Signed(data) then None
    else
      var sinPort := Swap16(U16(data, 2));
      Some(Answer(U32(data, 8), Swap16(sinPort), data[SHIM..]))
  }

  lemma SwapTwice(x: Port)
    ensures Swap16(Swap16(x)) == x
  {
  }

  /** The message begins with the shim for this packet: 12 'P', the port of the sender, the proxy's LAN address, the
      address of the sender. */
  predicate BeginsWithShim(cfg: Config, data: seq<byte>, pkt: Pkt) {
    && |data| >= 12 && data[0] == 12 && data[1] == 80
    && U16(data, 2) == pkt.srcPort && U32(data, 4) == cfg.lanIP && U32(data, 8) == pkt.srcIP
  }

  /** Header is that shim, and nothing else is, if the packet has a port number. */
  lemma HeaderIsShim(cfg: Config, pkt: Pkt, data: seq<byte>)
    requires 0 <= pkt.srcPort < U16_LIMIT
    ensures BeginsWithShim(cfg, data, pkt) <==> |data| >= 12 && data[..12] == Header(cfg, pkt)
  {
    hide U16, U32, Le16, Le32;
    if |data| >= 12 {
      FieldBytes(data, 2);
      FieldBytes(data, 4);
      FieldBytes(data, 8);
      assert data[..12] == data[..2] + data[2..4] + data[4..8] + data[8..12];
      if data[..12] == Header(cfg, pkt) {
        var h := data[..12];
        assert h[2..4] == Le16(pkt.srcPort) && h[4..8] == Dotted(cfg.lanIP) && h[8..12] == Dotted(pkt.srcIP);
        FieldAt(data, 2, Le16(pkt.srcPort));
        FieldAt(data, 4, Dotted(cfg.lanIP));
        FieldAt(data, 8, Dotted(pkt.srcIP));
      }
    }
  }

  /** What is done with a packet of the AFTR: nothing if it is short or unsigned. */
  lemma ReplyFormat(data: seq<byte>)
    ensures match Reply(data)
      case None => |data| < 12 || data[0] != 12 || data[1] != 80
      case Some(a) =>
        && |data| >= 12 && data[0] == 12 && data[1] == 80
        && a.port == U16(data, 2) && a.ip == U32(data, 8) && a.payload == data[12..]
  {
    hide U16, U32, Swap16;
    if |data| >= 12 { SwapTwice(U16(data, 2)); }
  }

  /** What is sent for a packet of a client. */
  lemma RequestFormat(cfg: Config, pkt: Pkt)
    requires 0 <= pkt.srcPort < U16_LIMIT
    ensures match Request(cfg, pkt)
      case None => |pkt.data| > 100
      case Some(data) => |pkt.data| <= 100 && BeginsWithShim(cfg, data, pkt) && data[12..] == pkt.data
  {
    HeaderIsShim(cfg, pkt, Header(cfg, pkt) + pkt.data);
  }

  /** An answer that begins with the shim of a packet goes to where that packet came from. */
  lemma ShimLeadsBack(cfg: Config, data: seq<byte>, pkt: Pkt)
    requires BeginsWithShim(cfg, data, pkt)
    ensures Reply(data) == Some(Answer(pkt.srcIP, pkt.srcPort, data[12..]))
  {
    ReplyFormat(data);
  }

  lemma HeaderFields(cfg: Config, pkt: Pkt, payload: seq<byte>)
    ensures var data := Header(cfg, pkt) + payload;
      && Signed(data) && U16(data, 2) == pkt.srcPort % U16_LIMIT && U32(data, 8) == pkt.srcIP
      && data[SHIM..] == payload
  {
    var data := Header(cfg, pkt) + payload;
    assert data[2] == Le16(pkt.srcPort % U16_LIMIT)[0] && data[3] == Le16(pkt.srcPort % U16_LIMIT)[1];
    assert data[8..12] == Dotted(pkt.srcIP);
    assert data[9] == data[8..12][1] && data[10] == data[8..12][2] && data[11] == data[8..12][3];
  }

  /** An answer that echoes the header of a request goes to the address that sent the request, with the AFTR's
      payload unchanged; it goes to the port as well exactly if that was a port number. */
  lemma EchoReturnsToSender(cfg: Config, pkt: Pkt, payload: seq<byte>)
    ensures var r := Reply(Header(cfg, pkt) + payload);
      && r.Some? && r.value.ip == pkt.srcIP && r.value.payload == payload
      && (r.value.port == pkt.srcPort <==> 0 <= pkt.srcPort < U16_LIMIT)
  {
    HeaderFields(cfg, pkt, payload);
    SwapTwice(pkt.srcPort % U16_LIMIT);
  }
}
