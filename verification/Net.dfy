/** The proxy's data: addresses, packets, mappings, sockets and the configuration fixed before the run phase. */
module Net {
  import opened Bytes

  /** struct in_addr: the four bytes of an address, read as a number on a little-endian host. */
  type Addr = a: int | 0 <= a < U32_LIMIT

  type Port = p: int | 0 <= p < U16_LIMIT

  const UDP := 17
  const TCP := 6

  /** The bytes of an address as they lie in memory and are written in dotted form. */
  function Dotted(a: Addr): (b: seq<byte>)
    ensures |b| == 4 && U32(b, 0) == a
  {
    Le32(a)
  }

  function Htonl(x: Addr): Addr {
    var b := Le32(x);
    U32([b[3], b[2], b[1], b[0]], 0)
  }

  /** The variable `mcast`, as framework_init sets it. */
  const MCAST: Addr := Htonl(4211081199)

  /** The group 239.255.255.250 that the comment beside it names. */
  const SSDP_GROUP: Addr := 4211081199

  /** The constant is in memory order already; swapping it gives 250.255.255.239. */
  lemma McastIsNotTheSsdpGroup()
    ensures Dotted(MCAST) == [250, 255, 255, 239] && Dotted(SSDP_GROUP) == [239, 255, 255, 250]
    ensures MCAST == 4026531834
  {
    assert 4211081199 % U16_LIMIT == 65519 && 4211081199 / U16_LIMIT == 64255;
    assert Le16(65519) == [239, 255] && Le16(64255) == [255, 250];
    assert Le32(4211081199) == [239, 255, 255, 250];
    assert MCAST == 65530 + U16_LIMIT * 61439;
    assert Le16(65530) == [250, 255] && Le16(61439) == [255, 239];
  }

  /** pkt_t */
  datatype Pkt = Pkt(srcIP: Addr, dstIP: Addr, srcPort: int, dstPort: int, proto: int, data: seq<byte>, sock: int)

  /** mapping_t, with the number of the query it was created for. */
  datatype Mapping = Mapping(clientIP: Addr, lanIP: Addr, wanIP: Addr, aftrIPv4: Addr, proto: int,
                             clientPort: int, lanPort: int, wanPort: int, routerPort: int,
                             lanSock: int, wanSock: int, timeout: int, origin: nat)

  datatype SockState = Udp | Udp6 | TcpListening | TcpConnected

  /** socket_t; `ipproto` follows from the state. */
  datatype Sock = Sock(fd: int, state: SockState, peer: int)

  /** The part of context_t that the run phase does not change, and the local ports of its bound sockets. */
  datatype Config = Config(lanIP: Addr, wanIP: Addr, aftrIPv4: Addr, timeout: int, extEnabled: bool,
                           sharedFd: int, wanSsdp: int, lanSsdp: int, extSock: int, natPmpLan: int,
                           ports: map<int, int>)
  {
    /** sock_get_port */
    function PortOf(fd: int): int {
      if fd in ports then ports[fd] else -1
    }
  }
}
