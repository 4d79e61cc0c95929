# A verified model of portproxy

Portproxy is a NAT-PMP and UPnP proxy: it stands between clients on a LAN and an address family transition
router (AFTR) on the WAN side. This project models its two hard cores in Dafny and proves what they keep.

**The event loop** (`src/framework.c`). One round of `run` waits with `select`, handles at most one packet and
purges expired mappings. Three protocols share the loop: classic NAT-PMP/SSDP, where a query creates a mapping and
a response uses one up; a TCP relay between pairs of connected sockets; and extended NAT-PMP, which puts a 12-byte
shim in front of opaque messages.

- `Net`, `Table`, `ExtNatPmp`, `Relay` and `Proxy` say what each procedure computes, as functions on values; `Proxy.Step`
  is one round and `Proxy.Run` a whole run.
- `Context` is the program itself: a context on the heap with two singly linked lists (`Lists`), updated in place by one
  method per C procedure, each proved to compute its function. `Context.Ctx.Loop` is proved to compute `Proxy.Run`.
- `Rounds` says what one round does with what the system calls bring, in terms of the event alone.
- `Invariants`, `Conservation`, `Delivery`, `Extended` and `RelayRuns` prove properties of every run; `Portproxy.Serve`, the end of
  `main`, brings the relay's properties to the heap.

What the operating system does enters as data: an event says which descriptors are ready, what `recvmsg`, `accept`,
`socket`, `connect`, `send` and `sendto` bring and what the clock shows. The kernel of the model hands out descriptors and
takes them back; behind each open descriptor stands an *end*, which is never reused, so that histories belong to
connections and not to descriptor numbers. A query's *number* is the position of its packet among the UDP packets
handled. The *journal* lists datagrams passed to the kernel and expiries, in order.

Assumptions about runs (`Proxy.Initial`, `Proxy.Admissible`): they start from a successful `sockets_bind`; readings of the
clock do not decrease and, with the mapping timeout (not negative) added, stay below 2^31; `select` wakes no later than
requested; `accept` and `socket` return descriptors that are not open. Hosts are little-endian.

**The netlink core** (`src/libnetlink.c`, `src/lowlevel-linux.c`). `Attributes` and `AttributeBuilder` are the routing-attribute
parsers and the in-place builders, over byte arrays; `Messages` holds the two message walks; `Dump` is
`rtnl_dump_filter` with the list of stored messages; `Replies` lays out messages field by field and proves what the
readers make of them. The message header is that of section 2.3.2 of RFC 3549.

Where the code departs from what is written beside it, the model follows the code:

- `framework_init` swaps a constant that is already in memory order, so that the multicast address becomes
  250.255.255.239 and not 239.255.255.250 (`Net.McastIsNotTheSsdpGroup`). That address is no group a socket can join, so
  that `sockets_bind` should fail if SSDP over UDP is enabled. What the theorems say of packets to or from the group
  does not depend on its value; `Delivery.SsdpSearchGoesToAftr` does, and is about `handle_packet` alone: a run from a
  successful bind has no socket on which such a search could come in.
- A send on a relayed connection that takes fewer bytes than it is given loses the rest, and is reported as success
  (`RelayRuns.ShortSendLosesBytes`, `RelayRuns.CodeIsSendError`). All bytes are relayed exactly if no round of the run
  falls short (`RelayRuns.RelayIsExact`).
- A mapping can be used after its time if the clock ticks between a purge and the next wait
  (`Delivery.OverdueMappingAnswers`). It cannot exactly if no datagram on any of the sockets would be matched first by
  a mapping that is due when the clock is read (`Delivery.InTimeIffNoDueMatch`).
- The hand-written length test of the listening walk lets sixteen impossible length fields through, and the handler is
  called with such a header (`Messages.WrapExample`); it does what the macros do exactly if none is met
  (`Messages.WalksAgree`).
- A builder that is handed a message with length field 0 writes over that field and then reads it back, and can claim
  a length beyond its bound (`AttributeBuilder.ZeroLengthBreaksBound`; `AttributeBuilder.BoundKeptExactly` and
  `AttributeBuilder.RawBoundKeptExactly` say when).
- The length field of a nest is cut at 16 bits, whatever bound the caller gives. The nest can be read back exactly if
  what the bound admits fits (`AttributeBuilder.NestRoundTripExactly`), as it does under any bound below 2^16
  (`AttributeBuilder.SmallBoundFits`).
- Attribute types and lengths above 16 bits are cut silently (`AttributeBuilder.RoundTripNeeds16Bits`).

## Model

| member | source | states |
|---|---|---|
| RelayRuns.RelayOverRuns | src/framework.c:681-711 | After any run, what went out on one end of a connection is what its peer end received with only untaken bytes left out, in order; all of it exactly if no round fell short on the peer end; ends that were never connected carried nothing |
| RelayRuns.RelayIsExact | src/framework.c:701-710 | All connections of a run have relayed all their bytes exactly if in no round send took fewer bytes than it was given |
| RelayRuns.ShortSendLosesBytes | src/framework.c:702 | A run with one short send, after which a byte received has gone nowhere |
| RelayRuns.CodeIsSendError | src/framework.c:681-745 | In every run the relay finds both sockets, so that the code returned is send's error or 0; a short send is reported as 0 |
| RelayRuns.HistoriesOnlyGrow | src/framework.c:681-745 | Connections stay as made and byte histories only grow, whatever descriptors are reused for later |
| RelayRuns.ConnectionsAreAsAccepted | src/framework.c:389-468 | In every run, of the two ends of a connection accepted on a listening socket, the client's is the one accepted and the other is connected to the AFTR on the port of that very socket, ever after |
| RelayRuns.ConnectionsGoToAftr | src/framework.c:435-461 | Exactly one end of each connection was connected by the proxy, to the AFTR on a listening socket's port; listening sockets never leave the list |
| Rounds.ListeningRound | src/framework.c:389-468 | Each outcome of accept, socket and connect: the ends opened and closed, the two sockets listed and their peers, the AFTR and the accepting socket's port as target |
| Rounds.StreamRound | src/framework.c:470-513 | Bytes that arrive on a socket go into its history and, as far as send takes them, out on its peer; the end of the stream closes exactly the two; a failed read changes nothing |
| Rounds.DatagramRound | src/framework.c:516-600 | A datagram is handed on once and whole, with the socket, its port and, by IPv4, the addresses and port it came with; nothing due is left in the table after the round, and what is new in it was made then |
| Rounds.OtherRound | src/framework.c:352-357 | A round without a datagram lets exactly the mappings expire whose time is over |
| Rounds.AnnouncementsGoToLan | src/framework.c:885-892 | An announcement from the group, and nothing else, is multicast on the LAN, with its port and payload |
| Rounds.CodeOfDatagram | src/framework.c:868-929 | The return code tells whether a datagram was sent on, except for responses and announcements |
| Portproxy.Serve | src/portproxy.c:635-637 | On the heap, after run and sockets_close: every descriptor has been closed once, and all bytes were relayed exactly if no round fell short |
| RelayRuns.EverythingIsClosedOnce | src/framework.c:1134-1141 | After any run and sockets_close, every descriptor ever obtained (failed accepts included) has been closed exactly once and none is open |
| Relay.AcceptKeepsInv | src/framework.c:389-468 | Every exit of sock_tcp_accept keeps: listed = open, no descriptor twice, peers symmetric, histories conserved |
| Relay.ForwardKeepsInv | src/framework.c:681-711 | Data from a socket goes to the end connected to it and to no other |
| Relay.HangupKeepsInv | src/framework.c:722-745 | The end of a stream closes exactly the two sockets of its connection and keeps the invariant |
| Relay.DeleteTracked | src/framework.c:249-272 | Deleting a listed descriptor closes it and removes only it |
| Relay.CloseAllClosesOnce | src/framework.c:1134-1141 | sockets_close closes each open end once and leaves no socket |
| Conservation.ClientConservation | src/framework.c:905-926 | Per client over any run: mappings made = responses sent to it + expired + outstanding, so never more responses than packets it sent |
| Conservation.RunIsBalanced | src/framework.c:286-305 | The same balance for any set of queries, over any run |
| Conservation.EachQueryOneFate | src/framework.c:905-911 | A query is outstanding exactly if neither answered nor expired, never both, answered at most once |
| Conservation.HandleKeepsBalance | src/framework.c:868-929 | Handling one datagram keeps the balance and numbers queries apart |
| Delivery.SoleCandidateIsAnswered | src/framework.c:905-911 | If only one pending query of a run could be meant, the response goes to that query's sender on its socket, address and port |
| Delivery.QuestionIsAnswered | src/framework.c:868-929 | From event to event: if a datagram could only mean the query that came in some rounds earlier, its bytes go to the address and port, and out on the socket, of that earlier datagram |
| Delivery.ResponseGoesToNewestAsker | src/framework.c:954-982 | Among several pending queries the newest is answered (LIFO), and only it is used up |
| Delivery.OthersBecomeQueries | src/framework.c:913-926 | A datagram that answers nothing goes out as a query on the shared socket and becomes pending for the configured time; other mappings stay |
| Delivery.LookupIsNewest | src/framework.c:954-982 | mapping_find returns the newest mapping whose query the packet could answer, the multicast wildcard included, and nothing only if there is none |
| Delivery.ReachableTable | src/framework.c:1051-1095 | Every field of every mapping of a reachable table, in terms of the query it was made for |
| Delivery.ReachableTableIsDeque | src/framework.c:659-665 | A reachable table is ordered newest and longest-lived first, and expiry removes exactly a suffix |
| Delivery.OnlyWanPacketsConsume | src/framework.c:969-975 | A packet not addressed to the WAN address uses up no mapping |
| Delivery.OnlyResponsesConsume | src/framework.c:905-926 | A datagram uses a mapping up only if it could be the response to the mapping's query |
| Delivery.ResponsesAreFresh | src/framework.c:610-626 | Every response of a round uses a mapping that is not overdue unless select waited one second only; never overdue if the clock did not tick since the purge |
| Delivery.InTimeIffNoDueMatch | src/framework.c:308-386 | In any reachable state and at any reading of the clock: whatever the next round brings, no response uses an overdue mapping, exactly if no datagram on a listed UDP socket would be matched first by a mapping that is already due |
| Delivery.OverdueMappingAnswers | src/framework.c:308-331 | A run in which a response is sent by a mapping whose time was over before select woke |
| Delivery.SsdpSearchGoesToAftr | src/framework.c:27 | handle_packet treats a search sent to 239.255.255.250 as sent to a single host, because the code compares with another address: it goes to the AFTR, and only a datagram from the AFTR uses its mapping up |
| Table.FreshIffNoneDue | src/framework.c:308-331 | Select wakes in time for every mapping exactly if none had come due when the clock was read |
| Table.LateByOneSecond | src/framework.c:327-328 | Otherwise the lateness comes from a wait of one second |
| Table.WaitIsLongest | src/framework.c:310-323 | The wait: 3600 seconds exactly if nothing comes due before, one exactly if something comes due by then, and otherwise until the first mapping comes due |
| Table.ExpiryCutsSuffix | src/framework.c:286-305 | On an ordered table the expired mappings are a suffix |
| Table.AliveSelects | src/framework.c:293-299 | On any table, expiry keeps exactly the unexpired mappings |
| Extended.AnswersComeBack | src/framework.c:795-858 | From event to event: a client's datagram goes to the AFTR whole behind twelve bytes, and whatever the AFTR later sends behind these twelve bytes goes to that client's address and port, however often and whatever happens in between |
| Extended.EachAnswerIsSentOn | src/framework.c:795-903 | In every run, for each packet received the right datagram has gone out in its turn, byte by byte: request with shim, reply to the address and port in the shim, announcement, or nothing above 100 bytes or without signature |
| Extended.ExtendedModeActsPacketwise | src/framework.c:894-903 | In every run the datagrams sent are those that the packets received give rise to one by one, in order |
| Extended.ExtendedModeIsStateless | src/framework.c:795-858 | If the AFTR echoes headers of requests, then no reply goes elsewhere than to a client that asked before; every request carries a client's whole packet; the table stays empty |
| ExtNatPmp.RequestFormat | src/framework.c:795-820 | The request, byte by byte: 12, 'P', the client's port, the LAN address, the client's address, the packet; none above 100 bytes |
| ExtNatPmp.ReplyFormat | src/framework.c:822-858 | Where an answer goes, byte by byte; nowhere if it is shorter than 12 bytes or unsigned |
| ExtNatPmp.EchoReturnsToSender | src/framework.c:838-851 | Decoding inverts encoding; the port comes back exactly if it is a 16-bit number |
| Net.McastIsNotTheSsdpGroup | src/framework.c:27 | The multicast address that the code uses is 250.255.255.239, and the one in its comment 239.255.255.250 |
| Invariants.RunIsGood | src/framework.c:610-626 | All invariants hold after every run from a successful bind |
| Invariants.HandleUdpKeepsInv | src/framework.c:868-929 | Handling a datagram keeps the table ordered and made of its queries, and the journal true to the packets |
| Invariants.PurgeKeepsInv | src/framework.c:286-305 | A purge keeps them and leaves nothing overdue |
| Invariants.StepKeepsNet | src/framework.c:333-386 | Any round keeps the socket invariant |
| Context.Ctx.Loop | src/framework.c:610-626 | The loop on the heap computes the run of the specification |
| Context.Ctx.Round | src/framework.c:616-623 | One round on the heap is one step of the specification |
| Context.Ctx.WaitForTraffic | src/framework.c:333-386 | The first listed ready socket is served; select is asked for the time computed from the table |
| Context.Ctx.HandlePacket | src/framework.c:868-929 | The dispatch on the heap is the dispatch of the specification, with its return code |
| Context.Ctx.constructor | src/framework.c:79-84 | A context with no mapping, socket or packet |
| Context.Ctx.AddSockets | src/framework.c:138-162 | Sockets added one by one are listed in reverse order of their adding |
| Context.Ctx.RemoveExpired | src/framework.c:286-305 | The restarting walk ends and leaves the same unexpired nodes in the same order |
| Context.Ctx.TimeoutGet | src/framework.c:308-331 | The walk computes the wait of the table |
| Context.Ctx.MappingFind | src/framework.c:954-982 | The node returned is the first match of the list |
| Context.Ctx.MappingCreate | src/framework.c:1051-1095 | Both branches fill in the mapping of the specification |
| Context.Ctx.MappingAdd | src/framework.c:659-665 | The new node is pushed at the front with its deadline |
| Context.Ctx.MappingDelete | src/framework.c:992-1015 | Exactly the given node is unlinked; -1 and no change if it is not listed |
| Context.Ctx.SocketFind | src/framework.c:667-678 | The node returned is the first with the descriptor |
| Context.Ctx.SocketAdd2 | src/framework.c:94-98 | The node is pushed at the front |
| Context.Ctx.SocketDel | src/framework.c:249-272 | The first node with the descriptor is unlinked and the descriptor closed; -1 if there is none |
| Context.Ctx.SocketsClose | src/framework.c:1134-1141 | The loop ends with an empty list, having closed the sockets as specified |
| Context.Ctx.SockTcpAccept | src/framework.c:389-468 | All four outcomes, with two linked peers only on success |
| Context.Ctx.SockTcpReceive | src/framework.c:470-513 | A packet for the bytes read, none on failure |
| Context.Ctx.HandleTcpPacket | src/framework.c:681-711 | Forwarding and return code |
| Context.Ctx.HandleTcpClose | src/framework.c:722-745 | Teardown and return code |
| Context.Ctx.HandleFromClient | src/framework.c:795-820 | The request assembled in the buffer is the shim and the packet; -1 above 100 bytes or if send fails |
| Context.Ctx.HandleFromServer | src/framework.c:822-858 | The answer's destination and payload; -1 if short or unsigned, or if sendto fails |
| AttributeBuilder.TwoLevelRoundTrip | src/libnetlink.c:479-572 | Nested attributes embedded among any other additions are read back by parsing both levels: last payload of each type, nothing left over, whenever the guard on the nest's bound and sizes holds |
| AttributeBuilder.BuildInPlace | src/libnetlink.c:495-524 | On the byte array, a sequence of addattr_l and addraw_l calls leaves the memory of the specified build |
| AttributeBuilder.AttrIsStored | src/libnetlink.c:495-511 | addattr_l byte by byte: length, type and payload at the next word and the new length field; refused exactly if that exceeds the bound |
| AttributeBuilder.RawIsStored | src/libnetlink.c:513-524 | addraw_l byte by byte: data, zeros and the new length field; refused exactly if that exceeds the bound |
| AttributeBuilder.NestIsStored | src/libnetlink.c:543-559 | rta_addattr_l byte by byte; refused exactly if the bound is exceeded |
| AttributeBuilder.AcceptedIffFits | src/libnetlink.c:500-504 | On any memory, refused exactly if the aligned length and the addition exceed the bound |
| AttributeBuilder.RawAcceptedIffFits | src/libnetlink.c:515-518 | The same for raw bytes |
| AttributeBuilder.RawAppendIsPadded | src/libnetlink.c:513-524 | On a message whose length field is in use, addraw_l adds one zero-padded piece |
| AttributeBuilder.NestInPlace | src/libnetlink.c:543-559 | On the byte array, a sequence of rta_addattr_l calls leaves the memory of the specified nest |
| AttributeBuilder.BuildRoundTrip | src/libnetlink.c:479-524 | After any additions the reader finds the old attributes, then each addition that the bound admits, told from tail and sizes alone |
| AttributeBuilder.NestRoundTripExactly | src/libnetlink.c:526-559 | Under any bound, sub-attributes are read back, behind those already there, exactly if those the bound admits fit its 16-bit length, a guard over tail, bound and sizes |
| AttributeBuilder.FitsIsRoom | src/libnetlink.c:549-557 | The guard asks for nothing but that what is accepted fits |
| AttributeBuilder.SmallBoundFits | src/libnetlink.c:549-557 | The guard holds for every bound below 2^16 |
| AttributeBuilder.BoundKeptExactly | src/libnetlink.c:500-509 | Whatever the memory holds, an accepted addition by addattr32 or addattr_l stays within the bound exactly if the tail was not 0, or the length read back after the store leads within it |
| AttributeBuilder.RawBoundKeptExactly | src/libnetlink.c:513-524 | The same for addraw_l, whose zeros can cover the length field as well |
| AttributeBuilder.ZeroLengthBreaksBound | src/libnetlink.c:500-509 | A message with length field 0 that after one addition claims to exceed its bound |
| AttributeBuilder.RoundTripNeeds16Bits | src/libnetlink.c:506-507 | An accepted attribute is read back exactly if type and length fit 16 bits |
| AttributeBuilder.BuildStaysInBounds | src/libnetlink.c:479-524 | Any additions stay within the bound and change only the length field and bytes behind the old tail |
| AttributeBuilder.NestedRead | src/libnetlink.h:45-46 | parse_rtattr_nested on an embedded payload reads what was collected |
| AttributeBuilder.TableIsLast | src/libnetlink.c:561-572 | The table of parse_rtattr points at the last payload of each type |
| AttributeBuilder.Addattr32 | src/libnetlink.c:479-493 | The whole buffer after the call, or -1 and no change |
| AttributeBuilder.AddattrL | src/libnetlink.c:495-511 | The whole buffer after the call, or -1 and no change |
| AttributeBuilder.AddrawL | src/libnetlink.c:513-524 | The whole buffer after the call, zero padding included, or -1 and no change |
| AttributeBuilder.RtaAddattr32 | src/libnetlink.c:526-541 | The whole attribute after the call, or -1 and no change |
| AttributeBuilder.RtaAddattrL | src/libnetlink.c:543-559 | The whole attribute after the call, or -1 and no change |
| Attributes.ParseRtattr | src/libnetlink.c:561-572 | On arbitrary bytes the walk ends and fills the table with the last attribute of each type |
| Attributes.ParseByIndex | src/libnetlink.c:574-587 | The slots and the count returned |
| Attributes.SlotsListIndexed | src/libnetlink.c:578-582 | The slots hold the first `max` attributes of type at most `max`, in order |
| Attributes.WalkIsMaximal | src/libnetlink.c:564-568 | Any run of adjoining attributes, as their bytes say, is a prefix of the walk |
| Attributes.WalkIsChain | src/libnetlink.c:564-568 | The walk is such a run, wholly inside the input |
| Attributes.ItemsLie | src/libnetlink.c:564-568 | What the walk reports are type and payload of the attributes that lie there |
| Attributes.WalkLeaves | src/libnetlink.c:569-570 | The length left over is what lies behind the last attribute |
| Attributes.IndexedSelects | src/libnetlink.c:578-582 | The filter keeps exactly the attributes of type at most `max`, in order |
| Attributes.LastOfIsLast | src/libnetlink.c:565-566 | The entry of a type is its last attribute; empty only if there is none |
| Attributes.WalkContinues | src/libnetlink.c:567 | A walk that uses up a stretch goes on into what follows |
| Messages.WalksCompared | src/libnetlink.c:390-418 | The hand-written walk hands on the messages of the walk by macros; then, if the header it stops at has a wrapping length, this header too, and runs wild; otherwise nothing more, with the same report of what is left |
| Messages.WalksAgree | src/libnetlink.c:184-225 | The two walks hand on the same, and report the same, exactly if no length field wraps where the walk by macros stops |
| Messages.HandTestExact | src/libnetlink.c:390-402 | The hand-written test is NLMSG_OK plus sixteen length fields |
| Messages.ShortFieldsNeverWrap | src/libnetlink.c:392-395 | If the length fields that the walk reads are below 2^31, none wraps |
| Messages.Listen | src/libnetlink.c:390-418 | The inner loop of rtnl_listen hands on what is specified, a header with a wrapping length included, and ends as specified |
| Messages.MsgsJoin | src/libnetlink.c:216 | Joining whole buffers joins their messages |
| Dump.DumpFilter | src/libnetlink.c:148-227 | The loop over received buffers leaves the specified list and result |
| Dump.HandleBuffer | src/libnetlink.c:184-217 | The loop over the messages of one buffer |
| Dump.DumpCollects | src/libnetlink.c:188-213 | The list gains exactly the wanted messages before the first matching DONE (0) or ERROR (-1), in order, whatever follows it |
| Replies.DumpCollectsAnswers | src/libnetlink.c:184-217 | For messages given by their fields, in any datagrams: the list gains exactly the answers to the caller's request up to its first DONE (3) or ERROR (2), in order; the result is 0 or -1 |
| Replies.DumpGoesOn | src/libnetlink.c:184-217 | Until then the reading goes on, with all answers so far |
| Replies.DumpOtherwise | src/libnetlink.c:168-181 | A failed read is tried again, an empty one ends the reading with -1 |
| Replies.RaggedEnd | src/libnetlink.c:218-225 | A datagram with less than a header left over, or an unpadded last message, ends the process after its messages, unless the system had cut it |
| Replies.KindOfFrame | src/libnetlink.c:188-201 | A message is foreign unless sender, pid and sequence number fit; then its type decides |
| Replies.FramesAreRead | src/libnetlink.c:184-217 | The walk finds exactly the messages laid into a buffer, without their padding |
| Dump.SplitDoesNotMatter | src/libnetlink.c:165-226 | How the same bytes are cut into whole-message buffers changes neither list nor result |
| Dump.MsgList.Store | src/lowlevel-linux.c:86-103 | The message is appended at the end of the list |
| Dump.Release | src/lowlevel-linux.c:105-112 | Each node is freed once, in order |

## Left out

- `src/portproxy.c`: command line, routes, daemon mode; a run starts from a successful bind.
- `luci/`: the web interface.
- Logging, printing and statistics other than the packet count; `peer_addr`, `peer_port` and `mcast` of a socket, which only printing and binding use.
- The `fd_set` built before select: a ready descriptor that is not listed is ignored, as in the walk after select.
- Allocation failure and freeing, except the freeing order of the message list; a removed head mapping is never freed.
- Sizes of receive buffers (1500, 8192 and 16384 bytes): received data are of any length.
- Context.Ctx.HandlePacket: enters a datagram into the journal when it is passed to the kernel, even if the send then fails.
- Context.Ctx.Loop: does not model the signal that ends the loop; it runs any given number of rounds.
- Proxy.Initial: does not cover failed binds and negative mapping timeouts.
- AttributeBuilder.AddattrL: covers the calls that write inside the memory given and whose payload is below 2^31 - 8 bytes; likewise the other builders.
- Messages.Listen: ends, with `Wild`, after handing on a header with an impossible length; what the C walk does next depends on memory outside the buffer.
- The TCP branch of `query_socket_get` and `handle_ssdp`, which nothing reaches.
- `rtnl_talk`, `rtnl_from_file`, requests, `ipaddr_global_get` and `ipaddr6_global_get`.
- Fairness between sockets: the first ready socket of the list is always served.
