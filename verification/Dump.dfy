/** rtnl_dump_filter, with the list of stored messages as its sink. */
module Dump {
  import opened Bytes
  import opened Messages
  import opened Lists

  const NLMSG_ERROR := 2
  const NLMSG_DONE := 3

  /** What one call of recvmsg brings: a failure, or bytes from a sender (no bytes at the end of file). */
  datatype Recv = Failed | Datagram(sender: int, bytes: seq<byte>, truncated: bool)

  /** What the handle expects of a reply. */
  datatype Handle = Handle(localPid: int, dump: int)

  /** How the reading ends. Waiting: it is blocked in recvmsg. Exited: it has ended the process. */
  datatype Ending = Returned(code: int) | Exited | Waiting

  datatype Tagged = Tagged(sender: int, msg: Message)

  datatype Kind = Foreign | Done | Error | Wanted

  /** How a delivered message is treated. */
  function Classify(h: Handle, m: Tagged): Kind {
    if m.sender != 0 || U32(m.msg, 12) != h.localPid || U32(m.msg, 8) != h.dump then Foreign
    else if U16(m.msg, 4) == NLMSG_DONE then Done
    else if U16(m.msg, 4) == NLMSG_ERROR then Error
    else Wanted
  }

  // ----- the list of stored messages

  /** The head pointer that the caller passes by address. */
  class MsgList {
    var head: Node?<Message>
    ghost var nodes: seq<Node<Message>>
    ghost var repr: set<Node<Message>>

    constructor ()
      ensures Valid() && nodes == [] && repr == {}
    {
      head, nodes, repr := null, [], {};
    }

    ghost predicate Valid()
      reads this, nodes`next
    {
      Linked(head, nodes) && forall n :: n in nodes ==> n in repr
    }

    ghost function Stored(): seq<Message>
      reads this, nodes`value
    {
      Values(nodes)
    }

    /** store_nlmsg: `lp` is the address of the head pointer at first, then of the `next` field of `last`. */
    method Store(msg: Message)
      requires Valid()
      modifies this, repr`next
      ensures Valid() && fresh(repr - old(repr)) && old(repr) <= repr
      ensures old(nodes) <= nodes && Stored() == old(Stored()) + [msg]
    {
      hide Values;
      var h := new Node(msg);
      var last, p: Node?<Message> := null, head;
      ghost var i := 0;
      while p != null
        invariant i <= |nodes| && Points(p, nodes, i)
        invariant last == if i == 0 then null else nodes[i - 1]
        decreases |nodes| - i
      {
        last, p, i := p, p.next, i + 1;
      }
      if last == null {
        head := h;
      } else {
        last.next := h;
      }
      Appended(head, nodes, h);
      ValuesAppended(nodes, h);
      nodes, repr := nodes + [h], repr + {h};
    }
  }

  /** release_nlmsg_list: the nodes handed to free, each once, in list order. */
  method Release(head: Node?<Message>, ghost nodes: seq<Node<Message>>) returns (freed: seq<Node<Message>>)
    requires Linked(head, nodes)
    ensures freed == nodes
  {
    var n := head;
    freed := [];
    while n != null
      invariant |freed| <= |nodes| && freed == nodes[..|freed|]
      invariant Points(n, nodes, |freed|)
      decreases |nodes| - |freed|
    {
      var tmp := n.next;
      freed := freed + [n];
      n := tmp;
    }
  }

  // ----- what the reading computes

  /** What has been stored so far, and the verdict if a message has ended the reading. */
  datatype Progress = Progress(kept: seq<Message>, verdict: Option<int>)

  /** Handling the messages of one buffer in turn. */
  function Consume(h: Handle, sender: int, w: Trail<int>, kept: seq<Message>): Progress {
    match w
    case Halt(_) => Progress(kept, None)
    case Deliver(_, msg, next) =>
      match Classify(h, Tagged(sender, msg))
      case Foreign => Consume(h, sender, next, kept)
      case Done => Progress(kept, Some(0))
      case Error => Progress(kept, Some(-1))
      case Wanted => Consume(h, sender, next, kept + [msg])
  }

  datatype Outcome = Outcome(kept: seq<Message>, ending: Ending)

  /** Reading the buffers in turn. */
  function Reading(h: Handle, recvs: seq<Recv>, kept: seq<Message>): Outcome
    decreases |recvs|
  {
    if recvs == [] then Outcome(kept, Waiting)
    else match recvs[0]
      case Failed => Reading(h, recvs[1..], kept)
      case Datagram(sender, bytes, truncated) =>
        if bytes == [] then Outcome(kept, Returned(-1))
        else
          var w := ScanMsgs(bytes, 0, |bytes|);
          var p := Consume(h, sender, w, kept);
          if p.verdict.Some? then Outcome(p.kept, Returned(p.verdict.value))
          else if !truncated && Why(w) != 0 then Outcome(p.kept, Exited)
          else Reading(h, recvs[1..], p.kept)
  }

  /** rtnl_dump_filter with store_nlmsg as its filter and no handler for foreign messages. */
  method DumpFilter(h: Handle, recvs: seq<Recv>, list: MsgList) returns (ending: Ending)
    requires list.Valid()
    modifies list, list.repr`next
    ensures list.Valid() && old(list.nodes) <= list.nodes && fresh(list.repr - old(list.repr))
    ensures Outcome(list.Stored(), ending) == Reading(h, recvs, old(list.Stored()))
  {
    hide U32, Align4, ScanMsgs, Consume, Why;
    ghost var before := list.nodes;
    ghost var goal := Reading(h, recvs, list.Stored());
    var k := 0;
    while k < |recvs|
      invariant k <= |recvs|
      invariant list.Valid() && before <= list.nodes
      invariant fresh(list.repr - old(list.repr))
      invariant Reading(h, recvs[k..], list.Stored()) == goal
    {
      var recv := recvs[k];
      assert recvs[k..][0] == recv && recvs[k..][1..] == recvs[k + 1..];
      k := k + 1;
      if recv.Failed? {
        continue;
      }
      if recv.bytes == [] {
        return Returned(-1);
      }
      var verdict, left := HandleBuffer(h, recv.sender, recv.bytes, list);
      if verdict.Some? {
        return Returned(verdict.value);
      }
      if recv.truncated {
        continue;
      }
      if left != 0 {
        return Exited;
      }
    }
    assert recvs[k..] == [];
    return Waiting;
  }

  /** The loop over the messages of one buffer. */
  method HandleBuffer(h: Handle, sender: int, buf: seq<byte>, list: MsgList) returns (verdict: Option<int>, left: int)
    requires list.Valid()
    modifies list, list.repr`next
    ensures list.Valid() && old(list.nodes) <= list.nodes && fresh(list.repr - old(list.repr))
    ensures Progress(list.Stored(), verdict)
         == Consume(h, sender, ScanMsgs(buf, 0, |buf|), old(list.Stored()))
    ensures verdict.None? ==> left == Why(ScanMsgs(buf, 0, |buf|))
  {
    hide U32, Align4, Classify, Values, Linked;
    ghost var before := list.nodes;
    ghost var rest := ScanMsgs(buf, 0, |buf|);
    ghost var goal := Consume(h, sender, rest, list.Stored());
    var o, status: int := 0, |buf|;
    while status >= NLMSG_HDR && NLMSG_HDR <= U32(buf, o) <= status
      invariant o + status == |buf|
      invariant list.Valid() && before <= list.nodes
      invariant fresh(list.repr - old(list.repr))
      invariant rest == ScanMsgs(buf, o, |buf|) && Why(rest) == Why(ScanMsgs(buf, 0, |buf|))
      invariant Consume(h, sender, rest, list.Stored()) == goal
      decreases status
    {
      var n := Align4(U32(buf, o));
      var msg: Message := buf[o..o + U32(buf, o)];
      match Classify(h, Tagged(sender, msg)) {
        case Foreign =>
        case Done => return Some(0), 0;
        case Error => return Some(-1), 0;
        case Wanted =>
          list.Store(msg);
      }
      o, status, rest := o + n, status - n, rest.next;
    }
    return None, status;
  }

  // ----- what ends up in the list

  /** The messages of a run of buffers, each with the sender of its buffer. */
  function Stream(recvs: seq<Recv>): seq<Tagged>
    decreases |recvs|
  {
    if recvs == [] then []
    else
      (match recvs[0]
       case Failed => []
       case Datagram(sender, bytes, _) => Tag(sender, Msgs(bytes)))
      + Stream(recvs[1..])
  }

  function Tag(sender: int, msgs: seq<Message>): (ts: seq<Tagged>)
    ensures |ts| == |msgs|
  {
    seq(|msgs|, i requires 0 <= i < |msgs| => Tagged(sender, msgs[i]))
  }

  /** An answer of the kernel to the dump request: its fields nlmsg_pid and nlmsg_seq say so. */
  predicate Ours(h: Handle, m: Tagged) {
    m.sender == 0 && U32(m.msg, 12) == h.localPid && U32(m.msg, 8) == h.dump
  }

  /** An answer of type DONE or ERROR. */
  predicate EndsReading(h: Handle, m: Tagged) {
    Ours(h, m) && (U16(m.msg, 4) == 3 || U16(m.msg, 4) == 2)
  }

  /** The other answers of a stream, in order. */
  function Wants(h: Handle, stream: seq<Tagged>): seq<Message> {
    if stream == [] then []
    else (if Ours(h, stream[0]) && !EndsReading(h, stream[0]) then [stream[0].msg] else []) + Wants(h, stream[1..])
  }

  /** Whole, padded messages; nothing that stops the reading by itself. */
  predicate WellFormed(recv: Recv) {
    recv.Datagram? ==> recv.bytes != [] && WholeMsgs(recv.bytes)
  }

  /** Handling a stream of messages without regard to buffers. */
  function Fold(h: Handle, stream: seq<Tagged>, kept: seq<Message>): Progress
    decreases |stream|
  {
    if stream == [] then Progress(kept, None)
    else match Classify(h, stream[0])
      case Foreign => Fold(h, stream[1..], kept)
      case Done => Progress(kept, Some(0))
      case Error => Progress(kept, Some(-1))
      case Wanted => Fold(h, stream[1..], kept + [stream[0].msg])
  }

  lemma {:induction false} FoldConcat(h: Handle, a: seq<Tagged>, b: seq<Tagged>, kept: seq<Message>)
    ensures var p := Fold(h, a, kept);
      Fold(h, a + b, kept) == if p.verdict.Some? then p else Fold(h, b, p.kept)
    decreases |a|
  {
    if a == [] {
      assert a + b == b;
    } else {
      assert (a + b)[1..] == a[1..] + b;
      FoldConcat(h, a[1..], b, if Classify(h, a[0]).Wanted? then kept + [a[0].msg] else kept);
    }
  }

  lemma {:induction false} ConsumeIsFold(h: Handle, sender: int, w: Trail<int>, kept: seq<Message>)
    ensures Consume(h, sender, w, kept) == Fold(h, Tag(sender, Delivered(w)), kept)
  {
    if w.Deliver? {
      var ts := Tag(sender, Delivered(w));
      assert ts[0] == Tagged(sender, w.msg) && ts[1..] == Tag(sender, Delivered(w.next));
      ConsumeIsFold(h, sender, w.next,
                    if Classify(h, Tagged(sender, w.msg)).Wanted? then kept + [w.msg] else kept);
    }
  }

  /** Reading well-formed buffers first is handling their stream of messages first: where the buffers were cut is
      of no consequence. */
  lemma {:induction false} ReadingIsFold(h: Handle, recvs: seq<Recv>, rest: seq<Recv>, kept: seq<Message>)
    requires forall recv :: recv in recvs ==> WellFormed(recv)
    ensures var p := Fold(h, Stream(recvs), kept);
      Reading(h, recvs + rest, kept)
      == match p.verdict case Some(code) => Outcome(p.kept, Returned(code)) case None => Reading(h, rest, p.kept)
    decreases |recvs|
  {
    if recvs == [] {
      assert recvs + rest == rest;
    } else {
      assert recvs[0] in recvs;
      assert (recvs + rest)[0] == recvs[0] && (recvs + rest)[1..] == recvs[1..] + rest;
      match recvs[0]
      case Failed =>
        ReadingIsFold(h, recvs[1..], rest, kept);
        assert Stream(recvs) == Stream(recvs[1..]);
      case Datagram(sender, bytes, _) =>
        var w := ScanMsgs(bytes, 0, |bytes|);
        ConsumeIsFold(h, sender, w, kept);
        FoldConcat(h, Tag(sender, Msgs(bytes)), Stream(recvs[1..]), kept);
        ReadingIsFold(h, recvs[1..], rest, Consume(h, sender, w, kept).kept);
    }
  }

  lemma {:induction false} FoldToEnd(h: Handle, stream: seq<Tagged>, kept: seq<Message>, i: nat)
    requires i < |stream| && EndsReading(h, stream[i]) && forall j :: 0 <= j < i ==> !EndsReading(h, stream[j])
    ensures Fold(h, stream, kept)
         == Progress(kept + Wants(h, stream[..i]), Some(if U16(stream[i].msg, 4) == 3 then 0 else -1))
    decreases i
  {
    if i > 0 {
      assert stream[..i][1..] == stream[1..][..i - 1];
      assert !EndsReading(h, stream[0]);
      FoldToEnd(h, stream[1..], if Classify(h, stream[0]).Wanted? then kept + [stream[0].msg] else kept, i - 1);
    }
  }

  lemma {:induction false} FoldWithoutEnd(h: Handle, stream: seq<Tagged>, kept: seq<Message>)
    requires forall m :: m in stream ==> !EndsReading(h, m)
    ensures Fold(h, stream, kept) == Progress(kept + Wants(h, stream), None)
    decreases |stream|
  {
    if stream != [] {
      assert !EndsReading(h, stream[0]);
      FoldWithoutEnd(h, stream[1..], if Classify(h, stream[0]).Wanted? then kept + [stream[0].msg] else kept);
    }
  }

  lemma {:induction false} StreamAppend(recvs: seq<Recv>, last: Recv)
    requires last.Datagram?
    ensures Stream(recvs + [last]) == Stream(recvs) + Tag(last.sender, Msgs(last.bytes))
    decreases |recvs|
  {
    hide Msgs, Tag;
    if recvs == [] {
      assert recvs + [last] == [last] && [last][1..] == [];
    } else {
      assert (recvs + [last])[0] == recvs[0] && (recvs + [last])[1..] == recvs[1..] + [last];
      StreamAppend(recvs[1..], last);
    }
  }

  /** Well-formed buffers, then one that holds the first message to end the reading, as number `i` of the stream:
      the list gains exactly the wanted messages before it, in order, and the result is 0 for DONE and -1 for
      ERROR. What follows that message, in its buffer or after it, is of no consequence. */
  lemma DumpCollects(h: Handle, recvs: seq<Recv>, last: Recv, after: seq<Recv>, kept: seq<Message>, i: nat)
    requires last.Datagram? && forall recv :: recv in recvs ==> WellFormed(recv)
    requires |Stream(recvs)| <= i < |Stream(recvs + [last])| && EndsReading(h, Stream(recvs + [last])[i])
    requires forall j :: 0 <= j < i ==> !EndsReading(h, Stream(recvs + [last])[j])
    ensures var stream := Stream(recvs + [last]);
      Reading(h, recvs + ([last] + after), kept)
      == Outcome(kept + Wants(h, stream[..i]), Returned(if U16(stream[i].msg, 4) == 3 then 0 else -1))
  {
    hide Msgs, Tag, ScanMsgs, Classify, U32, U16;
    var front, tagged := Stream(recvs), Tag(last.sender, Msgs(last.bytes));
    StreamAppend(recvs, last);
    forall m | m in front ensures !EndsReading(h, m) {
      var j :| 0 <= j < |front| && front[j] == m;
      assert Stream(recvs + [last])[j] == m;
    }
    FoldToEnd(h, Stream(recvs + [last]), kept, i);
    FoldWithoutEnd(h, front, kept);
    FoldConcat(h, front, tagged, kept);
    ReadingIsFold(h, recvs, [last] + after, kept);
    LastBuffer(h, last, after, Fold(h, front, kept).kept);
  }

  lemma LastBuffer(h: Handle, last: Recv, after: seq<Recv>, kept: seq<Message>)
    requires last.Datagram?
    ensures var p := Fold(h, Tag(last.sender, Msgs(last.bytes)), kept);
      p.verdict.Some? ==> Reading(h, [last] + after, kept) == Outcome(p.kept, Returned(p.verdict.value))
  {
    ConsumeIsFold(h, last.sender, ScanMsgs(last.bytes, 0, |last.bytes|), kept);
  }

  /** The bytes of a run of datagrams, one after the other. */
  function Joined(recvs: seq<Recv>): seq<byte> {
    if recvs == [] then []
    else (match recvs[0] case Failed => [] case Datagram(_, bytes, _) => bytes) + Joined(recvs[1..])
  }

  lemma {:induction false} StreamOfJoined(sender: int, recvs: seq<Recv>)
    requires forall recv :: recv in recvs ==> WellFormed(recv) && (recv.Datagram? ==> recv.sender == sender)
    ensures Stream(recvs) == Tag(sender, Msgs(Joined(recvs))) && WholeMsgs(Joined(recvs))
    decreases |recvs|
  {
    hide U32, U16, Align4, ScanMsgs, Why, Delivered, Msgs, WholeMsgs, Tag;
    if recvs == [] {
      NoBytesNoMsgs();
    } else {
      assert recvs[0] in recvs;
      StreamOfJoined(sender, recvs[1..]);
      if recvs[0].Datagram? {
        MsgsJoin(recvs[0].bytes, Joined(recvs[1..]));
        TagJoin(sender, Msgs(recvs[0].bytes), Msgs(Joined(recvs[1..])));
      } else {
        assert Joined(recvs) == Joined(recvs[1..]);
      }
    }
  }

  lemma TagJoin(sender: int, a: seq<Message>, b: seq<Message>)
    ensures Tag(sender, a + b) == Tag(sender, a) + Tag(sender, b)
  {
  }

  lemma NoBytesNoMsgs()
    ensures Msgs([]) == [] && WholeMsgs([])
  {
  }

  /** Two ways of cutting the same bytes of one sender into buffers give the same list and the same result. */
  lemma SplitDoesNotMatter(h: Handle, sender: int, a: seq<Recv>, b: seq<Recv>, kept: seq<Message>)
    requires forall recv :: recv in a ==> WellFormed(recv) && (recv.Datagram? ==> recv.sender == sender)
    requires forall recv :: recv in b ==> WellFormed(recv) && (recv.Datagram? ==> recv.sender == sender)
    requires Joined(a) == Joined(b)
    ensures Reading(h, a, kept) == Reading(h, b, kept)
  {
    StreamOfJoined(sender, a);
    StreamOfJoined(sender, b);
    ReadingIsFold(h, a, [], kept);
    ReadingIsFold(h, b, [], kept);
    assert a + [] == a && b + [] == b;
  }
}
