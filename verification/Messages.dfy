/** The two walks over a received buffer of netlink messages: by NLMSG_OK/NLMSG_NEXT and by hand. */
module Messages {
  import opened Bytes

  /** At least a header. */
  type Message = m: seq<byte> | |m| >= NLMSG_HDR witness seq(NLMSG_HDR, _ => 0)

  /** A finished walk: the messages delivered, then how it ended. */
  datatype Trail<+E> = Halt(why: E) | Deliver(at: nat, msg: Message, next: Trail<E>)

  function Delivered<E>(w: Trail<E>): seq<Message> {
    match w
    case Halt(_) => []
    case Deliver(_, msg, next) => [msg] + Delivered(next)
  }

  function Why<E>(w: Trail<E>): E {
    match w
    case Halt(why) => why
    case Deliver(_, _, next) => Why(next)
  }

  /** NLMSG_OK: a whole message lies at address `o`, before `end`. */
  predicate MsgOk(s: seq<byte>, o: nat, end: int)
    requires end <= |s|
  {
    o + NLMSG_HDR <= end && NLMSG_HDR <= U32(s, o) && o + U32(s, o) <= end
  }

  function MsgAt(s: seq<byte>, o: nat): Message
    requires MsgOk(s, o, |s|)
  {
    s[o..o + U32(s, o)]
  }

  /** NLMSG_NEXT */
  function MsgNext(s: seq<byte>, o: nat): (n: nat)
    requires o + 4 <= |s|
    ensures U32(s, o) >= NLMSG_HDR ==> n >= o + NLMSG_HDR
  {
    o + Align4(U32(s, o))
  }

  /** The walk by macros. It ends with the final value of `status`. */
  function ScanMsgs(s: seq<byte>, o: nat, end: int): Trail<int>
    requires end <= |s|
    decreases end - o
  {
    if MsgOk(s, o, end) then Deliver(o, MsgAt(s, o), ScanMsgs(s, MsgNext(s, o), end)) else Halt(end - o)
  }

  /** How the hand-written walk ends. Wild: after handing on the header at address `at`, whose length field `len`
      claims more than there is. What the program does after that is up to whatever lies there. */
  datatype Ending = Complete | Remnant(size: int) | Malformed | Wild(at: nat, len: int)

  /** What a walk passes to its handler: a message that lies in the buffer, or a header with an impossible length. */
  datatype Handed = Whole(at: nat, msg: Message) | Bogus(at: nat, len: int)

  function Wholes<E>(w: Trail<E>): seq<Handed> {
    match w
    case Halt(_) => []
    case Deliver(at, msg, next) => [Whole(at, msg)] + Wholes(next)
  }

  /** All that the hand-written walk passes to its handler. */
  function HandedOn(w: Trail<Ending>): seq<Handed> {
    match w
    case Halt(why) => if why.Wild? then [Bogus(why.at, why.len)] else []
    case Deliver(at, msg, next) => [Whole(at, msg)] + HandedOn(next)
  }

  /** The length test written out by hand, on a length field `f` and a remaining `status`, in C's int arithmetic. */
  predicate HandTest(f: int, status: int) {
    var len := ToInt32(f);
    var l := ToInt32(len - NLMSG_HDR);
    !(l < 0 || len > status)
  }

  /** The length fields for which the subtraction in the hand-written test wraps around. */
  predicate Wraps(f: int) {
    U31_LIMIT <= f < U31_LIMIT + NLMSG_HDR
  }

  /** The hand-written walk. The comparison of `status` with a size is unsigned, so that a negative status
      passes it and one more header is read, past the received bytes; `past` is the length field found there. */
  function HandWalk(s: seq<byte>, o: nat, end: int, past: int): Trail<Ending>
    requires end <= |s|
    decreases end - o
  {
    var status := end - o;
    if status == 0 then Halt(Complete)
    else if 0 < status < NLMSG_HDR then Halt(Remnant(status))
    else
      var f := if status < 0 then past else U32(s, o);
      if !HandTest(f, status) then Halt(Malformed)
      else if f < NLMSG_HDR || f > status then Halt(Wild(o, f))
      else Deliver(o, MsgAt(s, o), HandWalk(s, MsgNext(s, o), end, past))
  }

  /** One step of the hand-written walk. */
  lemma HandStep(s: seq<byte>, o: nat, end: int, past: int)
    requires end <= |s|
    ensures var w, status := HandWalk(s, o, end, past), end - o;
      if 0 <= status < NLMSG_HDR then w == Halt(if status == 0 then Complete else Remnant(status))
      else
        var f := if status < 0 then past else U32(s, o);
        if !HandTest(f, status) then w == Halt(Malformed)
        else if f < NLMSG_HDR || f > status then w == Halt(Wild(o, f))
        else w == Deliver(o, s[o..o + f], HandWalk(s, o + Align4(f), end, past))
  {
    hide U32, HandTest;
  }

  /** The inner loop of rtnl_listen, with a handler that accepts everything it is handed. */
  method Listen(s: array<byte>, received: nat, past: int) returns (handed: seq<Handed>, ending: Ending)
    requires received <= s.Length && received < U31_LIMIT && 0 <= past < U32_LIMIT
    ensures handed == HandedOn(HandWalk(s[..], 0, received, past))
    ensures ending == Why(HandWalk(s[..], 0, received, past))
  {
    hide U32, Read32, Align4, HandTest, HandWalk;
    handed := [];
    var h, status: int := 0, received;
    ghost var whole := HandWalk(s[..], 0, received, past);
    ghost var rest := whole;
    while status < 0 || status >= NLMSG_HDR
      invariant h + status == received
      invariant rest == HandWalk(s[..], h, received, past)
      invariant HandedOn(whole) == handed + HandedOn(rest) && Why(whole) == Why(rest)
      decreases status
    {
      var f := if status < 0 then past else Read32(s, h);
      HandStep(s[..], h, received, past);
      if !HandTest(f, status) {
        return handed, Malformed;
      }
      if f < NLMSG_HDR || f > status {
        return handed + [Bogus(h, f)], Wild(h, f);
      }
      Regroup(handed, Whole(h, rest.msg), HandedOn(rest.next));
      handed := handed + [Whole(h, s[h..h + f])];
      status := status - Align4(f);
      h := h + Align4(f);
      rest := rest.next;
    }
    HandStep(s[..], h, received, past);
    ending := if status == 0 then Complete else Remnant(status);
  }

  /** The hand-written test accepts what NLMSG_OK accepts, and also exactly the length fields that wrap. */
  lemma HandTestExact(f: int, status: int)
    requires 0 <= f < U32_LIMIT && (status < 0 || NLMSG_HDR <= status < U31_LIMIT) && -4 < status
    ensures HandTest(f, status) <==> NLMSG_HDR <= f <= status || Wraps(f)
  {
  }

  /** What the hand-written walk says about the value `left` that the other walk ends with. */
  function Report(left: int): Ending {
    if left == 0 then Complete else if 0 < left < NLMSG_HDR then Remnant(left) else Malformed
  }

  /** The header in front of which the walk by macros stops, if the hand-written walk looks at it and its length
      field wraps. */
  function WrapAtStop(s: seq<byte>, o: nat, end: int, past: int): Option<(nat, int)>
    requires end <= |s|
    decreases end - o
  {
    if MsgOk(s, o, end) then WrapAtStop(s, MsgNext(s, o), end, past)
    else if end < o then if Wraps(past) then Some((o, past)) else None
    else if o + NLMSG_HDR <= end && Wraps(U32(s, o)) then Some((o, U32(s, o)))
    else None
  }

  /** The hand-written walk passes to its handler the messages that the walk by macros delivers. If that walk stops
      in front of a length field that wraps, it passes on this header too and runs wild. Otherwise, and only then,
      it passes on nothing else, and reports what the walk by macros leaves over. */
  lemma {:induction false} WalksCompared(s: seq<byte>, o: nat, end: int, past: int)
    requires end <= |s| < U31_LIMIT && o < end + 4 && 0 <= past < U32_LIMIT
    ensures var hand, macros := HandWalk(s, o, end, past), ScanMsgs(s, o, end);
      match WrapAtStop(s, o, end, past)
      case None => HandedOn(hand) == Wholes(macros) && Why(hand) == Report(Why(macros))
      case Some((at, len)) => HandedOn(hand) == Wholes(macros) + [Bogus(at, len)] && Why(hand) == Wild(at, len)
    decreases end - o
  {
    hide U32, Align4, HandTest, Wraps;
    if end < o {
      HandTestExact(past, end - o);
      HandWraps(past);
    } else if o + NLMSG_HDR <= end {
      HandTestExact(U32(s, o), end - o);
      HandWraps(U32(s, o));
      if MsgOk(s, o, end) {
        WalksCompared(s, MsgNext(s, o), end, past);
      }
    }
  }

  lemma HandWraps(f: int)
    ensures Wraps(f) <==> U31_LIMIT <= f < U31_LIMIT + NLMSG_HDR
  {
  }

  /** So the two walks hand on the same, and agree on what is left over, exactly if no length field wraps where
      the walk by macros stops. */
  lemma WalksAgree(s: seq<byte>, end: nat, past: int)
    requires end <= |s| < U31_LIMIT && 0 <= past < U32_LIMIT
    ensures var hand, macros := HandWalk(s, 0, end, past), ScanMsgs(s, 0, end);
      && (HandedOn(hand) == Wholes(macros) <==> WrapAtStop(s, 0, end, past).None?)
      && (Why(hand) == Report(Why(macros)) <==> WrapAtStop(s, 0, end, past).None?)
  {
    hide U32, Align4, HandTest, Wraps, HandWalk, ScanMsgs, WrapAtStop;
    WalksCompared(s, 0, end, past);
  }

  /** The length fields that the walk by macros reads are below 2^31: those of the messages it delivers, and that
      of the header in front of which it stops, if there is one. */
  predicate ShortFields(s: seq<byte>, o: nat, end: int)
    requires end <= |s|
    decreases end - o
  {
    o + NLMSG_HDR <= end ==>
      U32(s, o) < U31_LIMIT && (MsgOk(s, o, end) ==> ShortFields(s, MsgNext(s, o), end))
  }

  /** In particular the walks agree if all length fields are below 2^31. */
  lemma {:induction false} ShortFieldsNeverWrap(s: seq<byte>, o: nat, end: int, past: int)
    requires end <= |s| && 0 <= past < U31_LIMIT && ShortFields(s, o, end)
    ensures WrapAtStop(s, o, end, past).None?
    decreases end - o
  {
    hide U32;
    if MsgOk(s, o, end) {
      ShortFieldsNeverWrap(s, MsgNext(s, o), end, past);
    }
  }

  /** A buffer with one header whose length field is 2^31: NLMSG_OK stops there, the hand-written test hands it on. */
  lemma WrapExample()
    ensures var s: seq<byte> := [0, 0, 0, 128, 0, 0, 0, 0, 0, 0, 0, 0, 0, 0, 0, 0];
      && ScanMsgs(s, 0, 16) == Halt(16)
      && HandedOn(HandWalk(s, 0, 16, 0)) == [Bogus(0, U31_LIMIT)]
  {
    var s: seq<byte> := [0, 0, 0, 128, 0, 0, 0, 0, 0, 0, 0, 0, 0, 0, 0, 0];
    assert U32(s, 0) == U31_LIMIT;
    assert HandWalk(s, 0, 16, 0) == Halt(Wild(0, U31_LIMIT));
  }

  // ----- splitting a stream into buffers

  /** After a stretch it consumes exactly, the walk goes on into what follows. */
  lemma {:induction false} MsgsContinue(s: seq<byte>, o: nat, mid: nat, end: nat)
    requires o <= mid <= end <= |s|
    requires Why(ScanMsgs(s, o, mid)) == 0
    ensures Delivered(ScanMsgs(s, o, end)) == Delivered(ScanMsgs(s, o, mid)) + Delivered(ScanMsgs(s, mid, end))
    ensures Why(ScanMsgs(s, o, end)) == Why(ScanMsgs(s, mid, end))
    decreases end - o
  {
    hide U32, Align4;
    if o < mid {
      assert MsgOk(s, o, mid);
      MsgsContinue(s, MsgNext(s, o), mid, end);
    }
  }

  lemma SameMsg(s: seq<byte>, x: nat, s': seq<byte>, y: nat, len: int)
    requires SameBytes(s, x, s', y, len)
    ensures MsgOk(s, x, x + len) == MsgOk(s', y, y + len)
    ensures MsgOk(s, x, x + len) ==> MsgAt(s, x) == MsgAt(s', y) && U32(s, x) == U32(s', y)
  {
    if len >= NLMSG_HDR {
      assert s[x + 2] == s'[x + 2 - x + y] && s[x + 3] == s'[x + 3 - x + y];
    }
  }

  lemma {:induction false} MsgsMove(s: seq<byte>, x: nat, s': seq<byte>, y: nat, len: int)
    requires SameBytes(s, x, s', y, len)
    ensures Delivered(ScanMsgs(s, x, x + len)) == Delivered(ScanMsgs(s', y, y + len))
    ensures Why(ScanMsgs(s, x, x + len)) == Why(ScanMsgs(s', y, y + len))
    decreases len
  {
    hide U32, Align4;
    SameMsg(s, x, s', y, len);
    if MsgOk(s, x, x + len) {
      var n := Align4(U32(s, x));
      MsgsMove(s, x + n, s', y + n, len - n);
    }
  }

  /** The messages of one received buffer. */
  function Msgs(b: seq<byte>): seq<Message> {
    Delivered(ScanMsgs(b, 0, |b|))
  }

  /** A buffer of whole, padded messages. */
  predicate WholeMsgs(b: seq<byte>) {
    Why(ScanMsgs(b, 0, |b|)) == 0
  }

  /** Joining whole buffers joins their messages. */
  lemma MsgsJoin(a: seq<byte>, b: seq<byte>)
    requires WholeMsgs(a)
    ensures Msgs(a + b) == Msgs(a) + Msgs(b)
    ensures WholeMsgs(a + b) == WholeMsgs(b)
  {
    hide U32, Align4, ScanMsgs, Delivered, Why;
    MsgsMove(a, 0, a + b, 0, |a|);
    MsgsMove(b, 0, a + b, |a|, |b|);
    MsgsContinue(a + b, 0, |a|, |a| + |b|);
  }
}
