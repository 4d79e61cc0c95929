/** Netlink messages as their senders lay them out, and what the two readers make of them. */
module Replies {
  import opened Bytes
  import opened Messages
  import opened Dump

  /** The fields of a netlink message (section 2.3.2 of RFC 3549) and what follows the header. */
  datatype Frame = Frame(typ: int, flags: int, seqno: int, pid: int, body: seq<byte>) {
    predicate Fits() {
      && 0 <= typ < U16_LIMIT && 0 <= flags < U16_LIMIT && 0 <= seqno < U32_LIMIT && 0 <= pid < U32_LIMIT
      && 16 + |body| < U32_LIMIT
    }

    function Header(): (b: seq<byte>)
      requires Fits()
      ensures |b| == 16
    {
      Le32(16 + |body|) + Le16(typ) + Le16(flags) + Le32(seqno) + Le32(pid)
    }

    function Bytes(): (m: Message)
      requires Fits()
      ensures |m| == 16 + |body|
    {
      Header() + body
    }

    /** With the zeros that pad it. */
    function Padded(): (b: seq<byte>)
      requires Fits()
      ensures |b| == (16 + |body| + 3) / 4 * 4
    {
      Bytes() + seq((16 + |body| + 3) / 4 * 4 - (16 + |body|), _ => 0)
    }
  }

  type Sent = f: Frame | f.Fits() witness Frame(0, 0, 0, 0, [])

  /** One message after the other. */
  function Wire(fs: seq<Sent>): seq<byte> {
    if fs == [] then [] else fs[0].Padded() + Wire(fs[1..])
  }

  function Plain(fs: seq<Sent>): (ms: seq<Message>)
    ensures |ms| == |fs| && forall i :: 0 <= i < |fs| ==> ms[i] == fs[i].Bytes()
  {
    seq(|fs|, i requires 0 <= i < |fs| => fs[i].Bytes())
  }

  lemma FieldsOf(f: Sent, s: seq<byte>)
    requires |s| >= 16 + |f.body| && s[..16 + |f.body|] == f.Bytes()
    ensures U32(s, 0) == 16 + |f.body| && U16(s, 4) == f.typ && U16(s, 6) == f.flags
    ensures U32(s, 8) == f.seqno && U32(s, 12) == f.pid
  {
    hide U16, U32, Le16, Le32;
    var h := f.Header();
    assert s[..16] == s[..16 + |f.body|][..16] == h;
    assert h[0..4] == Le32(16 + |f.body|) && h[4..6] == Le16(f.typ) && h[6..8] == Le16(f.flags);
    assert h[8..12] == Le32(f.seqno) && h[12..16] == Le32(f.pid);
    assert s[0..4] == h[0..4] && s[4..6] == h[4..6] && s[6..8] == h[6..8] && s[8..12] == h[8..12];
    assert s[12..16] == h[12..16];
    FieldAt(s, 0, Le32(16 + |f.body|));
    FieldAt(s, 4, Le16(f.typ));
    FieldAt(s, 6, Le16(f.flags));
    FieldAt(s, 8, Le32(f.seqno));
    FieldAt(s, 12, Le32(f.pid));
  }

  lemma OneFrameIsRead(f: Sent)
    ensures Msgs(f.Padded()) == [f.Bytes()] && WholeMsgs(f.Padded())
  {
    hide U16, U32, Le16, Le32, Frame.Header, Frame.Bytes;
    var b := f.Padded();
    assert b[..16 + |f.body|] == f.Bytes();
    FieldsOf(f, b);
    assert MsgOk(b, 0, |b|) && MsgAt(b, 0) == f.Bytes() && MsgNext(b, 0) == |b|;
    assert !MsgOk(b, |b|, |b|);
    var end: Trail<int> := Halt(0);
    assert ScanMsgs(b, 0, |b|) == Deliver(0, f.Bytes(), end);
    assert Delivered(end) == [] && Why(end) == 0;
  }

  /** The walk over a buffer finds exactly the messages that were laid into it, in order and without their padding. */
  lemma {:induction false} FramesAreRead(fs: seq<Sent>)
    ensures Msgs(Wire(fs)) == Plain(fs) && WholeMsgs(Wire(fs))
  {
    hide Frame.Bytes, Frame.Padded, Msgs, WholeMsgs;
    if fs == [] {
      NoBytesNoMsgs();
    } else {
      OneFrameIsRead(fs[0]);
      FramesAreRead(fs[1..]);
      MsgsJoin(fs[0].Padded(), Wire(fs[1..]));
    }
  }

  // ----- the dump

  /** A message and the address it came from. */
  datatype Reply = Reply(sender: int, frame: Sent)

  /** The kernel's answer to the dump request of this handle. */
  predicate IsAnswer(h: Handle, r: Reply) {
    r.sender == 0 && r.frame.pid == h.localPid && r.frame.seqno == h.dump
  }

  /** NLMSG_DONE is 3 and NLMSG_ERROR is 2. */
  predicate Ends(h: Handle, r: Reply) {
    IsAnswer(h, r) && (r.frame.typ == 3 || r.frame.typ == 2)
  }

  /** The dump filter knows a message by its fields: an answer to somebody else's request is foreign, of those to
      its own DONE and ERROR end the reading, and all others are wanted. */
  lemma KindOfFrame(h: Handle, r: Reply)
    ensures var kind := Classify(h, Tagged(r.sender, r.frame.Bytes()));
      && (kind.Foreign? <==> !IsAnswer(h, r))
      && (kind.Done? <==> IsAnswer(h, r) && r.frame.typ == 3)
      && (kind.Error? <==> IsAnswer(h, r) && r.frame.typ == 2)
      && (kind.Wanted? <==> IsAnswer(h, r) && !Ends(h, r))
  {
    hide U16, U32, Frame.Bytes;
    FieldsOf(r.frame, r.frame.Bytes());
  }

  lemma SeenByDump(h: Handle, r: Reply)
    ensures var m := Tagged(r.sender, r.frame.Bytes());
      && (Ours(h, m) <==> IsAnswer(h, r)) && (EndsReading(h, m) <==> Ends(h, r)) && U16(m.msg, 4) == r.frame.typ
  {
    hide U16, U32, Frame.Bytes;
    FieldsOf(r.frame, r.frame.Bytes());
  }

  /** What the kernel's datagrams say: the messages of each come from its sender. */
  datatype Batch = Batch(sender: int, frames: seq<Sent>)

  function Replies(bs: seq<Batch>): seq<Reply> {
    if bs == [] then [] else RepliesOf(bs[0]) + Replies(bs[1..])
  }

  function RepliesOf(b: Batch): (rs: seq<Reply>)
    ensures |rs| == |b.frames|
  {
    seq(|b.frames|, i requires 0 <= i < |b.frames| => Reply(b.sender, b.frames[i]))
  }

  function Received(bs: seq<Batch>): (rs: seq<Recv>)
    ensures |rs| == |bs|
  {
    seq(|bs|, i requires 0 <= i < |bs| => Datagram(bs[i].sender, Wire(bs[i].frames), false))
  }

  /** The messages that the caller asked for, in order. */
  function Answers(h: Handle, rs: seq<Reply>): seq<Message> {
    if rs == [] then []
    else (if IsAnswer(h, rs[0]) && !Ends(h, rs[0]) then [rs[0].frame.Bytes()] else []) + Answers(h, rs[1..])
  }

  function TagAll(rs: seq<Reply>): (ts: seq<Tagged>)
    ensures |ts| == |rs| && forall i :: 0 <= i < |rs| ==> ts[i] == Tagged(rs[i].sender, rs[i].frame.Bytes())
  {
    seq(|rs|, i requires 0 <= i < |rs| => Tagged(rs[i].sender, rs[i].frame.Bytes()))
  }

  lemma {:induction false} StreamOfBatches(bs: seq<Batch>)
    requires forall b :: b in bs ==> b.frames != []
    ensures Stream(Received(bs)) == TagAll(Replies(bs))
    ensures forall recv :: recv in Received(bs) ==> WellFormed(recv)
  {
    hide Frame.Bytes, Msgs, WholeMsgs, Wire;
    if bs != [] {
      var b, rs := bs[0], Received(bs);
      assert b in bs;
      StreamOfBatches(bs[1..]);
      FramesAreRead(b.frames);
      WireIsNotEmpty(b.frames);
      var rest := Received(bs[1..]);
      assert rs == [Datagram(b.sender, Wire(b.frames), false)] + rest;
      StreamCons(b.sender, Wire(b.frames), rest);
      assert Tag(b.sender, Plain(b.frames)) == TagAll(RepliesOf(b));
      assert TagAll(Replies(bs)) == TagAll(RepliesOf(b)) + TagAll(Replies(bs[1..]));
    }
  }

  lemma StreamCons(sender: int, bytes: seq<byte>, rest: seq<Recv>)
    ensures Stream([Datagram(sender, bytes, false)] + rest) == Tag(sender, Msgs(bytes)) + Stream(rest)
  {
    assert ([Datagram(sender, bytes, false)] + rest)[1..] == rest;
  }

  lemma WireIsNotEmpty(fs: seq<Sent>)
    requires fs != []
    ensures Wire(fs) != []
  {
    hide Frame.Bytes;
  }

  lemma {:induction false} WantsAnswers(h: Handle, rs: seq<Reply>)
    ensures Wants(h, TagAll(rs)) == Answers(h, rs)
  {
    hide Frame.Bytes, Ours, EndsReading, IsAnswer, Ends;
    if rs != [] {
      SeenByDump(h, rs[0]);
      WantsAnswers(h, rs[1..]);
      assert TagAll(rs)[1..] == TagAll(rs[1..]);
    }
  }

  /** Whatever the kernel and others send, however it is cut into datagrams: the caller's list gains exactly the
      answers to its request up to the first DONE or ERROR of that request, in order, and the result is 0 or -1
      accordingly; what follows does not matter. */
  lemma DumpCollectsAnswers(h: Handle, bs: seq<Batch>, after: seq<Recv>, kept: seq<Message>, i: nat)
    requires forall b :: b in bs ==> b.frames != []
    ensures var rs := Replies(bs);
      i < |rs| && Ends(h, rs[i]) && (forall j :: 0 <= j < i ==> !Ends(h, rs[j])) ==>
      Reading(h, Received(bs) + after, kept)
      == Outcome(kept + Answers(h, rs[..i]), Returned(if rs[i].frame.typ == 3 then 0 else -1))
  {
    hide Frame.Bytes, Ours, EndsReading, IsAnswer, Ends, U16, Stream;
    var rs := Replies(bs);
    if i < |rs| && Ends(h, rs[i]) && forall j :: 0 <= j < i ==> !Ends(h, rs[j]) {
      var ts := TagAll(rs);
      StreamOfBatches(bs);
      forall j | 0 <= j <= i ensures EndsReading(h, ts[j]) <==> j == i {
        SeenByDump(h, rs[j]);
      }
      SeenByDump(h, rs[i]);
      FoldToEnd(h, ts, kept, i);
      assert ts[..i] == TagAll(rs[..i]);
      WantsAnswers(h, rs[..i]);
      ReadingIsFold(h, Received(bs), after, kept);
    }
  }

  /** As long as no DONE or ERROR of the caller's request has come, the reading has gathered all the answers so far
      and goes on. */
  lemma DumpGoesOn(h: Handle, bs: seq<Batch>, after: seq<Recv>, kept: seq<Message>)
    requires forall b :: b in bs ==> b.frames != []
    ensures (forall r :: r in Replies(bs) ==> !Ends(h, r)) ==>
      Reading(h, Received(bs) + after, kept) == Reading(h, after, kept + Answers(h, Replies(bs)))
  {
    hide Frame.Bytes, Ours, EndsReading, IsAnswer, Ends, U16, Stream;
    var rs := Replies(bs);
    if forall r :: r in rs ==> !Ends(h, r) {
      var ts := TagAll(rs);
      StreamOfBatches(bs);
      forall t | t in ts ensures !EndsReading(h, t) {
        var j :| 0 <= j < |ts| && ts[j] == t;
        assert rs[j] in rs;
        SeenByDump(h, rs[j]);
      }
      FoldWithoutEnd(h, ts, kept);
      WantsAnswers(h, rs);
      ReadingIsFold(h, Received(bs), after, kept);
    }
  }

  /** How the reading takes what is not a datagram of messages: it waits if there is nothing, goes on after a failure
      of recvmsg and returns -1 at the end of the file. */
  lemma DumpOtherwise(h: Handle, sender: int, after: seq<Recv>, kept: seq<Message>, cut: bool)
    ensures Reading(h, [], kept) == Outcome(kept, Waiting)
    ensures Reading(h, [Failed] + after, kept) == Reading(h, after, kept)
    ensures Reading(h, [Datagram(sender, [], cut)] + after, kept) == Outcome(kept, Returned(-1))
  {
    assert ([Failed] + after)[1..] == after;
  }

  /** What can follow the padded messages of a datagram: less than a header, or a last message without its padding. */
  predicate Ragged(tail: seq<byte>, last: seq<Sent>) {
    || (last == [] && 0 < |tail| < 16)
    || (|last| == 1 && tail == last[0].Bytes() && |tail| % 4 != 0)
  }

  /** A datagram that does not end with a padded message ends the process, after its messages have been dealt with,
      unless the system had cut it off; then the reading goes on. */
  lemma RaggedEnd(h: Handle, sender: int, fs: seq<Sent>, tail: seq<byte>, last: seq<Sent>, cut: bool,
                  after: seq<Recv>, kept: seq<Message>)
    requires Ragged(tail, last)
    ensures var rs := RepliesOf(Batch(sender, fs + last));
      (forall r :: r in rs ==> !Ends(h, r)) ==>
      Reading(h, [Datagram(sender, Wire(fs) + tail, cut)] + after, kept)
      == if cut then Reading(h, after, kept + Answers(h, rs)) else Outcome(kept + Answers(h, rs), Exited)
  {
    hide Frame.Bytes, Frame.Padded, Msgs, WholeMsgs, IsAnswer, Ends, EndsReading, Ours;
    var rs, bytes := RepliesOf(Batch(sender, fs + last)), Wire(fs) + tail;
    FramesAreRead(fs);
    TailIsRead(tail, last);
    MsgsJoin(Wire(fs), tail);
    assert Plain(fs) + Plain(last) == Plain(fs + last);
    if forall r :: r in rs ==> !Ends(h, r) {
      OneRead(h, sender, bytes, cut, after, kept);
      assert Tag(sender, Plain(fs + last)) == TagAll(rs);
      forall t | t in TagAll(rs) ensures !EndsReading(h, t) {
        var j :| 0 <= j < |rs| && TagAll(rs)[j] == t;
        assert rs[j] in rs;
        SeenByDump(h, rs[j]);
      }
      FoldWithoutEnd(h, TagAll(rs), kept);
      WantsAnswers(h, rs);
    }
  }

  lemma TailIsRead(tail: seq<byte>, last: seq<Sent>)
    requires Ragged(tail, last)
    ensures Msgs(tail) == Plain(last) && !WholeMsgs(tail)
  {
    hide U16, U32, Frame.Bytes;
    var n := |tail|;
    if last == [] {
      var end: Trail<int> := Halt(n);
      assert ScanMsgs(tail, 0, n) == end;
    } else {
      FieldsOf(last[0], tail);
      assert MsgOk(tail, 0, n) && MsgAt(tail, 0) == tail;
      var end: Trail<int> := Halt(n - MsgNext(tail, 0));
      assert ScanMsgs(tail, 0, n) == Deliver(0, tail, end);
      assert Delivered(end) == [] && Why(end) == n - MsgNext(tail, 0);
      assert Plain(last) == [tail];
    }
  }

  lemma OneRead(h: Handle, sender: int, bytes: seq<byte>, cut: bool, after: seq<Recv>, kept: seq<Message>)
    requires bytes != []
    ensures var p := Fold(h, Tag(sender, Msgs(bytes)), kept);
      p.verdict.None? ==>
      Reading(h, [Datagram(sender, bytes, cut)] + after, kept)
      == if !cut && !WholeMsgs(bytes) then Outcome(p.kept, Exited) else Reading(h, after, p.kept)
  {
    hide Fold, Tag, ScanMsgs;
    ConsumeIsFold(h, sender, ScanMsgs(bytes, 0, |bytes|), kept);
    assert ([Datagram(sender, bytes, cut)] + after)[1..] == after;
  }
}
