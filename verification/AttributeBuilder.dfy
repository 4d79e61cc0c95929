/** The in-place builders for netlink messages and nested attributes, and their round trips through the parser. */
module AttributeBuilder {
  import opened Bytes
  import opened Attributes

  /** The largest payload whose attribute length is still a C int. */
  const MAX_DATA := U31_LIMIT - 8

  function AttrBytes(typ: int, data: seq<byte>): (b: seq<byte>)
    ensures |b| == RTA_HDR + |data|
  {
    Le16((RTA_HDR + |data|) % U16_LIMIT) + Le16(typ % U16_LIMIT) + data
  }

  function Zeros(n: nat): (z: seq<byte>)
    ensures |z| == n
  {
    seq(n, _ => 0)
  }

  /** `data` as addraw_l lays it down: zero-padded to a multiple of four. */
  function Padded(data: seq<byte>): (b: seq<byte>)
    ensures |b| == Align4(|data|)
  {
    data + Zeros(Align4(|data|) - |data|)
  }

  /** NLMSG_TAIL, as an offset */
  function MsgTail(s: seq<byte>): nat
    requires |s| >= 4
  {
    AlignU32(U32(s, 0))
  }

  /** The same for an attribute */
  function RtaTail(s: seq<byte>): nat
    requires |s| >= 2
  {
    Align4(U16(s, 0))
  }

  /** The sum in the builders' bound check does not wrap around. If it did they would write behind the memory. */
  predicate Addable(s: seq<byte>, b: seq<byte>) {
    |s| >= 4 && MsgTail(s) + Align4(|b|) < U32_LIMIT
  }

  /** The message memory after a successful addition of `b`; nothing if the bound forbids it. The length field is
      read again after the store, which covers it if the tail is 0. */
  function MsgAppend(s: seq<byte>, maxlen: nat, b: seq<byte>): (r: Option<seq<byte>>)
    requires Addable(s, b) && maxlen <= |s|
    ensures r.Some? ==> |r.value| == |s|
  {
    if MsgTail(s) + Align4(|b|) > maxlen then None
    else
      var t := Splice(s, MsgTail(s), b);
      Some(Splice(t, 0, Le32((MsgTail(t) + Align4(|b|)) % U32_LIMIT)))
  }

  /** addraw_l computes the tail anew for the zeros: they must not go behind the memory either. */
  predicate RawSafe(s: seq<byte>, maxlen: nat, data: seq<byte>)
    requires maxlen <= |s|
  {
    && Addable(s, data)
    && (MsgTail(s) + Align4(|data|) <= maxlen ==> MsgTail(Splice(s, MsgTail(s), data)) + Align4(|data|) <= |s|)
  }

  /** The message memory after a successful addition of raw bytes and the zeros that pad them. */
  function RawAppend(s: seq<byte>, maxlen: nat, data: seq<byte>): (r: Option<seq<byte>>)
    requires maxlen <= |s| && RawSafe(s, maxlen, data)
    ensures r.Some? ==> |r.value| == |s|
  {
    if MsgTail(s) + Align4(|data|) > maxlen then None
    else
      var t := Splice(s, MsgTail(s), data);
      var z := Splice(t, MsgTail(t) + |data|, Zeros(Align4(|data|) - |data|));
      Some(Splice(z, 0, Le32((MsgTail(z) + Align4(|data|)) % U32_LIMIT)))
  }

  /** A message whose length field is in use: an aligned tail that is neither 0 nor out of a C int's reach. */
  predicate IsMessage(s: seq<byte>) {
    |s| >= 4 && 0 < U32(s, 0) < U31_LIMIT
  }

  /** An addition is refused exactly if it would go beyond the bound; one that fits exactly is accepted. */
  lemma AcceptedIffFits(s: seq<byte>, maxlen: nat, b: seq<byte>)
    requires Addable(s, b) && maxlen <= |s|
    ensures MsgAppend(s, maxlen, b).Some? <==> AlignU32(U32(s, 0)) + Align4(|b|) <= maxlen
  {
  }

  lemma RawAcceptedIffFits(s: seq<byte>, maxlen: nat, data: seq<byte>)
    requires maxlen <= |s| && RawSafe(s, maxlen, data)
    ensures RawAppend(s, maxlen, data).Some? <==> AlignU32(U32(s, 0)) + Align4(|data|) <= maxlen
  {
  }

  /** In such a message raw bytes go in as one padded piece. */
  lemma RawAppendIsPadded(s: seq<byte>, maxlen: nat, data: seq<byte>)
    requires IsMessage(s) && maxlen <= |s| && |data| <= MAX_DATA
    ensures RawSafe(s, maxlen, data) && Addable(s, Padded(data))
    ensures RawAppend(s, maxlen, data) == MsgAppend(s, maxlen, Padded(data))
  {
    hide U16, Le32;
    if MsgTail(s) + Align4(|data|) <= maxlen {
      var t := Splice(s, MsgTail(s), data);
      FieldOf(t, s[..4]);
      FieldOf(s, s[..4]);
      SpliceTwice(s, MsgTail(s), data, Zeros(Align4(|data|) - |data|));
    }
  }

  /** The same inside an attribute, whose length field has only 16 bits. */
  function RtaAppend(s: seq<byte>, maxlen: nat, b: seq<byte>): (r: Option<seq<byte>>)
    requires |s| >= 2 && maxlen <= |s|
    ensures r.Some? ==> |r.value| == |s|
  {
    if RtaTail(s) + Align4(|b|) > maxlen then None
    else
      var t := Splice(s, RtaTail(s), b);
      Some(Splice(t, 0, Le16((RtaTail(t) + Align4(|b|)) % U16_LIMIT)))
  }

  /** What a builder does with its buffer, given the memory it should leave. */
  twostate predicate Built(n: array<byte>, result: int, next: Option<seq<byte>>)
    reads n
  {
    match next
    case None => result == -1 && n[..] == old(n[..])
    case Some(s) => result == 0 && n[..] == s
  }

  method PutAttr(n: array<byte>, at: nat, typ: int, data: seq<byte>)
    requires at + RTA_HDR + |data| <= n.Length
    modifies n
    ensures n[..] == Splice(old(n[..]), at, AttrBytes(typ, data))
  {
    var len := RTA_HDR + |data|;
    Put16(n, at + 2, typ % U16_LIMIT);
    Put16(n, at, len % U16_LIMIT);
    Copy(n, at + RTA_HDR, data);
    assert n[..] == Splice(old(n[..]), at, AttrBytes(typ, data));
  }

  /** addattr32 */
  method Addattr32(n: array<byte>, maxlen: nat, typ: int, data: int) returns (r: int)
    requires 0 <= data < U32_LIMIT && Addable(n[..], AttrBytes(typ, Le32(data))) && maxlen <= n.Length
    modifies n
    ensures Built(n, r, MsgAppend(old(n[..]), maxlen, AttrBytes(typ, Le32(data))))
  {
    hide U16, U32, Le16, AlignU32;
    var len := RTA_HDR + 4;
    var tail := AlignU32(Read32(n, 0));
    if tail + len > maxlen {
      return -1;
    }
    PutAttr(n, tail, typ, Le32(data));
    Put32(n, 0, (AlignU32(Read32(n, 0)) + len) % U32_LIMIT);
    return 0;
  }

  /** addattr_l */
  method AddattrL(n: array<byte>, maxlen: nat, typ: int, data: seq<byte>) returns (r: int)
    requires Addable(n[..], AttrBytes(typ, data)) && maxlen <= n.Length && |data| <= MAX_DATA
    modifies n
    ensures Built(n, r, MsgAppend(old(n[..]), maxlen, AttrBytes(typ, data)))
  {
    hide U16, U32, Le16, AlignU32, Align4;
    var len := RTA_HDR + |data|;
    var tail := AlignU32(Read32(n, 0));
    if tail + Align4(len) > maxlen {
      return -1;
    }
    PutAttr(n, tail, typ, data);
    Put32(n, 0, (AlignU32(Read32(n, 0)) + Align4(len)) % U32_LIMIT);
    return 0;
  }

  /** addraw_l */
  method AddrawL(n: array<byte>, maxlen: nat, data: seq<byte>) returns (r: int)
    requires n.Length >= 4 && maxlen <= n.Length && |data| <= MAX_DATA && RawSafe(n[..], maxlen, data)
    modifies n
    ensures Built(n, r, RawAppend(old(n[..]), maxlen, data))
  {
    hide Align4, AlignU32, U16, Read32, U32, Le16, Le32;
    var tail := AlignU32(Read32(n, 0));
    if tail + Align4(|data|) > maxlen {
      return -1;
    }
    Copy(n, tail, data);
    tail := AlignU32(Read32(n, 0));
    Copy(n, tail + |data|, Zeros(Align4(|data|) - |data|));
    Put32(n, 0, (AlignU32(Read32(n, 0)) + Align4(|data|)) % U32_LIMIT);
    return 0;
  }

  /** rta_addattr32 */
  method RtaAddattr32(rta: array<byte>, maxlen: nat, typ: int, data: int) returns (r: int)
    requires rta.Length >= 2 && maxlen <= rta.Length && 0 <= data < U32_LIMIT
    modifies rta
    ensures Built(rta, r, RtaAppend(old(rta[..]), maxlen, AttrBytes(typ, Le32(data))))
  {
    hide U16, U32, Le16;
    var len := RTA_HDR + 4;
    var tail := Align4(Read16(rta, 0));
    if tail + len > maxlen {
      return -1;
    }
    PutAttr(rta, tail, typ, Le32(data));
    Put16(rta, 0, (Align4(Read16(rta, 0)) + len) % U16_LIMIT);
    return 0;
  }

  /** rta_addattr_l */
  method RtaAddattrL(rta: array<byte>, maxlen: nat, typ: int, data: seq<byte>) returns (r: int)
    requires rta.Length >= 2 && maxlen <= rta.Length && |data| <= MAX_DATA
    modifies rta
    ensures Built(rta, r, RtaAppend(old(rta[..]), maxlen, AttrBytes(typ, data)))
  {
    hide U16, U32, Le16, Align4;
    var len := RTA_HDR + |data|;
    var tail := Align4(Read16(rta, 0));
    if tail + Align4(len) > maxlen {
      return -1;
    }
    PutAttr(rta, tail, typ, data);
    Put16(rta, 0, (Align4(Read16(rta, 0)) + Align4(len)) % U16_LIMIT);
    return 0;
  }

  // ----- sequences of additions

  datatype Op = Attr(typ: int, data: seq<byte>) | Raw(data: seq<byte>) {
    function Bytes(): seq<byte> {
      match this
      case Attr(typ, data) => AttrBytes(typ, data)
      case Raw(data) => Padded(data)
    }

    /** The room it takes: header, data and padding, in whole words of four bytes. */
    function Room(): nat {
      ((match this case Attr(_, data) => 4 + |data| case Raw(data) => |data|) + 3) / 4 * 4
    }

    /** The length is a C int. */
    predicate Sized() {
      |data| <= MAX_DATA
    }

    /** The fields fit their 16 bits, and raw bytes are themselves whole attributes. */
    predicate Representable() {
      match this
      case Attr(typ, data) => 0 <= typ < U16_LIMIT && RTA_HDR + |data| < U16_LIMIT
      case Raw(data) => Left(Scan(Padded(data), 0, |Padded(data)|)) == 0
    }

    /** What the addition means to a reader. */
    function Adds(): seq<Item> {
      match this
      case Attr(typ, data) => [Item(typ, data)]
      case Raw(data) => Items(Scan(Padded(data), 0, |Padded(data)|))
    }
  }

  /** `r` is the memory `s` with `b` stored at `tail`; of the rest only the first `hdr` bytes may differ. */
  ghost predicate Extends(s: seq<byte>, tail: nat, r: seq<byte>, b: seq<byte>, hdr: nat) {
    && hdr <= tail && tail + Align4(|b|) <= |r| == |s|
    && (forall i :: hdr <= i < |s| && (i < tail || tail + |b| <= i) ==> r[i] == s[i])
    && forall i :: tail <= i < tail + |b| ==> r[i] == b[i - tail]
  }

  lemma MessageIsAddable(s: seq<byte>, b: seq<byte>)
    requires IsMessage(s) && |b| <= MAX_DATA + RTA_HDR
    ensures Addable(s, b) && 4 <= MsgTail(s)
  {
  }

  /** The tail that a stored length field of `x + y` leads to. */
  lemma StoredTail(s: seq<byte>, x: nat, y: nat)
    requires |s| >= 4 && x % 4 == 0 && y % 4 == 0
    ensures var r := Splice(s, 0, Le32((x + y) % U32_LIMIT));
      U32(r, 0) == MsgTail(r) == (x + y) % U32_LIMIT
  {
    hide Le32, U16, U32;
    FieldOf(Splice(s, 0, Le32((x + y) % U32_LIMIT)), Le32((x + y) % U32_LIMIT));
    AlignedSum(x, y);
  }

  /** Behind a tail that is not 0 a store leaves the length field as it is. */
  lemma TailKept(s: seq<byte>, off: nat, b: seq<byte>)
    requires |s| >= 4 && 4 <= off && off + |b| <= |s|
    ensures MsgTail(Splice(s, off, b)) == MsgTail(s)
  {
    hide U16, U32;
    FieldOf(Splice(s, off, b), s[..4]);
    FieldOf(s, s[..4]);
  }

  lemma AlignedSum(x: nat, y: nat)
    requires x % 4 == 0 && y % 4 == 0
    ensures AlignU32((x + y) % U32_LIMIT) == (x + y) % U32_LIMIT
  {
  }

  /** An addition to a message only extends it. */
  lemma AppendExtends(s: seq<byte>, maxlen: nat, b: seq<byte>)
    requires IsMessage(s) && maxlen <= |s| && maxlen < U31_LIMIT && Addable(s, b)
    requires MsgAppend(s, maxlen, b).Some?
    ensures var r := MsgAppend(s, maxlen, b).value;
      && IsMessage(r) && Extends(s, MsgTail(s), r, b, 4)
      && U32(r, 0) == MsgTail(r) == MsgTail(s) + Align4(|b|) <= maxlen
  {
    hide Align4, AlignU32, Le32, U16, U32, Splice, Extends;
    var t := Splice(s, MsgTail(s), b);
    MessageTail(s);
    TailKept(s, MsgTail(s), b);
    StoredTail(t, MsgTail(t), Align4(|b|));
    StoreExtends(s, MsgTail(s), b, Le32(MsgTail(s) + Align4(|b|)));
  }

  lemma MessageTail(s: seq<byte>)
    requires IsMessage(s)
    ensures 4 <= MsgTail(s) <= U31_LIMIT
  {
  }

  lemma StoreExtends(s: seq<byte>, tail: nat, b: seq<byte>, field: seq<byte>)
    requires |field| <= tail && tail + Align4(|b|) <= |s|
    ensures Extends(s, tail, Splice(Splice(s, tail, b), 0, field), b, |field|)
  {
    hide Align4;
  }

  /** Inside an attribute the same holds as long as its length stays within 16 bits. */
  lemma NestExtends(s: seq<byte>, maxlen: nat, b: seq<byte>)
    requires |s| >= RTA_HDR && 0 < U16(s, 0) && maxlen <= |s| && RtaAppend(s, maxlen, b).Some?
    requires RtaTail(s) + Align4(|b|) < U16_LIMIT
    ensures var r := RtaAppend(s, maxlen, b).value;
      && Extends(s, RtaTail(s), r, b, 2)
      && RtaTail(r) == U16(r, 0) == RtaTail(s) + Align4(|b|) <= maxlen
  {
    hide Align4, Le16, U16, Extends;
    var grown := RtaTail(s) + Align4(|b|);
    var t, r := Splice(s, RtaTail(s), b), RtaAppend(s, maxlen, b).value;
    StoreExtends(s, RtaTail(s), b, Le16(grown));
    FieldOf(t, s[..2]);
    FieldOf(s, s[..2]);
    FieldOf(r, Le16(grown));
  }

  /** addattr_l, byte by byte: behind the message, at the next word, come two bytes of length, two bytes of type and
      the payload, and the length field takes in all of it and its padding; or nothing changes, exactly if that
      would go beyond the bound. */
  lemma AttrIsStored(s: seq<byte>, maxlen: nat, typ: int, data: seq<byte>)
    requires IsMessage(s) && maxlen <= |s| && maxlen < U31_LIMIT && |data| <= MAX_DATA
    ensures var tail, size := (U32(s, 0) + 3) / 4 * 4, (4 + |data| + 3) / 4 * 4;
      match MsgAppend(s, maxlen, AttrBytes(typ, data))
      case None => tail + size > maxlen
      case Some(r) =>
        && tail + size <= maxlen && U32(r, 0) == tail + size
        && U16(r, tail) == (4 + |data|) % 65536 && U16(r, tail + 2) == typ % 65536
        && r[tail + 4..tail + 4 + |data|] == data
        && SameBut(s, r, 4, tail, tail + 4 + |data|)
  {
    hide U16, U32, AlignU32, MsgAppend, AttrBytes, Extends, Align4;
    var b := AttrBytes(typ, data);
    MessageIsAddable(s, b);
    AcceptedIffFits(s, maxlen, b);
    WordUp(s, |b|);
    if MsgAppend(s, maxlen, b).Some? {
      AppendExtends(s, maxlen, b);
      AttrLiesThere(s, MsgTail(s), MsgAppend(s, maxlen, b).value, typ, data, 4);
    }
  }

  /** Apart from the first `hdr` bytes and those from `from` to `to`, the memory is as before. */
  predicate SameBut(s: seq<byte>, r: seq<byte>, hdr: nat, from: nat, to: nat) {
    |r| == |s| && forall i :: hdr <= i < |s| && (i < from || to <= i) ==> r[i] == s[i]
  }

  lemma WordUp(s: seq<byte>, size: nat)
    requires IsMessage(s)
    ensures MsgTail(s) == AlignU32(U32(s, 0)) == (U32(s, 0) + 3) / 4 * 4 && Align4(size) == (size + 3) / 4 * 4
  {
    hide U32;
  }

  lemma AttrLiesThere(s: seq<byte>, tail: nat, r: seq<byte>, typ: int, data: seq<byte>, hdr: nat)
    requires Extends(s, tail, r, AttrBytes(typ, data), hdr)
    ensures tail + 4 + |data| <= |r|
    ensures U16(r, tail) == (4 + |data|) % 65536 && U16(r, tail + 2) == typ % 65536
    ensures r[tail + 4..tail + 4 + |data|] == data && SameBut(s, r, hdr, tail, tail + 4 + |data|)
  {
    hide U16, Le16;
    StoredFields(r, tail, typ, data);
    var b := AttrBytes(typ, data);
    assert forall i :: 0 <= i < |data| ==> r[tail + 4 + i] == b[4 + i] == data[i];
  }

  /** addraw_l, byte by byte: the data, and zeros up to the next word. */
  lemma RawIsStored(s: seq<byte>, maxlen: nat, data: seq<byte>)
    requires IsMessage(s) && maxlen <= |s| && maxlen < U31_LIMIT && |data| <= MAX_DATA
    ensures RawSafe(s, maxlen, data)
    ensures var tail, size := (U32(s, 0) + 3) / 4 * 4, (|data| + 3) / 4 * 4;
      match RawAppend(s, maxlen, data)
      case None => tail + size > maxlen
      case Some(r) =>
        && tail + size <= maxlen && U32(r, 0) == tail + size
        && r[tail..tail + |data|] == data && (forall i :: tail + |data| <= i < tail + size ==> r[i] == 0)
        && SameBut(s, r, 4, tail, tail + size)
  {
    hide U32, AlignU32, RawAppend, MsgAppend, RawSafe, Align4;
    RawAppendIsPadded(s, maxlen, data);
    RawAcceptedIffFits(s, maxlen, data);
    WordUp(s, |data|);
    if RawAppend(s, maxlen, data).Some? {
      AppendExtends(s, maxlen, Padded(data));
      AlignedAgain(|data|);
    }
  }

  lemma AlignedAgain(n: nat)
    ensures Align4(Align4(n)) == Align4(n)
  {
  }

  /** rta_addattr_l, byte by byte; the length field of the attribute has only 16 bits. */
  lemma NestIsStored(s: seq<byte>, maxlen: nat, typ: int, data: seq<byte>)
    requires |s| >= 4 && 0 < U16(s, 0) && maxlen <= |s|
    ensures var tail, size := (U16(s, 0) + 3) / 4 * 4, (4 + |data| + 3) / 4 * 4;
      match RtaAppend(s, maxlen, AttrBytes(typ, data))
      case None => tail + size > maxlen
      case Some(r) =>
        && tail + size <= maxlen && U16(r, 0) == (tail + size) % 65536
        && U16(r, tail) == (4 + |data|) % 65536 && U16(r, tail + 2) == typ % 65536
        && r[tail + 4..tail + 4 + |data|] == data
        && SameBut(s, r, 2, tail, tail + 4 + |data|)
  {
    hide U16, Le16, AttrBytes, Extends;
    var b := AttrBytes(typ, data);
    if RtaAppend(s, maxlen, b).Some? {
      var t, field := Splice(s, RtaTail(s), b), Le16((RtaTail(s) + Align4(|b|)) % U16_LIMIT);
      FieldOf(t, s[..2]);
      FieldOf(s, s[..2]);
      StoreExtends(s, RtaTail(s), b, field);
      AttrLiesThere(s, RtaTail(s), RtaAppend(s, maxlen, b).value, typ, data, 2);
      FieldOf(RtaAppend(s, maxlen, b).value, field);
    }
  }

  /** A caller that makes the additions in turn and goes on after a refusal. */
  function Build(s: seq<byte>, maxlen: nat, ops: seq<Op>): (r: seq<byte>)
    requires IsMessage(s) && maxlen <= |s| && maxlen < U31_LIMIT && forall op :: op in ops ==> op.Sized()
    ensures |r| == |s| && IsMessage(r)
    decreases |ops|
  {
    if ops == [] then s
    else
      assert ops[0].Sized();
      MessageIsAddable(s, ops[0].Bytes());
      match MsgAppend(s, maxlen, ops[0].Bytes())
      case None => Build(s, maxlen, ops[1..])
      case Some(t) => AppendExtends(s, maxlen, ops[0].Bytes()); Build(t, maxlen, ops[1..])
  }

  /** addattr_l or addraw_l, as the addition asks for */
  method Add(n: array<byte>, maxlen: nat, op: Op) returns (r: int)
    requires IsMessage(n[..]) && maxlen <= n.Length && op.Sized() && Addable(n[..], op.Bytes())
    modifies n
    ensures Built(n, r, MsgAppend(old(n[..]), maxlen, op.Bytes()))
  {
    hide U32, AlignU32, Align4, MsgAppend, RawAppend, Padded, AttrBytes;
    match op
    case Attr(typ, data) => r := AddattrL(n, maxlen, typ, data);
    case Raw(data) =>
      RawAppendIsPadded(n[..], maxlen, data);
      r := AddrawL(n, maxlen, data);
  }

  /** The additions made in place, one call after the other. */
  method BuildInPlace(n: array<byte>, maxlen: nat, ops: seq<Op>)
    requires IsMessage(n[..]) && maxlen <= n.Length && maxlen < U31_LIMIT && forall op :: op in ops ==> op.Sized()
    modifies n
    ensures n[..] == Build(old(n[..]), maxlen, ops)
  {
    hide U32, AlignU32, Align4, MsgAppend, IsMessage, Op.Bytes, Op.Sized, Extends;
    assert ops[0..] == ops;
    for k := 0 to |ops|
      invariant IsMessage(n[..]) && Build(n[..], maxlen, ops[k..]) == Build(old(n[..]), maxlen, ops)
    {
      assert ops[k..][0] == ops[k] && ops[k..][1..] == ops[k + 1..];
      SizedBytes(ops[k]);
      MessageIsAddable(n[..], ops[k].Bytes());
      ghost var next := MsgAppend(n[..], maxlen, ops[k].Bytes());
      if next.Some? { AppendExtends(n[..], maxlen, ops[k].Bytes()); }
      var _ := Add(n, maxlen, ops[k]);
    }
  }

  /** Which additions a bound admits, told from the tail and from sizes alone. */
  function Admitted(tail: nat, maxlen: nat, ops: seq<Op>): seq<Op>
    decreases |ops|
  {
    if ops == [] then []
    else if tail + ops[0].Room() > maxlen then Admitted(tail, maxlen, ops[1..])
    else [ops[0]] + Admitted(tail + ops[0].Room(), maxlen, ops[1..])
  }

  /** What additions mean to a reader. */
  function Meaning(ops: seq<Op>): seq<Item> {
    if ops == [] then [] else ops[0].Adds() + Meaning(ops[1..])
  }

  /** The first four bytes of the memory after `b` has been stored at its beginning. */
  function Overlaid(s: seq<byte>, b: seq<byte>): (f: seq<byte>)
    requires |s| >= 4
    ensures |f| == 4
  {
    if |b| >= 4 then b[..4] else b + s[|b|..4]
  }

  lemma FieldOverlaid(s: seq<byte>, b: seq<byte>)
    requires 4 <= |s| && |b| <= |s|
    ensures MsgTail(Splice(s, 0, b)) == MsgTail(Overlaid(s, b))
  {
    hide U16, U32;
    FieldOf(Splice(s, 0, b), Overlaid(s, b));
  }

  /** Whatever the memory holds: an accepted addition keeps the message within its bound exactly if the tail was
      not 0, or the length found in the first four bytes after the store leads to a tail within it. */
  lemma BoundKeptExactly(s: seq<byte>, maxlen: nat, b: seq<byte>)
    requires Addable(s, b) && maxlen <= |s| && maxlen < U31_LIMIT
    requires MsgAppend(s, maxlen, b).Some?
    ensures MsgTail(MsgAppend(s, maxlen, b).value) <= maxlen
       <==> MsgTail(s) > 0 || (MsgTail(Overlaid(s, b)) + Align4(|b|)) % U32_LIMIT <= maxlen
  {
    hide Align4, AlignU32, Le32, U16, U32, Splice, Overlaid;
    var t := Splice(s, MsgTail(s), b);
    StoredTail(t, MsgTail(t), Align4(|b|));
    if MsgTail(s) > 0 {
      TailKept(s, MsgTail(s), b);
    } else {
      FieldOverlaid(s, b);
    }
  }

  /** The length field that addraw_l reads last when it stores at the beginning: the zeros can cover it too. */
  function RawField(s: seq<byte>, data: seq<byte>): (f: seq<byte>)
    requires |s| >= 4
    ensures |f| == 4
  {
    Overlaid(s, if MsgTail(Overlaid(s, data)) == 0 then Padded(data) else data)
  }

  /** The same for raw bytes. */
  lemma RawBoundKeptExactly(s: seq<byte>, maxlen: nat, data: seq<byte>)
    requires maxlen <= |s| && maxlen < U31_LIMIT && RawSafe(s, maxlen, data)
    requires RawAppend(s, maxlen, data).Some?
    ensures MsgTail(RawAppend(s, maxlen, data).value) <= maxlen
       <==> MsgTail(s) > 0 || (MsgTail(RawField(s, data)) + Align4(|data|)) % U32_LIMIT <= maxlen
  {
    hide Align4, AlignU32, Le32, U16, U32, Splice, Overlaid, RawField, Zeros;
    var t, zeros := Splice(s, MsgTail(s), data), Zeros(Align4(|data|) - |data|);
    var z := Splice(t, MsgTail(t) + |data|, zeros);
    StoredTail(z, MsgTail(z), Align4(|data|));
    if MsgTail(s) > 0 {
      TailKept(s, MsgTail(s), data);
      TailKept(t, MsgTail(t) + |data|, zeros);
    } else {
      RawFieldRead(s, data);
    }
  }

  lemma RawFieldRead(s: seq<byte>, data: seq<byte>)
    requires |s| >= 4 && Align4(|data|) <= |s|
    requires MsgTail(Splice(s, 0, data)) + Align4(|data|) <= |s|
    ensures var t := Splice(s, 0, data);
      MsgTail(Splice(t, MsgTail(t) + |data|, Zeros(Align4(|data|) - |data|))) == MsgTail(RawField(s, data))
  {
    hide Align4, AlignU32, U16, U32, Splice, Overlaid, Zeros;
    var t, zeros := Splice(s, 0, data), Zeros(Align4(|data|) - |data|);
    FieldOverlaid(s, data);
    if MsgTail(t) > 0 {
      TailKept(t, MsgTail(t) + |data|, zeros);
    } else {
      SpliceTwice(s, 0, data, zeros);
      FieldOverlaid(s, Padded(data));
    }
  }

  lemma FitsIn16(s: seq<byte>, b: seq<byte>)
    requires |s| == 16 && |b| == 4 && MsgTail(s) == 0
    ensures Addable(s, b) && MsgAppend(s, 16, b).Some?
  {
    hide U32, AlignU32, Le32;
  }

  /** A message whose length field is 0: one accepted addition and it claims to be far longer than its bound. */
  lemma ZeroLengthBreaksBound()
    ensures var s := Zeros(16);
      Addable(s, AttrBytes(1, [])) && MsgAppend(s, 16, AttrBytes(1, [])).Some?
      && MsgTail(MsgAppend(s, 16, AttrBytes(1, [])).value) > 16
  {
    hide MsgAppend;
    var s, b := Zeros(16), AttrBytes(1, []);
    assert Le16(4) == [4, 0] && Le16(1) == [1, 0];
    assert b == [4, 0, 1, 0] && U32(b, 0) == 4 + U16_LIMIT;
    assert U32(s, 0) == 0 && MsgTail(s) == 0 && MsgTail(b) == 4 + U16_LIMIT;
    assert MsgAppend(s, 16, b).Some? by { FitsIn16(s, b); }
    BoundKeptExactly(s, 16, b);
  }

  lemma SizedBytes(op: Op)
    requires op.Sized()
    ensures |op.Bytes()| <= MAX_DATA + RTA_HDR
  {
  }

  /** Nothing but the length field and the bytes from `tail` to the bound differ. */
  ghost predicate SameOutside(s: seq<byte>, r: seq<byte>, tail: nat, maxlen: nat) {
    |r| == |s| && forall i :: 4 <= i < |s| && (i < tail || maxlen <= i) ==> r[i] == s[i]
  }

  /** Whatever is added, the message stays within its bound, and only the length field and the bytes
      between the old tail and the bound can change: everything added earlier is still there. */
  lemma {:induction false} BuildStaysInBounds(s: seq<byte>, maxlen: nat, ops: seq<Op>)
    requires IsMessage(s) && maxlen <= |s| && maxlen < U31_LIMIT && MsgTail(s) <= maxlen
    requires forall op :: op in ops ==> op.Sized()
    ensures MsgTail(s) <= MsgTail(Build(s, maxlen, ops)) <= maxlen
    ensures SameOutside(s, Build(s, maxlen, ops), MsgTail(s), maxlen)
    decreases |ops|
  {
    hide U32, AlignU32, Align4, MsgAppend, Op.Bytes;
    if ops != [] {
      var b := ops[0].Bytes();
      assert ops[0].Sized();
      SizedBytes(ops[0]);
      MessageIsAddable(s, b);
      match MsgAppend(s, maxlen, b)
      case None => BuildStaysInBounds(s, maxlen, ops[1..]);
      case Some(t) =>
        AppendExtends(s, maxlen, b);
        BuildStaysInBounds(t, maxlen, ops[1..]);
    }
  }

  /** Whole attributes fill the memory from `start` to `tail` exactly. */
  predicate Readable(s: seq<byte>, start: nat, tail: nat) {
    start <= tail <= |s| && Left(Scan(s, start, tail)) == 0
  }

  /** The attributes of a message begin at `start` and reach its tail. */
  predicate Clean(s: seq<byte>, start: nat) {
    IsMessage(s) && NLMSG_HDR <= start && Readable(s, start, MsgTail(s))
  }

  function MsgItems(s: seq<byte>, start: nat): seq<Item>
    requires IsMessage(s) && MsgTail(s) <= |s|
  {
    Items(Scan(s, start, MsgTail(s)))
  }

  /** A single stored attribute is walked over in one step, to the end of its padding. */
  lemma StoredAttr(s: seq<byte>, at: nat, typ: int, data: seq<byte>)
    requires 0 <= typ < U16_LIMIT && RTA_HDR + |data| < U16_LIMIT
    requires at + Align4(RTA_HDR + |data|) <= |s|
    requires forall i :: at <= i < at + RTA_HDR + |data| ==> s[i] == AttrBytes(typ, data)[i - at]
    ensures var w := Scan(s, at, at + Align4(RTA_HDR + |data|));
      Items(w) == [Item(typ, data)] && Left(w) == 0
  {
    var end := at + Align4(RTA_HDR + |data|);
    StoredFields(s, at, typ, data);
    assert s[at + RTA_HDR..at + RTA_HDR + |data|] == data;
    assert Scan(s, end, end) == End(0);
  }

  /** The header fields of a stored attribute are its length and its type, cut to 16 bits. */
  lemma StoredFields(s: seq<byte>, at: nat, typ: int, data: seq<byte>)
    requires at + RTA_HDR + |data| <= |s|
    requires forall i :: at <= i < at + RTA_HDR + |data| ==> s[i] == AttrBytes(typ, data)[i - at]
    ensures U16(s, at) == (RTA_HDR + |data|) % U16_LIMIT && U16(s, at + 2) == typ % U16_LIMIT
  {
    assert U16(AttrBytes(typ, data), 0) == U16(Le16((RTA_HDR + |data|) % U16_LIMIT), 0);
    assert U16(AttrBytes(typ, data), 2) == U16(Le16(typ % U16_LIMIT), 0);
  }

  /** After an addition the old part reads as before, and the walk then goes on from the old tail. */
  lemma OldPartIsRead(s: seq<byte>, start: nat, tail: nat, r: seq<byte>, b: seq<byte>, hdr: nat)
    requires Readable(s, start, tail) && hdr <= start && Extends(s, tail, r, b, hdr)
    ensures var end := tail + Align4(|b|);
      && Items(Scan(r, start, end)) == Items(Scan(s, start, tail)) + Items(Scan(r, tail, end))
      && Left(Scan(r, start, end)) == Left(Scan(r, tail, end))
  {
    hide U16, Align4, Scan;
    ScanMoves(s, start, r, start, tail - start);
    WalkContinues(r, start, tail, tail + Align4(|b|));
  }

  /** One addition, seen by the reader: everything as before, then what was added. */
  lemma AdditionIsRead(s: seq<byte>, start: nat, tail: nat, r: seq<byte>, op: Op, hdr: nat)
    requires Readable(s, start, tail) && hdr <= start
    requires Extends(s, tail, r, op.Bytes(), hdr) && op.Representable()
    ensures var end := tail + Align4(|op.Bytes()|);
      Readable(r, start, end) && Items(Scan(r, start, end)) == Items(Scan(s, start, tail)) + op.Adds()
  {
    hide U16, U32, Le16, Align4, AttrBytes, Padded, Scan, Items, Left;
    OldPartIsRead(s, start, tail, r, op.Bytes(), hdr);
    match op
    case Attr(typ, data) => StoredAttr(r, tail, typ, data);
    case Raw(data) => ScanMoves(r, tail, Padded(data), 0, |Padded(data)|);
  }

  /** Any sequence of additions: the reader finds what was there, then what each addition that the bound admits
      has added. */
  lemma {:induction false} BuildRoundTrip(s: seq<byte>, start: nat, maxlen: nat, ops: seq<Op>)
    requires Clean(s, start) && maxlen <= |s| && maxlen < U31_LIMIT
    requires forall op :: op in ops ==> op.Sized() && op.Representable()
    ensures var r := Build(s, maxlen, ops);
      Clean(r, start) && MsgItems(r, start) == MsgItems(s, start) + Meaning(Admitted(MsgTail(s), maxlen, ops))
    decreases |ops|
  {
    hide U16, U32, Le16, Align4, AlignU32, MsgAppend, Op.Bytes, Op.Adds, Op.Representable, Op.Room, Extends, Scan;
    if ops != [] {
      assert ops[0].Sized() && ops[0].Representable();
      SizedBytes(ops[0]);
      MessageIsAddable(s, ops[0].Bytes());
      AcceptedIffRoom(s, maxlen, ops[0]);
      match MsgAppend(s, maxlen, ops[0].Bytes())
      case None => BuildRoundTrip(s, start, maxlen, ops[1..]);
      case Some(t) =>
        AppendExtends(s, maxlen, ops[0].Bytes());
        AdditionIsRead(s, start, MsgTail(s), t, ops[0], 4);
        BuildRoundTrip(t, start, maxlen, ops[1..]);
    }
  }

  lemma AcceptedIffRoom(s: seq<byte>, maxlen: nat, op: Op)
    requires Addable(s, op.Bytes()) && maxlen <= |s|
    ensures Align4(|op.Bytes()|) == op.Room()
    ensures MsgAppend(s, maxlen, op.Bytes()).Some? <==> MsgTail(s) + op.Room() <= maxlen
  {
    hide U32, AlignU32;
  }

  /** An accepted attribute is read back exactly if its type and its length fit their 16-bit fields. */
  lemma RoundTripNeeds16Bits(s: seq<byte>, start: nat, maxlen: nat, typ: int, data: seq<byte>)
    requires Clean(s, start) && maxlen <= |s| && maxlen < U31_LIMIT && |data| <= MAX_DATA
    ensures var r := MsgAppend(s, maxlen, AttrBytes(typ, data));
      r.Some? ==>
      IsMessage(r.value) && MsgTail(r.value) <= |r.value| &&
      (MsgItems(r.value, start) == MsgItems(s, start) + [Item(typ, data)]
       <==> 0 <= typ < U16_LIMIT && RTA_HDR + |data| < U16_LIMIT)
  {
    hide U16, U32, Align4, AttrBytes, MsgAppend, Extends, Scan, Items, Left, Le16, Le32;
    var r := MsgAppend(s, maxlen, AttrBytes(typ, data));
    if r.Some? {
      AppendExtends(s, maxlen, AttrBytes(typ, data));
      ExtensionNeeds16Bits(s, start, MsgTail(s), r.value, typ, data);
    }
  }

  lemma ExtensionNeeds16Bits(s: seq<byte>, start: nat, tail: nat, r: seq<byte>, typ: int, data: seq<byte>)
    requires Readable(s, start, tail) && 4 <= start && Extends(s, tail, r, AttrBytes(typ, data), 4)
    ensures Items(Scan(r, start, tail + Align4(RTA_HDR + |data|))) == Items(Scan(s, start, tail)) + [Item(typ, data)]
       <==> 0 <= typ < U16_LIMIT && RTA_HDR + |data| < U16_LIMIT
  {
    hide U16, U32, Le16, Align4;
    if 0 <= typ < U16_LIMIT && RTA_HDR + |data| < U16_LIMIT {
      AdditionIsRead(s, start, tail, r, Attr(typ, data), 4);
    } else {
      OldPartIsRead(s, start, tail, r, AttrBytes(typ, data), 4);
      StoredFields(r, tail, typ, data);
      var end := tail + Align4(RTA_HDR + |data|);
      var w := Scan(r, tail, end);
      assert w.Visit? ==> Items(w)[0] == w.item != Item(typ, data);
      assert Items(Scan(r, start, end))[|Items(Scan(s, start, tail))|..] == Items(w);
    }
  }

  // ----- nested attributes

  /** A caller that adds sub-attributes in turn and goes on after a refusal. */
  function Nest(s: seq<byte>, maxlen: nat, subs: seq<Item>): (r: seq<byte>)
    requires |s| >= RTA_HDR && maxlen <= |s|
    ensures |r| == |s|
    decreases |subs|
  {
    if subs == [] then s
    else match RtaAppend(s, maxlen, AttrBytes(subs[0].typ, subs[0].payload))
      case None => Nest(s, maxlen, subs[1..])
      case Some(t) => Nest(t, maxlen, subs[1..])
  }

  /** The sub-attributes added in place, one call of rta_addattr_l after the other. */
  method NestInPlace(rta: array<byte>, maxlen: nat, subs: seq<Item>)
    requires rta.Length >= RTA_HDR && maxlen <= rta.Length && forall sub :: sub in subs ==> |sub.payload| <= MAX_DATA
    modifies rta
    ensures rta[..] == Nest(old(rta[..]), maxlen, subs)
  {
    hide RtaAppend, AttrBytes;
    assert subs[0..] == subs;
    for k := 0 to |subs|
      invariant Nest(rta[..], maxlen, subs[k..]) == Nest(old(rta[..]), maxlen, subs)
    {
      assert subs[k..][0] == subs[k] && subs[k..][1..] == subs[k + 1..];
      var _ := RtaAddattrL(rta, maxlen, subs[k].typ, subs[k].payload);
    }
  }

  function NestAccepted(s: seq<byte>, maxlen: nat, subs: seq<Item>): seq<Item>
    requires |s| >= RTA_HDR && maxlen <= |s|
    decreases |subs|
  {
    if subs == [] then []
    else match RtaAppend(s, maxlen, AttrBytes(subs[0].typ, subs[0].payload))
      case None => NestAccepted(s, maxlen, subs[1..])
      case Some(t) => [subs[0]] + NestAccepted(t, maxlen, subs[1..])
  }

  /** Which sub-attributes a bound admits, told from the tail and from sizes alone. */
  function NestAdmitted(tail: nat, maxlen: nat, subs: seq<Item>): seq<Item>
    decreases |subs|
  {
    if subs == [] then []
    else
      var room := (4 + |subs[0].payload| + 3) / 4 * 4;
      if tail + room > maxlen then NestAdmitted(tail, maxlen, subs[1..])
      else [subs[0]] + NestAdmitted(tail + room, maxlen, subs[1..])
  }

  predicate IsRepresentable(item: Item) {
    0 <= item.typ < U16_LIMIT && RTA_HDR + |item.payload| < U16_LIMIT
  }

  /** The room that attributes take, headers and padding included. */
  function Room(items: seq<Item>): nat {
    if items == [] then 0 else Align4(RTA_HDR + |items[0].payload|) + Room(items[1..])
  }

  lemma {:induction false} RoomConcat(a: seq<Item>, b: seq<Item>)
    ensures Room(a + b) == Room(a) + Room(b)
  {
    if a == [] {
      assert a + b == b;
    } else {
      RoomConcat(a[1..], b);
      assert (a + b)[1..] == a[1..] + b;
    }
  }

  /** A walk advances by the room of what it visits. */
  lemma {:induction false} WalkTakesRoom(s: seq<byte>, o: nat, end: int)
    requires end <= |s|
    ensures Room(Items(Scan(s, o, end))) + Left(Scan(s, o, end)) == end - o
    decreases end - o
  {
    hide U16, Align4;
    if RtaOk(s, o, end) {
      WalkTakesRoom(s, NextAt(s, o), end);
      var w := Scan(s, o, end);
      assert Items(w)[1..] == Items(w.next) && |w.item.payload| == U16(s, o) - RTA_HDR;
    }
  }

  /** The guard for a caller of the nested builders: with this tail and bound, no addition that the bound admits
      takes the attribute beyond its 16-bit length. */
  predicate NestFits(tail: nat, maxlen: nat, subs: seq<Item>)
    decreases |subs|
  {
    subs == [] ||
    (var room := (4 + |subs[0].payload| + 3) / 4 * 4;
     if tail + room > maxlen then NestFits(tail, maxlen, subs[1..])
     else tail + room < U16_LIMIT && NestFits(tail + room, maxlen, subs[1..]))
  }

  /** Bounds of less than 16 bits are always safe. */
  lemma {:induction false} SmallBoundFits(tail: nat, maxlen: nat, subs: seq<Item>)
    requires maxlen < U16_LIMIT
    ensures NestFits(tail, maxlen, subs)
    decreases |subs|
  {
    if subs != [] {
      var room := (4 + |subs[0].payload| + 3) / 4 * 4;
      SmallBoundFits(if tail + room > maxlen then tail else tail + room, maxlen, subs[1..]);
    }
  }

  /** The guard says no more than is needed: what the bound admits fits. */
  lemma {:induction false} FitsIsRoom(s: seq<byte>, maxlen: nat, subs: seq<Item>)
    requires |s| >= RTA_HDR && 0 < U16(s, 0) == RtaTail(s) && maxlen <= |s|
    ensures NestFits(RtaTail(s), maxlen, subs) <==> RtaTail(s) + Room(NestAccepted(s, maxlen, subs)) < U16_LIMIT
    decreases |subs|
  {
    hide U16, Align4, RtaTail, AttrBytes, RtaAppend;
    if subs != [] {
      var b := AttrBytes(subs[0].typ, subs[0].payload);
      Words(|b|);
      RtaAppendSize(s, maxlen, b);
      match RtaAppend(s, maxlen, b)
      case None => FitsIsRoom(s, maxlen, subs[1..]);
      case Some(t) =>
        var rest := NestAccepted(t, maxlen, subs[1..]);
        assert ([subs[0]] + rest)[1..] == rest;
        if RtaTail(s) + Align4(|b|) < U16_LIMIT {
          NestExtends(s, maxlen, b);
          FitsIsRoom(t, maxlen, subs[1..]);
        }
    }
  }

  /** The sub-attributes of an attribute fill it from its header to its length. */
  predicate Filled(s: seq<byte>) {
    |s| >= RTA_HDR && Readable(s, RTA_HDR, U16(s, 0))
  }

  /** The attribute's payload: RTA_DATA up to RTA_PAYLOAD. */
  function Payload(s: seq<byte>): seq<byte>
    requires |s| >= RTA_HDR && RTA_HDR <= U16(s, 0) <= |s|
  {
    s[RTA_HDR..U16(s, 0)]
  }

  function Subs(s: seq<byte>): seq<Item>
    requires |s| >= RTA_HDR && U16(s, 0) <= |s|
  {
    Items(Scan(s, RTA_HDR, U16(s, 0)))
  }

  lemma NestedAdditionIsRead(s: seq<byte>, maxlen: nat, sub: Item)
    requires Filled(s) && U16(s, 0) == RtaTail(s) && maxlen <= |s| && IsRepresentable(sub)
    requires RtaAppend(s, maxlen, AttrBytes(sub.typ, sub.payload)).Some?
    requires RtaTail(s) + Align4(RTA_HDR + |sub.payload|) < U16_LIMIT
    ensures var t := RtaAppend(s, maxlen, AttrBytes(sub.typ, sub.payload)).value;
      && Filled(t) && Subs(t) == Subs(s) + [sub]
      && U16(t, 0) == RtaTail(t) == RtaTail(s) + Align4(RTA_HDR + |sub.payload|)
  {
    hide U16, Le16, Align4, RtaAppend, AttrBytes, Extends, Scan, RtaTail, Op.Bytes, Op.Adds, Items, Left;
    var b := AttrBytes(sub.typ, sub.payload);
    NestExtends(s, maxlen, b);
    BytesOfAttr(sub.typ, sub.payload);
    AdditionIsRead(s, RTA_HDR, RtaTail(s), RtaAppend(s, maxlen, b).value, Attr(sub.typ, sub.payload), 2);
  }

  lemma {:induction false} NestRoundTrip(s: seq<byte>, maxlen: nat, subs: seq<Item>)
    requires Filled(s) && U16(s, 0) == RtaTail(s) && maxlen <= |s|
    requires forall sub :: sub in subs ==> IsRepresentable(sub)
    requires NestFits(RtaTail(s), maxlen, subs)
    ensures var r := Nest(s, maxlen, subs);
      && Filled(r) && U16(r, 0) == RtaTail(r) && Subs(r) == Subs(s) + NestAccepted(s, maxlen, subs)
      && NestAccepted(s, maxlen, subs) == NestAdmitted(RtaTail(s), maxlen, subs)
    decreases |subs|
  {
    hide U16, Le16, Align4, RtaAppend, AttrBytes, RtaTail, Filled, Subs, IsRepresentable;
    if subs != [] {
      assert subs[0] in subs;
      FilledFits(s);
      RtaAppendSize(s, maxlen, AttrBytes(subs[0].typ, subs[0].payload));
      match RtaAppend(s, maxlen, AttrBytes(subs[0].typ, subs[0].payload))
      case None => NestRoundTrip(s, maxlen, subs[1..]);
      case Some(t) =>
        Regroup(Subs(s), subs[0], NestAccepted(t, maxlen, subs[1..]));
        NestedAdditionIsRead(s, maxlen, subs[0]);
        FilledFits(t);
        NestRoundTrip(t, maxlen, subs[1..]);
    }
  }

  lemma RtaAppendSize(s: seq<byte>, maxlen: nat, b: seq<byte>)
    requires |s| >= 2 && maxlen <= |s|
    ensures RtaAppend(s, maxlen, b).Some? <==> RtaTail(s) + Align4(|b|) <= maxlen
    ensures RtaAppend(s, maxlen, b).Some? ==> |RtaAppend(s, maxlen, b).value| == |s|
  {
  }

  lemma FilledFits(s: seq<byte>)
    requires Filled(s)
    ensures |s| >= RTA_HDR && U16(s, 0) <= |s|
  {
  }

  /** Sub-attributes added to a filled attribute, under any bound, are read back exactly if those that the bound
      admits fit the attribute's 16-bit length. */
  lemma NestRoundTripExactly(s: seq<byte>, maxlen: nat, subs: seq<Item>)
    requires Filled(s) && U16(s, 0) == RtaTail(s) && maxlen <= |s|
    requires forall sub :: sub in subs ==> IsRepresentable(sub)
    ensures var r := Nest(s, maxlen, subs);
      Filled(r) && Subs(r) == Subs(s) + NestAccepted(s, maxlen, subs) <==> NestFits(RtaTail(s), maxlen, subs)
  {
    hide Align4, RtaAppend, AttrBytes, RtaTail, Room, IsRepresentable, Nest, NestAccepted, Scan, Left, Items, NestFits;
    var r, accepted := Nest(s, maxlen, subs), NestAccepted(s, maxlen, subs);
    if Filled(r) && Subs(r) == Subs(s) + accepted {
      WalkTakesRoom(r, RTA_HDR, U16(r, 0));
      WalkTakesRoom(s, RTA_HDR, U16(s, 0));
      RoomConcat(Subs(s), accepted);
      FitsIsRoom(s, maxlen, subs);
    }
    if NestFits(RtaTail(s), maxlen, subs) {
      NestRoundTrip(s, maxlen, subs);
    }
  }

  /** The payload of the last item of a type. */
  function LastPayload(items: seq<Item>, t: int): Option<seq<byte>> {
    if items == [] then None
    else
      var later := LastPayload(items[1..], t);
      if later.Some? then later else if items[0].typ == t then Some(items[0].payload) else None
  }

  /** What parse_rtattr puts in its table points at the last payload of each type. */
  lemma {:induction false} TableIsLast(s: seq<byte>, o: nat, end: nat, t: int)
    requires end <= |s|
    ensures match LastOf(Scan(s, o, end), t)
      case None => LastPayload(Items(Scan(s, o, end)), t) == None
      case Some(at) => RtaOk(s, at, end) && LastPayload(Items(Scan(s, o, end)), t) == Some(ItemAt(s, at).payload)
    decreases end - o
  {
    hide U16, Align4;
    if RtaOk(s, o, end) {
      TableIsLast(s, NextAt(s, o), end, t);
      var w := Scan(s, o, end);
      assert Items(w)[1..] == Items(w.next);
    }
  }

  /** Both levels: sub-attributes collected in an empty attribute, whose payload is then added to a message
      among any other additions. Parsing the message and then the attribute that its table gives for type `t`
      finds, for every sub-type `u`, the payload last accepted for it; both walks use up their length. */
  lemma TwoLevelRoundTrip(s: seq<byte>, start: nat, maxlen: nat, before: seq<Op>, after: seq<Op>,
                          nest: seq<byte>, nestMax: nat, subs: seq<Item>, t: int, u: int)
    requires Clean(s, start) && maxlen <= |s| && maxlen < U31_LIMIT
    requires |nest| >= RTA_HDR && U16(nest, 0) == RTA_HDR && nestMax <= |nest|
    requires forall sub :: sub in subs ==> IsRepresentable(sub)
    requires NestFits(RTA_HDR, nestMax, subs)
    requires forall op :: op in before ==> op.Sized() && op.Representable()
    requires forall op :: op in after ==> op.Sized() && op.Representable()
    requires 0 <= t < U16_LIMIT
    ensures var inner := Nest(nest, nestMax, subs);
      RTA_HDR <= U16(inner, 0) <= |inner| &&
      var s1 := Build(s, maxlen, before);
      Addable(s1, AttrBytes(t, Payload(inner))) &&
      (MsgTail(s1) + Attr(t, Payload(inner)).Room() <= maxlen ==>
      MsgAppend(s1, maxlen, AttrBytes(t, Payload(inner))).Some? &&
      var s2 := MsgAppend(s1, maxlen, AttrBytes(t, Payload(inner))).value;
      IsMessage(s2) &&
      (LastPayload(Meaning(Admitted(MsgTail(s2), maxlen, after)), t) == None ==>
      var r := Build(s2, maxlen, after);
      Clean(r, start) && ReadsBoth(r, start, t, u, LastPayload(NestAdmitted(RTA_HDR, nestMax, subs), u))))
  {
    hide U16, U32, Le16, Align4, AlignU32, MsgAppend, AttrBytes, Op.Bytes, Scan, Nest, Build, Admitted, Meaning,
         NestAccepted, NestAdmitted, Op.Room,
         Extends, Items, Left, Le16, Le32, RtaTail, Room, ReadsBoth, Op.Representable;
    var inner := Nest(nest, nestMax, subs);
    var subs' := NestAccepted(nest, nestMax, subs);
    EmptyNest(nest);
    assert Subs(nest) + subs' == subs';
    NestRoundTrip(nest, nestMax, subs);
    var p := Payload(inner);
    BuildRoundTrip(s, start, maxlen, before);
    var s1 := Build(s, maxlen, before);
    MessageIsAddable(s1, AttrBytes(t, p));
    BytesOfAttr(t, p);
    AcceptedIffRoom(s1, maxlen, Attr(t, p));
    if MsgAppend(s1, maxlen, AttrBytes(t, p)).Some? {
      var s2 := MsgAppend(s1, maxlen, AttrBytes(t, p)).value;
      AppendExtends(s1, maxlen, AttrBytes(t, p));
      FitsAttr(t, p);
      AdditionIsRead(s1, start, MsgTail(s1), s2, Attr(t, p), 4);
      BuildRoundTrip(s2, start, maxlen, after);
      var r := Build(s2, maxlen, after);
      var old2, new2 := MsgItems(s1, start), Meaning(Admitted(MsgTail(s2), maxlen, after));
      if LastPayload(new2, t) == None {
        LastPayloadConcat(old2 + [Item(t, p)], new2, t);
        LastPayloadConcat(old2, [Item(t, p)], t);
        EmbeddedIsRead(r, start, t, u, inner);
      }
    }
  }

  /** Parsing the message and then the attribute of type `t` that its table points at gives `expected` for the
      sub-type `u`, and nothing is left of that attribute. */
  predicate ReadsBoth(r: seq<byte>, start: nat, t: int, u: int, expected: Option<seq<byte>>)
    requires |r| >= 4 && MsgTail(r) <= |r|
  {
    var found := LastOf(Scan(r, start, MsgTail(r)), t);
    && found.Some? && RtaOk(r, found.value, MsgTail(r))
    && var o, end := found.value, found.value + U16(r, found.value);
    && Left(Scan(r, o + RTA_HDR, end)) == 0
    && var at := LastOf(Scan(r, o + RTA_HDR, end), u);
    && (at.Some? ==> RtaOk(r, at.value, end))
    && expected == if at.Some? then Some(ItemAt(r, at.value).payload) else None
  }

  lemma EmbeddedIsRead(r: seq<byte>, start: nat, t: int, u: int, inner: seq<byte>)
    requires |r| >= 4 && MsgTail(r) <= |r| && Filled(inner)
    requires RTA_HDR <= U16(inner, 0)
    requires LastPayload(Items(Scan(r, start, MsgTail(r))), t) == Some(Payload(inner))
    ensures ReadsBoth(r, start, t, u, LastPayload(Subs(inner), u))
  {
    hide U16, U32, Align4, AlignU32, Scan, Items, Left, LastPayload;
    TableIsLast(r, start, MsgTail(r), t);
    var o := LastOf(Scan(r, start, MsgTail(r)), t).value;
    NestedRead(r, o, inner);
    TableIsLast(r, o + RTA_HDR, o + U16(r, o), u);
  }

  lemma EmptyNest(nest: seq<byte>)
    requires |nest| >= RTA_HDR && U16(nest, 0) == RTA_HDR
    ensures RtaTail(nest) == RTA_HDR && Filled(nest) && Subs(nest) == []
  {
  }

  lemma FitsAttr(t: int, p: seq<byte>)
    requires 0 <= t < U16_LIMIT && RTA_HDR + |p| < U16_LIMIT
    ensures Attr(t, p).Representable()
  {
  }

  lemma BytesOfAttr(t: int, p: seq<byte>)
    ensures Attr(t, p).Bytes() == AttrBytes(t, p) && Attr(t, p).Adds() == [Item(t, p)]
  {
  }

  lemma {:induction false} LastPayloadConcat(a: seq<Item>, b: seq<Item>, t: int)
    ensures LastPayload(a + b, t) == if LastPayload(b, t).Some? then LastPayload(b, t) else LastPayload(a, t)
  {
    if a == [] {
      assert a + b == b;
    } else {
      LastPayloadConcat(a[1..], b, t);
      assert (a + b)[1..] == a[1..] + b;
    }
  }

  /** parse_rtattr_nested walks an embedded payload as it would walk the attribute it was copied from. */
  lemma NestedRead(r: seq<byte>, o: nat, inner: seq<byte>)
    requires RtaOk(r, o, |r|)
    requires |inner| >= RTA_HDR && RTA_HDR <= U16(inner, 0) <= |inner|
    requires ItemAt(r, o).payload == Payload(inner)
    ensures var end := o + U16(r, o);
      && Items(Scan(r, o + RTA_HDR, end)) == Items(Scan(inner, RTA_HDR, U16(inner, 0)))
      && Left(Scan(r, o + RTA_HDR, end)) == Left(Scan(inner, RTA_HDR, U16(inner, 0)))
  {
    hide U16, Align4, Scan, Items, Left;
    var p := Payload(inner);
    assert |ItemAt(r, o).payload| == |p| == U16(r, o) - RTA_HDR;
    assert forall i :: o + RTA_HDR <= i < o + RTA_HDR + |p| ==> r[i] == p[i - (o + RTA_HDR)];
    ScanMoves(r, o + RTA_HDR, p, 0, |p|);
    ScanMoves(inner, RTA_HDR, p, 0, |p|);
  }
}
