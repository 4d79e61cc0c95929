/** Routing attributes: the RTA_OK/RTA_NEXT walk, and the two parsers built on it. */
module Attributes {
  import opened Bytes

  /** What an attribute carries; the bytes that pad it are not part of it. */
  datatype Item = Item(typ: int, payload: seq<byte>)

  /** A finished walk: the attributes visited with their addresses, then the final value of `len`. */
  datatype Walk = End(left: int) | Visit(at: nat, item: Item, next: Walk)

  /** RTA_OK: an attribute of plausible length lies at address `o`, before `end`. */
  predicate RtaOk(s: seq<byte>, o: nat, end: int)
    requires end <= |s|
  {
    o + RTA_HDR <= end && RTA_HDR <= U16(s, o) && o + U16(s, o) <= end
  }

  function ItemAt(s: seq<byte>, o: nat): Item
    requires RtaOk(s, o, |s|)
  {
    Item(U16(s, o + 2), s[o + RTA_HDR..o + U16(s, o)])
  }

  /** Where RTA_NEXT goes from address `o`; up to three bytes past the end of an unpadded last attribute. */
  function NextAt(s: seq<byte>, o: nat): (n: nat)
    requires o + 2 <= |s|
    ensures U16(s, o) >= RTA_HDR ==> n >= o + RTA_HDR
  {
    o + Align4(U16(s, o))
  }

  /** The walk over the memory from `o` up to `end`. */
  function Scan(s: seq<byte>, o: nat, end: int): Walk
    requires end <= |s|
    decreases end - o
  {
    if RtaOk(s, o, end) then Visit(o, ItemAt(s, o), Scan(s, NextAt(s, o), end)) else End(end - o)
  }

  function Items(w: Walk): seq<Item> {
    match w
    case End(_) => []
    case Visit(_, item, next) => [item] + Items(next)
  }

  function Offsets(w: Walk): seq<nat> {
    match w
    case End(_) => []
    case Visit(at, _, next) => [at] + Offsets(next)
  }

  /** What `len` holds when the walk stops; negative after an unpadded last attribute. */
  function Left(w: Walk): int {
    match w
    case End(left) => left
    case Visit(_, _, next) => Left(next)
  }

  /** The address of the last attribute of type `t`. */
  function LastOf(w: Walk, t: int): Option<nat> {
    match w
    case End(_) => None
    case Visit(at, item, next) =>
      var later := LastOf(next, t);
      if later.Some? then later else if item.typ == t then Some(at) else None
  }

  /** The addresses of the attributes of type at most `max`, in order. */
  function Indexed(w: Walk, max: int): seq<nat> {
    match w
    case End(_) => []
    case Visit(at, item, next) => (if item.typ <= max then [at] else []) + Indexed(next, max)
  }

  /** What ends up in slot `k` when the attributes of type at most `max` go to slots `i`, `i + 1`, ... below `max`. */
  function Slot(w: Walk, max: int, i: nat, k: nat): Option<nat> {
    match w
    case End(_) => None
    case Visit(at, item, next) =>
      if item.typ <= max && i < max then
        if k == i then Some(at) else Slot(next, max, i + 1, k)
      else Slot(next, max, i, k)
  }

  /** The number of slots in use once all of them have been offered. */
  function Used(w: Walk, max: nat, i: nat): nat {
    match w
    case End(_) => i
    case Visit(_, item, next) => Used(next, max, if item.typ <= max && i < max then i + 1 else i)
  }

  /** memset of the first `n` slots to the null pointer */
  method Clear(tb: array<Option<nat>>, n: nat)
    requires n <= tb.Length
    modifies tb
    ensures forall u :: 0 <= u < tb.Length ==> tb[u] == if u < n then None else old(tb[u])
  {
    for t := 0 to n
      invariant forall u :: 0 <= u < tb.Length ==> tb[u] == if u < t then None else old(tb[u])
    {
      tb[t] := None;
    }
  }

  /** parse_rtattr */
  method ParseRtattr(tb: array<Option<nat>>, max: nat, s: array<byte>, start: nat, length: int) returns (left: int)
    requires tb.Length > max
    requires start + length <= s.Length
    modifies tb
    ensures left == Left(Scan(s[..], start, start + length))
    ensures forall t :: 0 <= t <= max ==> tb[t] == LastOf(Scan(s[..], start, start + length), t)
    ensures forall t :: max < t < tb.Length ==> tb[t] == old(tb[t])
  {
    hide U16, Read16, Align4;
    Clear(tb, max + 1);
    var rta, len := start, length;
    ghost var whole := Scan(s[..], start, start + length);
    ghost var rest := whole;
    while len >= RTA_HDR && RTA_HDR <= Read16(s, rta) <= len
      invariant rta + len == start + length
      invariant rest == Scan(s[..], rta, start + length) && Left(rest) == Left(whole)
      invariant forall t :: 0 <= t <= max ==>
        LastOf(whole, t) == if LastOf(rest, t).Some? then LastOf(rest, t) else tb[t]
      invariant forall t :: max < t < tb.Length ==> tb[t] == old(tb[t])
      decreases len
    {
      if Read16(s, rta + 2) <= max {
        tb[Read16(s, rta + 2)] := Some(rta);
      }
      var n := Align4(Read16(s, rta));
      rta, len, rest := rta + n, len - n, rest.next;
    }
    left := len;
  }

  /** parse_rtattr_byindex */
  method ParseByIndex(tb: array<Option<nat>>, max: nat, s: array<byte>, start: nat, length: int) returns (i: nat)
    requires tb.Length >= max
    requires start + length <= s.Length
    modifies tb
    ensures var w := Scan(s[..], start, start + length);
      && i == Used(w, max, 0)
      && forall k :: 0 <= k < max ==> tb[k] == Slot(w, max, 0, k)
    ensures forall k :: max <= k < tb.Length ==> tb[k] == old(tb[k])
  {
    hide U16, Read16, Align4;
    Clear(tb, max);
    i := 0;
    var rta, len := start, length;
    ghost var whole := Scan(s[..], start, start + length);
    ghost var rest := whole;
    while len >= RTA_HDR && RTA_HDR <= Read16(s, rta) <= len
      invariant rta + len == start + length
      invariant rest == Scan(s[..], rta, start + length)
      invariant i <= max && Used(whole, max, 0) == Used(rest, max, i)
      invariant forall k :: 0 <= k < max ==> Slot(whole, max, 0, k) == if k < i then tb[k] else Slot(rest, max, i, k)
      invariant forall k :: i <= k < max ==> tb[k] == None
      invariant forall k :: max <= k < tb.Length ==> tb[k] == old(tb[k])
      decreases len
    {
      if Read16(s, rta + 2) <= max && i < max {
        tb[i] := Some(rta);
        i := i + 1;
      }
      var n := Align4(Read16(s, rta));
      rta, len, rest := rta + n, len - n, rest.next;
    }
  }

  // ----- what the walk finds

  /** A routing attribute lies at address `o`, before `end`: two bytes of length, which counts them, two bytes of
      type, and the payload. */
  predicate AttrLies(s: seq<byte>, o: nat, end: int)
    requires end <= |s|
  {
    4 <= end - o && 4 <= U16(s, o) <= end - o
  }

  /** `os` is a run of adjoining attributes that starts at `o`, each at the next address divisible by four behind
      the one before it, counted from there. */
  ghost predicate Chain(s: seq<byte>, o: nat, end: int, os: seq<nat>)
    requires end <= |s|
  {
    && (os != [] ==> os[0] == o)
    && (forall i :: 0 <= i < |os| ==> AttrLies(s, os[i], end))
    && (forall i, j :: 0 <= i < |os| && j == i + 1 < |os| ==> os[j] == os[i] + (U16(s, os[i]) + 3) / 4 * 4)
  }

  /** The walk visits the longest run of attributes: any other run is a prefix of it. */
  lemma {:induction false} WalkIsMaximal(s: seq<byte>, o: nat, end: int, os: seq<nat>)
    requires end <= |s| && Chain(s, o, end, os)
    ensures os <= Offsets(Scan(s, o, end))
    decreases |os|
  {
    if os != [] {
      assert AttrLies(s, os[0], end);
      if |os| > 1 {
        WalkIsMaximal(s, NextAt(s, o), end, os[1..]);
      }
      assert os == [o] + os[1..];
    }
  }

  /** The walk's addresses are such a run. */
  lemma {:induction false} WalkIsChain(s: seq<byte>, o: nat, end: int)
    requires end <= |s|
    ensures Chain(s, o, end, Offsets(Scan(s, o, end)))
    decreases end - o
  {
    hide U16, Align4;
    if RtaOk(s, o, end) {
      Words(U16(s, o));
      WalkIsChain(s, NextAt(s, o), end);
    }
  }

  /** Each item is the attribute that lies there. */
  lemma {:induction false} ItemsLie(s: seq<byte>, o: nat, end: int)
    requires end <= |s|
    ensures var os, items := Offsets(Scan(s, o, end)), Items(Scan(s, o, end));
      && |items| == |os|
      && forall i :: 0 <= i < |os| ==>
           && AttrLies(s, os[i], end)
           && items[i].typ == U16(s, os[i] + 2) && items[i].payload == s[os[i] + 4..os[i] + U16(s, os[i])]
    decreases end - o
  {
    hide U16, Align4;
    if RtaOk(s, o, end) {
      ItemsLie(s, NextAt(s, o), end);
      var w := Scan(s, o, end);
      assert Offsets(w) == [o] + Offsets(w.next) && Items(w) == [ItemAt(s, o)] + Items(w.next);
    }
  }

  /** `len` ends as what is left behind the last attribute of the run. */
  lemma {:induction false} WalkLeaves(s: seq<byte>, o: nat, end: int)
    requires end <= |s|
    ensures var os := Offsets(Scan(s, o, end));
      if os == [] then Left(Scan(s, o, end)) == end - o
      else
        var last := os[|os| - 1];
        last + 4 <= end && Left(Scan(s, o, end)) == end - (last + (U16(s, last) + 3) / 4 * 4)
    decreases end - o
  {
    hide U16;
    if RtaOk(s, o, end) {
      WalkLeaves(s, NextAt(s, o), end);
    }
  }

  lemma {:induction false} OffsetsAscend(s: seq<byte>, o: nat, end: int)
    requires end <= |s|
    ensures forall at :: at in Offsets(Scan(s, o, end)) ==> o <= at && at + 4 <= end
    decreases end - o
  {
    hide U16, Align4;
    if RtaOk(s, o, end) {
      OffsetsAscend(s, NextAt(s, o), end);
    }
  }

  /** The indexed addresses are those of the attributes of type at most `max`, in the order of the walk. */
  lemma {:induction false} IndexedSelects(s: seq<byte>, o: nat, end: int, max: int)
    requires end <= |s|
    ensures var w := Scan(s, o, end);
      && (forall at :: at in Indexed(w, max) <==> at in Offsets(w) && TypeAt(s, at) <= max)
      && Ascending(Indexed(w, max))
    decreases end - o
  {
    hide U16, Align4;
    OffsetsAscend(s, o, end);
    if RtaOk(s, o, end) {
      var n := NextAt(s, o);
      IndexedSelects(s, n, end, max);
      OffsetsAscend(s, n, end);
      var w, rest := Scan(s, o, end), Scan(s, n, end);
      assert Offsets(w) == [o] + Offsets(rest) && w.item.typ == TypeAt(s, o);
      assert Indexed(w, max) == (if TypeAt(s, o) <= max then [o] else []) + Indexed(rest, max);
      assert forall at :: at in Indexed(rest, max) ==> o < at;
      AscendingCons(o, Indexed(rest, max));
    }
  }

  /** The two bytes of type of an attribute at address `at`. */
  function TypeAt(s: seq<byte>, at: nat): int {
    if at + 4 <= |s| then U16(s, at + 2) else -1
  }

  predicate Ascending(os: seq<nat>) {
    forall i, j :: 0 <= i < j < |os| ==> os[i] < os[j]
  }

  lemma AscendingCons(o: nat, os: seq<nat>)
    requires Ascending(os) && forall at :: at in os ==> o < at
    ensures Ascending([o] + os)
  {
    assert forall j :: 0 < j < |[o] + os| ==> ([o] + os)[j] == os[j - 1] && os[j - 1] in os;
  }

  /** LastOf answers with the last visited attribute of the type, and with nothing only if there is none. */
  lemma {:induction false} LastOfIsLast(w: Walk, t: int)
    ensures |Items(w)| == |Offsets(w)|
    ensures match LastOf(w, t)
      case None => forall i :: 0 <= i < |Items(w)| ==> Items(w)[i].typ != t
      case Some(o) => exists i :: 0 <= i < |Items(w)| && Offsets(w)[i] == o && Items(w)[i].typ == t
                               && forall j :: i < j < |Items(w)| ==> Items(w)[j].typ != t
  {
    if w.Visit? {
      LastOfIsLast(w.next, t);
      match LastOf(w.next, t)
      case None =>
        if w.item.typ == t { assert Offsets(w)[0] == w.at && Items(w)[0].typ == t; }
      case Some(o) =>
        var i :| 0 <= i < |Items(w.next)| && Offsets(w.next)[i] == o && Items(w.next)[i].typ == t
              && forall j :: i < j < |Items(w.next)| ==> Items(w.next)[j].typ != t;
        assert Offsets(w)[i + 1] == o && Items(w)[i + 1].typ == t;
    }
  }

  /** The slots receive the first `max` entries of the filtered list of addresses, in order. */
  lemma {:induction false} SlotsListIndexed(w: Walk, max: int, i: nat, k: nat)
    requires i <= k < max
    ensures Used(w, max, i) == if i + |Indexed(w, max)| < max then i + |Indexed(w, max)| else max
    ensures Slot(w, max, i, k) == if k - i < |Indexed(w, max)| then Some(Indexed(w, max)[k - i]) else None
  {
    if w.Visit? {
      if w.item.typ > max {
        SlotsListIndexed(w.next, max, i, k);
      } else if i + 1 < max {
        SlotsListIndexed(w.next, max, i + 1, if k == i then i + 1 else k);
      } else {
        UsedFull(w.next, max);
      }
    }
  }

  lemma {:induction false} UsedFull(w: Walk, max: nat)
    ensures Used(w, max, max) == max
  {
    if w.Visit? { UsedFull(w.next, max); }
  }

  lemma SameAttr(s: seq<byte>, x: nat, s': seq<byte>, y: nat, len: int)
    requires SameBytes(s, x, s', y, len)
    ensures RtaOk(s, x, x + len) == RtaOk(s', y, y + len)
    ensures RtaOk(s, x, x + len) ==> ItemAt(s, x) == ItemAt(s', y) && U16(s, x) == U16(s', y)
  {
  }

  /** Only the addresses depend on where the bytes lie and on what surrounds them. */
  lemma {:induction false} ScanMoves(s: seq<byte>, x: nat, s': seq<byte>, y: nat, len: int)
    requires SameBytes(s, x, s', y, len)
    ensures Items(Scan(s, x, x + len)) == Items(Scan(s', y, y + len))
    ensures Left(Scan(s, x, x + len)) == Left(Scan(s', y, y + len))
    decreases len
  {
    hide U16, Align4;
    SameAttr(s, x, s', y, len);
    if RtaOk(s, x, x + len) {
      var n := Align4(U16(s, x));
      ScanMoves(s, x + n, s', y + n, len - n);
    }
  }

  /** After a stretch it consumes exactly, the walk goes on into what follows. */
  lemma {:induction false} WalkContinues(s: seq<byte>, o: nat, mid: nat, end: nat)
    requires o <= mid <= end <= |s|
    requires Left(Scan(s, o, mid)) == 0
    ensures Items(Scan(s, o, end)) == Items(Scan(s, o, mid)) + Items(Scan(s, mid, end))
    ensures Left(Scan(s, o, end)) == Left(Scan(s, mid, end))
    decreases end - o
  {
    if o < mid {
      assert RtaOk(s, o, mid);
      WalkContinues(s, NextAt(s, o), mid, end);
    }
  }
}
