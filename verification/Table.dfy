/** The mapping table of the classic mode: lookup, creation, expiry and the time to wait. */
module Table {
  import opened Bytes
  import opened Net

  const MAX_WAIT := 3600

  /** The test in mapping_find. It does not look at the timeout. */
  predicate Matches(m: Mapping, pkt: Pkt) {
    && (m.aftrIPv4 == MCAST || pkt.srcIP == m.aftrIPv4)
    && pkt.dstIP == m.wanIP
    && pkt.srcPort == m.routerPort
    && pkt.dstPort == m.wanPort
    && pkt.proto == m.proto
  }

  /** mapping_find: the position of the first match; the length of the list if there is none. */
  function Lookup(ms: seq<Mapping>, pkt: Pkt): (i: nat)
    ensures i <= |ms|
    ensures i < |ms| ==> Matches(ms[i], pkt)
    ensures forall j :: 0 <= j < i ==> !Matches(ms[j], pkt)
  {
    if ms == [] || Matches(ms[0], pkt) then 0 else 1 + Lookup(ms[1..], pkt)
  }

  /** mapping_create and mapping_add, for the query with number `origin`, at time `now`. */
  function Created(cfg: Config, pkt: Pkt, origin: nat, now: int): Mapping {
    Mapping(clientIP := pkt.srcIP, lanIP := pkt.dstIP, wanIP := cfg.wanIP,
            aftrIPv4 := if pkt.dstIP == MCAST then MCAST else cfg.aftrIPv4,
            proto := pkt.proto, clientPort := pkt.srcPort, lanPort := pkt.dstPort,
            wanPort := cfg.PortOf(cfg.sharedFd), routerPort := pkt.dstPort,
            lanSock := pkt.sock, wanSock := cfg.sharedFd,
            timeout := ToInt32(now + cfg.timeout), origin := origin)
  }

  /** What ctx_mappings_remove_expired leaves, and what it takes out. */
  function Alive(ms: seq<Mapping>, now: int): seq<Mapping> {
    if ms == [] then []
    else if ms[0].timeout > now then [ms[0]] + Alive(ms[1..], now)
    else Alive(ms[1..], now)
  }

  function Dead(ms: seq<Mapping>, now: int): seq<Mapping> {
    if ms == [] then []
    else if ms[0].timeout > now then Dead(ms[1..], now)
    else [ms[0]] + Dead(ms[1..], now)
  }

  /** The loop of ctx_timeout_get, in unsigned arithmetic, from the value `wait` on. */
  function Shortest(ms: seq<Mapping>, now: int, wait: int): int {
    if ms == [] then wait
    else if ToUint32(ms[0].timeout) < now then 0
    else
      var left := ToUint32(ms[0].timeout) - now;
      Shortest(ms[1..], now, if wait > left then left else wait)
  }

  /** ctx_timeout_get */
  function WaitTime(ms: seq<Mapping>, now: int): int {
    var wait := Shortest(ms, ToUint32(now), MAX_WAIT);
    if wait == 0 then 1 else wait
  }

  // ----- waiting and freshness

  predicate InRange(ms: seq<Mapping>) {
    forall m :: m in ms ==> 0 <= m.timeout < U31_LIMIT
  }

  lemma {:induction false} ShortestBounds(ms: seq<Mapping>, now: int, wait: int)
    requires InRange(ms) && 0 <= now && 0 <= wait
    ensures 0 <= Shortest(ms, now, wait) <= wait
    ensures (forall m :: m in ms ==> now <= m.timeout) ==>
              forall m :: m in ms ==> now + Shortest(ms, now, wait) <= m.timeout
    ensures 0 < Shortest(ms, now, wait) < wait ==> exists m :: m in ms && m.timeout == now + Shortest(ms, now, wait)
    ensures Shortest(ms, now, wait) == 0 <==> wait == 0 || exists m :: m in ms && m.timeout <= now
  {
    if ms != [] {
      var left := ms[0].timeout - now;
      assert ms[0] in ms;
      assert forall m :: m in ms <==> m == ms[0] || m in ms[1..];
      if left >= 0 {
        ShortestBounds(ms[1..], now, if wait > left then left else wait);
      }
    }
  }

  /** The times at which the select that follows the reading `now` may wake: no later than it was asked to. */
  predicate MayWake(ms: seq<Mapping>, now: int, c: int) {
    now <= c <= now + WaitTime(ms, now)
  }

  ghost predicate NoneOverdue(ms: seq<Mapping>, c: int) {
    forall m :: m in ms ==> c <= m.timeout
  }

  /** Select wakes before any mapping is overdue, whenever it may wake, exactly if no mapping had come due when
      the clock was read for it. */
  lemma FreshIffNoneDue(ms: seq<Mapping>, now: int)
    requires InRange(ms) && 0 <= now < U31_LIMIT
    ensures (forall c :: MayWake(ms, now, c) ==> NoneOverdue(ms, c)) <==> forall m :: m in ms ==> now < m.timeout
  {
    ShortestBounds(ms, now, MAX_WAIT);
    if forall c :: MayWake(ms, now, c) ==> NoneOverdue(ms, c) {
      assert MayWake(ms, now, now + WaitTime(ms, now));
      assert MayWake(ms, now, now + 1);
    }
  }

  /** And it does not wake early for nothing. The wait is an hour exactly if nothing comes due before, a second
      exactly if something comes due by then, and otherwise it ends when the first mapping comes due. */
  lemma WaitIsLongest(ms: seq<Mapping>, now: int)
    requires InRange(ms) && 0 <= now < U31_LIMIT
    ensures 1 <= WaitTime(ms, now) <= 3600
    ensures WaitTime(ms, now) == 3600 <==> forall m :: m in ms ==> now + 3600 <= m.timeout
    ensures WaitTime(ms, now) == 1 <==> exists m :: m in ms && m.timeout <= now + 1
    ensures 1 < WaitTime(ms, now) < 3600 ==>
      && (exists m :: m in ms && m.timeout == now + WaitTime(ms, now))
      && forall m :: m in ms ==> now + WaitTime(ms, now) <= m.timeout
  {
    ShortestBounds(ms, now, MAX_WAIT);
  }

  /** Otherwise a mapping can be overdue when it is used, but then select has waited at most one second. */
  lemma LateByOneSecond(ms: seq<Mapping>, now: int, c: int)
    requires InRange(ms) && 0 <= now < U31_LIMIT && MayWake(ms, now, c)
    ensures NoneOverdue(ms, c) || c <= now + 1
  {
    ShortestBounds(ms, now, MAX_WAIT);
  }

  // ----- the table as a time-ordered deque

  /** Newest first: timeouts do not increase and query numbers decrease from head to tail. */
  predicate Ordered(ms: seq<Mapping>) {
    forall i, j :: 0 <= i < j < |ms| ==> ms[i].timeout >= ms[j].timeout && ms[i].origin > ms[j].origin
  }

  lemma TailIsOrdered(ms: seq<Mapping>)
    requires Ordered(ms) && ms != []
    ensures Ordered(ms[1..]) && forall m :: m in ms[1..] ==> ms[0].timeout >= m.timeout
  {
    forall m | m in ms[1..] ensures ms[0].timeout >= m.timeout {
      var i :| 0 <= i < |ms[1..]| && ms[1..][i] == m;
      assert ms[0].timeout >= ms[i + 1].timeout;
    }
  }

  /** Expiry cuts off a suffix. */
  lemma {:induction false} ExpiryCutsSuffix(ms: seq<Mapping>, now: int)
    requires Ordered(ms)
    ensures ms == Alive(ms, now) + Dead(ms, now)
  {
    hide Ordered;
    if ms != [] {
      TailIsOrdered(ms);
      ExpiryCutsSuffix(ms[1..], now);
      if ms[0].timeout <= now {
        NoneAlive(ms[1..], now);
      }
    }
  }

  lemma {:induction false} NoneAlive(ms: seq<Mapping>, now: int)
    requires forall m :: m in ms ==> m.timeout <= now
    ensures Alive(ms, now) == []
  {
    if ms != [] {
      assert ms[0] in ms;
      NoneAlive(ms[1..], now);
    }
  }

  /** Without any order, what is left is still exactly the unexpired mappings, in the same order. */
  lemma {:induction false} AliveSelects(ms: seq<Mapping>, now: int)
    ensures forall m :: m in Alive(ms, now) <==> m in ms && m.timeout > now
    ensures forall m :: m in Dead(ms, now) <==> m in ms && m.timeout <= now
    ensures |Alive(ms, now)| + |Dead(ms, now)| == |ms|
  {
    if ms != [] {
      AliveSelects(ms[1..], now);
      assert forall m :: m in ms <==> m == ms[0] || m in ms[1..];
    }
  }
}
