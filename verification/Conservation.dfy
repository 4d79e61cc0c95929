/** Counting queries, responses, expiries and outstanding mappings over whole runs. */
module Conservation {
  import opened Net
  import Lists
  import opened Relay
  import opened Table
  import opened Proxy
  import opened Invariants

  /** A set of query numbers to count. */
  type Numbers = nat -> bool

  function Count<T>(s: seq<T>, f: T -> bool): nat {
    if s == [] then 0 else (if f(s[0]) then 1 else 0) + Count(s[1..], f)
  }

  function IsQuery(p: Numbers): Entry -> bool { (e: Entry) => e.QueryOut? && p(e.origin) }
  function IsResponse(p: Numbers): Entry -> bool { (e: Entry) => e.ResponseOut? && p(e.origin) }
  function IsExpiry(p: Numbers): Entry -> bool { (e: Entry) => e.Expiry? && p(e.origin) }
  function IsOutstanding(p: Numbers): Mapping -> bool { (m: Mapping) => p(m.origin) }

  /** How many of the numbers below `n` are in the set. */
  function Upto(n: nat, p: Numbers): nat {
    if n == 0 then 0 else Upto(n - 1, p) + if p(n - 1) then 1 else 0
  }

  lemma {:induction false} CountConcat<T>(a: seq<T>, b: seq<T>, f: T -> bool)
    ensures Count(a + b, f) == Count(a, f) + Count(b, f)
  {
    if a == [] {
      assert a + b == b;
    } else {
      assert (a + b)[1..] == a[1..] + b;
      CountConcat(a[1..], b, f);
    }
  }

  lemma CountAppend<T>(a: seq<T>, x: T, f: T -> bool)
    ensures Count(a + [x], f) == Count(a, f) + if f(x) then 1 else 0
  {
    CountConcat(a, [x], f);
    assert [x][1..] == [];
  }

  lemma {:induction false} CountWithout<T>(s: seq<T>, i: nat, f: T -> bool)
    requires i < |s|
    ensures Count(s, f) == Count(Lists.Without(s, i), f) + if f(s[i]) then 1 else 0
  {
    if i == 0 {
      assert Lists.Without(s, 0) == s[1..];
    } else {
      CountWithout(s[1..], i - 1, f);
      assert Lists.Without(s, i)[0] == s[0] && Lists.Without(s, i)[1..] == Lists.Without(s[1..], i - 1);
    }
  }

  lemma {:induction false} CountAgree<T>(s: seq<T>, f: T -> bool, g: T -> bool)
    requires forall x :: x in s ==> f(x) == g(x)
    ensures Count(s, f) == Count(s, g)
  {
    if s != [] {
      assert s[0] in s;
      CountAgree(s[1..], f, g);
    }
  }

  lemma {:induction false} CountPositive<T>(s: seq<T>, f: T -> bool)
    ensures Count(s, f) > 0 <==> exists x :: x in s && f(x)
  {
    if s != [] {
      CountPositive(s[1..], f);
      assert forall x :: x in s <==> x == s[0] || x in s[1..];
    }
  }

  // ----- one round

  /** Queries answered, expired and outstanding add up to the queries made, whichever queries are counted. */
  ghost predicate Balanced(journal: seq<Entry>, ms: seq<Mapping>, p: Numbers) {
    Count(journal, IsQuery(p))
      == Count(journal, IsResponse(p)) + Count(journal, IsExpiry(p)) + Count(ms, IsOutstanding(p))
  }

  /** Every query in the journal has a number of its own. */
  ghost predicate Numbered(journal: seq<Entry>, n: nat, p: Numbers) {
    Count(journal, IsQuery(p)) <= Upto(n, p)
  }

  lemma AppendEntry(journal: seq<Entry>, e: Entry, p: Numbers)
    ensures Count(journal + [e], IsQuery(p)) == Count(journal, IsQuery(p)) + if IsQuery(p)(e) then 1 else 0
    ensures Count(journal + [e], IsResponse(p)) == Count(journal, IsResponse(p)) + if IsResponse(p)(e) then 1 else 0
    ensures Count(journal + [e], IsExpiry(p)) == Count(journal, IsExpiry(p)) + if IsExpiry(p)(e) then 1 else 0
  {
    CountAppend(journal, e, IsQuery(p));
    CountAppend(journal, e, IsResponse(p));
    CountAppend(journal, e, IsExpiry(p));
  }

  lemma HandleKeepsBalance(cfg: Config, st: State, pkt: Pkt, now: int, p: Numbers)
    requires Balanced(st.journal, st.mappings, p) && Numbered(st.journal, |st.received|, p)
    ensures var st' := HandleUdp(cfg, st, pkt, now);
      Balanced(st'.journal, st'.mappings, p) && Numbered(st'.journal, |st'.received|, p)
  {
    hide Lookup, Matches, Lists.Without;
    var st' := HandleUdp(cfg, st, pkt, now);
    if |st'.journal| > |st.journal| {
      var e := st'.journal[|st.journal|];
      assert st'.journal == st.journal + [e];
      AppendEntry(st.journal, e, p);
      var i := Lookup(st.mappings, pkt);
      if e.ResponseOut? {
        CountWithout(st.mappings, i, IsOutstanding(p));
      } else if e.QueryOut? {
        CountConcat([st'.mappings[0]], st.mappings, IsOutstanding(p));
      }
    }
  }

  lemma {:induction false} ExpiriesCount(ms: seq<Mapping>, p: Numbers)
    ensures Count(Expiries(ms), IsQuery(p)) == 0 && Count(Expiries(ms), IsResponse(p)) == 0
    ensures Count(Expiries(ms), IsExpiry(p)) == Count(ms, IsOutstanding(p))
  {
    if ms != [] {
      assert Expiries(ms)[0] == Expiry(ms[0].origin) && Expiries(ms)[1..] == Expiries(ms[1..]);
      ExpiriesCount(ms[1..], p);
    }
  }

  lemma {:induction false} AliveDeadCount(ms: seq<Mapping>, now: int, f: Mapping -> bool)
    ensures Count(ms, f) == Count(Alive(ms, now), f) + Count(Dead(ms, now), f)
  {
    if ms != [] {
      AliveDeadCount(ms[1..], now, f);
      if ms[0].timeout > now {
        CountConcat([ms[0]], Alive(ms[1..], now), f);
      } else {
        CountConcat([ms[0]], Dead(ms[1..], now), f);
      }
    }
  }

  lemma PurgeKeepsBalance(st: State, now: int, p: Numbers)
    requires Balanced(st.journal, st.mappings, p)
    ensures Balanced(Purge(st, now).journal, Purge(st, now).mappings, p)
    ensures Count(Purge(st, now).journal, IsQuery(p)) == Count(st.journal, IsQuery(p))
  {
    var es := Expiries(Dead(st.mappings, now));
    ExpiriesCount(Dead(st.mappings, now), p);
    AliveDeadCount(st.mappings, now, IsOutstanding(p));
    CountConcat(st.journal, es, IsQuery(p));
    CountConcat(st.journal, es, IsResponse(p));
    CountConcat(st.journal, es, IsExpiry(p));
  }

  // ----- whole runs

  /** Conservation over any run: for any set of query numbers, the queries made with these numbers are those
      answered, those expired and those outstanding; and no number is used for two queries. */
  lemma {:induction false} RunIsBalanced(cfg: Config, init: State, evs: seq<Event>, p: Numbers)
    requires Initial(cfg, init)
    ensures var st := Run(cfg, init, evs);
      Balanced(st.journal, st.mappings, p) && Numbered(st.journal, |st.received|, p)
    decreases |evs|
  {
    hide Step, HandleUdp, Balanced, Numbered, Wait, Handle, Purge;
    if evs == [] {
      NothingYet(cfg, init, p);
    } else {
      var past, ev := evs[..|evs| - 1], evs[|evs| - 1];
      RunIsBalanced(cfg, init, past, p);
      StepKeepsBalance(cfg, Run(cfg, init, past), ev, p);
    }
  }

  lemma NothingYet(cfg: Config, init: State, p: Numbers)
    requires Initial(cfg, init)
    ensures Balanced(init.journal, init.mappings, p) && Numbered(init.journal, |init.received|, p)
  {
  }

  lemma StepKeepsBalance(cfg: Config, st: State, ev: Event, p: Numbers)
    requires Balanced(st.journal, st.mappings, p) && Numbered(st.journal, |st.received|, p)
    ensures var st' := Step(cfg, st, ev);
      Balanced(st'.journal, st'.mappings, p) && Numbered(st'.journal, |st'.received|, p)
  {
    hide HandleUdp, Wait, Handle, Step;
    RoundSeenByTable(cfg, st, ev);
    var b := BeforePurge(cfg, st, ev);
    if UdpInput(cfg, st, ev).Some? {
      HandleKeepsBalance(cfg, st, UdpInput(cfg, st, ev).value, ev.tAdd, p);
    }
    PurgeKeepsBalance(b, ev.tPurge, p);
  }

  // ----- queries one by one

  function Only(q: nat): Numbers { x => x == q }

  lemma {:induction false} UptoOnly(n: nat, q: nat)
    ensures Upto(n, Only(q)) == if q < n then 1 else 0
  {
    if n > 0 { UptoOnly(n - 1, q); }
  }

  ghost predicate Asked(journal: seq<Entry>, q: nat) {
    exists e :: e in journal && e.QueryOut? && e.origin == q
  }

  ghost predicate Answered(journal: seq<Entry>, q: nat) {
    exists e :: e in journal && e.ResponseOut? && e.origin == q
  }

  ghost predicate Expired(journal: seq<Entry>, q: nat) {
    exists e :: e in journal && e.Expiry? && e.origin == q
  }

  ghost predicate Outstanding(ms: seq<Mapping>, q: nat) {
    exists m :: m in ms && m.origin == q
  }

  lemma CountOnly(journal: seq<Entry>, ms: seq<Mapping>, q: nat)
    ensures Count(journal, IsQuery(Only(q))) > 0 <==> Asked(journal, q)
    ensures Count(journal, IsResponse(Only(q))) > 0 <==> Answered(journal, q)
    ensures Count(journal, IsExpiry(Only(q))) > 0 <==> Expired(journal, q)
    ensures Count(ms, IsOutstanding(Only(q))) > 0 <==> Outstanding(ms, q)
  {
    CountPositive(journal, IsQuery(Only(q)));
    CountPositive(journal, IsResponse(Only(q)));
    CountPositive(journal, IsExpiry(Only(q)));
    CountPositive(ms, IsOutstanding(Only(q)));
  }

  /** After any run each query has exactly one fate: it is outstanding exactly if it has been neither answered nor
      expired; it is never both; it is answered at most once; and nothing else is answered or expired. */
  lemma EachQueryOneFate(cfg: Config, init: State, evs: seq<Event>, q: nat)
    requires Initial(cfg, init)
    ensures var st := Run(cfg, init, evs);
      && (Outstanding(st.mappings, q) <==>
            Asked(st.journal, q) && !Answered(st.journal, q) && !Expired(st.journal, q))
      && !(Answered(st.journal, q) && Expired(st.journal, q))
      && (Answered(st.journal, q) || Expired(st.journal, q) ==> Asked(st.journal, q))
      && Count(st.journal, IsResponse(Only(q))) <= 1
  {
    hide Asked, Answered, Expired, Outstanding, Count;
    var st := Run(cfg, init, evs);
    RunIsBalanced(cfg, init, evs, Only(q));
    UptoOnly(|st.received|, q);
    CountOnly(st.journal, st.mappings, q);
  }

  // ----- clients

  datatype Client = Client(ip: Addr, port: int, sock: int)

  function From(c: Client): Pkt -> bool {
    (pkt: Pkt) => pkt.srcIP == c.ip && pkt.srcPort == c.port && pkt.sock == c.sock
  }

  function To(c: Client): Entry -> bool {
    (e: Entry) => e.ResponseOut? && e.ip == c.ip && e.port == c.port && e.fd == c.sock
  }

  /** The numbers of the client's packets. */
  function PacketsOf(received: seq<Pkt>, c: Client): Numbers {
    (q: nat) => q < |received| && From(c)(received[q])
  }

  lemma {:induction false} UptoPacketsOf(received: seq<Pkt>, c: Client, n: nat)
    requires n <= |received|
    ensures Upto(n, PacketsOf(received, c)) == Count(received[..n], From(c))
  {
    if n > 0 {
      UptoPacketsOf(received, c, n - 1);
      assert received[..n] == received[..n - 1] + [received[n - 1]];
      CountAppend(received[..n - 1], received[n - 1], From(c));
    }
  }

  lemma ResponseIsToAsker(cfg: Config, received: seq<Pkt>, e: Entry, c: Client)
    requires EntryOk(cfg, received, e)
    ensures To(c)(e) == IsResponse(PacketsOf(received, c))(e)
  {
    if e.ResponseOut? {
      var q := received[e.origin];
      assert e.fd == q.sock && e.ip == q.srcIP && e.port == q.srcPort;
      assert PacketsOf(received, c)(e.origin) == From(c)(q);
    }
  }

  /** Per client (address, port and the socket it is heard on), over any run: the mappings made for it are the
      responses sent to it, the mappings expired and the mappings outstanding. So it never gets more responses
      than it has sent packets, however many clients share a match key. */
  lemma ClientConservation(cfg: Config, init: State, evs: seq<Event>, c: Client)
    requires Initial(cfg, init) && AdmissibleRun(cfg, init, evs)
    ensures var st := Run(cfg, init, evs);
      var p := PacketsOf(st.received, c);
      && Count(st.journal, IsQuery(p))
           == Count(st.journal, To(c)) + Count(st.journal, IsExpiry(p)) + Count(st.mappings, IsOutstanding(p))
      && Count(st.journal, To(c)) <= Count(st.journal, IsQuery(p)) <= Count(st.received, From(c))
  {
    hide Count, Run, Inv;
    var st := Run(cfg, init, evs);
    var p := PacketsOf(st.received, c);
    RunIsGood(cfg, init, evs);
    RunIsBalanced(cfg, init, evs, p);
    forall e | e in st.journal ensures To(c)(e) == IsResponse(p)(e) {
      ResponseIsToAsker(cfg, st.received, e, c);
    }
    CountAgree(st.journal, To(c), IsResponse(p));
    UptoPacketsOf(st.received, c, |st.received|);
    assert st.received[..|st.received|] == st.received;
  }
}
