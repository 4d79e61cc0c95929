/** The end of `main`: what a whole run on the heap comes to. */
module Portproxy {
  import opened Net
  import Lists
  import opened Relay
  import opened Proxy
  import opened RelayRuns
  import opened Context

  /** run with the sockets that were bound, then sockets_close. What was received on any connection has then gone
      out on its other side exactly if no send fell short, and every descriptor ever obtained has been closed,
      once. */
  method Serve(cfg: Config, init: State, evs: seq<Event>) returns (ctx: Ctx)
    requires Initial(cfg, init) && AdmissibleRun(cfg, init, evs)
    ensures fresh(ctx) && ctx.Valid() && ctx.sockets == null
    ensures ctx.View() == Run(cfg, init, evs).WithNet(CloseAll(Run(cfg, init, evs).Net()))
    ensures AllBytesPassed(ctx.View()) <==> NeverShort(cfg, init, evs)
    ensures ctx.kernel.badCloses == 0 && forall fd :: fd !in ctx.kernel.open
    ensures forall i, j :: 0 <= i < j < |ctx.kernel.closed| ==> ctx.kernel.closed[i] != ctx.kernel.closed[j]
    ensures forall id: nat :: id in ctx.kernel.closed <==> id < |ctx.kernel.ends|
  {
    hide Run, Inv, Bound, AdmissibleRun, CloseAll, NeverShort, Lists.Values, Lists.Linked;
    ctx := new Ctx(cfg, init.kernel, init.clock);
    ctx.AddSockets(init.sockets);
    assert ctx.View() == init;
    ctx.Loop(evs);
    ctx.SocketsClose();
    RelayIsExact(cfg, init, evs);
    EverythingIsClosedOnce(cfg, init, evs);
    assert forall a: nat :: BytesPassed(ctx.View(), a) == BytesPassed(Run(cfg, init, evs), a);
  }
}
