/**
 * Serving requests one after the other, for any way of serving a single one: what the runs of
 * both servers are compared with.
 */
module ServeInOrder {
  import opened Bytes
  import opened Dispatch

  type Service<!S> = (S, seq<byte>) -> Served<S>

  /** Serve the requests in order, collecting answers and calls. */
  function ServeAll<S>(serve: Service<S>, app: S, adus: seq<seq<byte>>): Served<S> {
    if adus == [] then Served(app, [], [])
    else
      var before := ServeAll(serve, app, adus[..|adus| - 1]);
      var now := serve(before.app, adus[|adus| - 1]);
      Served(now.app, before.resp + now.resp, before.calls + now.calls)
  }

  lemma ServeAllOneMore<S>(serve: Service<S>, app: S, adus: seq<seq<byte>>, adu: seq<byte>)
    ensures var before := ServeAll(serve, app, adus);
            var now := serve(before.app, adu);
            ServeAll(serve, app, adus + [adu]) == Served(now.app, before.resp + now.resp, before.calls + now.calls)
  {
    assert (adus + [adu])[..|adus|] == adus;
  }

  lemma ServeAllOfOne<S>(serve: Service<S>, app: S, adu: seq<byte>)
    ensures ServeAll(serve, app, [adu]) == serve(app, adu)
  {
    ServeAllOneMore(serve, app, [], adu);
    assert [] + [adu] == [adu];
    var now := serve(app, adu);
    assert [] + now.resp == now.resp && [] + now.calls == now.calls;
  }

  /** An answer with the number, from 1, of the request that it answers. */
  datatype Tagged = Tagged(origin: nat, adu: seq<byte>)

  /** The answers to the requests, without those that get none. */
  function Replies<S>(serve: Service<S>, app: S, adus: seq<seq<byte>>): seq<Tagged> {
    if adus == [] then []
    else
      var n := |adus| - 1;
      var before := Replies(serve, app, adus[..n]);
      var now := serve(ServeAll(serve, app, adus[..n]).app, adus[n]);
      if now.resp == [] then before else before + [Tagged(n + 1, now.resp)]
  }

  /** r is the answer to request number r.origin, in the state that the requests before it left. */
  predicate Answers<S>(serve: Service<S>, app: S, adus: seq<seq<byte>>, r: Tagged) {
    1 <= r.origin <= |adus| &&
    r.adu == serve(ServeAll(serve, app, adus[..r.origin - 1]).app, adus[r.origin - 1]).resp
  }

  lemma {:induction false} RepliesAnswer<S>(serve: Service<S>, app: S, adus: seq<seq<byte>>, r: Tagged)
    requires r in Replies(serve, app, adus)
    ensures Answers(serve, app, adus, r)
    decreases |adus|
  {
    var n := |adus| - 1;
    if r in Replies(serve, app, adus[..n]) {
      RepliesAnswer(serve, app, adus[..n], r);
      assert adus[..n][..r.origin - 1] == adus[..r.origin - 1];
    }
  }
}
