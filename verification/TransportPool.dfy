/** The pool of proxied transports (``ProxyRoutingTransport``, app/fetchers/transport.py). */
module TransportPool {
  import opened Wrappers

  /** An inner transport: the proxy it was built for, the requests sent on it, and how often it was
      closed. */
  class Transport {
    const route: Option<string>
    var sent: seq<string>
    var closed: nat

    constructor (route: Option<string>)
      ensures this.route == route && sent == [] && closed == 0
    {
      this.route := route;
      sent, closed := [], 0;
    }

    method Send(request: string)
      requires closed == 0
      modifies this
      ensures sent == old(sent) + [request] && closed == old(closed)
    {
      sent := sent + [request];
    }

    method Close()
      modifies this
      ensures closed == old(closed) + 1 && sent == old(sent)
    {
      closed := closed + 1;
    }
  }

  ghost predicate Distinct(ts: seq<Transport>) { forall i, j | 0 <= i < j < |ts| :: ts[i] != ts[j] }

  class ProxyRoutingTransport {
    var direct: Transport
    var proxied: Option<Transport>
    var retired: seq<Transport>

    /** Every transport the factory ever made for this pool, oldest first. */
    ghost var created: seq<Transport>
    ghost var isClosed: bool

    ghost predicate Valid()
      reads this, created
    {
      && created == [direct] + retired + (if proxied.Some? then [proxied.value] else [])
      && Distinct(created)
      && direct.route == None
      && (forall i | 0 <= i < |retired| :: retired[i].route.Some?)
      && (proxied.Some? ==> proxied.value.route.Some?)
      && (forall t | t in created :: t.closed == if isClosed then 1 else 0)
    }

    constructor ()
      ensures Valid() && !isClosed && |created| == 1 && fresh(created[0])
    {
      direct := new Transport(None);
      proxied, retired, isClosed := None, [], false;
      new;
      created := [direct];
    }

    /** ``_transport_for``: the direct transport, the current proxied one, or a new one, in which case
        the current one is retired. Nothing is closed. */
    method TransportFor(proxyUrl: Option<string>) returns (t: Transport)
      requires Valid() && !isClosed
      modifies this
      ensures Valid() && !isClosed
      ensures t in created && t.route == proxyUrl
      ensures old(created) <= created
      ensures forall i | |old(created)| <= i < |created| :: fresh(created[i]) && created[i].sent == []
      ensures proxyUrl.None? ==> t == direct
      ensures proxyUrl.Some? ==> proxied == Some(t)
      ensures var reused := proxyUrl.None? || (old(proxied).Some? && old(proxied).value.route == proxyUrl);
              if reused then created == old(created) && proxied == old(proxied) && !fresh(t)
              else created == old(created) + [t] && fresh(t)
      ensures direct == old(direct)
    {
      if proxyUrl.None? {
        return direct;
      }
      if proxied.None? || proxied.value.route != proxyUrl {
        if proxied.Some? {
          retired := retired + [proxied.value];
        }
        t := new Transport(proxyUrl);
        proxied := Some(t);
        created := created + [t];
      }
      t := proxied.value;
    }

    /** One request: ``route`` is the proxy the live configuration resolves it to. */
    method HandleRequest(request: string, route: Option<string>) returns (t: Transport)
      requires Valid() && !isClosed
      modifies this, created
      ensures Valid() && !isClosed
      ensures t in created && t.route == route
      ensures old(created) <= created
      ensures t.sent == (if t in old(created) then old(t.sent) else []) + [request]
      ensures forall u | u in old(created) && u != t :: u.sent == old(u.sent)
    {
      t := TransportFor(route);
      t.Send(request);
    }

    /** Closes every transport ever created exactly once. */
    method Aclose()
      requires Valid() && !isClosed
      modifies this, created
      ensures Valid() && isClosed && created == old(created)
      ensures forall t | t in created :: t.closed == 1 && t.sent == old(t.sent)
    {
      assert created[0] == direct;
      assert proxied.Some? ==> created[|created| - 1] == proxied.value && |created| == |retired| + 2;
      direct.Close();
      if proxied.Some? {
        proxied.value.Close();
      }
      for i := 0 to |retired|
        invariant created == old(created) && retired == old(retired) && direct == old(direct) && proxied == old(proxied)
        invariant forall k | 0 <= k < |created| :: created[k].closed == if 1 + i <= k < 1 + |retired| then 0 else 1
        invariant forall k | 0 <= k < |created| :: created[k].sent == old(created[k].sent)
      {
        assert retired[i] == created[1 + i];
        retired[i].Close();
      }
      isClosed := true;
    }
  }
}
