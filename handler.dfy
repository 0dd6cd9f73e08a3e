/** `DhcpHandler`: the retry loop that sends the DHCPDISCOVER request, the
    setup and teardown around it, and the routes installed from the lease.
    The operating-system collaborator and the clock are a `Host` that
    records every call made to it; the network is an oracle giving the
    outcome of each attempt. */
module DhcpHandlerModel {
  import opened Bytes
  import opened DhcpRequest
  import opened DhcpValidate
  import opened DhcpOptions

  /** Seconds slept after each failed attempt; there are as many attempts
      as entries. */
  const WAIT_SCHEDULE: seq<nat> := [0, 10, 30, 60, 60]

  /** The answers the host gives to the handler's queries. */
  datatype HostConfig = HostConfig(mac: Mac, ifname: string, missingDefaultRoute: bool, dhcpEnabled: bool)

  /** A call that changes the host, in the order the handler makes them. */
  datatype Effect =
    | BroadcastAllowed
    | BroadcastRouteSet(ifname: string)
    | BroadcastRouteRemoved(ifname: string)
    | DhcpServiceStopped
    | DhcpServiceStarted
    | RouteAdded(net: uint32, mask: uint32, gateway: uint32)
    | Slept(seconds: nat)

  /** One `socket_send`: it raises `DhcpError`, or returns the bytes received. */
  datatype SendOutcome = SendFailed | Received(response: seq<byte>)

  /** Why `send_dhcp_req` raises: no response after every attempt
      (`DhcpError`), or the exception `parse_dhcp_resp` raised. */
  datatype SendError = NoResponse | ParseFault(fault: Fault)

  datatype Negotiation = Leased(lease: Lease) | Failed(error: SendError)

  /** The operating system as the handler sees it. */
  class Host {
    const config: HostConfig
    var log: seq<Effect>

    constructor (config: HostConfig)
      ensures this.config == config && log == []
    {
      this.config := config;
      log := [];
    }

    method AllowDhcpBroadcast()
      modifies this
      ensures log == old(log) + [BroadcastAllowed]
    {
      log := log + [BroadcastAllowed];
    }

    method SetRouteForDhcpBroadcast(ifname: string)
      modifies this
      ensures log == old(log) + [BroadcastRouteSet(ifname)]
    {
      log := log + [BroadcastRouteSet(ifname)];
    }

    method RemoveRouteForDhcpBroadcast(ifname: string)
      modifies this
      ensures log == old(log) + [BroadcastRouteRemoved(ifname)]
    {
      log := log + [BroadcastRouteRemoved(ifname)];
    }

    method StopDhcpService()
      modifies this
      ensures log == old(log) + [DhcpServiceStopped]
    {
      log := log + [DhcpServiceStopped];
    }

    method StartDhcpService()
      modifies this
      ensures log == old(log) + [DhcpServiceStarted]
    {
      log := log + [DhcpServiceStarted];
    }

    method RouteAdd(net: uint32, mask: uint32, gateway: uint32)
      modifies this
      ensures log == old(log) + [RouteAdded(net, mask, gateway)]
    {
      log := log + [RouteAdded(net, mask, gateway)];
    }

    /** `time.sleep`. */
    method Sleep(seconds: nat)
      modifies this
      ensures log == old(log) + [Slept(seconds)]
    {
      log := log + [Slept(seconds)];
    }
  }

  lemma AppendAssoc<T>(a: seq<T>, b: seq<T>, c: seq<T>)
    ensures (a + b) + c == a + (b + c)
  {
  }

  // ---------------------------------------------------------------------
  // The retry loop.

  /** Whether the loop returns this outcome: `socket_send` did not raise
      and neither did `validate_dhcp_resp`. */
  predicate Accepts(request: seq<byte>, outcome: SendOutcome)
    requires |request| >= COOKIE_OFFSET + 4
  {
    outcome.Received? && Answers(request, outcome.response)
  }

  /** The loop from attempt `k`: the response it returns and the host
      calls it makes. */
  function RetryFrom(request: seq<byte>, transport: nat -> SendOutcome, k: nat): (Option<seq<byte>>, seq<Effect>)
    requires |request| >= COOKIE_OFFSET + 4
    decreases |WAIT_SCHEDULE| - k
  {
    if k >= |WAIT_SCHEDULE| then (None, [])
    else if Accepts(request, transport(k)) then (Some(transport(k).response), [BroadcastAllowed])
    else
      var rest := RetryFrom(request, transport, k + 1);
      (rest.0, [BroadcastAllowed, Slept(WAIT_SCHEDULE[k])] + rest.1)
  }

  /** Attempt `k` as the loop makes it: returned when accepted, otherwise
      followed by its sleep and the remaining attempts. */
  lemma RetryStep(request: seq<byte>, transport: nat -> SendOutcome, k: nat)
    requires |request| >= COOKIE_OFFSET + 4 && k < |WAIT_SCHEDULE|
    ensures Accepts(request, transport(k)) ==>
      RetryFrom(request, transport, k) == (Some(transport(k).response), [BroadcastAllowed])
    ensures !Accepts(request, transport(k)) ==>
      RetryFrom(request, transport, k).0 == RetryFrom(request, transport, k + 1).0
      && RetryFrom(request, transport, k).1 == [BroadcastAllowed, Slept(WAIT_SCHEDULE[k])] + RetryFrom(request, transport, k + 1).1
  {
  }

  /** The calls of `k` failed attempts. */
  function FailTrace(k: nat): seq<Effect>
    requires k <= |WAIT_SCHEDULE|
  {
    if k == 0 then [] else FailTrace(k - 1) + [BroadcastAllowed, Slept(WAIT_SCHEDULE[k - 1])]
  }

  lemma FailTraceValues()
    ensures FailTrace(2) == [BroadcastAllowed, Slept(0), BroadcastAllowed, Slept(10)]
    ensures FailTrace(5) == [BroadcastAllowed, Slept(0), BroadcastAllowed, Slept(10), BroadcastAllowed, Slept(30),
                             BroadcastAllowed, Slept(60), BroadcastAllowed, Slept(60)]
  {
    assert FailTrace(1) == [BroadcastAllowed, Slept(0)];
    assert FailTrace(3) == FailTrace(2) + [BroadcastAllowed, Slept(30)];
    assert FailTrace(4) == FailTrace(3) + [BroadcastAllowed, Slept(60)];
  }

  /** Attempt `k` is the first the loop accepts. */
  predicate FirstAccepted(request: seq<byte>, transport: nat -> SendOutcome, k: nat)
    requires |request| >= COOKIE_OFFSET + 4
  {
    k < |WAIT_SCHEDULE| && Accepts(request, transport(k))
    && forall m :: 0 <= m < k ==> !Accepts(request, transport(m))
  }

  /** After `k` refused attempts the loop is where it would be started at
      attempt `k`, with the calls of those attempts behind it. */
  lemma {:induction false} RetryUnroll(request: seq<byte>, transport: nat -> SendOutcome, k: nat)
    requires |request| >= COOKIE_OFFSET + 4 && k <= |WAIT_SCHEDULE|
    requires forall m :: 0 <= m < k ==> !Accepts(request, transport(m))
    ensures RetryFrom(request, transport, 0).0 == RetryFrom(request, transport, k).0
    ensures RetryFrom(request, transport, 0).1 == FailTrace(k) + RetryFrom(request, transport, k).1
  {
    if k == 0 {
      assert [] + RetryFrom(request, transport, 0).1 == RetryFrom(request, transport, 0).1;
    } else {
      RetryUnroll(request, transport, k - 1);
      var step := [BroadcastAllowed, Slept(WAIT_SCHEDULE[k - 1])];
      assert FailTrace(k - 1) + (step + RetryFrom(request, transport, k).1)
          == (FailTrace(k - 1) + step) + RetryFrom(request, transport, k).1;
    }
  }

  /** The first accepted attempt ends the loop: its response is returned,
      after the calls of the attempts refused before it and one more
      `allow_dhcp_broadcast`. */
  lemma {:induction false} RetryFirstAccepted(request: seq<byte>, transport: nat -> SendOutcome, k: nat)
    requires |request| >= COOKIE_OFFSET + 4
    requires FirstAccepted(request, transport, k)
    ensures RetryFrom(request, transport, 0) == (Some(transport(k).response), FailTrace(k) + [BroadcastAllowed])
  {
    RetryUnroll(request, transport, k);
  }

  /** Five refused attempts: no response, each attempt preceded by
      `allow_dhcp_broadcast` and followed by its sleep, the fifth included. */
  lemma {:induction false} RetryAllFail(request: seq<byte>, transport: nat -> SendOutcome)
    requires |request| >= COOKIE_OFFSET + 4
    requires forall m :: 0 <= m < |WAIT_SCHEDULE| ==> !Accepts(request, transport(m))
    ensures RetryFrom(request, transport, 0) ==
      (None, [BroadcastAllowed, Slept(0), BroadcastAllowed, Slept(10), BroadcastAllowed, Slept(30),
              BroadcastAllowed, Slept(60), BroadcastAllowed, Slept(60)])
  {
    RetryUnroll(request, transport, |WAIT_SCHEDULE|);
    assert FailTrace(|WAIT_SCHEDULE|) + [] == FailTrace(|WAIT_SCHEDULE|);
    FailTraceValues();
  }

  lemma {:induction false} RetryNoneFrom(request: seq<byte>, transport: nat -> SendOutcome, k: nat)
    requires |request| >= COOKIE_OFFSET + 4
    ensures RetryFrom(request, transport, k).0.None? <==>
      forall m :: k <= m < |WAIT_SCHEDULE| ==> !Accepts(request, transport(m))
    decreases |WAIT_SCHEDULE| - k
  {
    if k < |WAIT_SCHEDULE| {
      RetryNoneFrom(request, transport, k + 1);
    }
  }

  /** The loop returns nothing exactly when all five attempts are refused. */
  lemma RetryNoneIffAllFail(request: seq<byte>, transport: nat -> SendOutcome)
    requires |request| >= COOKIE_OFFSET + 4
    ensures RetryFrom(request, transport, 0).0.None? <==>
      forall m :: 0 <= m < |WAIT_SCHEDULE| ==> !Accepts(request, transport(m))
  {
    RetryNoneFrom(request, transport, 0);
  }

  lemma {:induction false} FirstAcceptedFrom(request: seq<byte>, transport: nat -> SendOutcome, k: nat)
    requires |request| >= COOKIE_OFFSET + 4 && k <= |WAIT_SCHEDULE|
    requires forall m :: 0 <= m < k ==> !Accepts(request, transport(m))
    requires RetryFrom(request, transport, 0).0.Some?
    ensures exists a :: FirstAccepted(request, transport, a)
    decreases |WAIT_SCHEDULE| - k
  {
    if k == |WAIT_SCHEDULE| {
      RetryUnroll(request, transport, k);
      assert false;
    } else if Accepts(request, transport(k)) {
      assert FirstAccepted(request, transport, k);
    } else {
      FirstAcceptedFrom(request, transport, k + 1);
    }
  }

  /** A returned response is the one of the first accepted attempt: it was
      received and `validate_dhcp_resp` did not raise on it; at most five
      attempts are made. */
  lemma RetryReturnsFirstAccepted(request: seq<byte>, transport: nat -> SendOutcome)
    requires |request| >= COOKIE_OFFSET + 4
    requires RetryFrom(request, transport, 0).0.Some?
    ensures exists k :: && FirstAccepted(request, transport, k)
                        && transport(k) == Received(RetryFrom(request, transport, 0).0.value)
                        && RetryFrom(request, transport, 0).1 == FailTrace(k) + [BroadcastAllowed]
  {
    FirstAcceptedFrom(request, transport, 0);
    var k :| FirstAccepted(request, transport, k);
    RetryFirstAccepted(request, transport, k);
  }

  /** A response shorter than 246 bytes at the first attempt is returned
      at once, although `validate_dhcp_resp` reported it as too short. */
  lemma ShortResponseAccepted(request: seq<byte>, transport: nat -> SendOutcome, response: seq<byte>)
    requires |request| >= COOKIE_OFFSET + 4
    requires transport(0) == Received(response) && |response| < MIN_RESPONSE_SIZE
    ensures RetryFrom(request, transport, 0) == (Some(response), [BroadcastAllowed])
  {
  }

  /** A failed send, then a reply for another transaction, then an echoing
      reply: the third reply is returned after sleeping 0 and 10 seconds. */
  lemma ThirdAttemptAnswers(mac: Mac, xid: TransactionId, other: TransactionId,
                            transport: nat -> SendOutcome, reply: seq<byte>, foreign: seq<byte>)
    requires other != xid
    requires |foreign| >= MIN_RESPONSE_SIZE && |reply| >= MIN_RESPONSE_SIZE
    requires foreign[COOKIE_OFFSET..COOKIE_OFFSET + 4] == [99, 130, 83, 99] && reply[COOKIE_OFFSET..COOKIE_OFFSET + 4] == [99, 130, 83, 99]
    requires foreign[XID_OFFSET..XID_OFFSET + 4] == other && reply[XID_OFFSET..XID_OFFSET + 4] == xid
    requires foreign[CHADDR_OFFSET..CHADDR_OFFSET + 6] == mac && reply[CHADDR_OFFSET..CHADDR_OFFSET + 6] == mac
    requires transport(0) == SendFailed && transport(1) == Received(foreign) && transport(2) == Received(reply)
    ensures RetryFrom(DiscoverRequest(mac, xid), transport, 0) ==
      (Some(reply), [BroadcastAllowed, Slept(0), BroadcastAllowed, Slept(10), BroadcastAllowed])
  {
    var request := DiscoverRequest(mac, xid);
    ForeignTransactionRefused(request, mac, xid, other, foreign);
    EchoingReplyMatches(request, mac, xid, reply);
    assert FirstAccepted(request, transport, 2);
    RetryFirstAccepted(request, transport, 2);
    FailTraceValues();
    assert FailTrace(2) + [BroadcastAllowed]
        == [BroadcastAllowed, Slept(0), BroadcastAllowed, Slept(10), BroadcastAllowed];
  }

  /** The loop only allows broadcasts and sleeps; it makes at least one attempt. */
  lemma {:induction false} RetryOnlyAttempts(request: seq<byte>, transport: nat -> SendOutcome, k: nat)
    requires |request| >= COOKIE_OFFSET + 4
    ensures k < |WAIT_SCHEDULE| ==>
      |RetryFrom(request, transport, k).1| > 0 && RetryFrom(request, transport, k).1[0] == BroadcastAllowed
    ensures forall e :: e in RetryFrom(request, transport, k).1 ==> e.BroadcastAllowed? || e.Slept?
    decreases |WAIT_SCHEDULE| - k
  {
    if k < |WAIT_SCHEDULE| && !Accepts(request, transport(k)) {
      RetryOnlyAttempts(request, transport, k + 1);
    }
  }

  // ---------------------------------------------------------------------
  // Setup, teardown and routes.

  /** Before the loop: the broadcast route when the default route is
      missing, then the DHCP service stopped when it is enabled. */
  function Setup(config: HostConfig): seq<Effect>
  {
    (if config.missingDefaultRoute then [BroadcastRouteSet(config.ifname)] else [])
    + (if config.dhcpEnabled then [DhcpServiceStopped] else [])
  }

  /** After the loop: the same two, undone in reverse order. */
  function Teardown(config: HostConfig): seq<Effect>
  {
    (if config.dhcpEnabled then [DhcpServiceStarted] else [])
    + (if config.missingDefaultRoute then [BroadcastRouteRemoved(config.ifname)] else [])
  }

  /** The host calls of `send_dhcp_req`. */
  function SendEffects(config: HostConfig, request: seq<byte>, transport: nat -> SendOutcome): seq<Effect>
    requires |request| >= COOKIE_OFFSET + 4
  {
    Setup(config) + RetryFrom(request, transport, 0).1 + Teardown(config)
  }

  /** How `send_dhcp_req` ends: with the parsed lease, or raising. */
  function Negotiate(request: seq<byte>, transport: nat -> SendOutcome): Negotiation
    requires |request| >= COOKIE_OFFSET + 4
  {
    match RetryFrom(request, transport, 0).0
    case None => Failed(NoResponse)
    case Some(response) =>
      match WalkFrom(response, OPTIONS_OFFSET, NO_LEASE)
      case Fail(f) => Failed(ParseFault(f))
      case Ok(lease) => Leased(lease)
  }

  /** A call of `send_dhcp_req` is one of the setup, one of the loop or one
      of the teardown; the loop's calls are broadcasts and sleeps only. */
  lemma SendEffectsParts(config: HostConfig, request: seq<byte>, transport: nat -> SendOutcome)
    requires |request| >= COOKIE_OFFSET + 4
    ensures var l := RetryFrom(request, transport, 0).1;
      && |l| > 0
      && SendEffects(config, request, transport) == Setup(config) + l + Teardown(config)
      && forall x :: x in SendEffects(config, request, transport) <==>
           x in Setup(config) || (x in l && (x.BroadcastAllowed? || x.Slept?)) || x in Teardown(config)
  {
    RetryOnlyAttempts(request, transport, 0);
  }

  /** When the default route is missing, the route for the DHCP broadcast
      is the first call of `send_dhcp_req` and its removal the last; when
      it is not, neither call is made. */
  lemma {:induction false} BroadcastRouteBrackets(config: HostConfig, request: seq<byte>, transport: nat -> SendOutcome)
    requires |request| >= COOKIE_OFFSET + 4
    ensures var e := SendEffects(config, request, transport);
      && (config.missingDefaultRoute <==> BroadcastRouteSet(config.ifname) in e)
      && (config.missingDefaultRoute <==> BroadcastRouteRemoved(config.ifname) in e)
      && (config.missingDefaultRoute ==> e[0] == BroadcastRouteSet(config.ifname)
                                         && e[|e| - 1] == BroadcastRouteRemoved(config.ifname))
  {
    SendEffectsParts(config, request, transport);
  }

  /** When the DHCP service is enabled, it is stopped before every attempt
      and started again after it; when it is not, it is never touched. */
  lemma {:induction false} ServiceStoppedDuringAttempts(config: HostConfig, request: seq<byte>, transport: nat -> SendOutcome)
    requires |request| >= COOKIE_OFFSET + 4
    ensures var e := SendEffects(config, request, transport);
      && (config.dhcpEnabled <==> DhcpServiceStopped in e)
      && (config.dhcpEnabled <==> DhcpServiceStarted in e)
      && forall a :: 0 <= a < |e| && e[a].BroadcastAllowed? && config.dhcpEnabled ==>
           DhcpServiceStopped in e[..a] && DhcpServiceStarted in e[a + 1..]
  {
    SendEffectsParts(config, request, transport);
    var s := Setup(config);
    var l := RetryFrom(request, transport, 0).1;
    var t := Teardown(config);
    var e := s + l + t;
    if config.dhcpEnabled {
      forall a | 0 <= a < |e| && e[a].BroadcastAllowed?
        ensures DhcpServiceStopped in e[..a] && DhcpServiceStarted in e[a + 1..]
      {
        AttemptInsideLoop(s, l, t, a);
        assert e[..a][|s| - 1] == DhcpServiceStopped;
        assert e[a + 1..][|s| + |l| - a - 1] == DhcpServiceStarted;
      }
    }
  }

  /** A broadcast in `s + l + t` lies in `l` when neither `s` nor `t` has one. */
  lemma AttemptInsideLoop(s: seq<Effect>, l: seq<Effect>, t: seq<Effect>, a: nat)
    requires forall x :: x in s ==> !x.BroadcastAllowed?
    requires forall x :: x in t ==> !x.BroadcastAllowed?
    requires a < |s + l + t| && (s + l + t)[a].BroadcastAllowed?
    ensures |s| <= a < |s| + |l|
  {
    var e := s + l + t;
    forall i | 0 <= i < |s| ensures !e[i].BroadcastAllowed? {
      assert e[i] == s[i];
    }
    forall i | |s| + |l| <= i < |e| ensures !e[i].BroadcastAllowed? {
      assert e[i] == t[i - |s| - |l|];
    }
  }

  /** `send_dhcp_req` raises "no response" only after all five attempts and
      the whole teardown. */
  lemma NoResponseAfterCleanup(config: HostConfig, request: seq<byte>, transport: nat -> SendOutcome)
    requires |request| >= COOKIE_OFFSET + 4
    ensures Negotiate(request, transport) == Failed(NoResponse) <==>
      forall m :: 0 <= m < |WAIT_SCHEDULE| ==> !Accepts(request, transport(m))
    ensures Negotiate(request, transport) == Failed(NoResponse) ==>
      SendEffects(config, request, transport) == Setup(config) + FailTrace(|WAIT_SCHEDULE|) + Teardown(config)
  {
    RetryNoneIffAllFail(request, transport);
    if RetryFrom(request, transport, 0).0.None? {
      RetryUnroll(request, transport, |WAIT_SCHEDULE|);
      assert FailTrace(|WAIT_SCHEDULE|) + [] == FailTrace(|WAIT_SCHEDULE|);
    }
  }

  /** `route_add` for each route, in order. */
  function RouteAdds(rs: seq<Route>): seq<Effect>
  {
    if |rs| == 0 then []
    else RouteAdds(rs[..|rs| - 1]) + [RouteAdded(rs[|rs| - 1].net, rs[|rs| - 1].mask, rs[|rs| - 1].gateway)]
  }

  /** The host calls of `conf_routes`. */
  function RouteEffects(gateway: Option<uint32>, routes: Option<seq<Route>>): seq<Effect>
  {
    (if gateway.Some? then [RouteAdded(0, 0, gateway.value)] else [])
    + (if routes.Some? then RouteAdds(routes.value) else [])
  }

  lemma {:induction false} RouteAddsInOrder(rs: seq<Route>)
    ensures |RouteAdds(rs)| == |rs|
    ensures forall n :: 0 <= n < |rs| ==> RouteAdds(rs)[n] == RouteAdded(rs[n].net, rs[n].mask, rs[n].gateway)
  {
    if |rs| > 0 {
      RouteAddsInOrder(rs[..|rs| - 1]);
    }
  }

  /** `conf_routes` adds the default route through the gateway first,
      then each parsed route in its order, and nothing else. */
  lemma RouteEffectsInOrder(gateway: Option<uint32>, routes: Option<seq<Route>>)
    ensures gateway.Some? ==>
      && |RouteEffects(gateway, routes)| > 0
      && RouteEffects(gateway, routes)[0] == RouteAdded(0, 0, gateway.value)
      && RouteEffects(gateway, routes)[1..] == RouteEffects(None, routes)
    ensures routes.None? ==> RouteEffects(None, routes) == []
    ensures routes.Some? ==>
      && |RouteEffects(None, routes)| == |routes.value|
      && forall n :: 0 <= n < |routes.value| ==>
           RouteEffects(None, routes)[n] == RouteAdded(routes.value[n].net, routes.value[n].mask, routes.value[n].gateway)
  {
    var rest := RouteEffects(None, routes);
    assert rest == [] + (if routes.Some? then RouteAdds(routes.value) else []);
    if routes.Some? {
      RouteAddsInOrder(routes.value);
    }
    if gateway.Some? {
      assert RouteEffects(gateway, routes) == [RouteAdded(0, 0, gateway.value)] + rest;
    }
  }

  /** The host calls of `run`: those of `send_dhcp_req`, then, when it did
      not raise, those of `conf_routes` on the lease. */
  function RunEffects(config: HostConfig, request: seq<byte>, transport: nat -> SendOutcome): seq<Effect>
    requires |request| >= COOKIE_OFFSET + 4
  {
    SendEffects(config, request, transport)
    + match Negotiate(request, transport)
      case Leased(lease) => RouteEffects(lease.gateway, lease.routes)
      case Failed(_) => []
  }

  lemma RunEffectsParts(config: HostConfig, request: seq<byte>, transport: nat -> SendOutcome)
    requires |request| >= COOKIE_OFFSET + 4
    ensures Negotiate(request, transport).Leased? ==>
      var lease := Negotiate(request, transport).lease;
      RunEffects(config, request, transport) == SendEffects(config, request, transport) + RouteEffects(lease.gateway, lease.routes)
    ensures Negotiate(request, transport).Failed? ==>
      RunEffects(config, request, transport) == SendEffects(config, request, transport)
  {
    assert SendEffects(config, request, transport) + [] == SendEffects(config, request, transport);
  }

  /** Routes are added only from a lease, and only once the DHCP exchange
      and its teardown are over. */
  lemma RoutesOnlyAfterLease(config: HostConfig, request: seq<byte>, transport: nat -> SendOutcome)
    requires |request| >= COOKIE_OFFSET + 4
    ensures var e := RunEffects(config, request, transport);
      forall b :: 0 <= b < |e| && e[b].RouteAdded? ==>
        Negotiate(request, transport).Leased? && b >= |SendEffects(config, request, transport)|
  {
    var s := Setup(config);
    var l := RetryFrom(request, transport, 0).1;
    var t := Teardown(config);
    var send := s + l + t;
    RetryOnlyAttempts(request, transport, 0);
    forall b | 0 <= b < |send| ensures !send[b].RouteAdded? {
      assert send[b] in s || send[b] in l || send[b] in t by {
        if b < |s| + |l| {
          assert send[b] == (s + l)[b];
        } else {
          assert send[b] == t[b - |s| - |l|];
        }
      }
    }
  }

  // ---------------------------------------------------------------------
  // The handler.

  class DhcpHandler {
    const host: Host
    var endpoint: Option<uint32>
    var gateway: Option<uint32>
    var routes: Option<seq<Route>>

    constructor (host: Host)
      ensures this.host == host && endpoint == None && gateway == None && routes == None
    {
      this.host := host;
      endpoint := None;
      gateway := None;
      routes := None;
    }

    /** `_send_dhcp_req`: up to five attempts, each preceded by
        `allow_dhcp_broadcast`; an attempt on which `socket_send` or
        `validate_dhcp_resp` raises is followed by its sleep. */
    method SendDhcpReqLoop(request: seq<byte>, transport: nat -> SendOutcome) returns (response: Option<seq<byte>>)
      requires |request| >= COOKIE_OFFSET + 4
      modifies host
      ensures response == RetryFrom(request, transport, 0).0
      ensures host.log == old(host.log) + RetryFrom(request, transport, 0).1
    {
      ghost var done: seq<Effect> := [];
      assert done + RetryFrom(request, transport, 0).1 == RetryFrom(request, transport, 0).1;
      for k := 0 to |WAIT_SCHEDULE|
        invariant host.log == old(host.log) + done
        invariant RetryFrom(request, transport, 0).0 == RetryFrom(request, transport, k).0
        invariant RetryFrom(request, transport, 0).1 == done + RetryFrom(request, transport, k).1
      {
        RetryStep(request, transport, k);
        var outcome := transport(k);
        var accepted := Attempt(request, outcome, WAIT_SCHEDULE[k]);
        if accepted {
          return Some(outcome.response);
        }
        ghost var step := [BroadcastAllowed, Slept(WAIT_SCHEDULE[k])];
        AppendAssoc(done, step, RetryFrom(request, transport, k + 1).1);
        AppendAssoc(old(host.log), done, step);
        done := done + step;
      }
      response := None;
    }

    /** One pass of the loop's body: `allow_dhcp_broadcast`, then the
        outcome of `socket_send` checked by `validate_dhcp_resp`; when
        either raised, the sleep for this attempt follows. */
    method Attempt(request: seq<byte>, outcome: SendOutcome, duration: nat) returns (accepted: bool)
      requires |request| >= COOKIE_OFFSET + 4
      modifies host
      ensures accepted == Accepts(request, outcome)
      ensures host.log == old(host.log) + if accepted then [BroadcastAllowed] else [BroadcastAllowed, Slept(duration)]
    {
      host.AllowDhcpBroadcast();
      if outcome.Received? {
        var validation := ValidateDhcpResp(request, outcome.response);
        if !validation.Raised? {
          return true;
        }
      }
      host.Sleep(duration);
      accepted := false;
    }

    /** `send_dhcp_req`: build the request for the host's hardware address,
        set the broadcast route and stop the DHCP service as needed, run
        the loop, undo both, then raise on no response or keep the parsed
        endpoint, gateway and routes. */
    method SendDhcpReq(xid: TransactionId, transport: nat -> SendOutcome) returns (error: Option<SendError>)
      modifies this, host
      ensures host.log == old(host.log) + SendEffects(host.config, DiscoverRequest(host.config.mac, xid), transport)
      ensures var n := Negotiate(DiscoverRequest(host.config.mac, xid), transport);
        && (n.Leased? ==> error == None && endpoint == n.lease.endpoint && gateway == n.lease.gateway
                          && routes == n.lease.routes)
        && (n.Failed? ==> error == Some(n.error) && endpoint == old(endpoint) && gateway == old(gateway)
                          && routes == old(routes))
    {
      var mac := host.config.mac;
      var request := BuildDhcpRequest(mac, xid);
      LayoutIsUnique(request, DiscoverRequest(mac, xid), mac, xid);
      PrepareHost();
      var response := SendDhcpReqLoop(request, transport);
      RestoreHost();
      AppendAssoc(old(host.log), Setup(host.config), RetryFrom(request, transport, 0).1);
      AppendAssoc(old(host.log), Setup(host.config) + RetryFrom(request, transport, 0).1, Teardown(host.config));
      if response.None? {
        return Some(NoResponse);
      }
      var parsed := ParseDhcpResp(response.value);
      if parsed.Fail? {
        return Some(ParseFault(parsed.fault));
      }
      endpoint, gateway, routes := parsed.value.endpoint, parsed.value.gateway, parsed.value.routes;
      error := None;
    }

    /** The part of `send_dhcp_req` before the loop: the route for the
        DHCP broadcast when the default route is missing, then the DHCP
        service stopped when it is enabled. */
    method PrepareHost()
      modifies host
      ensures host.log == old(host.log) + Setup(host.config)
    {
      var missingDefaultRoute := host.config.missingDefaultRoute;
      var ifname := host.config.ifname;
      if missingDefaultRoute {
        host.SetRouteForDhcpBroadcast(ifname);
      }
      if host.config.dhcpEnabled {
        host.StopDhcpService();
      }
    }

    /** The part of `send_dhcp_req` after the loop: the DHCP service started
        again, then the broadcast route removed, under the same conditions. */
    method RestoreHost()
      modifies host
      ensures host.log == old(host.log) + Teardown(host.config)
    {
      if host.config.dhcpEnabled {
        host.StartDhcpService();
      }
      if host.config.missingDefaultRoute {
        host.RemoveRouteForDhcpBroadcast(host.config.ifname);
      }
    }

    /** `conf_routes`: the default route through the gateway when there is
        one, then every parsed route in order. */
    method ConfRoutes()
      modifies host
      ensures host.log == old(host.log) + RouteEffects(gateway, routes)
    {
      if gateway.Some? {
        host.RouteAdd(0, 0, gateway.value);
      }
      ghost var afterDefault := host.log;
      if routes.Some? {
        var rs := routes.value;
        for n := 0 to |rs|
          invariant host.log == afterDefault + RouteAdds(rs[..n])
        {
          host.RouteAdd(rs[n].net, rs[n].mask, rs[n].gateway);
          assert rs[..n + 1][..n] == rs[..n];
        }
        assert rs[..|rs|] == rs;
      }
    }

    /** `run`: `send_dhcp_req`, then `conf_routes` unless it raised. The
        wire-server endpoint, gateway and routes it keeps are those of the
        parsed lease. */
    method Run(xid: TransactionId, transport: nat -> SendOutcome) returns (error: Option<SendError>)
      modifies this, host
      ensures host.log == old(host.log) + RunEffects(host.config, DiscoverRequest(host.config.mac, xid), transport)
      ensures var n := Negotiate(DiscoverRequest(host.config.mac, xid), transport);
        && (n.Leased? ==> error == None && endpoint == n.lease.endpoint && gateway == n.lease.gateway
                          && routes == n.lease.routes)
        && (n.Failed? ==> error == Some(n.error) && endpoint == old(endpoint) && gateway == old(gateway)
                          && routes == old(routes))
    {
      ghost var request := DiscoverRequest(host.config.mac, xid);
      RunEffectsParts(host.config, request, transport);
      error := SendDhcpReq(xid, transport);
      if error.Some? {
        return;
      }
      ConfRoutes();
      AppendAssoc(old(host.log), SendEffects(host.config, request, transport), RouteEffects(gateway, routes));
    }
  }
}
