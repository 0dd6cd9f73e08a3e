/** The option walk over a DHCP response: TLV entries from offset 0xF0,
    decoding option 3 "Router" (RFC 2132 section 3.5), option 245 (the Azure
    wire-server endpoint) and option 249 (Microsoft's classless static
    routes, whose entries are laid out like the destination descriptors of
    the "Classless Route Option Format" of RFC 3442), up to option 255. */
module DhcpOptions {
  import opened Bytes

  /** Offset of the first option: just after the magic cookie. */
  const OPTIONS_OFFSET: nat := 0xF0

  const OPTION_ROUTER: nat := 3
  const OPTION_ENDPOINT: nat := 245
  const OPTION_ROUTES: nat := 249
  const OPTION_END: nat := 255

  datatype Option<T> = None | Some(value: T)

  /** A static route as `parse_route` appends it: `(net, mask, gateway)`. */
  datatype Route = Route(net: uint32, mask: uint32, gateway: uint32)

  /** The exceptions `parse_route` can raise, since it never checks bounds:
      an index past the end of the buffer (`IndexError`) and a prefix length
      above 32, which makes `32 - mask_len_bits` a negative shift count
      (`ValueError`). */
  datatype Fault = IndexOutOfRange | NegativeShift

  datatype Result<T> = Ok(value: T) | Fail(fault: Fault)

  /** What `parse_dhcp_resp` returns: `(endpoint, gateway, routes)`. */
  datatype Lease = Lease(endpoint: Option<uint32>, gateway: Option<uint32>, routes: Option<seq<Route>>)

  const NO_LEASE: Lease := Lease(None, None, None)

  /** The length byte of the option at `i`, taken as 0 when it lies past the
      end of the buffer. */
  function OptionLength(resp: seq<byte>, i: nat): (r: nat)
    ensures r <= 0xFF
    ensures r != 0 ==> i + 1 < |resp| && r == resp[i + 1]
  {
    if i + 1 < |resp| then resp[i + 1] else 0
  }

  /** Where the walk goes after the option at `i`: past its code, its length
      byte and its payload. */
  function NextCursor(resp: seq<byte>, i: nat): (r: nat)
    ensures i + 2 <= r <= i + 0x101
  {
    i + OptionLength(resp, i) + 2
  }

  /** `parse_ip_addr`: the big-endian value of the four payload bytes, only
      when they lie inside the buffer and the length byte says 4. */
  function ParseIpAddr(resp: seq<byte>, i: nat, length: nat): (r: Option<uint32>)
    ensures r.Some? <==> i + 5 < |resp| && length == 4
    ensures r.Some? ==> i + 6 <= |resp| && r.value == BigEndian(resp[i + 2..i + 6])
  {
    if i + 5 < |resp| then
      if length != 4 then None
      else
        Ones32();
        Some(UnpackBigEndian(resp, i + 2, 4))
    else None
  }

  /** `((mask_len_bits + 7) & ~7) >> 3`: clearing the three low bits and
      shifting right by three. */
  function MaskLenBytes(maskLenBits: nat): nat
  {
    var rounded := maskLenBits + 7;
    (rounded - rounded % 8) / 8
  }

  /** `MaskLenBytes(p)` is the number of whole bytes that hold `p` bits,
      at most 4 for a prefix of at most 32 bits. */
  lemma MaskLenBytesIsCeiling(p: nat)
    ensures p <= 8 * MaskLenBytes(p) < p + 8
    ensures p <= 32 ==> MaskLenBytes(p) <= 4
  {
  }

  /** The mask of a prefix of `p` bits: its top `p` bits of 32 set. */
  function RouteMask(p: nat): (m: nat)
    requires p <= 32
    ensures m <= 0xFFFF_FFFF
  {
    OnesMonotone(p, 32);
    OnesSplit(p, 32 - p);
    Ones32();
    Shl(Ones(p), 32 - p)
  }

  /** `parse_route`'s `0xFFFFFFFF & (0xFFFFFFFF << (32 - mask_len_bits))` is
      that mask, and together with the `32 - p` low ones it makes up all 32
      bits. */
  lemma MaskIsTopBits(p: nat)
    requires p <= 32
    ensures BitAnd(0xFFFF_FFFF, Shl(0xFFFF_FFFF, 32 - p)) == RouteMask(p)
    ensures RouteMask(p) + Ones(32 - p) == 0xFFFF_FFFF
  {
    var s := 32 - p;
    Ones32();
    BitAndShl(Ones(32), Ones(32), s);
    ShrOnes(32, s);
    OnesMonotone(p, 32);
    BitAndOnesKeeps(Ones(p), 32);
    OnesSplit(p, s);
  }

  /** The network of an entry read from `MaskLenBytes(p)` address bytes: the
      first `p` bits of those bytes, left-justified into 32 bits. */
  function RouteNet(addr: nat, p: nat): (n: nat)
    requires p <= 32 && addr <= Ones(8 * MaskLenBytes(p))
    ensures n <= RouteMask(p)
  {
    PrefixBounds(addr, p);
    ShlMonotone(Shr(addr, 8 * MaskLenBytes(p) - p), Ones(p), 32 - p);
    Shl(Shr(addr, 8 * MaskLenBytes(p) - p), 32 - p)
  }

  lemma PrefixBounds(addr: nat, p: nat)
    requires p <= 32 && addr <= Ones(8 * MaskLenBytes(p))
    ensures 8 * MaskLenBytes(p) >= p
    ensures Shr(addr, 8 * MaskLenBytes(p) - p) <= Ones(p)
  {
    MaskLenBytesIsCeiling(p);
    ShrBound(addr, 8 * MaskLenBytes(p), 8 * MaskLenBytes(p) - p);
  }

  /** `parse_route`'s `(addr << (32 - mask_len_bytes * 8)) & mask` is that
      network: the address bytes moved to the top of 32 bits, their bits
      past the prefix cleared by the mask. */
  lemma NetIsLeftJustifiedPrefix(addr: nat, p: nat)
    requires p <= 32 && addr <= Ones(8 * MaskLenBytes(p))
    ensures MaskLenBytes(p) <= 4
    ensures BitAnd(Shl(addr, 32 - MaskLenBytes(p) * 8), RouteMask(p)) == RouteNet(addr, p)
  {
    MaskLenBytesIsCeiling(p);
    var nb := MaskLenBytes(p);
    var s := 32 - p;
    var t := 32 - 8 * nb;
    var shifted := Shl(addr, t);
    BitAndShl(shifted, Ones(p), s);
    ShrShl(addr, t, s);
    assert s - t == 8 * nb - p;
    var prefix := Shr(addr, 8 * nb - p);
    PrefixBounds(addr, p);
    BitAndOnesKeeps(prefix, p);
  }

  /** The network has no bit among the `32 - p` low ones, which are
      exactly the bits outside the mask. */
  lemma {:induction false} NetInsideMask(addr: nat, p: nat)
    requires p <= 32 && addr <= Ones(8 * MaskLenBytes(p))
    ensures BitAnd(RouteNet(addr, p), Ones(32 - p)) == 0
  {
    ShlClearsLowBits(Shr(addr, 8 * MaskLenBytes(p) - p), 32 - p);
  }

  /** One entry of option 249 at offset `j`: the prefix length, the network
      bytes, the next hop, and the offset just past the entry; or the
      exception `parse_route` raises on the way. */
  function RouteEntry(resp: seq<byte>, j: nat): (r: Result<(Route, nat)>)
    ensures r.Ok? ==> j + 5 <= r.value.1 <= |resp|
  {
    if j >= |resp| then Fail(IndexOutOfRange)
    else
      var p := resp[j];
      var nb := MaskLenBytes(p);
      if p > 32 then Fail(NegativeShift)
      else if j + 1 + nb > |resp| then Fail(IndexOutOfRange)
      else if j + 1 + nb + 4 > |resp| then Fail(IndexOutOfRange)
      else
        Ones32();
        var net := RouteNet(UnpackBigEndian(resp, j + 1, nb), p);
        var gateway := UnpackBigEndian(resp, j + 1 + nb, 4);
        Ok((Route(net, RouteMask(p), gateway), j + 1 + nb + 4))
  }

  /** An entry with a prefix length of at most 32 and enough bytes
      decodes, field by field, to its network, mask, next hop and end. */
  lemma RouteEntryOk(resp: seq<byte>, j: nat)
    requires j < |resp| && resp[j] <= 32 && j + 1 + MaskLenBytes(resp[j]) + 4 <= |resp|
    ensures var p := resp[j];
      var nb := MaskLenBytes(p);
      && RouteEntry(resp, j).Ok?
      && RouteEntry(resp, j).value.0.net == RouteNet(UnpackBigEndian(resp, j + 1, nb), p)
      && RouteEntry(resp, j).value.0.mask == RouteMask(p)
      && RouteEntry(resp, j).value.0.gateway == UnpackBigEndian(resp, j + 1 + nb, 4)
      && RouteEntry(resp, j).value.1 == j + 1 + nb + 4
  {
  }

  /** What a decoded entry looks like: its prefix length `P` is 0 to 32, it
      takes 1 + ceil(P/8) + 4 bytes, its mask and the `32 - P` low ones make
      up all 32 bits, and its network has no bit outside the mask. */
  lemma RouteEntryDecodes(resp: seq<byte>, j: nat)
    requires RouteEntry(resp, j).Ok?
    ensures j < |resp| && resp[j] <= 32
    ensures var nb := MaskLenBytes(resp[j]);
      RouteEntry(resp, j).value.1 == j + 1 + nb + 4 && resp[j] <= 8 * nb < resp[j] + 8
    ensures var rt := RouteEntry(resp, j).value.0;
      rt.mask + Ones(32 - resp[j]) == 0xFFFF_FFFF && BitAnd(rt.net, Ones(32 - resp[j])) == 0
  {
    RouteEntryFails(resp, j);
    var p := resp[j];
    RouteEntryOk(resp, j);
    MaskLenBytesIsCeiling(p);
    MaskIsTopBits(p);
    NetInsideMask(UnpackBigEndian(resp, j + 1, MaskLenBytes(p)), p);
  }

  /** An entry fails exactly when `parse_route` would raise: no prefix byte,
      a prefix above 32, or too few bytes left for the network or the next hop. */
  lemma RouteEntryFails(resp: seq<byte>, j: nat)
    ensures RouteEntry(resp, j) == Fail(NegativeShift) <==> j < |resp| && resp[j] > 32
    ensures RouteEntry(resp, j) == Fail(IndexOutOfRange) <==>
      j >= |resp| || (resp[j] <= 32 && j + 1 + MaskLenBytes(resp[j]) + 4 > |resp|)
  {
  }

  function PrependRoute(rt: Route, rest: Result<seq<Route>>): Result<seq<Route>>
  {
    match rest
    case Ok(rs) => Ok([rt] + rs)
    case Fail(f) => Fail(f)
  }

  function AppendRoutes(done: seq<Route>, rest: Result<seq<Route>>): Result<seq<Route>>
  {
    match rest
    case Ok(rs) => Ok(done + rs)
    case Fail(f) => Fail(f)
  }

  /** The entries decoded from offset `j` while the cursor is below `end`.
      The last entry may run past `end`; it is kept. */
  function RoutesFrom(resp: seq<byte>, j: nat, end: nat): Result<seq<Route>>
    decreases end - j
  {
    if j >= end then Ok([])
    else
      match RouteEntry(resp, j)
      case Fail(f) => Fail(f)
      case Ok((rt, next)) => PrependRoute(rt, RoutesFrom(resp, next, end))
  }

  lemma AppendNoRoutes(rest: Result<seq<Route>>)
    ensures AppendRoutes([], rest) == rest
  {
    match rest
    case Ok(rs) => assert [] + rs == rs;
    case Fail(_) =>
  }

  /** One step of the route walk: an entry that fails ends the walk with
      its fault, one that decodes puts its route after those found so far. */
  lemma RoutesFromStep(resp: seq<byte>, j: nat, end: nat, done: seq<Route>)
    requires j < end
    ensures RouteEntry(resp, j).Fail? ==>
      AppendRoutes(done, RoutesFrom(resp, j, end)) == Fail(RouteEntry(resp, j).fault)
    ensures RouteEntry(resp, j).Ok? ==>
      var (rt, next) := RouteEntry(resp, j).value;
      AppendRoutes(done, RoutesFrom(resp, j, end)) == AppendRoutes(done + [rt], RoutesFrom(resp, next, end))
  {
    if RouteEntry(resp, j).Ok? {
      var (rt, next) := RouteEntry(resp, j).value;
      match RoutesFrom(resp, next, end)
      case Ok(rs) => assert done + ([rt] + rs) == (done + [rt]) + rs;
      case Fail(_) =>
    }
  }

  /** The body of `parse_route`'s loop at cursor `j`: the prefix length, the
      mask computed from it, the network bytes shifted into place and
      masked, and the next hop; with the offset just past the entry. */
  method ReadRouteEntry(resp: seq<byte>, j: nat) returns (e: Result<(Route, nat)>)
    ensures e == RouteEntry(resp, j)
  {
    RouteEntryFails(resp, j);
    if j >= |resp| {
      return Fail(IndexOutOfRange);
    }
    var maskLenBits := resp[j];
    var maskLenBytes := MaskLenBytes(maskLenBits);
    if maskLenBits > 32 {
      return Fail(NegativeShift);
    }
    var k: nat := j + 1;
    if k + maskLenBytes > |resp| {
      return Fail(IndexOutOfRange);
    }
    var addr := UnpackBigEndian(resp, k, maskLenBytes);
    var mask, net := MaskNet(addr, maskLenBits);
    k := k + maskLenBytes;
    if k + 4 > |resp| {
      return Fail(IndexOutOfRange);
    }
    var gateway := UnpackBigEndian(resp, k, 4);
    Ones32();
    RouteEntryOk(resp, j);
    e := Ok((Route(net, mask, gateway), k + 4));
  }

  /** The mask and the network of `parse_route`'s loop body, computed as it
      does: `0xFFFFFFFF & (0xFFFFFFFF << (32 - p))`, then the address bytes
      shifted to the top of 32 bits and masked. */
  method MaskNet(addr: nat, p: nat) returns (mask: nat, net: nat)
    requires p <= 32 && addr <= Ones(8 * MaskLenBytes(p))
    ensures mask == RouteMask(p) && net == RouteNet(addr, p)
  {
    mask := BitAnd(0xFFFF_FFFF, Shl(0xFFFF_FFFF, 32 - p));
    MaskIsTopBits(p);
    NetIsLeftJustifiedPrefix(addr, p);
    net := Shl(addr, 32 - MaskLenBytes(p) * 8);
    net := BitAnd(net, mask);
  }

  /** `parse_route`: decode entries from `i + 2` while the cursor is below
      `i + length + 2`, appending each to the list. A final cursor other
      than `i + length + 2` is only logged, so the routes are returned. */
  method ParseRoute(resp: seq<byte>, i: nat, length: nat) returns (r: Result<seq<Route>>)
    ensures r == RoutesFrom(resp, i + 2, i + length + 2)
  {
    var end := i + length + 2;
    var routes: seq<Route> := [];
    var j := i + 2;
    AppendNoRoutes(RoutesFrom(resp, j, end));
    while j < end
      invariant RoutesFrom(resp, i + 2, end) == AppendRoutes(routes, RoutesFrom(resp, j, end))
      decreases end - j
    {
      RoutesFromStep(resp, j, end, routes);
      var entry := ReadRouteEntry(resp, j);
      if entry.Fail? {
        return Fail(entry.fault);
      }
      var (route, next) := entry.value;
      routes := routes + [route];
      j := next;
    }
    assert routes + [] == routes;
    r := Ok(routes);
  }

  /** The effect of the option at cursor `i` on the values found so far: a
      later option 3, 245 or 249 replaces the earlier value. */
  function VisitOption(resp: seq<byte>, i: nat, acc: Lease): Result<Lease>
    requires i < |resp|
  {
    var code := resp[i];
    var length := OptionLength(resp, i);
    if code == OPTION_ROUTES then
      match RoutesFrom(resp, i + 2, i + length + 2)
      case Ok(rs) => Ok(acc.(routes := Some(rs)))
      case Fail(f) => Fail(f)
    else if code == OPTION_ROUTER then Ok(acc.(gateway := ParseIpAddr(resp, i, length)))
    else if code == OPTION_ENDPOINT then Ok(acc.(endpoint := ParseIpAddr(resp, i, length)))
    else Ok(acc)
  }

  /** The walk from cursor `i` with the values `acc` found so far: it stops
      at the end of the buffer or at option 255. */
  function WalkFrom(resp: seq<byte>, i: nat, acc: Lease): Result<Lease>
    decreases |resp| - i
  {
    if i >= |resp| || resp[i] == OPTION_END then Ok(acc)
    else
      match VisitOption(resp, i, acc)
      case Fail(f) => Fail(f)
      case Ok(next) => WalkFrom(resp, NextCursor(resp, i), next)
  }

  /** The dispatch on the option code inside `parse_dhcp_resp`'s loop:
      option 249 is handed to `parse_route`, options 3 and 245 to
      `parse_ip_addr`, and every other code is skipped. */
  method ApplyOption(resp: seq<byte>, i: nat, length: nat, acc: Lease) returns (r: Result<Lease>)
    requires i < |resp| && length == OptionLength(resp, i)
    ensures r == VisitOption(resp, i, acc)
  {
    var option := resp[i];
    if option == OPTION_ROUTES {
      var parsed := ParseRoute(resp, i, length);
      if parsed.Fail? {
        return Fail(parsed.fault);
      }
      r := Ok(acc.(routes := Some(parsed.value)));
    } else if option == OPTION_ROUTER {
      r := Ok(acc.(gateway := ParseIpAddr(resp, i, length)));
    } else if option == OPTION_ENDPOINT {
      r := Ok(acc.(endpoint := ParseIpAddr(resp, i, length)));
    } else {
      r := Ok(acc);
    }
  }

  /** `parse_dhcp_resp`: walk the options from 0xF0, keeping the last
      endpoint, gateway and route list seen. */
  method ParseDhcpResp(resp: seq<byte>) returns (r: Result<Lease>)
    ensures r == WalkFrom(resp, OPTIONS_OFFSET, NO_LEASE)
  {
    var lease := NO_LEASE;
    var i := OPTIONS_OFFSET;
    while i < |resp|
      invariant WalkFrom(resp, OPTIONS_OFFSET, NO_LEASE) == WalkFrom(resp, i, lease)
      decreases |resp| - i
    {
      var length := 0;
      if i + 1 < |resp| {
        length := resp[i + 1];
      }
      if resp[i] == OPTION_END {
        break;
      }
      WalkStep(resp, i, lease);
      var visited := ApplyOption(resp, i, length, lease);
      if visited.Fail? {
        return Fail(visited.fault);
      }
      assert i + length + 2 == NextCursor(resp, i);
      lease := visited.value;
      i := i + length + 2;
    }
    r := Ok(lease);
  }

  // ---------------------------------------------------------------------
  // An independent description of the walk: the list of cursors it visits,
  // and for each option the last visited cursor that carries it.

  /** The cursors of the options the walk processes from `i` (the End
      option that stops it is not among them). */
  function Cursors(resp: seq<byte>, i: nat): seq<nat>
    decreases |resp| - i
  {
    if i >= |resp| || resp[i] == OPTION_END then []
    else [i] + Cursors(resp, NextCursor(resp, i))
  }

  /** Where the walk from `i` stops: after the last processed option. */
  function StopCursor(resp: seq<byte>, i: nat): nat
  {
    var cs := Cursors(resp, i);
    if |cs| == 0 then i else NextCursor(resp, cs[|cs| - 1])
  }

  /** The cursor starts at `i`, every step advances it by `length + 2`, so
      it strictly increases; every processed cursor lies inside the buffer
      on a code other than 255, and the walk stops at the end of the buffer
      or on code 255. */
  lemma {:induction false} CursorsWalk(resp: seq<byte>, i: nat)
    ensures var cs := Cursors(resp, i);
      && (|cs| > 0 ==> cs[0] == i)
      && (forall k :: 0 <= k < |cs| ==> i <= cs[k] < |resp| && resp[cs[k]] != OPTION_END)
      && (forall k :: 0 <= k < |cs| - 1 ==> cs[k + 1] == NextCursor(resp, cs[k]) >= cs[k] + 2)
      && (StopCursor(resp, i) >= |resp| || resp[StopCursor(resp, i)] == OPTION_END)
    decreases |resp| - i
  {
    if !(i >= |resp| || resp[i] == OPTION_END) {
      var n := NextCursor(resp, i);
      CursorsWalk(resp, n);
      var rest := Cursors(resp, n);
      assert Cursors(resp, i) == [i] + rest;
      if |rest| > 0 {
        assert StopCursor(resp, i) == StopCursor(resp, n);
      }
    }
  }

  /** The processed cursors strictly increase. */
  lemma CursorsIncrease(resp: seq<byte>, i: nat, k: nat, l: nat)
    requires k < l < |Cursors(resp, i)|
    ensures Cursors(resp, i)[k] < Cursors(resp, i)[l]
    decreases l - k
  {
    CursorsWalk(resp, i);
    if k + 1 < l {
      CursorsIncrease(resp, i, k + 1, l);
    }
  }

  /** The last cursor in `cs` that carries option `code`. */
  function LastWith(resp: seq<byte>, cs: seq<nat>, code: nat): (r: Option<nat>)
    ensures r.None? <==> forall k :: 0 <= k < |cs| ==> !(cs[k] < |resp| && resp[cs[k]] == code)
    ensures r.Some? ==> exists k :: 0 <= k < |cs| && cs[k] == r.value && r.value < |resp| && resp[r.value] == code
                                    && forall l :: k < l < |cs| ==> !(cs[l] < |resp| && resp[cs[l]] == code)
    decreases |cs|
  {
    if |cs| == 0 then None
    else
      var c := cs[|cs| - 1];
      if c < |resp| && resp[c] == code then Some(c)
      else LastWith(resp, cs[..|cs| - 1], code)
  }

  lemma {:induction false} LastWithCons(resp: seq<byte>, c: nat, rest: seq<nat>, code: nat)
    ensures LastWith(resp, [c] + rest, code) ==
      if LastWith(resp, rest, code).Some? then LastWith(resp, rest, code)
      else if c < |resp| && resp[c] == code then Some(c)
      else None
    decreases |rest|
  {
    if |rest| > 0 {
      assert ([c] + rest)[..|rest|] == [c] + rest[..|rest| - 1];
      LastWithCons(resp, c, rest[..|rest| - 1], code);
    } else {
      assert ([c] + rest)[..0] == [];
    }
  }

  /** The decoded routes of the option 249 at cursor `k`, if decoding succeeds. */
  function RoutesAt(resp: seq<byte>, k: nat): Option<seq<Route>>
  {
    match RoutesFrom(resp, k + 2, NextCursor(resp, k))
    case Ok(rs) => Some(rs)
    case Fail(_) => None
  }

  /** The address of the option at cursor `k`, or `default` when there is no such cursor. */
  function AddressAt(resp: seq<byte>, last: Option<nat>, default: Option<uint32>): Option<uint32>
  {
    match last
    case None => default
    case Some(k) => ParseIpAddr(resp, k, OptionLength(resp, k))
  }

  function RoutesOf(resp: seq<byte>, last: Option<nat>, default: Option<seq<Route>>): Option<seq<Route>>
  {
    match last
    case None => default
    case Some(k) => RoutesAt(resp, k)
  }

  /** One step of the walk: the option at `i` either fails, and so does the
      walk, or gives the values the rest of the walk starts from. */
  lemma WalkStep(resp: seq<byte>, i: nat, acc: Lease)
    requires i < |resp| && resp[i] != OPTION_END
    ensures VisitOption(resp, i, acc).Fail? ==> WalkFrom(resp, i, acc) == Fail(VisitOption(resp, i, acc).fault)
    ensures VisitOption(resp, i, acc).Ok? ==>
      WalkFrom(resp, i, acc) == WalkFrom(resp, NextCursor(resp, i), VisitOption(resp, i, acc).value)
  {
  }

  /** What the option at `i` does to each value: options 245, 3 and 249
      replace the endpoint, the gateway and the routes; nothing else
      changes. It fails only as an option 249 whose routes fail. */
  lemma VisitFields(resp: seq<byte>, i: nat, acc: Lease)
    requires i < |resp|
    ensures VisitOption(resp, i, acc).Fail? <==> resp[i] == OPTION_ROUTES && RoutesAt(resp, i).None?
    ensures VisitOption(resp, i, acc).Ok? ==>
      var next := VisitOption(resp, i, acc).value;
      && next.endpoint == (if resp[i] == OPTION_ENDPOINT then ParseIpAddr(resp, i, OptionLength(resp, i)) else acc.endpoint)
      && next.gateway == (if resp[i] == OPTION_ROUTER then ParseIpAddr(resp, i, OptionLength(resp, i)) else acc.gateway)
      && next.routes == (if resp[i] == OPTION_ROUTES then RoutesAt(resp, i) else acc.routes)
  {
  }

  /** A successful walk ends with, for each of options 245, 3 and 249, the
      value decoded at the LAST processed cursor carrying it, and with the
      starting value when no processed cursor carries it. */
  lemma {:induction false} WalkKeepsLastOccurrence(resp: seq<byte>, i: nat, acc: Lease)
    requires WalkFrom(resp, i, acc).Ok?
    ensures var l := WalkFrom(resp, i, acc).value;
      var cs := Cursors(resp, i);
      && l.endpoint == AddressAt(resp, LastWith(resp, cs, OPTION_ENDPOINT), acc.endpoint)
      && l.gateway == AddressAt(resp, LastWith(resp, cs, OPTION_ROUTER), acc.gateway)
      && l.routes == RoutesOf(resp, LastWith(resp, cs, OPTION_ROUTES), acc.routes)
    decreases |resp| - i
  {
    if i >= |resp| || resp[i] == OPTION_END {
      assert Cursors(resp, i) == [];
    } else {
      var n := NextCursor(resp, i);
      WalkStep(resp, i, acc);
      VisitFields(resp, i, acc);
      var next := VisitOption(resp, i, acc).value;
      WalkKeepsLastOccurrence(resp, n, next);
      var rest := Cursors(resp, n);
      assert Cursors(resp, i) == [i] + rest;
      LastWithCons(resp, i, rest, OPTION_ENDPOINT);
      LastWithCons(resp, i, rest, OPTION_ROUTER);
      LastWithCons(resp, i, rest, OPTION_ROUTES);
    }
  }

  /** The walk fails exactly when the routes of one of the processed
      option 249 fail to decode. */
  lemma {:induction false} WalkFailsOnlyOnRoutes(resp: seq<byte>, i: nat, acc: Lease)
    ensures var cs := Cursors(resp, i);
      WalkFrom(resp, i, acc).Fail? <==>
        exists k :: 0 <= k < |cs| && cs[k] < |resp| && resp[cs[k]] == OPTION_ROUTES && RoutesAt(resp, cs[k]).None?
    decreases |resp| - i
  {
    if i >= |resp| || resp[i] == OPTION_END {
      assert Cursors(resp, i) == [];
    } else {
      var n := NextCursor(resp, i);
      var rest := Cursors(resp, n);
      var cs := [i] + rest;
      assert Cursors(resp, i) == cs;
      WalkStep(resp, i, acc);
      VisitFields(resp, i, acc);
      if VisitOption(resp, i, acc).Ok? {
        WalkFailsOnlyOnRoutes(resp, n, VisitOption(resp, i, acc).value);
        if WalkFrom(resp, i, acc).Fail? {
          var k :| 0 <= k < |rest| && rest[k] < |resp| && resp[rest[k]] == OPTION_ROUTES && RoutesAt(resp, rest[k]).None?;
          assert cs[k + 1] == rest[k];
        } else {
          forall k | 0 <= k < |cs| && cs[k] < |resp| && resp[cs[k]] == OPTION_ROUTES
            ensures RoutesAt(resp, cs[k]).Some?
          {
            if k > 0 {
              assert cs[k] == rest[k - 1];
            }
          }
        }
      } else {
        assert cs[0] == i;
      }
    }
  }

  // ---------------------------------------------------------------------
  // Worked examples.

  lemma Ones24()
    ensures Shl(Ones(24), 8) == 0xFFFF_FF00
  {
    Ones32();
    OnesSplit(24, 8);
    Ones8();
  }

  /** The values behind the example entry below. */
  lemma ExampleEntryValues()
    ensures MaskLenBytes(24) == 3 && Ones(24) == 0xFF_FFFF
    ensures BigEndian([10, 1, 2]) == 0x0A_0102 && BigEndian([10, 0, 0, 3]) == 0x0A00_0003
    ensures RouteMask(24) == 0xFFFF_FF00 && RouteNet(0x0A_0102, 24) == 0x0A01_0200
  {
    Ones24();
    assert [10, 1, 2][..2] == [10, 1];
    assert [10, 1][..1] == [10];
    assert [10][..0] == [];
    BigEndianFour(10, 0, 0, 3);
    assert Shr(0x0A_0102, 0) == 0x0A_0102;
    ShlMul(0x0A_0102);
  }

  lemma ExampleEntryBytes(resp: seq<byte>, j: nat)
    requires j + 8 <= |resp| && resp[j..j + 8] == [24, 10, 1, 2, 10, 0, 0, 3]
    ensures resp[j] == 24 && resp[j + 1..j + 4] == [10, 1, 2] && resp[j + 4..j + 8] == [10, 0, 0, 3]
  {
    var e := resp[j..j + 8];
    assert resp[j] == e[0];
    assert resp[j + 1] == e[1] && resp[j + 2] == e[2] && resp[j + 3] == e[3];
    assert resp[j + 4] == e[4] && resp[j + 5] == e[5] && resp[j + 6] == e[6] && resp[j + 7] == e[7];
  }

  /** The entry `24, 10.1.2, 10.0.0.3` decodes to network 10.1.2.0, mask
      255.255.255.0 and next hop 10.0.0.3, and takes eight bytes. */
  lemma {:induction false} ExampleRouteEntry(resp: seq<byte>, j: nat)
    requires j + 8 <= |resp| && resp[j..j + 8] == [24, 10, 1, 2, 10, 0, 0, 3]
    ensures RouteEntry(resp, j) == Ok((Route(0x0A01_0200, 0xFFFF_FF00, 0x0A00_0003), j + 8))
  {
    ExampleEntryBytes(resp, j);
    ExampleEntryValues();
    RouteEntryOk(resp, j);
  }

  /** The route walk keeps an entry that runs past the end of the option:
      with a declared payload anywhere from 1 to 8 bytes, the single
      eight-byte entry above is still returned. */
  lemma {:induction false} RouteWalkOvershoot(resp: seq<byte>, j: nat, end: nat)
    requires j + 8 <= |resp| && resp[j..j + 8] == [24, 10, 1, 2, 10, 0, 0, 3]
    requires j < end <= j + 8
    ensures RoutesFrom(resp, j, end) == Ok([Route(0x0A01_0200, 0xFFFF_FF00, 0x0A00_0003)])
  {
    ExampleRouteEntry(resp, j);
    var rt := Route(0x0A01_0200, 0xFFFF_FF00, 0x0A00_0003);
    assert RoutesFrom(resp, j + 8, end) == Ok([]);
    assert [rt] + [] == [rt];
  }

  /** An option 3 or 245 carrying the four address bytes `a.b.c.d`. */
  lemma AddressOptionBytes(resp: seq<byte>, i: nat, code: byte, a: byte, b: byte, c: byte, d: byte)
    requires i + 6 <= |resp| && resp[i..i + 6] == [code, 4, a, b, c, d]
    ensures resp[i] == code && OptionLength(resp, i) == 4 && NextCursor(resp, i) == i + 6
    ensures ParseIpAddr(resp, i, 4) == Some(a * 0x100_0000 + b * 0x1_0000 + c * 0x100 + d)
  {
    var e := resp[i..i + 6];
    assert resp[i] == e[0] && resp[i + 1] == e[1];
    assert resp[i + 2] == e[2] && resp[i + 3] == e[3] && resp[i + 4] == e[4] && resp[i + 5] == e[5];
    assert resp[i + 2..i + 6] == [a, b, c, d];
    BigEndianFour(a, b, c, d);
  }

  /** The option 249 of the example: one entry, filling its eight bytes. */
  lemma RoutesOptionBytes(resp: seq<byte>, i: nat)
    requires i + 10 <= |resp| && resp[i..i + 10] == [249, 8, 24, 10, 1, 2, 10, 0, 0, 3]
    ensures resp[i] == OPTION_ROUTES && OptionLength(resp, i) == 8 && NextCursor(resp, i) == i + 10
    ensures RoutesAt(resp, i) == Some([Route(0x0A01_0200, 0xFFFF_FF00, 0x0A00_0003)])
  {
    var e := resp[i..i + 10];
    assert resp[i] == e[0] && resp[i + 1] == e[1];
    assert resp[i + 2..i + 10] == e[2..];
    RouteWalkOvershoot(resp, i + 2, i + 10);
  }

  /** A response whose options are endpoint 10.0.0.1, gateway 10.0.0.2,
      one route 10.1.2.0/24 via 10.0.0.3, then End. */
  lemma {:induction false} ExampleResponse(resp: seq<byte>)
    requires OPTIONS_OFFSET + 23 <= |resp|
    requires resp[OPTIONS_OFFSET..OPTIONS_OFFSET + 6] == [245, 4, 10, 0, 0, 1]
    requires resp[OPTIONS_OFFSET + 6..OPTIONS_OFFSET + 12] == [3, 4, 10, 0, 0, 2]
    requires resp[OPTIONS_OFFSET + 12..OPTIONS_OFFSET + 22] == [249, 8, 24, 10, 1, 2, 10, 0, 0, 3]
    requires resp[OPTIONS_OFFSET + 22] == OPTION_END
    ensures WalkFrom(resp, OPTIONS_OFFSET, NO_LEASE)
         == Ok(Lease(Some(0x0A00_0001), Some(0x0A00_0002),
                     Some([Route(0x0A01_0200, 0xFFFF_FF00, 0x0A00_0003)])))
  {
    var o := OPTIONS_OFFSET;
    AddressOptionBytes(resp, o, 245, 10, 0, 0, 1);
    AddressOptionBytes(resp, o + 6, 3, 10, 0, 0, 2);
    RoutesOptionBytes(resp, o + 12);
    var l1 := Lease(Some(0x0A00_0001), None, None);
    var l2 := Lease(Some(0x0A00_0001), Some(0x0A00_0002), None);
    var l3 := l2.(routes := Some([Route(0x0A01_0200, 0xFFFF_FF00, 0x0A00_0003)]));
    VisitFields(resp, o, NO_LEASE);
    WalkStep(resp, o, NO_LEASE);
    VisitFields(resp, o + 6, l1);
    WalkStep(resp, o + 6, l1);
    VisitFields(resp, o + 12, l2);
    WalkStep(resp, o + 12, l2);
  }

  /** A response none of whose processed options is 245 leaves the
      endpoint unset; bytes 245 inside other options do not matter. */
  lemma NoEndpointOption(resp: seq<byte>)
    requires WalkFrom(resp, OPTIONS_OFFSET, NO_LEASE).Ok?
    requires var cs := Cursors(resp, OPTIONS_OFFSET);
      forall k :: 0 <= k < |cs| ==> cs[k] < |resp| && resp[cs[k]] != OPTION_ENDPOINT
    ensures WalkFrom(resp, OPTIONS_OFFSET, NO_LEASE).value.endpoint == None
  {
    WalkKeepsLastOccurrence(resp, OPTIONS_OFFSET, NO_LEASE);
  }
}
