# DHCP endpoint discovery of the Azure Linux guest agent, in Dafny

When the agent starts, it finds the Azure wire server by sending its own
DHCPDISCOVER and reading the reply. The reply carries:

- the wire-server address in the private option 245;
- the default gateway in option 3;
- static routes in option 249.

The agent then installs the gateway and the routes.

This project models that component, `azurelinuxagent/distro/default/dhcp.py`, in five modules:

- `Bytes` (`bytes.dfy`): octets and 32-bit values. It also gives Python's `<<`, `>>` and `&` on non-negative integers, `unpack_big_endian` and `compare_bytes`.
- `DhcpRequest` (`request.dfy`): `build_dhcp_request`. It fills a 244-byte buffer in four loops. The layout is the BOOTP/DHCP message of section 2 of RFC 2131, with the magic cookie of section 2 of RFC 2132, option 53 DHCPDISCOVER (section 9.6 of RFC 2132) and End (section 3.2 of RFC 2132).
- `DhcpValidate` (`validate.dfy`): `validate_dhcp_resp`. It has three outcomes:
  - it returns `False` for a short response;
  - it returns `None` when the cookie, transaction id and hardware address agree;
  - otherwise it raises `DhcpError`.
- `DhcpOptions` (`options.dfy`): `parse_ip_addr`, `parse_route` and `parse_dhcp_resp`.
  - The two loops are methods. Each is proved equal to a recursive "walk" function.
  - The walk function is then related to an independent description: the list of option cursors visited, and the last cursor that carries each option.
  - `parse_route` checks no bounds. Its two failures are explicit results:
    - `IndexOutOfRange` is Python's `IndexError` past the end of the buffer;
    - `NegativeShift` is the `ValueError` of a prefix length above 32.
- `DhcpHandlerModel` (`handler.dfy`): classes for the handler and its host.
  - `DhcpHandler` has the fields `endpoint`, `gateway` and `routes`. Its methods are `_send_dhcp_req`, `send_dhcp_req`, `conf_routes` and `run`.
  - `Host` is the operating system: it records each call the handler makes to it, and each `time.sleep`.
  - The network is a function from the attempt number to the outcome of `socket_send`.
  - Every host call and the returned response are proved equal to specification functions. Lemmas about those functions state:
    - the retry schedule;
    - the first accepted answer;
    - five failures;
    - that setup and teardown bracket the attempts;
    - the order in which routes are installed.

Behaviour of the code that the model keeps as it is:

- **Short responses are accepted.** `validate_dhcp_resp` returns `False` for a response under 0xF6 bytes (dhcp.py:125-128), and `_send_dhcp_req` ignores that value (dhcp.py:83-84), so a short response ends the retry loop as a success (`DhcpHandlerModel.ShortResponseAccepted`).
- **`parse_route` checks no bounds.** It reads bytes past the end of the buffer and shifts by `32 - mask_len_bits` even when that is negative (dhcp.py:164-172). The resulting `IndexError` and `ValueError` escape `parse_dhcp_resp` and `send_dhcp_req` (dhcp.py:121), after the teardown, and `run` stops before `conf_routes` (dhcp.py:51-52).
- **A mismatched final route cursor is only logged.** The route loop runs while the cursor is below the option's end (dhcp.py:163). An entry that runs past the declared length is kept (dhcp.py:175-177, `DhcpOptions.RouteWalkOvershoot`), and the option walk then moves on by the declared length (dhcp.py:230).
- **Cleanup runs only when the loop returns.** `send_dhcp_req` restores the DHCP service and the broadcast route after `_send_dhcp_req` returns, with no `try`/`finally` (dhcp.py:111-117). In this model the loop always returns, because the only exception raised inside it is the `DhcpError` it catches.

## Model

| member | source | states |
|---|---|---|
| Bytes.BitAnd | azurelinuxagent/distro/default/dhcp.py:165-170 | Python's `&` on non-negative integers: the result is no greater than either operand |
| Bytes.BitAndOnesKeeps | azurelinuxagent/distro/default/dhcp.py:166 | `&` with 2^k - 1 keeps a value below 2^k unchanged |
| Bytes.BitAndShl | azurelinuxagent/distro/default/dhcp.py:166-170 | `x & (m << s)` is `((x >> s) & m) << s` |
| Bytes.ShlClearsLowBits | azurelinuxagent/distro/default/dhcp.py:169-170 | `y << s` has none of its `s` low bits set |
| Bytes.ShrShl | azurelinuxagent/distro/default/dhcp.py:168-170 | `>>` after `<<`: shifting left by `t` and then right by `s >= t` is shifting right by `s - t` |
| Bytes.ShrBound | azurelinuxagent/distro/default/dhcp.py:168-170 | a value below 2^n shifted right by `t` is below 2^(n-t) |
| Bytes.CompareBytes | azurelinuxagent/distro/default/dhcp.py:136-154 | `compare_bytes`: true iff the two buffers agree at every index of the range |
| Bytes.UnpackBigEndian | azurelinuxagent/distro/default/dhcp.py:168-172 | the big-endian value of `length` bytes at `offset` fits in `8*length` bits |
| Bytes.BigEndianFour | azurelinuxagent/distro/default/dhcp.py:184 | four bytes read big-endian give `a*2^24 + b*2^16 + c*2^8 + d` |
| DhcpRequest.BuildDhcpRequest | azurelinuxagent/distro/default/dhcp.py:286-315 | the buffer has 244 bytes: header 1,1,6; the transaction id at 4; the MAC at 0x1C; cookie, option 53 = DISCOVER and End at 0xEC; every other byte 0 |
| DhcpRequest.DiscoverRequest | azurelinuxagent/distro/default/dhcp.py:286-315 | the request as a value has that same layout |
| DhcpRequest.LayoutIsUnique | azurelinuxagent/distro/default/dhcp.py:286-315 | the layout fixes every byte: two requests for one MAC and transaction id are equal |
| DhcpValidate.ValidateDhcpResp | azurelinuxagent/distro/default/dhcp.py:123-154 | too few bytes iff the length is below 0xF6; otherwise cookie, then transaction id, then MAC, the first differing range deciding the error; matched iff all three agree |
| DhcpValidate.Answers | azurelinuxagent/distro/default/dhcp.py:83-86 | the retry loop takes the response iff validation does not raise: iff it is under 0xF6 bytes or cookie, transaction id and MAC all agree |
| DhcpValidate.EchoingReplyMatches | azurelinuxagent/distro/default/dhcp.py:133-154 | a long enough reply that echoes cookie, transaction id and MAC of a built request matches |
| DhcpValidate.ForeignTransactionRefused | azurelinuxagent/distro/default/dhcp.py:142-147 | a reply for another transaction id is refused with the transaction-id error even when cookie and MAC match |
| DhcpValidate.EchoedRequestIsTooShort | azurelinuxagent/distro/default/dhcp.py:124-128 | the 244-byte request is itself too short, and such a reply still counts as an answer |
| DhcpOptions.OptionLength | azurelinuxagent/distro/default/dhcp.py:210-212 | the option's length is at most 255, and non-zero only when read from the byte after the code |
| DhcpOptions.NextCursor | azurelinuxagent/distro/default/dhcp.py:230 | the cursor advances by 2 to 257 bytes per option |
| DhcpOptions.ParseIpAddr | azurelinuxagent/distro/default/dhcp.py:179-189 | an address iff `i + 5 < len` and the length byte is 4, and then the big-endian value of bytes `i+2..i+6` |
| DhcpOptions.MaskLenBytesIsCeiling | azurelinuxagent/distro/default/dhcp.py:165 | `MaskLenBytes(p)`, that is `((p + 7) & ~7) >> 3`, is ceil(p/8), at most 4 for `p <= 32` |
| DhcpOptions.MaskIsTopBits | azurelinuxagent/distro/default/dhcp.py:166 | `0xFFFFFFFF & (0xFFFFFFFF << (32 - p))` has exactly the top `p` of 32 bits set |
| DhcpOptions.NetIsLeftJustifiedPrefix | azurelinuxagent/distro/default/dhcp.py:168-170 | the shifted, masked network bytes are their first `p` bits left-justified into 32 bits |
| DhcpOptions.NetInsideMask | azurelinuxagent/distro/default/dhcp.py:168-170 | the network has no bit outside the mask (`net & ~mask == 0`) |
| DhcpOptions.RouteEntry | azurelinuxagent/distro/default/dhcp.py:163-174 | an entry that decodes ends at least 5 bytes after its start and inside the buffer |
| DhcpOptions.RouteEntryOk | azurelinuxagent/distro/default/dhcp.py:163-174 | with a prefix of at most 32 and enough bytes, the entry decodes to its network, mask, next hop (the 4 following bytes, big-endian) and end |
| DhcpOptions.RouteEntryDecodes | azurelinuxagent/distro/default/dhcp.py:163-174 | a decoded entry has prefix P in 0..32, takes 1 + ceil(P/8) + 4 bytes, and its mask and network are as above |
| DhcpOptions.RouteEntryFails | azurelinuxagent/distro/default/dhcp.py:164-172 | the entry raises `ValueError` iff the prefix exceeds 32, and `IndexError` iff a byte it reads lies past the buffer |
| DhcpOptions.RoutesFromStep | azurelinuxagent/distro/default/dhcp.py:163-174 | one iteration of the route loop: a failing entry ends the walk with its fault, a decoded one is appended after the earlier ones |
| DhcpOptions.MaskNet | azurelinuxagent/distro/default/dhcp.py:166-170 | the mask and network computed with `<<` and `&` are the prefix mask and the left-justified prefix |
| DhcpOptions.ReadRouteEntry | azurelinuxagent/distro/default/dhcp.py:164-174 | the loop body, computed as `parse_route` does (mask, shift, `&`), equals the entry decoded from its definition |
| DhcpOptions.ParseRoute | azurelinuxagent/distro/default/dhcp.py:156-177 | the loop returns exactly the entries walked from `i + 2` while the cursor is below `i + length + 2`, or the first fault |
| DhcpOptions.ApplyOption | azurelinuxagent/distro/default/dhcp.py:215-229 | the dispatch on the option code has the effect of one walk step |
| DhcpOptions.ParseDhcpResp | azurelinuxagent/distro/default/dhcp.py:191-231 | the loop's result is the walk from 0xF0 with nothing found yet |
| DhcpOptions.CursorsWalk | azurelinuxagent/distro/default/dhcp.py:207-230 | the walk starts at its first cursor; each processed cursor is inside the buffer and not on code 255; each step advances by length + 2; it stops at the end of the buffer or on code 255 |
| DhcpOptions.CursorsIncrease | azurelinuxagent/distro/default/dhcp.py:207-230 | the processed cursors strictly increase |
| DhcpOptions.LastWith | azurelinuxagent/distro/default/dhcp.py:215-229 | none iff no cursor carries the code; otherwise a cursor carrying it with none carrying it after |
| DhcpOptions.VisitFields | azurelinuxagent/distro/default/dhcp.py:215-229 | an option fails iff it is a 249 whose routes fail; 245, 3 and 249 replace endpoint, gateway and routes, and nothing else changes |
| DhcpOptions.WalkKeepsLastOccurrence | azurelinuxagent/distro/default/dhcp.py:198-231 | a successful walk ends with, for each of 245, 3 and 249, the value at the last processed cursor carrying it, and the start value when none does |
| DhcpOptions.WalkFailsOnlyOnRoutes | azurelinuxagent/distro/default/dhcp.py:218-219 | the walk fails iff some processed option 249 fails to decode |
| DhcpOptions.ExampleRouteEntry | azurelinuxagent/distro/default/dhcp.py:163-174 | the entry 24, 10.1.2, 10.0.0.3 gives (0x0A010200, 0xFFFFFF00, 0x0A000003) and takes 8 bytes |
| DhcpOptions.RouteWalkOvershoot | azurelinuxagent/distro/default/dhcp.py:163-177 | with a declared length of 1 to 8 bytes, that 8-byte entry is still decoded and returned |
| DhcpOptions.AddressOptionBytes | azurelinuxagent/distro/default/dhcp.py:179-186 | an option 3 or 245 of length 4 gives the address of its four payload bytes and advances the cursor by 6 |
| DhcpOptions.RoutesOptionBytes | azurelinuxagent/distro/default/dhcp.py:218-219 | the example option 249 gives its single route and advances the cursor by 10 |
| DhcpOptions.ExampleResponse | azurelinuxagent/distro/default/dhcp.py:207-231 | options endpoint 10.0.0.1, gateway 10.0.0.2, one route, End give that lease |
| DhcpOptions.NoEndpointOption | azurelinuxagent/distro/default/dhcp.py:198-224 | when none of the processed options is 245, a successful walk leaves the endpoint unset |
| DhcpHandlerModel.Host.constructor | azurelinuxagent/distro/default/dhcp.py:97-108 | a host with the given answers and no calls made yet |
| DhcpHandlerModel.Host.AllowDhcpBroadcast | azurelinuxagent/distro/default/dhcp.py:81 | records one `allow_dhcp_broadcast` |
| DhcpHandlerModel.Host.SetRouteForDhcpBroadcast | azurelinuxagent/distro/default/dhcp.py:104 | records the broadcast route set for the interface |
| DhcpHandlerModel.Host.RemoveRouteForDhcpBroadcast | azurelinuxagent/distro/default/dhcp.py:117 | records its removal |
| DhcpHandlerModel.Host.StopDhcpService | azurelinuxagent/distro/default/dhcp.py:109 | records the DHCP service stopped |
| DhcpHandlerModel.Host.StartDhcpService | azurelinuxagent/distro/default/dhcp.py:114 | records the DHCP service started |
| DhcpHandlerModel.Host.RouteAdd | azurelinuxagent/distro/default/dhcp.py:72-75 | records one `route_add(net, mask, gateway)` |
| DhcpHandlerModel.Host.Sleep | azurelinuxagent/distro/default/dhcp.py:87 | records one `time.sleep(seconds)` |
| DhcpHandlerModel.RetryUnroll | azurelinuxagent/distro/default/dhcp.py:79-87 | after `k` refused attempts the loop continues as if started at attempt `k`, after `k` pairs of broadcast and sleep |
| DhcpHandlerModel.RetryFirstAccepted | azurelinuxagent/distro/default/dhcp.py:79-84 | the first accepted attempt's response is returned at once, after the calls of the earlier refused attempts and one more broadcast |
| DhcpHandlerModel.RetryAllFail | azurelinuxagent/distro/default/dhcp.py:77-88 | five refused attempts return nothing, after broadcast/sleep 0, 10, 30, 60, 60 (the fifth sleep included) |
| DhcpHandlerModel.RetryNoneIffAllFail | azurelinuxagent/distro/default/dhcp.py:79-88 | nothing is returned iff all five attempts are refused |
| DhcpHandlerModel.RetryReturnsFirstAccepted | azurelinuxagent/distro/default/dhcp.py:79-84 | a returned response is the one received at the first accepted attempt, and the outcome of `validate_dhcp_resp` on it was not an exception |
| DhcpHandlerModel.ShortResponseAccepted | azurelinuxagent/distro/default/dhcp.py:83-84 | a response under 246 bytes at the first attempt is returned after a single broadcast |
| DhcpHandlerModel.ThirdAttemptAnswers | azurelinuxagent/distro/default/dhcp.py:79-87 | send failure, then a reply for another transaction, then an echoing reply: the third is returned after sleeping 0 and 10 seconds |
| DhcpHandlerModel.RetryOnlyAttempts | azurelinuxagent/distro/default/dhcp.py:79-87 | the loop makes at least one attempt, starting with a broadcast, and calls nothing but broadcasts and sleeps |
| DhcpHandlerModel.SendEffectsParts | azurelinuxagent/distro/default/dhcp.py:101-117 | the calls of `send_dhcp_req` are setup, the loop's broadcasts and sleeps, and teardown |
| DhcpHandlerModel.BroadcastRouteBrackets | azurelinuxagent/distro/default/dhcp.py:101-117 | the broadcast route is set and removed iff the default route is missing, and then is the first and the last call |
| DhcpHandlerModel.ServiceStoppedDuringAttempts | azurelinuxagent/distro/default/dhcp.py:108-114 | the DHCP service is stopped and started iff it is enabled, and then is stopped before and started after every attempt |
| DhcpHandlerModel.NoResponseAfterCleanup | azurelinuxagent/distro/default/dhcp.py:111-120 | "no response" is raised iff all five attempts are refused, and then only after setup, the five attempts and teardown |
| DhcpHandlerModel.RouteAddsInOrder | azurelinuxagent/distro/default/dhcp.py:73-75 | one `route_add` per route, in the list's order |
| DhcpHandlerModel.RouteEffectsInOrder | azurelinuxagent/distro/default/dhcp.py:66-75 | the default route (0, 0, gateway) first when there is a gateway, then exactly the parsed routes in order |
| DhcpHandlerModel.RunEffectsParts | azurelinuxagent/distro/default/dhcp.py:45-52 | `run` makes the calls of `send_dhcp_req`, then those of `conf_routes` only when a lease was parsed |
| DhcpHandlerModel.RoutesOnlyAfterLease | azurelinuxagent/distro/default/dhcp.py:45-52 | every route added by `run` comes from a parsed lease and follows the whole DHCP exchange and its teardown |
| DhcpHandlerModel.DhcpHandler.constructor | azurelinuxagent/distro/default/dhcp.py:39-43 | endpoint, gateway and routes start unset |
| DhcpHandlerModel.DhcpHandler.Attempt | azurelinuxagent/distro/default/dhcp.py:80-87 | one attempt is accepted iff `socket_send` returned and `validate_dhcp_resp` did not raise; its calls are a broadcast, then the sleep when refused |
| DhcpHandlerModel.DhcpHandler.SendDhcpReqLoop | azurelinuxagent/distro/default/dhcp.py:77-88 | the response returned and the host calls made are those of the retry specification |
| DhcpHandlerModel.DhcpHandler.PrepareHost | azurelinuxagent/distro/default/dhcp.py:101-109 | the broadcast route when the default route is missing, then the service stopped when enabled |
| DhcpHandlerModel.DhcpHandler.RestoreHost | azurelinuxagent/distro/default/dhcp.py:113-117 | the service started when enabled, then the broadcast route removed when it was set |
| DhcpHandlerModel.DhcpHandler.SendDhcpReq | azurelinuxagent/distro/default/dhcp.py:90-121 | host calls are setup, loop, teardown; on a parsed lease the three fields take its values, otherwise the error is returned and the fields are unchanged |
| DhcpHandlerModel.DhcpHandler.ConfRoutes | azurelinuxagent/distro/default/dhcp.py:66-75 | the host calls are the default route and then each parsed route |
| DhcpHandlerModel.DhcpHandler.Run | azurelinuxagent/distro/default/dhcp.py:45-52 | the calls of `send_dhcp_req` then, when it did not raise, of `conf_routes`; on a parsed lease the endpoint, gateway and routes kept are the lease's; otherwise the error is the one `send_dhcp_req` raised and the three fields are unchanged |

## Left out

- `socket_send` (dhcp.py:233-251) is UDP socket I/O. The model takes its outcome for each attempt as a parameter: the bytes received, or the `DhcpError` it raises for an `IOError`. Other exceptions it might raise are not modelled, and neither is the 1024-byte limit of `recv`: any byte string may arrive.
- `gen_trans_id` (dhcp.py:317-318) reads `os.urandom`. The transaction id is a parameter of `SendDhcpReq` and `Run`, so its uniqueness is not modelled.
- `time.sleep` is recorded as a `Slept` call on the host; no time passes.
- Logging and hex dumps are not modelled. This includes the `length < 5` message and the final-cursor message in `parse_route`.
- `wait_for_network` (dhcp.py:54-64) is not part of this model. It is an unbounded polling loop over live network state and is not called by `run`.
- `int_to_ip4_addr` (dotted-quad formatting) is not part of this model. Addresses stay 32-bit numbers, so `route_add(0, 0, gateway)` is recorded with the gateway as a number.
- `unpack_big_endian` and `compare_bytes` live in `azurelinuxagent/utils/textutil.py`, which is not part of this model. They are modelled as reading `length` bytes at `offset`, most significant first, and as comparing the two byte ranges.
- The operating-system collaborator (`distro.osutil`) is a `Host` whose queries have fixed answers. These are `get_mac_addr`, `get_if_name`, `is_missing_default_route` and `is_dhcp_enabled`. The MAC is taken to be 6 bytes. Failures of the collaborator's calls are not modelled.
- DhcpHandlerModel.DhcpHandler.SendDhcpReq: `is_dhcp_enabled()` is queried twice, before and after the loop. The model gives both calls the same answer.
