/** The DHCPDISCOVER request: the fixed BOOTP/DHCP message layout of
    section 2 of RFC 2131 with the magic cookie of section 2 of RFC 2132,
    option 53 "DHCP Message Type" set to DHCPDISCOVER (RFC 2132 section 9.6)
    and the End option 255 (RFC 2132 section 3.2). */
module DhcpRequest {
  import opened Bytes

  /** The request buffer is 244 (0xF4) bytes long. */
  const REQUEST_SIZE: nat := 244

  /** op = BOOTREQUEST, htype = Ethernet, hlen = 6. */
  const HEADER: seq<byte> := [1, 1, 6]

  /** Magic cookie 99.130.83.99, option 53 length 1 value 1 (DHCPDISCOVER), End. */
  const TRAILER: seq<byte> := [99, 130, 83, 99, 53, 1, 1, 255]

  const XID_OFFSET: nat := 4
  const CHADDR_OFFSET: nat := 0x1C
  const COOKIE_OFFSET: nat := 0xEC

  /** A 48-bit Ethernet hardware address. */
  type Mac = s: seq<byte> | |s| == 6 witness [0, 0, 0, 0, 0, 0]

  /** The 4-byte transaction id, drawn at random by the caller. */
  type TransactionId = s: seq<byte> | |s| == 4 witness [0, 0, 0, 0]

  /** True of the offsets that the builder writes; every other byte stays 0. */
  predicate IsFilled(k: nat)
  {
    k < 3 || XID_OFFSET <= k < XID_OFFSET + 4 || CHADDR_OFFSET <= k < CHADDR_OFFSET + 6
    || COOKIE_OFFSET <= k < COOKIE_OFFSET + 8
  }

  /** The layout of a DHCPDISCOVER request for `mac` with transaction id `xid`. */
  predicate IsDiscoverRequest(r: seq<byte>, mac: Mac, xid: TransactionId)
  {
    && |r| == REQUEST_SIZE
    && r[0..3] == HEADER
    && r[XID_OFFSET..XID_OFFSET + 4] == xid
    && r[CHADDR_OFFSET..CHADDR_OFFSET + 6] == mac
    && r[COOKIE_OFFSET..COOKIE_OFFSET + 8] == TRAILER
    && forall k :: 0 <= k < |r| && !IsFilled(k) ==> r[k] == 0
  }

  /** The byte the request carries at offset `k`. */
  function ByteAt(mac: Mac, xid: TransactionId, k: nat): byte
  {
    if k < 3 then HEADER[k]
    else if XID_OFFSET <= k < XID_OFFSET + 4 then xid[k - XID_OFFSET]
    else if CHADDR_OFFSET <= k < CHADDR_OFFSET + 6 then mac[k - CHADDR_OFFSET]
    else if COOKIE_OFFSET <= k < COOKIE_OFFSET + 8 then TRAILER[k - COOKIE_OFFSET]
    else 0
  }

  /** `build_dhcp_request`: a zeroed 244-byte buffer, then the header, the
      transaction id, the hardware address and the trailing block, each
      written by its own loop. */
  method BuildDhcpRequest(mac: Mac, xid: TransactionId) returns (request: seq<byte>)
    ensures IsDiscoverRequest(request, mac, xid)
  {
    var buf := new byte[REQUEST_SIZE](_ => 0);
    for a := 0 to 3
      invariant forall k :: 0 <= k < buf.Length ==>
        buf[k] == if k < a then ByteAt(mac, xid, k) else 0
    {
      buf[a] := HEADER[a];
    }
    for a := 0 to 4
      invariant forall k :: 0 <= k < buf.Length ==>
        buf[k] == if k < 3 || XID_OFFSET <= k < XID_OFFSET + a then ByteAt(mac, xid, k) else 0
    {
      buf[XID_OFFSET + a] := xid[a];
    }
    for a := 0 to 6
      invariant forall k :: 0 <= k < buf.Length ==>
        buf[k] == if k < 3 || XID_OFFSET <= k < XID_OFFSET + 4
                     || CHADDR_OFFSET <= k < CHADDR_OFFSET + a
                  then ByteAt(mac, xid, k) else 0
    {
      buf[CHADDR_OFFSET + a] := mac[a];
    }
    for a := 0 to 8
      invariant forall k :: 0 <= k < buf.Length ==>
        buf[k] == if k < 3 || XID_OFFSET <= k < XID_OFFSET + 4
                     || CHADDR_OFFSET <= k < CHADDR_OFFSET + 6
                     || COOKIE_OFFSET <= k < COOKIE_OFFSET + a
                  then ByteAt(mac, xid, k) else 0
    {
      buf[COOKIE_OFFSET + a] := TRAILER[a];
    }
    request := buf[..];
    LayoutFromBytes(request, mac, xid);
  }

  /** The request for `mac` and `xid` as a value: `ByteAt` at every offset. */
  function DiscoverRequest(mac: Mac, xid: TransactionId): (r: seq<byte>)
    ensures IsDiscoverRequest(r, mac, xid)
  {
    var r := seq(REQUEST_SIZE, k requires 0 <= k => ByteAt(mac, xid, k));
    LayoutFromBytes(r, mac, xid);
    r
  }

  /** A buffer that carries `ByteAt` at every offset has the request layout. */
  lemma LayoutFromBytes(r: seq<byte>, mac: Mac, xid: TransactionId)
    requires |r| == REQUEST_SIZE
    requires forall k :: 0 <= k < |r| ==> r[k] == ByteAt(mac, xid, k)
    ensures IsDiscoverRequest(r, mac, xid)
  {
    assert r[0..3] == HEADER;
    assert r[XID_OFFSET..XID_OFFSET + 4] == xid;
    assert r[CHADDR_OFFSET..CHADDR_OFFSET + 6] == mac;
    assert r[COOKIE_OFFSET..COOKIE_OFFSET + 8] == TRAILER;
  }

  /** The layout fixes every byte: two requests for the same hardware
      address and transaction id are equal. */
  lemma {:induction false} LayoutIsUnique(r1: seq<byte>, r2: seq<byte>, mac: Mac, xid: TransactionId)
    requires IsDiscoverRequest(r1, mac, xid) && IsDiscoverRequest(r2, mac, xid)
    ensures r1 == r2
  {
    forall k | 0 <= k < REQUEST_SIZE
      ensures r1[k] == r2[k]
    {
      if k < 3 {
        assert r1[k] == r1[0..3][k] && r2[k] == r2[0..3][k];
      } else if XID_OFFSET <= k < XID_OFFSET + 4 {
        assert r1[k] == r1[XID_OFFSET..XID_OFFSET + 4][k - XID_OFFSET];
        assert r2[k] == r2[XID_OFFSET..XID_OFFSET + 4][k - XID_OFFSET];
      } else if CHADDR_OFFSET <= k < CHADDR_OFFSET + 6 {
        assert r1[k] == r1[CHADDR_OFFSET..CHADDR_OFFSET + 6][k - CHADDR_OFFSET];
        assert r2[k] == r2[CHADDR_OFFSET..CHADDR_OFFSET + 6][k - CHADDR_OFFSET];
      } else if COOKIE_OFFSET <= k < COOKIE_OFFSET + 8 {
        assert r1[k] == r1[COOKIE_OFFSET..COOKIE_OFFSET + 8][k - COOKIE_OFFSET];
        assert r2[k] == r2[COOKIE_OFFSET..COOKIE_OFFSET + 8][k - COOKIE_OFFSET];
      }
    }
  }
}
