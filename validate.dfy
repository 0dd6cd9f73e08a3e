/** `validate_dhcp_resp`: the fixed byte ranges a response must share with
    the request it answers. */
module DhcpValidate {
  import opened Bytes
  import opened DhcpRequest

  /** A response shorter than 246 (0xF6) bytes is not compared at all. */
  const MIN_RESPONSE_SIZE: nat := 0xF6

  /** Which comparison raised `DhcpError`. */
  datatype Mismatch = CookieMismatch | TransactionIdMismatch | MacMismatch

  /** The three ways `validate_dhcp_resp` ends: it returns `False` (too few
      bytes), returns `None` (every range agrees) or raises `DhcpError`. */
  datatype Validation = TooFewBytes | Matched | Raised(reason: Mismatch)

  predicate CookieAgrees(request: seq<byte>, response: seq<byte>)
    requires |request| >= COOKIE_OFFSET + 4 && |response| >= MIN_RESPONSE_SIZE
  {
    CompareBytes(request, response, COOKIE_OFFSET, 4)
  }

  predicate XidAgrees(request: seq<byte>, response: seq<byte>)
    requires |request| >= COOKIE_OFFSET + 4 && |response| >= MIN_RESPONSE_SIZE
  {
    CompareBytes(request, response, XID_OFFSET, 4)
  }

  predicate MacAgrees(request: seq<byte>, response: seq<byte>)
    requires |request| >= COOKIE_OFFSET + 4 && |response| >= MIN_RESPONSE_SIZE
  {
    CompareBytes(request, response, CHADDR_OFFSET, 6)
  }

  /** The length check first, then cookie, transaction id and hardware
      address, in that order; the first disagreement decides the error. */
  function ValidateDhcpResp(request: seq<byte>, response: seq<byte>): (v: Validation)
    requires |request| >= COOKIE_OFFSET + 4
    ensures v == TooFewBytes <==> |response| < MIN_RESPONSE_SIZE
    ensures v == Matched <==>
      |response| >= MIN_RESPONSE_SIZE
      && response[COOKIE_OFFSET..COOKIE_OFFSET + 4] == request[COOKIE_OFFSET..COOKIE_OFFSET + 4]
      && response[XID_OFFSET..XID_OFFSET + 4] == request[XID_OFFSET..XID_OFFSET + 4]
      && response[CHADDR_OFFSET..CHADDR_OFFSET + 6] == request[CHADDR_OFFSET..CHADDR_OFFSET + 6]
    ensures v == Raised(CookieMismatch) <==>
      |response| >= MIN_RESPONSE_SIZE
      && response[COOKIE_OFFSET..COOKIE_OFFSET + 4] != request[COOKIE_OFFSET..COOKIE_OFFSET + 4]
    ensures v == Raised(TransactionIdMismatch) <==>
      |response| >= MIN_RESPONSE_SIZE
      && response[COOKIE_OFFSET..COOKIE_OFFSET + 4] == request[COOKIE_OFFSET..COOKIE_OFFSET + 4]
      && response[XID_OFFSET..XID_OFFSET + 4] != request[XID_OFFSET..XID_OFFSET + 4]
    ensures v == Raised(MacMismatch) <==>
      |response| >= MIN_RESPONSE_SIZE
      && response[COOKIE_OFFSET..COOKIE_OFFSET + 4] == request[COOKIE_OFFSET..COOKIE_OFFSET + 4]
      && response[XID_OFFSET..XID_OFFSET + 4] == request[XID_OFFSET..XID_OFFSET + 4]
      && response[CHADDR_OFFSET..CHADDR_OFFSET + 6] != request[CHADDR_OFFSET..CHADDR_OFFSET + 6]
  {
    if |response| < MIN_RESPONSE_SIZE then TooFewBytes
    else if !CookieAgrees(request, response) then Raised(CookieMismatch)
    else if !XidAgrees(request, response) then Raised(TransactionIdMismatch)
    else if !MacAgrees(request, response) then Raised(MacMismatch)
    else Matched
  }

  /** Whether the caller treats the response as an answer: anything but a
      raised `DhcpError`. The `False` returned for a short response is
      ignored by the retry loop, so a short response counts as an answer.
      So a response is an answer exactly when it is short or all three
      ranges agree with the request. */
  predicate Answers(request: seq<byte>, response: seq<byte>): (r: bool)
    requires |request| >= COOKIE_OFFSET + 4
    ensures r <==>
      |response| < MIN_RESPONSE_SIZE
      || (response[COOKIE_OFFSET..COOKIE_OFFSET + 4] == request[COOKIE_OFFSET..COOKIE_OFFSET + 4]
          && response[XID_OFFSET..XID_OFFSET + 4] == request[XID_OFFSET..XID_OFFSET + 4]
          && response[CHADDR_OFFSET..CHADDR_OFFSET + 6] == request[CHADDR_OFFSET..CHADDR_OFFSET + 6])
  {
    !ValidateDhcpResp(request, response).Raised?
  }

  /** An answer to a DHCPDISCOVER built for `mac` and `xid` that echoes the
      cookie, the transaction id and the hardware address passes. */
  lemma {:induction false} EchoingReplyMatches(request: seq<byte>, mac: Mac, xid: TransactionId, response: seq<byte>)
    requires IsDiscoverRequest(request, mac, xid)
    requires |response| >= MIN_RESPONSE_SIZE
    requires response[COOKIE_OFFSET..COOKIE_OFFSET + 4] == [99, 130, 83, 99]
    requires response[XID_OFFSET..XID_OFFSET + 4] == xid
    requires response[CHADDR_OFFSET..CHADDR_OFFSET + 6] == mac
    ensures ValidateDhcpResp(request, response) == Matched
  {
    assert request[COOKIE_OFFSET..COOKIE_OFFSET + 4] == request[COOKIE_OFFSET..COOKIE_OFFSET + 8][..4];
  }

  /** A reply that differs from the request only in its transaction id is
      refused even though the cookie and the hardware address match. */
  lemma {:induction false} ForeignTransactionRefused(request: seq<byte>, mac: Mac, xid: TransactionId,
                                                     other: TransactionId, response: seq<byte>)
    requires IsDiscoverRequest(request, mac, xid)
    requires other != xid
    requires |response| >= MIN_RESPONSE_SIZE
    requires response[COOKIE_OFFSET..COOKIE_OFFSET + 4] == [99, 130, 83, 99]
    requires response[XID_OFFSET..XID_OFFSET + 4] == other
    requires response[CHADDR_OFFSET..CHADDR_OFFSET + 6] == mac
    ensures ValidateDhcpResp(request, response) == Raised(TransactionIdMismatch)
  {
    assert request[COOKIE_OFFSET..COOKIE_OFFSET + 4] == request[COOKIE_OFFSET..COOKIE_OFFSET + 8][..4];
  }

  /** The request itself (244 bytes) is shorter than the 246 bytes a
      response must have, so echoing it back is "too few bytes", which the
      caller still accepts. */
  lemma {:induction false} EchoedRequestIsTooShort(request: seq<byte>, mac: Mac, xid: TransactionId)
    requires IsDiscoverRequest(request, mac, xid)
    ensures ValidateDhcpResp(request, request) == TooFewBytes
    ensures Answers(request, request)
  {
  }
}
