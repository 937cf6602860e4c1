/** Opening a remote blob at an offset: the request for a range, what an honest server may answer,
    and the check of the answer. */
module RemoteBlob {
  import opened Wrappers
  import opened Decimal

  type byte = x: int | 0 <= x < 256

  /** How a read of a body ends: nil, io.EOF, io.ErrUnexpectedEOF or any other error. */
  datatype Outcome = More | Eof | Dropped | Broken

  type Ending = outcome: Outcome | outcome != More witness Eof

  /** A body still to be read: the bytes that will arrive, and how it ends after them. The network
      decides both. */
  datatype Body = Body(bytes: seq<byte>, end: Ending)

  /** An absent Content-Range is the empty text. */
  datatype Response = Response(status: nat, contentRange: string, body: Body)

  datatype OpenError = RequestFailed | UnexpectedStatus | UnhandledRange | DiscardFailed | DiscardTooShort

  function Min(a: int, b: int): int {
    if a < b then a else b
  }

  const RANGE_UNIT := "bytes "

  /** The first position of a Content-Range, by the grammar of section 14.4 of RFC 9110:
      the unit, a space, the first position, a dash. */
  function FirstPosition(range: string): Option<nat> {
    if RANGE_UNIT <= range then
      var rest := range[|RANGE_UNIT|..];
      var d := LeadingDigits(rest);
      if d != [] && |rest| > |d| && rest[|d|] == '-' then Some(DigitsValue(d)) else None
    else
      None
  }

  /** The test that `open` makes: the header starts with "bytes k-". */
  predicate Accepts(range: string, k: nat) {
    RANGE_UNIT + Digits(k) + "-" <= range
  }

  /** The body brings the blob from an offset on: its bytes in order, all of them if it ends as it
      should, and fewer perhaps if the connection drops or breaks. */
  predicate Sends(content: seq<byte>, first: int, body: Body) {
    && 0 <= first <= |content| && body.bytes <= content[first..]
    && (body.end == Eof ==> body.bytes == content[first..])
  }

  /** A server that ignores the range sends all of the blob; one that honours some range says
      where its body starts. A status above 299 may carry anything. */
  predicate Honest(content: seq<byte>, k: nat, r: Response) {
    r.status <= 299 ==>
      if k > 0 && r.contentRange != "" then
        FirstPosition(r.contentRange).Some? ==> Sends(content, FirstPosition(r.contentRange).value, r.body)
      else
        Sends(content, 0, r.body)
  }

  lemma {:induction false} SplitPrefix(a: string, b: string, s: string)
    ensures a + b <= s <==> a <= s && b <= s[|a|..]
  {
    if a + b <= s {
      assert s[..|a|] == (a + b)[..|a|] == a;
      assert s[|a|..][..|b|] == (a + b)[|a|..] == b;
    }
    if a <= s && b <= s[|a|..] {
      assert s[..|a| + |b|] == a + b;
    }
  }

  /** Digits and a dash start a text just when they are the digits it starts with. */
  lemma {:induction false} DigitsAndDash(d: string, s: string)
    requires AllDigits(d)
    ensures d + "-" <= s <==> LeadingDigits(s) == d && |s| > |d| && s[|d|] == '-'
  {
    SplitPrefix(d, "-", s);
    if d + "-" <= s {
      assert s == d + s[|d|..];
      LeadingDigitsStop(d, s[|d|..]);
    }
  }

  /** Whatever header a server sends, it is accepted just when its first position is the offset
      asked for, printed without leading zeros: "bytes 1-" is not taken for "bytes 12-". */
  lemma {:induction false} AcceptsFirstPosition(range: string, k: nat)
    ensures Accepts(range, k) <==>
            FirstPosition(range) == Some(k) && LeadingDigits(range[|RANGE_UNIT|..]) == Digits(k)
  {
    hide Digits, LeadingDigits, DigitsValue;
    assert RANGE_UNIT + Digits(k) + "-" == RANGE_UNIT + (Digits(k) + "-");
    SplitPrefix(RANGE_UNIT, Digits(k) + "-", range);
    if RANGE_UNIT <= range {
      DigitsAndDash(Digits(k), range[|RANGE_UNIT|..]);
      DigitsRoundTrip(k);
    }
  }

  /** One read of a body. The peer chooses how much arrives, but the bytes come in order, the body
      ends only after all of them and as it was to end, and nothing is returned only for a reason. */
  method ReadBody(body: Body, room: nat) returns (chunk: seq<byte>, left: Body, outcome: Outcome)
    ensures chunk + left.bytes == body.bytes && left.end == body.end && |chunk| <= room
    ensures outcome != More ==> left.bytes == [] && outcome == body.end
    ensures outcome == More && room > 0 ==> chunk != []
  {
    var n: nat :| n <= room && n <= |body.bytes| && (n == 0 ==> room == 0 || body.bytes == []);
    chunk, left := body.bytes[..n], body.(bytes := body.bytes[n..]);
    outcome := More;
    var told: bool := *;
    if left.bytes == [] && (told || (n == 0 && room > 0)) {
      outcome := body.end;
    }
  }

  /** Reads up to k bytes of a body and drops them. It fails if the body is shorter and does not
      end as it should; it may also fail when the error comes with the last byte to drop. */
  method Discard(body: Body, k: nat) returns (n: nat, left: Body, failed: bool)
    ensures n == Min(k, |body.bytes|) && left == Body(body.bytes[n..], body.end)
    ensures failed ==> body.end != Eof && |body.bytes| <= k
    ensures |body.bytes| < k && body.end != Eof ==> failed
  {
    n, left := 0, body;
    var outcome := More;
    while n < k && outcome == More
      invariant n <= k && n <= |body.bytes| && left == Body(body.bytes[n..], body.end)
      invariant outcome != More ==> n == |body.bytes| && outcome == body.end
      decreases k - n, outcome == More
    {
      var chunk;
      chunk, left, outcome := ReadBody(left, k - n);
      n := n + |chunk|;
    }
    failed := outcome == Dropped || outcome == Broken;
  }

  /** What `open` makes of a response to a request for the blob from offset k on: every case, with
      the body it returns. The one case left open is a body that ends with an error right at the
      offset. From an honest server a success gives the blob from offset k on, whether the range was
      honoured or not. */
  method Open(ghost content: seq<byte>, k: nat, response: Option<Response>) returns (r: Result<Body, OpenError>)
    ensures response.None? ==> r == Err(RequestFailed)
    ensures response.Some? && response.value.status > 299 ==> r == Err(UnexpectedStatus)
    ensures response.Some? && response.value.status <= 299 ==>
              var range, body := response.value.contentRange, response.value.body;
              && (k == 0 ==> r == Ok(body))
              && (k > 0 && range != "" ==> r == if Accepts(range, k) then Ok(body) else Err(UnhandledRange))
              && (k > 0 && range == "" && |body.bytes| < k ==>
                    r == Err(if body.end == Eof then DiscardTooShort else DiscardFailed))
              && (k > 0 && range == "" && |body.bytes| >= k ==>
                    || r == Ok(Body(body.bytes[k..], body.end))
                    || (|body.bytes| == k && body.end != Eof && r == Err(DiscardFailed)))
    ensures response.Some? && Honest(content, k, response.value) && r.Ok? ==> Sends(content, k, r.value)
  {
    match response
    case None => return Err(RequestFailed);
    case Some(resp) =>
      if resp.status > 299 {
        return Err(UnexpectedStatus);
      }
      if k == 0 {
        return Ok(resp.body);
      }
      if resp.contentRange != "" {
        if !(RANGE_UNIT + Itoa(k) + "-" <= resp.contentRange) {
          return Err(UnhandledRange);
        }
        AcceptsFirstPosition(resp.contentRange, k);
        return Ok(resp.body);
      }
      var n, left, failed := Discard(resp.body, k);
      if failed {
        return Err(DiscardFailed);
      }
      if n != k {
        return Err(DiscardTooShort);
      }
      return Ok(left);
  }

  /** A body that brings the blob from an offset on, as far as the network lets it. */
  method Send(content: seq<byte>, first: nat) returns (body: Body)
    requires first <= |content|
    ensures Sends(content, first, body)
  {
    var rest := content[first..];
    var end: Ending, n: nat := *, *;
    body := if end == Eof || n >= |rest| then Body(rest, end) else Body(rest[..n], end);
  }

  /** An honest server's answer, or a request that fails. */
  method Ask(content: seq<byte>, k: nat) returns (response: Option<Response>)
    ensures response.Some? ==> Honest(content, k, response.value)
  {
    var status: nat, range: string, body: Body := *, *, *;
    if
    case true => response := None;
    case status > 299 => response := Some(Response(status, range, body));
    case k == 0 || range == "" =>
      body := Send(content, 0);
      response := Some(Response(status, range, body));
    case k > 0 && range != "" =>
      match FirstPosition(range)
      case None => response := Some(Response(status, range, body));
      case Some(first) =>
        response := None;
        if first <= |content| {
          body := Send(content, first);
          response := Some(Response(status, range, body));
        }
  }
}
