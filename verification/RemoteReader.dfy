/** A remote blob as a random-access byte sequence over connections that may drop at any moment. */
module RemoteReader {
  import opened Wrappers
  import opened Int64
  import opened RemoteBlob

  const MAX_RETRY := 3

  /** nil, and the errors a caller can tell apart. */
  datatype Err = Nil | AtEof | UnexpectedEof | OpenFailed | ReadFailed | Unavailable | InvalidArgument

  /** The reader's connection: what is left of a body, a body that has reported how it ended and
      will bring nothing more, or the empty reader used past the end. */
  datatype Connection = Live(body: Body) | Over(end: Ending) | Exhausted

  datatype Whence = SeekStart | SeekCurrent | SeekEnd | Other

  /** A position must be one that an int64 can hold. */
  function Within(position: int): Result<int, Err> {
    if 0 <= position < TWO_63 then Ok(position) else Err(InvalidArgument)
  }

  /** Where a seek leads. */
  function Target(size: int, position: int, offset: int, whence: Whence): Result<int, Err> {
    if whence.Other? then Err(InvalidArgument)
    else if whence.SeekEnd? && size == -1 then Err(Unavailable)
    else
      var base := match whence
        case SeekStart => 0
        case SeekCurrent => position
        case _ => size;
      Within(base + offset)
  }

  /** `data` is what the blob holds from `offset` on. */
  ghost predicate Holds(content: seq<byte>, offset: int, data: seq<byte>) {
    data == [] || (0 <= offset && offset + |data| <= |content| && data == content[offset..offset + |data|])
  }

  lemma {:induction false} HoldsNothing(content: seq<byte>, offset: int)
    ensures Holds(content, offset, [])
  {
  }

  lemma {:induction false} HoldsConcat(content: seq<byte>, offset: int, a: seq<byte>, b: seq<byte>)
    requires Holds(content, offset, a) && Holds(content, offset + |a|, b)
    ensures Holds(content, offset, a + b)
  {
    if a == [] {
      assert a + b == b;
    } else if b == [] {
      assert a + b == a;
    } else {
      assert a + b == content[offset..offset + |a + b|];
    }
  }

  /** A buffer with n bytes of the blob, from an offset on, put at a position and nothing else changed. */
  ghost predicate Filled(content: seq<byte>, offset: int, before: seq<byte>, after: seq<byte>, at: nat, n: nat) {
    && at + n <= |before| == |after|
    && Holds(content, offset, after[at..at + n])
    && after[..at] == before[..at] && after[at + n..] == before[at + n..]
  }

  lemma {:induction false} FilledNothing(content: seq<byte>, offset: int, p: seq<byte>, at: nat)
    requires at <= |p|
    ensures Filled(content, offset, p, p, at, 0)
  {
    assert p[at..at + 0] == [];
  }

  lemma {:induction false} FilledWith(content: seq<byte>, offset: int, before: seq<byte>, after: seq<byte>, at: nat,
                                      chunk: seq<byte>)
    requires at + |chunk| <= |before| == |after| && Holds(content, offset, chunk)
    requires forall i | 0 <= i < |before| ::
               after[i] == if at <= i < at + |chunk| then chunk[i - at] else before[i]
    ensures Filled(content, offset, before, after, at, |chunk|)
  {
    hide Holds;
    assert after[at..at + |chunk|] == chunk;
  }

  lemma {:induction false} FilledMore(content: seq<byte>, offset: int, p: seq<byte>, q: seq<byte>, r: seq<byte>,
                                      n: nat, more: nat)
    requires Filled(content, offset, p, q, 0, n) && Filled(content, offset + n, q, r, n, more)
    ensures n + more <= |p| && Filled(content, offset, p, r, 0, n + more)
  {
    hide Holds;
    HoldsConcat(content, offset, q[..n], r[n..n + more]);
    assert r[..n + more] == q[..n] + r[n..n + more];
    assert r[n + more..] == q[n..][more..] == p[n..][more..];
  }

  /** The start of what a body brings of the blob, and what it then still brings. */
  lemma {:induction false} ChunkHolds(content: seq<byte>, offset: int, body: Body, chunk: seq<byte>, left: Body)
    requires Sends(content, offset, body) && body.bytes == chunk + left.bytes && left.end == body.end
    ensures Holds(content, offset, chunk) && Sends(content, offset + |chunk|, left)
    ensures left.bytes == [] && left.end == Eof ==> offset + |chunk| == |content|
  {
    var rest := content[offset..];
    assert rest[..|body.bytes|] == body.bytes;
    assert chunk == body.bytes[..|chunk|] == rest[..|chunk|];
    assert content[offset + |chunk|..] == rest[|chunk|..];
    assert left.bytes == body.bytes[|chunk|..] == rest[|chunk|..|body.bytes|];
  }

  /** A connection stands at an offset. */
  ghost predicate Stands(content: seq<byte>, size: int, offset: int, connection: Connection) {
    match connection
    case Live(body) => Sends(content, offset, body)
    case Over(end) => end == Eof ==> offset == |content|
    case Exhausted => size != -1 && offset >= size
  }

  lemma {:induction false} SendsWithin(content: seq<byte>, offset: int, body: Body)
    requires Sends(content, offset, body)
    ensures 0 <= offset <= |content|
  {
  }

  class HttpReadSeeker {
    const content: seq<byte>
    const size: int
    var offset: int
    var rc: Option<Connection>
    var closed: bool
    var errsWithNoProgress: nat

    /** History: calls of `open`, those of them that failed and reads that failed for good, and
        the connections left open. */
    ghost var dials: nat
    ghost var failures: nat
    ghost var connections: nat

    /** Whether the current connection has brought a byte, and how many in a row have dropped since
        the last byte without bringing any. */
    ghost var delivered: bool
    ghost var barren: nat

    /** What holds apart from the connection. Up to the limit, the retries counted are those of
        connections in a row that brought nothing, and perhaps one that had brought something. */
    ghost predicate Sound()
      reads this
    {
      && |content| < TWO_63
      && (size == -1 || size == |content|)
      && 0 <= offset < TWO_63
      && (errsWithNoProgress <= MAX_RETRY + 1 ==> errsWithNoProgress <= barren + if delivered then 0 else 1)
    }

    /** An open connection always stands at the recorded offset, at most one is open, and one that
        has dropped is not kept while there are retries left to count. */
    ghost predicate Valid()
      reads this
    {
      && Sound()
      && (rc.Some? ==> Stands(content, size, offset, rc.value))
      && connections == (if rc.Some? && !rc.value.Exhausted? && !closed then 1 else 0)
      && (rc == Some(Over(Dropped)) ==> errsWithNoProgress == 0 || errsWithNoProgress > MAX_RETRY)
    }

    constructor (content: seq<byte>, size: int)
      requires |content| < TWO_63
      requires size == -1 || size == |content|
      ensures Valid() && !closed && offset == 0 && this.content == content && this.size == size
      ensures dials == 0 && failures == 0 && errsWithNoProgress == 0 && barren == 0
    {
      this.content, this.size := content, size;
      offset, rc, closed, errsWithNoProgress := 0, None, false, 0;
      dials, failures, connections, delivered, barren := 0, 0, 0, false, 0;
    }

    /** Drops the current connection. */
    method Hangup()
      requires Sound() && !closed
      modifies this`rc, this`connections, this`delivered
      ensures Valid() && rc == None && !delivered
    {
      rc, connections, delivered := None, 0, false;
    }

    /** Makes sure there is a connection at the offset; past a known end none is needed. */
    method Reader() returns (ok: bool)
      requires Valid() && !closed
      modifies this`rc, this`dials, this`failures, this`connections
      ensures Valid() && ok == rc.Some?
      ensures old(rc).Some? ==> rc == old(rc) && dials == old(dials)
      ensures old(rc).None? && (size == -1 || offset < size) ==>
                dials == old(dials) + 1 && (ok ==> rc.value.Live?)
      ensures old(rc).None? && !(size == -1 || offset < size) ==> rc == Some(Exhausted) && dials == old(dials)
      ensures failures == old(failures) + if ok then 0 else 1
    {
      if rc.Some? {
        return true;
      }
      if size == -1 || offset < size {
        dials := dials + 1;
        var response := Ask(content, offset);
        var body := Open(content, offset, response);
        match body
        case Err(_) =>
          failures := failures + 1;
          return false;
        case Ok(rc') =>
          rc, connections := Some(Live(rc')), 1;
      } else {
        rc := Some(Exhausted);
      }
      return true;
    }

    /** Reads from the current connection into p[at..], and notes whether that was progress. Once
        the connection has reported its end it only does so again. */
    method ReadConnection(p: array<byte>, at: nat) returns (n: nat, outcome: Outcome)
      requires Valid() && !closed && rc.Some? && at <= p.Length
      modifies this`rc, this`offset, this`errsWithNoProgress, this`delivered, this`barren, p
      ensures Sound() && offset == old(offset) + n && Filled(content, old(offset), old(p[..]), p[..], at, n)
      ensures outcome == Dropped || Valid()
      ensures outcome == Dropped ==> rc == Some(Over(Dropped)) && connections == 1
      ensures outcome == Eof ==> offset >= |content|
      ensures outcome == More && at < p.Length ==> n > 0 && rc.Some? && rc.value.Live?
      ensures rc.Some?
      ensures n > 0 ==> old(rc.value).Live? && errsWithNoProgress == 0 && delivered && barren == 0
      ensures n == 0 ==> delivered == old(delivered) && barren == old(barren)
      ensures n == 0 ==> errsWithNoProgress == if outcome == More then 0 else old(errsWithNoProgress)
      ensures outcome == Dropped && !old(rc.value).Live? ==> errsWithNoProgress == 0 || errsWithNoProgress > MAX_RETRY
    {
      hide Holds, Sends, Filled;
      FilledNothing(content, offset, p[..], at);
      match rc.value {
        case Exhausted =>
          n, outcome := 0, Eof;
        case Over(end) =>
          n, outcome := 0, end;
          var silent: bool := *;
          if at == p.Length && silent {
            outcome := More;
          }
        case Live(body) =>
          var chunk, left;
          chunk, left, outcome := ReadBody(body, p.Length - at);
          n := |chunk|;
          ChunkHolds(content, offset, body, chunk, left);
          SendsWithin(content, offset + n, left);
          forall i | 0 <= i < n {
            p[at + i] := chunk[i];
          }
          FilledWith(content, offset, old(p[..]), p[..], at, chunk);
          offset, rc := offset + n, Some(if outcome == More then Live(left) else Over(outcome));
      }
      if n > 0 || outcome == More {
        errsWithNoProgress := 0;
      }
      if n > 0 {
        delivered, barren := true, 0;
      }
    }

    /** What follows a drop in a read of n bytes: a new connection at the offset, unless nothing has
        arrived too often in a row. `met` says that the connection had not dropped before. */
    method Retry(n: nat, ghost met: bool) returns (err: Err)
      requires Sound() && !closed && rc == Some(Over(Dropped)) && connections == 1
      requires n > 0 ==> errsWithNoProgress == 0
      requires met || errsWithNoProgress == 0 || errsWithNoProgress > MAX_RETRY
      modifies this`rc, this`dials, this`failures, this`connections, this`delivered, this`barren,
               this`errsWithNoProgress
      ensures Valid() && (err == Nil || err == UnexpectedEof)
      ensures errsWithNoProgress == old(errsWithNoProgress) + if n == 0 then 1 else 0
      ensures barren == old(barren) + if n == 0 && met && !old(delivered) then 1 else 0
      ensures err == Nil ==>
                && errsWithNoProgress <= MAX_RETRY && failures == old(failures)
                && rc.Some? && !rc.value.Over? && (rc == Some(Exhausted) || dials > old(dials))
      ensures err != Nil ==> failures > old(failures) || errsWithNoProgress > MAX_RETRY
      ensures old(failures) <= failures
      ensures old(dials) <= dials <= old(dials) + if errsWithNoProgress <= MAX_RETRY then 1 else 0
    {
      hide Stands;
      if n == 0 {
        errsWithNoProgress := errsWithNoProgress + 1;
        if met && !delivered {
          barren := barren + 1;
        }
        delivered := false;
        if errsWithNoProgress > MAX_RETRY {
          OverStands();
          return UnexpectedEof;
        }
      }
      Hangup();
      var ok := Reader();
      return if ok then Nil else UnexpectedEof;
    }

    lemma {:induction false} OverStands()
      requires rc == Some(Over(Dropped))
      ensures Stands(content, size, offset, rc.value)
    {
    }

    /** Fills some of p[at..] with what the blob holds at the offset. A connection that drops is
        replaced at once; the caller does not see it unless the replacement fails or the connection
        was dropped more than MAX_RETRY times in a row without a byte. */
    method Read(p: array<byte>, at: nat) returns (n: nat, err: Err)
      requires Valid() && at <= p.Length
      modifies this, p
      ensures Valid() && closed == old(closed)
      ensures offset == old(offset) + n && Filled(content, old(offset), old(p[..]), p[..], at, n)
      ensures closed ==> n == 0 && err == AtEof && unchanged(this)
      ensures !closed && err == AtEof ==> offset >= |content|
      ensures err == Nil ==> rc.Some? && failures == old(failures)
      ensures err == Nil && at < p.Length ==> !rc.value.Over?
      ensures err == Nil && n == 0 && at < p.Length ==>
                && errsWithNoProgress == old(errsWithNoProgress) + 1 <= MAX_RETRY
                && (rc == Some(Exhausted) || dials > old(dials))
      ensures n > 0 ==> errsWithNoProgress == 0 && barren == 0
      ensures err != Nil && err != AtEof ==>
                failures > old(failures) || (n == 0 && errsWithNoProgress == old(errsWithNoProgress) + 1 > MAX_RETRY)
      ensures old(failures) <= failures && old(dials) <= dials
      ensures n == 0 && at < p.Length ==> errsWithNoProgress >= old(errsWithNoProgress)
      ensures n == 0 && (err == AtEof || err == OpenFailed || err == ReadFailed) ==>
                errsWithNoProgress == old(errsWithNoProgress) && barren == old(barren)
      ensures n == 0 && barren != old(barren) ==>
                barren == old(barren) + 1 && !old(delivered) && errsWithNoProgress == old(errsWithNoProgress) + 1
      ensures dials <= old(dials) + (if old(rc).Some? then 0 else 1) +
                (if n > 0 || old(errsWithNoProgress) < errsWithNoProgress <= MAX_RETRY then 1 else 0)
    {
      hide Filled, Stands;
      FilledNothing(content, offset, p[..], at);
      if closed {
        return 0, AtEof;
      }
      var ok := Reader();
      if !ok {
        return 0, OpenFailed;
      }
      ghost var met := rc.value.Live?;
      var outcome;
      n, outcome := ReadConnection(p, at);
      match outcome
      case More => err := Nil;
      case Eof => err := AtEof;
      case Dropped => err := Retry(n, met);
      case Broken =>
        failures := failures + 1;
        err := ReadFailed;
    }

    /** The retries are used up only by that many connections in a row that brought nothing. */
    lemma {:induction false} RetriesUsedUp()
      requires Valid()
      ensures errsWithNoProgress == MAX_RETRY + 1 ==> barren >= MAX_RETRY
    {
    }

    /** io.ReadFull: reads until the buffer is full or a read fails. */
    method ReadFull(p: array<byte>) returns (n: nat, err: Err)
      requires Valid()
      modifies this, p
      ensures Valid() && closed == old(closed)
      ensures offset == old(offset) + n && Filled(content, old(offset), old(p[..]), p[..], 0, n)
      ensures err == Nil <==> n == p.Length
      ensures closed ==> n == 0
      ensures err == AtEof ==> n == 0
      ensures !closed && failures == old(failures) && (err == Nil || errsWithNoProgress <= MAX_RETRY) ==>
                n == p.Length || offset >= |content|
      ensures !closed && failures == old(failures) && old(errsWithNoProgress) <= MAX_RETRY && barren < MAX_RETRY ==>
                n == p.Length || offset >= |content|
      ensures dials <= old(dials) + (MAX_RETRY + 1) * (n + 1)
    {
      hide Filled, Valid;
      n, err := 0, Nil;
      FilledNothing(content, offset, p[..], 0);
      while n < p.Length && err == Nil
        invariant Valid() && closed == old(closed)
        invariant n <= p.Length && offset == old(offset) + n
        invariant Filled(content, old(offset), old(p[..]), p[..], 0, n)
        invariant closed ==> n == 0
        invariant old(failures) <= failures && old(dials) <= dials
        invariant !closed && failures == old(failures) && err != Nil && errsWithNoProgress <= MAX_RETRY ==>
                    offset >= |content|
        invariant err == Nil && old(errsWithNoProgress) <= MAX_RETRY ==> errsWithNoProgress <= MAX_RETRY
        invariant !closed && failures == old(failures) && err != Nil && old(errsWithNoProgress) <= MAX_RETRY &&
                    barren < MAX_RETRY ==>
                    offset >= |content|
        invariant err == Nil && (n > 0 || dials > old(dials)) ==> rc.Some?
        invariant err == Nil && dials > old(dials) ==> errsWithNoProgress <= MAX_RETRY
        invariant dials <= old(dials) + 1 + (MAX_RETRY + 1) * n + Min(errsWithNoProgress, MAX_RETRY)
        decreases p.Length - n, err == Nil, MAX_RETRY + 1 - errsWithNoProgress
      {
        ghost var before := p[..];
        var nn;
        nn, err := Read(p, n);
        FilledMore(content, old(offset), old(p[..]), before, p[..], n, nn);
        n := n + nn;
        RetriesUsedUp();
      }
      if n >= p.Length {
        err := Nil;
      } else if n > 0 && err == AtEof {
        err := UnexpectedEof;
      }
    }

    /** Moves to another position; the connection is kept only if the position stays the same. */
    method Seek(to: int, whence: Whence) returns (r: Result<int, Err>)
      requires Valid() && Fits(to)
      modifies this`offset, this`rc, this`connections, this`delivered
      ensures Valid()
      ensures closed ==> r == Err(Unavailable)
      ensures !closed ==> r == Target(size, old(offset), to, whence)
      ensures !closed && whence == SeekStart ==> r == Within(to)
      ensures !closed && whence == SeekCurrent ==> r == Within(old(offset) + to)
      ensures !closed && whence == SeekEnd ==> r == if size == -1 then Err(Unavailable) else Within(size + to)
      ensures !closed && whence == Other ==> r == Err(InvalidArgument)
      ensures offset == if r.Ok? then r.value else old(offset)
      ensures rc == if offset == old(offset) then old(rc) else None
    {
      hide Wrap64;
      if closed {
        return Err(Unavailable);
      }
      var abs := offset;
      match whence {
        case SeekStart => abs := to;
        case SeekCurrent =>
          WrappedSum(abs, to);
          abs := Wrap64(abs + to);
        case SeekEnd =>
          if size == -1 {
            return Err(Unavailable);
          }
          WrappedSum(size, to);
          abs := Wrap64(size + to);
        case Other => return Err(InvalidArgument);
      }
      if abs < 0 {
        return Err(InvalidArgument);
      }
      if abs != offset {
        Hangup();
        offset := abs;
      }
      return Ok(offset);
    }

    method ReadAt(p: array<byte>, from: int) returns (n: nat, err: Err)
      requires Valid() && Fits(from)
      modifies this, p
      ensures Valid() && closed == old(closed) && Filled(content, from, old(p[..]), p[..], 0, n)
      ensures closed || from < 0 ==> n == 0 && offset == old(offset) && err != Nil
      ensures !closed && from >= 0 ==> offset == from + n && (err == Nil <==> n == p.Length)
      ensures !closed && from >= 0 && failures == old(failures) && (err == Nil || errsWithNoProgress <= MAX_RETRY) ==>
                n == Min(p.Length, if from < |content| then |content| - from else 0)
      ensures !closed && from >= 0 && failures == old(failures) && old(errsWithNoProgress) <= MAX_RETRY &&
                barren < MAX_RETRY ==>
                n == Min(p.Length, if from < |content| then |content| - from else 0)
      ensures dials <= old(dials) + (MAX_RETRY + 1) * (n + 1)
    {
      var r := Seek(from, SeekStart);
      match r
      case Err(e) =>
        FilledNothing(content, from, p[..], 0);
        return 0, e;
      case Ok(_) => n, err := ReadFull(p);
    }

    method Close()
      requires Valid()
      modifies this`closed, this`connections
      ensures Valid() && closed && connections == 0
    {
      if closed {
        return;
      }
      closed := true;
      connections := 0;
    }
  }
}
