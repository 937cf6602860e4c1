/** Whole runs of a remote reader, against a blob that is simply a byte sequence with a position. */
module RemoteRuns {
  import opened Wrappers
  import opened Int64
  import opened RemoteBlob
  import opened RemoteReader

  datatype Op = SeekTo(to: int, whence: Whence) | ReadSome(room: nat) | ReadFrom(from: int, room: nat) | CloseIt

  datatype Reply = Position(position: Result<int, Err>) | Bytes(data: seq<byte>, err: Err) | Closed

  datatype View = View(position: int, closed: bool)

  predicate Legal(op: Op) {
    match op
    case SeekTo(to, _) => Fits(to)
    case ReadFrom(from, _) => Fits(from)
    case _ => true
  }

  /** What a byte sequence of known or unknown size may reply to one operation. Servers and
      connections do not occur here: they only decide how many bytes come back. */
  ghost predicate Allows(content: seq<byte>, size: int, v: View, op: Op, reply: Reply, v': View) {
    match op
    case SeekTo(to, whence) =>
      var r := if v.closed then Err(Unavailable) else Target(size, v.position, to, whence);
      reply == Position(r) && v' == v.(position := if r.Ok? then r.value else v.position)
    case ReadSome(room) =>
      && reply.Bytes? && |reply.data| <= room
      && Holds(content, v.position, reply.data)
      && v' == v.(position := v.position + |reply.data|)
      && (v.closed ==> reply.data == [] && reply.err == AtEof)
      && (!v.closed && reply.err == AtEof ==> v'.position >= |content|)
    case ReadFrom(from, room) =>
      && reply.Bytes? && |reply.data| <= room
      && Holds(content, from, reply.data)
      && (if v.closed || from < 0 then v' == v && reply.data == [] && reply.err != Nil
          else v' == v.(position := from + |reply.data|) && (reply.err == Nil <==> |reply.data| == room))
    case CloseIt =>
      reply == Closed && v' == v.(closed := true)
  }

  ghost predicate Explained(content: seq<byte>, size: int, views: seq<View>, ops: seq<Op>, replies: seq<Reply>) {
    && |views| == |ops| + 1 && |replies| == |ops|
    && (forall i | 0 <= i < |ops| :: Allows(content, size, views[i], ops[i], replies[i], views[i + 1]))
  }

  function Data(replies: seq<Reply>): seq<byte> {
    if replies == [] then []
    else (if replies[0].Bytes? then replies[0].data else []) + Data(replies[1..])
  }

  method Perform(reader: HttpReadSeeker, op: Op) returns (reply: Reply)
    requires reader.Valid() && Legal(op)
    modifies reader
    ensures reader.Valid()
    ensures Allows(reader.content, reader.size, old(View(reader.offset, reader.closed)), op, reply,
                   View(reader.offset, reader.closed))
  {
    match op
    case SeekTo(to, whence) =>
      var r := reader.Seek(to, whence);
      reply := Position(r);
    case ReadSome(room) =>
      var p := new byte[room];
      var n, err := reader.Read(p, 0);
      reply := Bytes(p[..n], err);
    case ReadFrom(from, room) =>
      var p := new byte[room];
      var n, err := reader.ReadAt(p, from);
      reply := Bytes(p[..n], err);
    case CloseIt =>
      reader.Close();
      reply := Closed;
  }

  /** Whatever is asked of a reader, in whatever order, and whatever the network does meanwhile, a
      byte sequence with a position could have given the same replies. */
  method Play(reader: HttpReadSeeker, ops: seq<Op>) returns (replies: seq<Reply>, ghost views: seq<View>)
    requires reader.Valid() && forall op | op in ops :: Legal(op)
    modifies reader
    ensures reader.Valid()
    ensures Explained(reader.content, reader.size, views, ops, replies)
    ensures views[0] == old(View(reader.offset, reader.closed))
    ensures views[|ops|] == View(reader.offset, reader.closed)
  {
    replies := [];
    views := [View(reader.offset, reader.closed)];
    for i := 0 to |ops|
      invariant reader.Valid()
      invariant |views| == i + 1 && |replies| == i
      invariant forall j | 0 <= j < i ::
                  Allows(reader.content, reader.size, views[j], ops[j], replies[j], views[j + 1])
      invariant views[0] == old(View(reader.offset, reader.closed))
      invariant views[i] == View(reader.offset, reader.closed)
    {
      var reply := Perform(reader, ops[i]);
      replies := replies + [reply];
      views := views + [View(reader.offset, reader.closed)];
    }
  }

  /** Reads that follow each other deliver the blob without gap or repetition. */
  lemma {:induction false} ReadsAreContiguous(content: seq<byte>, size: int, views: seq<View>, ops: seq<Op>,
                                              replies: seq<Reply>)
    requires Explained(content, size, views, ops, replies)
    requires forall op | op in ops :: op.ReadSome?
    ensures Holds(content, views[0].position, Data(replies))
    ensures views[|ops|].position == views[0].position + |Data(replies)|
    decreases |ops|
  {
    if ops != [] {
      hide Allows, Holds;
      assert Allows(content, size, views[0], ops[0], replies[0], views[1]);
      FirstRead(content, size, views[0], ops[0], replies[0], views[1]);
      assert Explained(content, size, views[1..], ops[1..], replies[1..]) by {
        forall i | 0 <= i < |ops[1..]|
          ensures Allows(content, size, views[1..][i], ops[1..][i], replies[1..][i], views[1..][i + 1])
        {
          assert Allows(content, size, views[i + 1], ops[i + 1], replies[i + 1], views[i + 1 + 1]);
        }
      }
      ReadsAreContiguous(content, size, views[1..], ops[1..], replies[1..]);
      HoldsConcat(content, views[0].position, replies[0].data, Data(replies[1..]));
    } else {
      HoldsNothing(content, views[0].position);
    }
  }

  lemma {:induction false} FirstRead(content: seq<byte>, size: int, v: View, op: Op, reply: Reply, v': View)
    requires Allows(content, size, v, op, reply, v') && op.ReadSome?
    ensures reply.Bytes? && Holds(content, v.position, reply.data)
    ensures v'.position == v.position + |reply.data| && v'.closed == v.closed
    ensures !v.closed && reply.err == AtEof ==> v'.position >= |content|
  {
  }

  /** An open reader that is read until it reports the end has delivered the rest of the blob. */
  lemma {:induction false} ReadToTheEnd(content: seq<byte>, size: int, views: seq<View>, ops: seq<Op>,
                                        replies: seq<Reply>)
    requires Explained(content, size, views, ops, replies)
    requires forall op | op in ops :: op.ReadSome?
    requires ops != [] && !views[|ops| - 1].closed
    requires replies[|ops| - 1].Bytes? && replies[|ops| - 1].err == AtEof
    requires 0 <= views[0].position <= |content|
    ensures Data(replies) == content[views[0].position..]
  {
    ReadsAreContiguous(content, size, views, ops, replies);
    var n := |ops| - 1;
    assert Allows(content, size, views[n], ops[n], replies[n], views[n + 1]);
    FirstRead(content, size, views[n], ops[n], replies[n], views[n + 1]);
    if Data(replies) == [] {
      assert content[views[0].position..] == [];
    }
  }
}
