/**
  Length-prefixed control messages: `SendMsg` appends a frame to the out-buffer, the buffer
  drains into the socket in arbitrary pieces, and `handleRead` takes frames off the received
  bytes with arbitrarily short reads.
*/
module Framing {
  import opened ByteQueue
  import opened RingBuffer

  const LEN_SIZE := 4
  const TYPE_SIZE := 4
  const MAX_CTL_MSG_LEN := 2048
  const MAX_FRAME := LEN_SIZE + TYPE_SIZE + MAX_CTL_MSG_LEN

  /** What follows the length on the wire: the type field and the body. */
  type Message = seq<Byte>

  predicate Sendable(m: Message) {
    TYPE_SIZE <= |m| <= TYPE_SIZE + MAX_CTL_MSG_LEN
  }

  predicate AllMessages(ms: seq<Message>) {
    forall i | 0 <= i < |ms| :: Sendable(ms[i])
  }

  datatype CtlMsg = CtlMsg(len: nat, kind: seq<Byte>, data: seq<Byte>)

  /** `MakeCtlMsg`: the length covers the length field, the type and the body. */
  function MakeCtlMsg(kind: seq<Byte>, body: seq<Byte>): (msg: CtlMsg)
    requires |kind| == TYPE_SIZE && |body| <= MAX_CTL_MSG_LEN
    ensures BodySize(msg) == |body| == |msg.data| && msg.data[..BodySize(msg)] == body
    ensures Sendable(Wire(msg)) && Frame(Wire(msg)) == ToNet(msg.len) + kind + body
  {
    CtlMsg(LEN_SIZE + TYPE_SIZE + |body|, kind, body)
  }

  /** `GetCtlMsgBodySize`. */
  function BodySize(msg: CtlMsg): int {
    msg.len - TYPE_SIZE - LEN_SIZE
  }

  function Wire(msg: CtlMsg): Message {
    msg.kind + msg.data
  }

  // ---------------------------------------------------------------------------
  // Frames

  /** `htonl`. */
  function ToNet(n: nat): (b: seq<Byte>)
    requires n < 0x1_0000_0000
    ensures |b| == LEN_SIZE && FromNet(b) == n
  {
    [(n / 0x100_0000) as Byte, (n / 0x1_0000 % 0x100) as Byte, (n / 0x100 % 0x100) as Byte, (n % 0x100) as Byte]
  }

  /** `ntohl`. */
  function FromNet(b: seq<Byte>): nat
    requires |b| == LEN_SIZE
  {
    b[0] as int * 0x100_0000 + b[1] as int * 0x1_0000 + b[2] as int * 0x100 + b[3] as int
  }

  function Frame(m: Message): seq<Byte>
    requires |m| + LEN_SIZE < 0x1_0000_0000
  {
    ToNet(|m| + LEN_SIZE) + m
  }

  function Frames(ms: seq<Message>): seq<Byte>
    requires AllMessages(ms)
  {
    if ms == [] then [] else Frame(ms[0]) + Frames(ms[1..])
  }

  /** What one call of `handleRead` makes of the bytes received before EOF. */
  datatype Outcome = Got(m: Message, rest: seq<Byte>) | Closed | Bad(rest: seq<Byte>)

  function DecodeOne(s: seq<Byte>): (o: Outcome)
    ensures !o.Closed? ==> |o.rest| < |s|
  {
    if |s| == 0 then Closed
    else if |s| < LEN_SIZE then Bad([])
    else
      var len := FromNet(s[..LEN_SIZE]);
      if len > MAX_FRAME || len < LEN_SIZE then Bad(s[LEN_SIZE..])
      else if |s| < len then (if |s| == LEN_SIZE then Closed else Bad([]))
      else Got(s[LEN_SIZE..len], s[len..])
  }

  /** A bad length is skipped; what follows is read as the next frame. */
  function Decode(s: seq<Byte>): seq<Message>
    decreases |s|
  {
    match DecodeOne(s)
    case Got(m, rest) => [m] + Decode(rest)
    case Bad(rest) => Decode(rest)
    case Closed => []
  }

  /** Number of frames that lie wholly within the first n bytes. */
  function Whole(ms: seq<Message>, n: nat): (k: nat)
    requires AllMessages(ms)
    ensures k <= |ms|
  {
    if ms == [] || n < |Frame(ms[0])| then 0 else 1 + Whole(ms[1..], n - |Frame(ms[0])|)
  }

  lemma DecodeFrame(m: Message, rest: seq<Byte>)
    requires Sendable(m)
    ensures DecodeOne(Frame(m) + rest) == Got(m, rest)
  {
    var s := Frame(m) + rest;
    assert s[..LEN_SIZE] == ToNet(|m| + LEN_SIZE);
  }

  lemma DecodePartial(m: Message, n: nat)
    requires Sendable(m) && n < |Frame(m)|
    ensures DecodeOne(Frame(m)[..n]).Closed? || DecodeOne(Frame(m)[..n]) == Bad([])
  {
    if n >= LEN_SIZE {
      assert Frame(m)[..n][..LEN_SIZE] == ToNet(|m| + LEN_SIZE);
    }
  }

  lemma DecodeNext(m: Message, rest: seq<Byte>)
    requires Sendable(m)
    ensures Decode(Frame(m) + rest) == [m] + Decode(rest)
  {
    DecodeFrame(m, rest);
  }

  lemma DecodeNothing(m: Message, n: nat)
    requires Sendable(m) && n < |Frame(m)|
    ensures Decode(Frame(m)[..n]) == []
  {
    DecodePartial(m, n);
  }

  lemma Prefixes(f: seq<Byte>, rest: seq<Byte>, n: nat)
    requires n <= |f + rest|
    ensures (f + rest)[..n] == if n < |f| then f[..n] else f + rest[..n - |f|]
  {
  }

  lemma TakeOneMore(ms: seq<Message>, k: nat)
    requires k < |ms|
    ensures ms[..k + 1] == [ms[0]] + ms[1..][..k]
  {
  }

  lemma DecodeWholes(ms: seq<Message>, n: nat)
    requires AllMessages(ms) && ms != [] && n <= |Frames(ms)|
    requires n >= |Frame(ms[0])| ==>
               Decode(Frames(ms[1..])[..n - |Frame(ms[0])|]) == ms[1..][..Whole(ms[1..], n - |Frame(ms[0])|)]
    ensures Decode(Frames(ms)[..n]) == ms[..Whole(ms, n)]
  {
    var f, rest := Frame(ms[0]), Frames(ms[1..]);
    Prefixes(f, rest, n);
    if n < |f| {
      DecodeNothing(ms[0], n);
    } else {
      DecodeNext(ms[0], rest[..n - |f|]);
      TakeOneMore(ms, Whole(ms[1..], n - |f|));
    }
  }

  /** The most significant byte comes first. */
  lemma NetworkOrder()
    ensures FromNet([1, 2, 3, 4]) == 0x0102_0304 && ToNet(2056) == [0, 0, 8, 8]
  {
  }

  /** Four bytes that are no length of a frame are skipped, and what follows is read as the next frame. */
  lemma BadLengthSkipped(n: nat, rest: seq<Byte>)
    requires n < 4 || 2056 < n < 0x1_0000_0000
    ensures Decode(ToNet(n) + rest) == Decode(rest)
  {
    var s := ToNet(n) + rest;
    assert s[..LEN_SIZE] == ToNet(n) && s[LEN_SIZE..] == rest;
  }

  /** Any other length ends the frame there, if that much comes; else nothing more is decoded. */
  lemma GoodLengthTaken(n: nat, rest: seq<Byte>)
    requires 4 <= n <= 2056
    ensures Decode(ToNet(n) + rest) ==
            if |rest| < n - 4 then [] else [rest[..n - 4]] + Decode(rest[n - 4..])
  {
    LengthFirst(ToNet(n), n, rest);
  }

  lemma LengthFirst(head: seq<Byte>, n: nat, rest: seq<Byte>)
    requires |head| == 4 && FromNet(head) == n && 4 <= n <= 2056
    ensures |rest| >= n - 4 ==> DecodeOne(head + rest) == Got(rest[..n - 4], rest[n - 4..])
    ensures |rest| < n - 4 ==> DecodeOne(head + rest) in [Closed, Bad([])]
  {
    var s := head + rest;
    assert s[..LEN_SIZE] == head;
    if |rest| >= n - 4 {
      assert s[LEN_SIZE..n] == rest[..n - 4] && s[n..] == rest[n - 4..];
    }
  }

  /** However much of the stream has arrived, exactly the messages whose frames are complete are decoded. */
  lemma {:induction false} DecodeFrames(ms: seq<Message>, n: nat)
    requires AllMessages(ms)
    requires n <= |Frames(ms)|
    ensures Decode(Frames(ms)[..n]) == ms[..Whole(ms, n)]
    decreases ms
  {
    if ms != [] {
      var size := |Frame(ms[0])|;
      if n >= size { DecodeFrames(ms[1..], n - size); }
      DecodeWholes(ms, n);
    }
  }

  lemma {:induction false} WholeStream(ms: seq<Message>)
    requires AllMessages(ms)
    ensures Whole(ms, |Frames(ms)|) == |ms|
  {
    if ms != [] { WholeStream(ms[1..]); }
  }

  // ---------------------------------------------------------------------------
  // From SendMsg to handleRead

  datatype Traffic = Send(m: Message) | Flush(n: nat)

  /** The same on the byte queue. */
  function AsOp(t: Traffic): Op
    requires t.Send? ==> Sendable(t.m)
  {
    match t
    case Send(m) => Put(Frame(m))
    case Flush(n) => Take(n)
  }

  predicate AllSendable(ts: seq<Traffic>) {
    forall t | t in ts :: t.Send? ==> Sendable(t.m)
  }

  function AsOps(ts: seq<Traffic>): seq<Op>
    requires AllSendable(ts)
  {
    if ts == [] then [] else [AsOp(ts[0])] + AsOps(ts[1..])
  }

  /** The messages the buffer had room for; the others are dropped whole. */
  function Accepted(q: Queue, ts: seq<Traffic>): (ms: seq<Message>)
    requires Ok(q) && AllSendable(ts)
    ensures AllMessages(ms)
    decreases ts
  {
    if ts == [] then []
    else
      match ts[0]
      case Send(m) =>
        (if Accepts(q, |Frame(m)|) then [m] else []) + Accepted(Write(q, Frame(m)), ts[1..])
      case Flush(n) =>
        if n > |q.contents| then Accepted(q, ts[1..]) else Accepted(Drop(q, n), ts[1..])
  }

  lemma {:induction false} AcceptedBytes(q: Queue, ts: seq<Traffic>)
    requires Ok(q) && AllSendable(ts)
    ensures Run(q, AsOps(ts)).1 == Frames(Accepted(q, ts))
    decreases ts
  {
    if ts != [] {
      var t := ts[0];
      assert AsOps(ts)[0] == AsOp(t) && AsOps(ts)[1..] == AsOps(ts[1..]);
      match t
      case Send(m) =>
        var rest := Accepted(Write(q, Frame(m)), ts[1..]);
        AcceptedBytes(Write(q, Frame(m)), ts[1..]);
        if Accepts(q, |Frame(m)|) {
          assert ([m] + rest)[1..] == rest;
        } else {
          assert [] + rest == rest;
        }
      case Flush(n) =>
        if n > |q.contents| { AcceptedBytes(q, ts[1..]); } else { AcceptedBytes(Drop(q, n), ts[1..]); }
    }
  }

  /**
    Whatever is sent and however it drains, the receiver decodes a prefix of the accepted
    messages, namely those whose frames have left the buffer; once the buffer is empty it
    has decoded them all.  Messages without room change nothing for the others.
  */
  lemma FramingRoundTrip(capacity: nat, maxCapacity: nat, ts: seq<Traffic>)
    requires capacity <= maxCapacity && AllSendable(ts)
    ensures var q := Queue([], capacity, maxCapacity);
            var (q', _, drained) := Run(q, AsOps(ts));
            var ms := Accepted(q, ts);
            && Decode(drained) == ms[..Whole(ms, |drained|)]
            && (q'.contents == [] ==> Decode(drained) == ms)
  {
    var q := Queue([], capacity, maxCapacity);
    var (q', accepted, drained) := Run(q, AsOps(ts));
    var ms := Accepted(q, ts);
    HistoryConserved(q, AsOps(ts));
    AcceptedBytes(q, ts);
    assert Frames(ms) == drained + q'.contents;
    assert Frames(ms)[..|drained|] == drained;
    DecodeFrames(ms, |drained|);
    WholeStream(ms);
  }

  // ---------------------------------------------------------------------------
  // The code

  /**
    A socket that delivers `pending` and then EOF, in pieces of its own choosing, after
    `delays` calls in all that fail with EINTR or EAGAIN.
  */
  class Source {
    var pending: seq<Byte>
    var delays: nat

    constructor (bytes: seq<Byte>, delays: nat)
      ensures pending == bytes && this.delays == delays
    {
      pending := bytes;
      this.delays := delays;
    }

    /** read(2): between 1 and `max` bytes, none at EOF, or a call to be made again. */
    method Read(max: nat) returns (again: bool, chunk: seq<Byte>)
      requires max > 0
      modifies this
      ensures again ==> chunk == [] && pending == old(pending) && delays < old(delays)
      ensures !again ==>
                && delays == old(delays) && |chunk| <= max && |chunk| <= |old(pending)|
                && chunk == old(pending)[..|chunk|] && pending == old(pending)[|chunk|..]
                && (chunk == [] <==> old(pending) == [])
    {
      var wait: bool :| true;
      if wait && delays > 0 {
        delays := delays - 1;
        return true, [];
      }
      if pending == [] { return false, []; }
      assert 1 <= max && 1 <= |pending|;
      var k: nat :| 1 <= k <= max && k <= |pending|;
      chunk := pending[..k];
      pending := pending[k..];
      again := false;
    }
  }

  function Min(a: nat, b: nat): nat { if a < b then a else b }

  /** `readn`: loops over short reads and retries until `size` bytes have come or EOF. */
  method ReadN(src: Source, size: nat) returns (bytes: seq<Byte>, eof: bool)
    modifies src
    ensures var n := Min(size, |old(src.pending)|);
            bytes == old(src.pending)[..n] && src.pending == old(src.pending)[n..]
    ensures eof == (|old(src.pending)| < size)
  {
    bytes, eof := [], false;
    ghost var all := src.pending;
    while |bytes| < size
      invariant |bytes| <= size && |bytes| <= |all|
      invariant bytes == all[..|bytes|] && src.pending == all[|bytes|..] && !eof
      decreases size - |bytes|, src.delays
    {
      var again, chunk := src.Read(size - |bytes|);
      if again { continue; }
      if chunk == [] {
        eof := true;
        break;
      }
      assert all[..|bytes|] + all[|bytes|..][..|chunk|] == all[..|bytes| + |chunk|];
      assert all[|bytes|..][|chunk|..] == all[|bytes| + |chunk|..];
      bytes := bytes + chunk;
    }
  }

  /** `CtlConn::handleRead` up to the dispatch on the message type. */
  method HandleRead(src: Source) returns (o: Outcome)
    modifies src
    ensures o == DecodeOne(old(src.pending))
    ensures !o.Closed? ==> src.pending == o.rest
    ensures o.Closed? <==>
            || |old(src.pending)| == 0
            || (|old(src.pending)| == 4 && 4 < FromNet(old(src.pending)) <= 2056)
  {
    ghost var all := src.pending;
    var head, eof := ReadN(src, LEN_SIZE);
    if |head| == 0 && eof { return Closed; }
    if |head| != LEN_SIZE { return Bad(src.pending); }
    assert head == all[..LEN_SIZE];
    var len := FromNet(head);
    if len > MAX_FRAME || len < LEN_SIZE { return Bad(src.pending); }
    var body, eof' := ReadN(src, len - LEN_SIZE);
    if |body| == 0 && eof' { return Closed; }
    if |body| != len - LEN_SIZE { return Bad(src.pending); }
    assert body == all[LEN_SIZE..len] && src.pending == all[len..];
    return Got(body, src.pending);
  }

  /** The event loop calling `handleRead` until the far end has closed. */
  method ReadAll(src: Source) returns (ms: seq<Message>)
    modifies src
    ensures ms == Decode(old(src.pending))
  {
    ms := [];
    ghost var all := src.pending;
    while true
      invariant Decode(all) == ms + Decode(src.pending)
      decreases |src.pending|
    {
      var o := HandleRead(src);
      if o.Closed? { break; }
      if o.Got? { ms := ms + [o.m]; }
    }
  }

  /** `CtlConn::SendMsg`: the whole frame is queued, or nothing. */
  method SendMsg(buf: Buffer, m: Message) returns (queued: bool)
    requires buf.Valid() && Sendable(m)
    modifies buf, buf.data
    ensures buf.Valid() && (buf.data == old(buf.data) || fresh(buf.data))
    ensures buf.View() == Write(old(buf.View()), Frame(m))
    ensures queued <==> var size := |m| + 4;
                        || |old(buf.Contents())| + size <= old(buf.capacity)
                        || old(buf.capacity) + size <= old(buf.maxCapacity)
  {
    var frame := Frame(m);
    var n := buf.WriteToBuffer(frame);
    queued := n == |frame|;
  }
}
