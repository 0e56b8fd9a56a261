/**
  One pooled proxy connection: the server's `ProxyConn` with its `PublicConn`, the
  client's `ProxyConn` with its `LocalConn`, the data FIFO in each direction and the
  part of the two control FIFOs that concerns this connection.

  Every event handler is one `Event`; `Apply` is what the handler does.  Whatever a
  handler leaves to the kernel (how many bytes a `splice` moves, which bytes arrive,
  which descriptor `accept` returns) is a parameter of the event, so a run is a
  sequence of events and a claim about every run is a claim about every sequence.
*/
module ProxyLink {
  type Fd = nat
  type ProxyId = nat

  /** What travels on a proxy connection: payload bytes and `ProxyCtlMsg` frames. */
  datatype Item =
    | Payload(b: bv8)
    | MetaSet(id: ProxyId)
    | StartReq(fd: Fd, id: ProxyId)
    | StartRsp(fd: Fd, id: ProxyId)

  const CHUNK := 2048
  const INT_MAX := 0x7fff_ffff

  /** Bytes an item occupies on the wire. */
  function WireSize(i: Item): nat {
    match i
    case Payload(_) => 1
    case MetaSet(_) => 38
    case StartReq(_, _) => 24
    case StartRsp(_, _) => 24
  }

  function Size(s: seq<Item>): nat {
    if s == [] then 0 else WireSize(s[0]) + Size(s[1..])
  }

  predicate Pay(s: seq<Item>) {
    forall i | 0 <= i < |s| :: s[i].Payload?
  }

  /**
    A `PublicConn` or a `LocalConn`.  `tran`, `closing` and `pipe` are the fields of the
    source; `input`, `sent`, `written` and `shuts` record what has happened on the outer
    socket (bytes read from it, bytes of those put on the proxy connection, items written
    to it, SHUT_WR calls), and `first` says that its EOF was taken while `half_close_` of
    its proxy end was still false.
  */
  datatype Outer =
    | NoOuter
    | Outer(fd: Fd, tran: int, closing: bool, first: bool, pipe: seq<Item>,
            input: seq<Item>, sent: seq<Item>, written: seq<Item>, shuts: nat)

  function NewOuter(fd: Fd): Outer {
    Outer(fd, 0, false, false, [], [], [], [], 0)
  }

  /** One `ProxyConn` together with the connection `start` paired it with. */
  datatype Side = Side(started: bool, halfClose: bool, recv: int, total: int, pipe: seq<Item>, outer: Outer)

  function IdleSide(): Side {
    Side(false, false, 0, -1, [], NoOuter)
  }

  function Start(x: Side, o: Outer): Side {
    x.(started := true, outer := o)
  }

  /** `resetConn`: the pipe is left as it is. */
  function Reset(x: Side): Side {
    x.(started := false, halfClose := false, recv := 0, total := -1)
  }

  function ShutWrite(o: Outer): Outer {
    if o.Outer? then o.(shuts := o.shuts + 1) else o
  }

  /** `shutdownFromRemote`: the second half-close resets the connection. */
  function FromRemote(x: Side): Side {
    var y := x.(outer := ShutWrite(x.outer));
    if x.halfClose then Reset(y) else y.(halfClose := true)
  }

  /** `shutdownFromLocal`. */
  function FromLocal(x: Side): Side {
    if x.halfClose then Reset(x) else x.(halfClose := true)
  }

  /** `incrTheoreticalTotalRecvCount`, with -1 standing for "not announced". */
  function Announce(x: Side, n: int): Side {
    x.(total := if x.total == -1 then n else x.total + n)
  }

  /** Both splices of `handleRead` in data mode: `items` enter the pipe, `m` items leave it. */
  function Absorb(x: Side, items: seq<Item>, m: int): Side
    requires m <= |x.pipe| + |items|
  {
    var pipe := x.pipe + items;
    if m < 0 then x.(pipe := pipe)
    else x.(pipe := pipe[m..],
            recv := x.recv + Size(pipe[..m]),
            outer := if x.outer.Outer? then x.outer.(written := x.outer.written + pipe[..m]) else x.outer)
  }

  /** `PublicConn::handleRead` / `LocalConn::handleRead` with data: `m` items reach the proxy connection. */
  function Forward(o: Outer, data: seq<Item>, m: nat): Outer
    requires o.Outer? && m <= |data|
  {
    var pipe := o.pipe + data;
    o.(input := o.input + data, pipe := pipe[m..], sent := o.sent + pipe[..m], tran := o.tran + m)
  }

  datatype Up = UpNotice(n: int) | UpFree

  /**
    `unclaimed`, `inMap`, `inWait` and `frees` say where the server keeps the connection
    (unclaimed map, `proxy_conn_map_`, wait map, occurrences in the free list).
    `released` counts entries into the free list during the present session and `crossed`
    records that some session so far had both EOFs taken with `half_close_` false.  `missed` says
    that the server took the client's EOF notice of the present session while the connection
    was not in its map, and dropped it.
  */
  datatype Link = Link(
    id: ProxyId, srv: Side, cli: Side, s2c: seq<Item>, c2s: seq<Item>, down: seq<int>, up: seq<Up>,
    unclaimed: bool, inMap: bool, inWait: bool, frees: nat, released: nat, crossed: bool, missed: bool)

  datatype Event =
    | Claim(fd: Fd)                       // server reads ProxyMetaSet
    | Reuse(fd: Fd)                       // server pops the connection for a new public fd
    | ClientStart(localFd: Fd)            // client reads StartProxyConnReq
    | Bind                                // server reads StartProxyConnRsp
    | SrvData(n: nat, m: int)             // server end in data mode: n items read, m written on
    | CliData(n: nat, m: int)
    | PubRead(data: seq<Item>, k: nat)    // bytes arrive on the public connection
    | LocRead(data: seq<Item>, k: nat)
    | PubEof                              // EOF on the public connection
    | LocEof
    | CliNotice                           // client takes NotifyProxyShutdownPeerConn
    | SrvNotice                           // server takes NotifyProxyShutdownPeerConn
    | FreeRequest                         // server takes FreeProxyConnReq

  /** A connection just created by `Client::handleProxyNotify`. */
  function Fresh(id: ProxyId, localFd: Fd): Link {
    Link(id, IdleSide(), Start(IdleSide(), NewOuter(localFd)), [], [MetaSet(id)], [], [],
         true, false, false, 0, 0, false, false)
  }

  predicate DataEnabled(x: Side, q: seq<Item>, n: nat, m: int) {
    && x.started
    && 1 <= n <= |q|
    && Size(q[..n]) <= CHUNK
    && -1 <= m <= |x.pipe| + n
    && (m >= 0 ==> Size((x.pipe + q[..n])[..m]) <= Size(q[..n]))
  }

  predicate ReadEnabled(o: Outer, data: seq<Item>, m: nat) {
    o.Outer? && !o.closing && Pay(data) && m <= |data| && 1 <= |data| <= CHUNK && o.tran + m <= INT_MAX
  }

  predicate Enabled(l: Link, e: Event) {
    match e
    case Claim(_) => !l.srv.started && l.c2s != [] && l.c2s[0] == MetaSet(l.id)
    case Reuse(_) => l.frees > 0
    case ClientStart(_) => !l.cli.started && l.s2c != [] && l.s2c[0].StartReq? && l.s2c[0].id == l.id
    case Bind => !l.srv.started && l.c2s != [] && l.c2s[0].StartRsp?
    case SrvData(n, m) => DataEnabled(l.srv, l.c2s, n, m)
    case CliData(n, m) => DataEnabled(l.cli, l.s2c, n, m)
    case PubRead(data, m) => ReadEnabled(l.srv.outer, data, m)
    case LocRead(data, m) => ReadEnabled(l.cli.outer, data, m)
    case PubEof => l.srv.outer.Outer? && !l.srv.outer.closing
    case LocEof => l.cli.outer.Outer? && !l.cli.outer.closing
    case CliNotice => l.down != []
    case SrvNotice => l.up != [] && l.up[0].UpNotice?
    case FreeRequest => l.up != [] && l.up[0].UpFree?
  }

  /** `Tunnel::freeProxyConn` on the server. */
  function FreeProxy(l: Link): (r: Link)
    ensures r == l.(inMap := r.inMap, frees := r.frees, released := r.released)
    ensures l.frees <= r.frees <= l.frees + 1
  {
    if !l.inMap || l.srv.started then l
    else l.(inMap := false, frees := l.frees + 1, released := l.released + 1)
  }

  /** `Tunnel::shutdownPublicConn` on the server. */
  function ShutdownPublic(l: Link): (r: Link)
    ensures r == l.(srv := r.srv, inMap := r.inMap, frees := r.frees, released := r.released)
    ensures l.frees <= r.frees <= l.frees + 1
  {
    if l.srv.recv != l.srv.total then l
    else
      var l1 := l.(srv := FromRemote(l.srv));
      if l.srv.halfClose then FreeProxy(l1) else l1
  }

  /** `Tunnel::shutdonwLocalConn` on the client. */
  function ShutdownLocal(l: Link): (r: Link)
    ensures r == l.(cli := r.cli, up := r.up) && l.up <= r.up
  {
    if l.cli.recv != l.cli.total then l
    else l.(cli := FromRemote(l.cli), up := if l.cli.halfClose then l.up + [UpFree] else l.up)
  }

  function MarkEof(o: Outer, first: bool): Outer
    requires o.Outer?
  {
    o.(closing := true, first := first)
  }

  predicate IsFirst(o: Outer) {
    o.Outer? && o.first
  }

  /** `PublicConn::handleRead` at EOF, `Tunnel::shutdownFromPublic`, `Control::shutdownFromPublic`. */
  function PublicEof(l: Link): (r: Link)
    requires l.srv.outer.Outer?
    ensures r == l.(srv := r.srv, down := r.down, crossed := r.crossed) && l.down <= r.down && (l.crossed ==> r.crossed)
  {
    if !l.inMap then l.(srv := l.srv.(outer := MarkEof(l.srv.outer, false)))
    else
      var first := !l.srv.halfClose;
      l.(srv := FromLocal(l.srv.(outer := MarkEof(l.srv.outer, first))),
         down := l.down + [l.srv.outer.tran],
         crossed := l.crossed || (first && IsFirst(l.cli.outer)))
  }

  /** `LocalConn::handleRead` at EOF, `Tunnel::shutdownFromLocal`, `Client::shutdownFromLocal`. */
  function LocalEof(l: Link): (r: Link)
    requires l.cli.outer.Outer?
    ensures r == l.(cli := r.cli, up := r.up, crossed := r.crossed) && l.up <= r.up && (l.crossed ==> r.crossed)
  {
    var first := !l.cli.halfClose;
    l.(cli := FromLocal(l.cli.(outer := MarkEof(l.cli.outer, first))),
       up := l.up + [UpNotice(l.cli.outer.tran)],
       crossed := l.crossed || (first && IsFirst(l.srv.outer)))
  }

  /** Handlers of the client. */
  predicate AtClient(e: Event) {
    e.ClientStart? || e.CliData? || e.LocRead? || e.LocEof? || e.CliNotice?
  }

  function Apply(l: Link, e: Event): (r: Link)
    requires Enabled(l, e)
    ensures r.id == l.id && (l.crossed ==> r.crossed) && r.unclaimed == (l.unclaimed && !e.Claim?)
    ensures r.inWait == (e.Reuse? || (l.inWait && !e.Bind?))
  {
    if AtClient(e) then ClientApply(l, e) else ServerApply(l, e)
  }

  /** What a handler of the client does: nothing to the server's end and its place there. */
  function ClientApply(l: Link, e: Event): (r: Link)
    requires AtClient(e) && Enabled(l, e)
    ensures r.id == l.id && r.srv == l.srv && r.unclaimed == l.unclaimed && r.inMap == l.inMap && r.inWait == l.inWait
    ensures r.frees == l.frees && r.released == l.released && r.missed == l.missed
    ensures r.down == (if e.CliNotice? then l.down[1..] else l.down) && l.up <= r.up && (l.crossed ==> r.crossed)
  {
    match e
    case ClientStart(localFd) =>
      l.(cli := Start(l.cli, NewOuter(localFd)), s2c := l.s2c[1..], c2s := l.c2s + [StartRsp(l.s2c[0].fd, l.id)])
    case CliData(n, m) =>
      var l1 := l.(cli := Absorb(l.cli, l.s2c[..n], m), s2c := l.s2c[n..]);
      if m < 0 then l1 else ShutdownLocal(l1)
    case LocRead(data, m) =>
      l.(cli := l.cli.(outer := Forward(l.cli.outer, data, m)), c2s := l.c2s + (l.cli.outer.pipe + data)[..m])
    case LocEof => LocalEof(l)
    case CliNotice =>
      ShutdownLocal(l.(cli := Announce(l.cli, l.down[0]), down := l.down[1..]))
  }

  /** What a handler of the server does: nothing to the client's end. */
  function ServerApply(l: Link, e: Event): (r: Link)
    requires !AtClient(e) && Enabled(l, e)
    ensures r.id == l.id && r.cli == l.cli && (l.crossed ==> r.crossed)
    ensures r.unclaimed == (l.unclaimed && !e.Claim?) && r.inWait == (e.Reuse? || (l.inWait && !e.Bind?))
    ensures r.up == (if e.SrvNotice? || e.FreeRequest? then l.up[1..] else l.up) && l.down <= r.down
  {
    match e
    case Claim(fd) =>
      l.(srv := Start(l.srv, NewOuter(fd)), c2s := l.c2s[1..], unclaimed := false, inMap := true)
    case Reuse(fd) =>
      l.(srv := l.srv.(outer := NoOuter), s2c := l.s2c + [StartReq(fd, l.id)],
         inWait := true, frees := l.frees - 1, released := 0, missed := false)
    case Bind =>
      if !l.inWait then l.(c2s := l.c2s[1..])
      else l.(srv := Start(l.srv, NewOuter(l.c2s[0].fd)), c2s := l.c2s[1..], inMap := true, inWait := false)
    case SrvData(n, m) =>
      var l1 := l.(srv := Absorb(l.srv, l.c2s[..n], m), c2s := l.c2s[n..]);
      if m < 0 then l1 else ShutdownPublic(l1)
    case PubRead(data, m) =>
      l.(srv := l.srv.(outer := Forward(l.srv.outer, data, m)), s2c := l.s2c + (l.srv.outer.pipe + data)[..m])
    case PubEof => PublicEof(l)
    case SrvNotice =>
      var l1 := l.(up := l.up[1..]);
      if !l.inMap then l1.(missed := true) else ShutdownPublic(l1.(srv := Announce(l.srv, l.up[0].n)))
    case FreeRequest => FreeProxy(l.(up := l.up[1..]))
  }

  // ---------------------------------------------------------------------------
  // Sizes

  lemma {:induction false} SizePay(s: seq<Item>)
    requires Pay(s)
    ensures Size(s) == |s|
  {
    if s != [] { SizePay(s[1..]); }
  }

  lemma {:induction false} SizeAppend(a: seq<Item>, b: seq<Item>)
    ensures Size(a + b) == Size(a) + Size(b)
  {
    if a == [] {
      assert a + b == b;
    } else {
      assert (a + b)[1..] == a[1..] + b;
      SizeAppend(a[1..], b);
    }
  }

  // ---------------------------------------------------------------------------
  // The invariant of every run

  /** Bookkeeping of one outer connection: what was read is what was sent plus what is still in its pipe. */
  predicate OuterOk(o: Outer) {
    o.Outer? ==>
      && o.tran == |o.sent| <= INT_MAX
      && Pay(o.sent) && Pay(o.pipe)
      && o.input == o.sent + o.pipe
      && o.shuts <= 1
      && (o.first ==> o.closing)
  }

  predicate Clean(x: Side) {
    !x.started && !x.halfClose && x.recv == 0 && x.total == -1 && x.pipe == []
  }

  /** In a session, at most one of the two half-closes taken. */
  predicate Live(x: Side) {
    && x.started
    && x.outer.Outer?
    && x.halfClose == (x.outer.closing || x.outer.shuts == 1)
    && !(x.outer.closing && x.outer.shuts == 1)
    && x.outer.first == x.outer.closing
  }

  /** Both half-closes taken and the connection reset. */
  predicate Done(x: Side) {
    Clean(x) && x.outer.Outer? && x.outer.closing && x.outer.shuts == 1
  }

  /** Bytes forwarded by `o` towards `x`: written, in the pipe, or still on the way, in this order. */
  predicate Flow(o: Outer, q: seq<Item>, x: Side) {
    && o.Outer? && x.outer.Outer?
    && o.sent == x.outer.written + x.pipe + q
    && x.recv == |x.outer.written|
  }

  /** Everything `o` forwarded has been written on, nothing is left over. */
  predicate Delivered(o: Outer, q: seq<Item>, x: Side) {
    o.Outer? && o.closing && q == [] && x.outer.Outer? && x.outer.written == o.sent
  }

  /** The far total is unknown, or it is right; SHUT_WR has been executed exactly when it has been reached. */
  predicate Heard(o: Outer, x: Side) {
    && o.Outer? && x.outer.Outer?
    && (x.total == -1 || (o.closing && x.total == o.tran))
    && (x.outer.shuts == 1 <==> x.total != -1 && x.recv == x.total)
  }

  /** The server-to-client direction of a session both ends take part in. */
  predicate DownOk(l: Link) {
    var pub := l.srv.outer;
    pub.Outer? &&
    if Live(l.cli) then
      && Flow(pub, l.s2c, l.cli)
      && Heard(pub, l.cli)
      && l.down == (if pub.closing && l.cli.total == -1 then [pub.tran] else [])
    else
      Done(l.cli) && Delivered(pub, l.s2c, l.cli) && l.down == []
  }

  /** What the client end has yet to tell: its notice, and the release request if it finished second. */
  function Untold(l: Link): seq<Up>
    requires l.cli.outer.Outer?
  {
    (if l.cli.outer.closing then [UpNotice(l.cli.outer.tran)] else []) + FreeTail(l)
  }

  function FreeTail(l: Link): seq<Up>
    requires l.cli.outer.Outer?
  {
    if Done(l.cli) && l.cli.outer.first then [UpFree] else []
  }

  /** Requests of an earlier, crossed session may still be in front. */
  predicate UpOk(l: Link) {
    l.cli.outer.Outer? &&
    if Done(l.srv) then l.up == FreeTail(l) && !l.missed
    else if l.srv.total != -1 then (l.up == FreeTail(l) || (l.up == [] && l.crossed)) && !l.missed
    else if l.missed then l.cli.outer.first && (l.up == FreeTail(l) || (l.up == [] && l.crossed))
    else l.up == Untold(l) || (l.up == [UpFree] + Untold(l) && l.crossed)
  }

  predicate Active(l: Link) {
    && l.inMap && !l.inWait && !l.unclaimed && l.frees == 0 && l.released == 0
    && (Live(l.srv) || (Done(l.srv) && !l.srv.outer.first))
    && (Live(l.cli) || Done(l.cli))
    && DownOk(l)
    && UpOk(l)
    && (if Live(l.srv) then Flow(l.cli.outer, l.c2s, l.srv) && Heard(l.cli.outer, l.srv)
        else Delivered(l.cli.outer, l.c2s, l.srv))
    && (l.srv.outer.closing && !l.srv.outer.first ==> l.cli.outer.first)
    && (l.cli.outer.closing && !l.cli.outer.first ==> l.srv.outer.first)
    && (l.srv.outer.first && l.cli.outer.first ==> l.crossed)
  }

  /** The client has started, the server has yet to read the opening message. */
  predicate Opening(l: Link) {
    && !l.inMap && l.unclaimed != l.inWait && l.frees == 0 && l.released == 0
    && l.srv == IdleSide()
    && Live(l.cli) && l.cli.total == -1 && l.cli.recv == 0 && l.cli.pipe == []
    && l.cli.outer.written == [] && l.cli.outer.shuts == 0
    && l.s2c == [] && l.down == []
    && l.c2s != [] && l.c2s[1..] == l.cli.outer.sent
    && (if l.unclaimed then l.c2s[0] == MetaSet(l.id) else l.c2s[0].StartRsp? && l.c2s[0].id == l.id)
    && (if l.missed then l.cli.outer.first && l.up == []
        else l.up == Untold(l) || (l.up == [UpFree] + Untold(l) && l.crossed))
  }

  /** The start request has been sent, the client is idle. */
  predicate Starting(l: Link) {
    && !l.missed
    && !l.inMap && l.inWait && !l.unclaimed && l.frees == 0 && l.released == 0
    && l.srv == IdleSide()
    && Clean(l.cli) && l.cli.outer.Outer? && l.cli.outer.closing
    && |l.s2c| == 1 && l.s2c[0].StartReq? && l.s2c[0].id == l.id
    && l.c2s == [] && l.down == []
    && (l.up == [] || (l.up == [UpFree] && l.crossed))
  }

  /** In the free list. */
  predicate Pooled(l: Link) {
    && !l.missed
    && !l.inMap && !l.inWait && !l.unclaimed && l.frees == 1 && l.released == 1
    && Done(l.srv) && Done(l.cli)
    && l.s2c == [] && l.c2s == [] && l.down == []
    && (l.up == [] || (l.up == [UpFree] && l.crossed))
    && l.cli.outer.written == l.srv.outer.sent
    && l.srv.outer.written == l.cli.outer.sent
    && (l.srv.outer.first || l.cli.outer.first)
    && (l.srv.outer.first && l.cli.outer.first ==> l.crossed)
  }

  /** The total the server announced in the session the client is still in. */
  function Announced(l: Link): int {
    if l.down != [] then l.down[0] else l.cli.total
  }

  predicate StartReqOnly(s: seq<Item>, id: ProxyId) {
    |s| == 1 && s[0].StartReq? && s[0].id == id
  }

  /**
    After crossed EOFs the server has released its end while the client is still in the
    old session.  A start request sent meanwhile may be swallowed as if it were payload.
  */
  predicate Lag(l: Link) {
    && !l.missed
    && l.crossed && !l.inMap && !l.unclaimed
    && Live(l.cli) && l.cli.outer.closing
    && (if l.inWait then l.frees == 0 && l.released == 0 && l.srv == IdleSide()
        else l.frees == 1 && l.released == 1 && Done(l.srv) && l.srv.outer.first
             && l.srv.outer.written == l.cli.outer.sent
             && Flow(l.srv.outer, l.s2c, l.cli) && Announced(l) == l.srv.outer.tran)
    && l.cli.recv >= 0
    && l.c2s == [] && l.up == []
    && (if l.down != [] then |l.down| == 1 && l.cli.total == -1 else l.cli.recv != l.cli.total)
    && Announced(l) >= 0
    && LagFlow(l)
    && (l.inWait && l.s2c == [] && l.cli.pipe == [] ==> EndsInStart(l.cli.outer.written, l.id))
  }

  /** The last item is a start request. */
  predicate EndsInStart(s: seq<Item>, id: ProxyId) {
    s != [] && StartReqOnly(s[|s|-1..], id)
  }

  predicate LagFlow(l: Link) {
    LagItems(l.cli.pipe, l.s2c, l.inWait, l.id, Announced(l) - l.cli.recv)
  }

  /**
    `ahead` announced bytes are missing: they are in the pipe and the FIFO unless the start request
    was read past them.
  */
  predicate LagItems(pipe: seq<Item>, q: seq<Item>, inWait: bool, id: ProxyId, ahead: int) {
    if !inWait then Pay(pipe) && Pay(q) && |pipe| + |q| == ahead
    else if q != [] then Pay(pipe) && PayThenStart(q, id) && |pipe| + |q| - 1 == ahead
    else if pipe != [] then PayThenStart(pipe, id) && |pipe| - 1 == ahead
    else ahead < 0
  }

  predicate PayThenStart(s: seq<Item>, id: ProxyId) {
    s != [] && Pay(s[..|s|-1]) && StartReqOnly(s[|s|-1..], id)
  }

  /** The start request of the next session is stuck in the idle client's pipe. */
  predicate Dead(l: Link) {
    && !l.missed
    && l.crossed && !l.inMap && l.inWait && !l.unclaimed && l.frees == 0 && l.released == 0
    && l.srv == IdleSide()
    && Clean(l.cli.(pipe := [])) && l.cli.outer.Outer? && l.cli.outer.closing
    && l.s2c == [] && l.c2s == [] && l.down == [] && StartReqOnly(l.cli.pipe, l.id)
    && (l.up == [] || l.up == [UpFree])
  }

  predicate Inv(l: Link) {
    && OuterOk(l.srv.outer) && OuterOk(l.cli.outer)
    && (Opening(l) || Starting(l) || Active(l) || Pooled(l) || Lag(l) || Dead(l))
  }

  // ---------------------------------------------------------------------------
  // Every handler keeps the invariant

  lemma FreshInv(id: ProxyId, localFd: Fd)
    ensures Inv(Fresh(id, localFd))
  {
    assert Opening(Fresh(id, localFd));
  }

  lemma ClaimInv(l: Link, fd: Fd)
    requires Inv(l) && Enabled(l, Claim(fd))
    ensures Inv(Apply(l, Claim(fd)))
  {
    assert Opening(l);
    assert Active(Apply(l, Claim(fd)));
  }

  lemma ReuseInv(l: Link, fd: Fd)
    requires Inv(l) && Enabled(l, Reuse(fd))
    ensures Inv(Apply(l, Reuse(fd)))
  {
    var l' := Apply(l, Reuse(fd));
    if Pooled(l) {
      assert Starting(l');
    } else {
      assert Lag(l);
      assert l'.s2c[..|l.s2c|] == l.s2c;
      assert l'.s2c[|l.s2c|..] == [StartReq(fd, l.id)];
      assert Lag(l');
    }
  }

  lemma ClientStartInv(l: Link, localFd: Fd)
    requires Inv(l) && Enabled(l, ClientStart(localFd))
    ensures Inv(Apply(l, ClientStart(localFd)))
  {
    assert Starting(l);
    assert Opening(Apply(l, ClientStart(localFd)));
  }

  lemma BindInv(l: Link)
    requires Inv(l) && Enabled(l, Bind)
    ensures Inv(Apply(l, Bind))
  {
    assert Opening(l);
    assert Active(Apply(l, Bind));
  }

  lemma FreeRequestInv(l: Link)
    requires Inv(l) && Enabled(l, FreeRequest)
    ensures Inv(Apply(l, FreeRequest))
  {
    var l' := Apply(l, FreeRequest);
    if Active(l) {
      if Done(l.srv) {
        assert Pooled(l');
      } else {
        assert Active(l');
      }
    } else if Opening(l) {
      assert Opening(l');
    }
  }

  lemma ForwardOk(o: Outer, data: seq<Item>, k: nat)
    requires OuterOk(o) && ReadEnabled(o, data, k)
    ensures OuterOk(Forward(o, data, k))
    ensures Pay((o.pipe + data)[..k])
  {
    var pipe := o.pipe + data;
    assert Forward(o, data, k).input == o.sent + pipe[..k] + pipe[k..] by {
      assert pipe == pipe[..k] + pipe[k..];
      assert o.sent + (pipe[..k] + pipe[k..]) == o.sent + pipe[..k] + pipe[k..];
      assert o.sent + o.pipe + data == o.sent + (o.pipe + data);
    }
  }

  lemma FlowForward(o: Outer, q: seq<Item>, x: Side, data: seq<Item>, k: nat)
    requires OuterOk(o) && ReadEnabled(o, data, k) && Flow(o, q, x)
    ensures Flow(Forward(o, data, k), q + (o.pipe + data)[..k], x)
  {
    var moved := (o.pipe + data)[..k];
    assert x.outer.written + x.pipe + q + moved == x.outer.written + x.pipe + (q + moved);
  }

  lemma PubReadInv(l: Link, data: seq<Item>, k: nat)
    requires Inv(l) && Enabled(l, PubRead(data, k))
    ensures Inv(Apply(l, PubRead(data, k)))
  {
    assert Active(l);
    ForwardOk(l.srv.outer, data, k);
    FlowForward(l.srv.outer, l.s2c, l.cli, data, k);
    assert Active(Apply(l, PubRead(data, k)));
  }

  lemma LocReadInv(l: Link, data: seq<Item>, k: nat)
    requires Inv(l) && Enabled(l, LocRead(data, k))
    ensures Inv(Apply(l, LocRead(data, k)))
  {
    var l' := Apply(l, LocRead(data, k));
    ForwardOk(l.cli.outer, data, k);
    if Opening(l) {
      assert l'.c2s[1..] == l.c2s[1..] + (l.cli.outer.pipe + data)[..k];
      assert Opening(l');
    } else {
      assert Active(l);
      FlowForward(l.cli.outer, l.c2s, l.srv, data, k);
      assert Active(l');
    }
  }

  lemma PubEofInv(l: Link)
    requires Inv(l) && Enabled(l, PubEof)
    ensures Inv(Apply(l, PubEof))
  {
    assert Active(l);
    assert Active(Apply(l, PubEof));
  }

  lemma LocEofInv(l: Link)
    requires Inv(l) && Enabled(l, LocEof)
    ensures Inv(Apply(l, LocEof))
  {
    var l' := Apply(l, LocEof);
    if Opening(l) {
      assert Opening(l');
    } else {
      assert Active(l);
      assert Active(l');
    }
  }

  lemma FlowPay(o: Outer, q: seq<Item>, x: Side)
    requires OuterOk(o) && Flow(o, q, x)
    ensures Pay(x.outer.written) && Pay(x.pipe) && Pay(q)
  {
    var w, p := |x.outer.written|, |x.pipe|;
    assert forall i | 0 <= i < w :: x.outer.written[i] == o.sent[i];
    assert forall i | 0 <= i < p :: x.pipe[i] == o.sent[w + i];
    assert forall i | 0 <= i < |q| :: q[i] == o.sent[w + p + i];
  }

  /** Reading in data mode keeps the stream, wherever the second splice stops. */
  lemma FlowAbsorb(o: Outer, q: seq<Item>, x: Side, n: nat, m: int)
    requires OuterOk(o) && Flow(o, q, x) && DataEnabled(x, q, n, m)
    ensures Flow(o, q[n..], Absorb(x, q[..n], m))
    ensures Absorb(x, q[..n], m).recv <= o.tran
  {
    var pipe, k := x.pipe + q[..n], if m < 0 then 0 else m;
    Resplit(x.outer.written, x.pipe, q, n, k);
    var w := x.outer.written + pipe[..k];
    assert w == o.sent[..|w|];
    if m >= 0 {
      assert forall i | 0 <= i < k :: pipe[..k][i] == w[|x.outer.written| + i];
      SizePay(pipe[..k]);
    } else {
      assert x.outer.written + [] == x.outer.written;
    }
  }

  /** The same stream with `n` items moved into the pipe and then `k` out of it. */
  lemma Resplit(written: seq<Item>, pipe: seq<Item>, q: seq<Item>, n: nat, k: nat)
    requires n <= |q| && k <= |pipe| + n
    ensures var p := pipe + q[..n]; written + pipe + q == written + p[..k] + p[k..] + q[n..]
  {
    var p := pipe + q[..n];
    assert q == q[..n] + q[n..];
    assert p == p[..k] + p[k..];
    assert written + pipe + q == written + p + q[n..];
    assert written + p == written + p[..k] + p[k..];
  }

  /** A server end that has read on without completing. */
  lemma ServerReads(l: Link, x: Side, q: seq<Item>)
    requires Active(l) && Live(l.srv) && x.outer.Outer?
    requires x == l.srv.(pipe := x.pipe, recv := x.recv, outer := l.srv.outer.(written := x.outer.written))
    requires Flow(l.cli.outer, q, x) && x.recv != x.total && l.srv.recv != l.srv.total
    ensures Active(l.(srv := x, c2s := q))
  {
  }

  /** A server end that has read the last announced byte. */
  lemma ServerReaches(l: Link, x: Side, q: seq<Item>)
    requires OuterOk(l.srv.outer) && OuterOk(l.cli.outer) && Active(l) && Live(l.srv) && x.outer.Outer?
    requires x == l.srv.(pipe := x.pipe, recv := x.recv, outer := l.srv.outer.(written := x.outer.written))
    requires Flow(l.cli.outer, q, x) && x.recv == x.total && l.srv.recv != l.srv.total && x.recv >= 0
    ensures ServerAtTotal(l.(srv := x, c2s := q))
  {
  }

  lemma SrvDataInv(l: Link, n: nat, m: int)
    requires Inv(l) && Enabled(l, SrvData(n, m))
    ensures Inv(Apply(l, SrvData(n, m)))
  {
    assert Active(l);
    FlowAbsorb(l.cli.outer, l.c2s, l.srv, n, m);
    var x := Absorb(l.srv, l.c2s[..n], m);
    var l1 := l.(srv := x, c2s := l.c2s[n..]);
    assert Apply(l, SrvData(n, m)) == if m < 0 then l1 else ShutdownPublic(l1);
    NothingAfterTotal(l.cli.outer, l.c2s, l.srv, n, m);
    if m < 0 || x.recv != x.total {
      ServerReads(l, x, l.c2s[n..]);
    } else {
      ServerReaches(l, x, l.c2s[n..]);
      ServerCompletes(l1);
    }
  }

  /** Once the announced total has been reached there is nothing left to read. */
  lemma NothingAfterTotal(o: Outer, q: seq<Item>, x: Side, n: nat, m: int)
    requires OuterOk(o) && Flow(o, q, x) && Heard(o, x) && DataEnabled(x, q, n, m)
    ensures x.recv != x.total
  {
  }

  /** The server end has just received everything it was announced. */
  predicate ServerAtTotal(l: Link) {
    && OuterOk(l.srv.outer) && OuterOk(l.cli.outer)
    && l.inMap && !l.inWait && !l.unclaimed && l.frees == 0 && l.released == 0
    && Live(l.srv) && l.srv.outer.shuts == 0
    && (Live(l.cli) || Done(l.cli))
    && DownOk(l) && UpOk(l)
    && Flow(l.cli.outer, l.c2s, l.srv)
    && l.cli.outer.closing && l.srv.recv == l.srv.total == l.cli.outer.tran
    && (l.cli.outer.closing && !l.cli.outer.first ==> l.srv.outer.first)
    && (l.srv.outer.first && l.cli.outer.first ==> l.crossed)
  }

  lemma ServerCompletes(l: Link)
    requires ServerAtTotal(l)
    ensures var l' := ShutdownPublic(l);
            && Inv(l') && l'.srv.outer.shuts == 1 && l'.srv.outer.written == l.cli.outer.sent
            && l.srv.pipe == [] && l.c2s == []
            && (if !l.srv.halfClose then Active(l') && l'.srv.halfClose && l'.released == 0
                else Done(l'.srv) && l'.released == 1 && if Done(l.cli) then Pooled(l') else Lag(l') && l.crossed)
  {
    var l' := ShutdownPublic(l);
    assert l.srv.pipe == [] && l.c2s == [];
    if !l.srv.halfClose {
      assert Active(l');
    } else if Done(l.cli) {
      assert Pooled(l');
    } else {
      FlowPay(l.srv.outer, l.s2c, l.cli);
      assert Lag(l');
    }
  }

  /** The client end has just received everything it was announced. */
  predicate ClientAtTotal(l: Link) {
    && OuterOk(l.srv.outer) && OuterOk(l.cli.outer)
    && l.inMap && !l.inWait && !l.unclaimed && l.frees == 0 && l.released == 0
    && (Live(l.srv) || (Done(l.srv) && !l.srv.outer.first))
    && Live(l.cli) && l.cli.outer.shuts == 0
    && Flow(l.srv.outer, l.s2c, l.cli) && l.down == []
    && l.srv.outer.closing && l.cli.recv == l.cli.total == l.srv.outer.tran
    && UpOk(l)
    && (if Live(l.srv) then Flow(l.cli.outer, l.c2s, l.srv) && Heard(l.cli.outer, l.srv)
        else Delivered(l.cli.outer, l.c2s, l.srv))
    && (l.srv.outer.closing && !l.srv.outer.first ==> l.cli.outer.first)
    && (l.srv.outer.first && l.cli.outer.first ==> l.crossed)
  }

  lemma ClientCompletes(l: Link)
    requires ClientAtTotal(l)
    ensures var l' := ShutdownLocal(l);
            && Inv(l') && Active(l') && l'.cli.outer.shuts == 1 && l'.cli.outer.written == l.srv.outer.sent
            && l.cli.pipe == [] && l.s2c == []
            && (if l.cli.halfClose then Done(l'.cli) && l'.up == l.up + [UpFree] else l'.cli.halfClose && l'.up == l.up)
  {
    var l' := ShutdownLocal(l);
    assert l.cli.pipe == [] && l.s2c == [];
    assert Untold(l') == Untold(l) + FreeTail(l');
    assert Active(l');
  }

  /** A client end that has read on without completing. */
  lemma ClientReads(l: Link, x: Side, q: seq<Item>)
    requires Active(l) && Live(l.cli) && x.outer.Outer?
    requires x == l.cli.(pipe := x.pipe, recv := x.recv, outer := l.cli.outer.(written := x.outer.written))
    requires Flow(l.srv.outer, q, x) && x.recv != x.total && l.cli.recv != l.cli.total
    ensures Active(l.(cli := x, s2c := q))
  {
  }

  /** A client end that has read the last announced byte. */
  lemma ClientReaches(l: Link, x: Side, q: seq<Item>)
    requires OuterOk(l.srv.outer) && OuterOk(l.cli.outer) && Active(l) && Live(l.cli) && x.outer.Outer?
    requires x == l.cli.(pipe := x.pipe, recv := x.recv, outer := l.cli.outer.(written := x.outer.written))
    requires Flow(l.srv.outer, q, x) && x.recv == x.total && l.cli.recv != l.cli.total && x.recv >= 0
    ensures ClientAtTotal(l.(cli := x, s2c := q))
  {
  }

  lemma ActiveCliDataInv(l: Link, n: nat, m: int)
    requires Inv(l) && Active(l) && Enabled(l, CliData(n, m))
    ensures Inv(Apply(l, CliData(n, m)))
  {
    FlowAbsorb(l.srv.outer, l.s2c, l.cli, n, m);
    var x := Absorb(l.cli, l.s2c[..n], m);
    var l1 := l.(cli := x, s2c := l.s2c[n..]);
    assert Apply(l, CliData(n, m)) == if m < 0 then l1 else ShutdownLocal(l1);
    NothingAfterTotal(l.srv.outer, l.s2c, l.cli, n, m);
    if m < 0 || x.recv != x.total {
      ClientReads(l, x, l.s2c[n..]);
    } else {
      ClientReaches(l, x, l.s2c[n..]);
      ClientCompletes(l1);
    }
  }

  lemma CliDataInv(l: Link, n: nat, m: int)
    requires Inv(l) && Enabled(l, CliData(n, m))
    ensures Inv(Apply(l, CliData(n, m)))
  {
    if Active(l) {
      ActiveCliDataInv(l, n, m);
    } else {
      LagDataInv(l, n, m);
    }
  }

  lemma LagDataInv(l: Link, n: nat, m: int)
    requires Inv(l) && Lag(l) && Enabled(l, CliData(n, m))
    ensures Inv(Apply(l, CliData(n, m)))
  {
    var l1 := l.(cli := Absorb(l.cli, l.s2c[..n], m), s2c := l.s2c[n..]);
    assert Apply(l, CliData(n, m)) == if m < 0 then l1 else ShutdownLocal(l1);
    if !l.inWait { FlowAbsorb(l.srv.outer, l.s2c, l.cli, n, m); }
    LagReads(l, n, m, l1);
    if m >= 0 && l1.cli.recv == l1.cli.total { LagCompletes(l1); }
  }

  /** A lagging client reads on. */
  lemma LagReads(l: Link, n: nat, m: int, l1: Link)
    requires Lag(l) && DataEnabled(l.cli, l.s2c, n, m)
    requires l1 == l.(cli := Absorb(l.cli, l.s2c[..n], m), s2c := l.s2c[n..])
    requires !l.inWait ==> Flow(l.srv.outer, l1.s2c, l1.cli)
    ensures LagFlow(l1) && Live(l1.cli)
    ensures m < 0 || l1.cli.recv != l1.cli.total ==> Lag(l1)
  {
    LagItemsAbsorb(l.cli.pipe, l.s2c, l.inWait, l.id, Announced(l) - l.cli.recv, n, if m < 0 then 0 else m);
    if l.inWait { LagWrites(l.cli, l.s2c, l.id, n, m); }
  }

  /** A start request read to the end is the last item written. */
  lemma LagWrites(x: Side, q: seq<Item>, id: ProxyId, n: nat, m: int)
    requires PayThenStart(q, id) && DataEnabled(x, q, n, m) && x.outer.Outer?
    ensures var x' := Absorb(x, q[..n], m); q[n..] == [] && x'.pipe == [] ==> EndsInStart(x'.outer.written, id)
  {
    var p := x.pipe + q[..n];
    if n == |q| && m == |p| {
      assert (x.outer.written + p)[|x.outer.written + p|-1] == q[|q|-1] && p[..m] == p;
    }
  }

  lemma LagItemsAbsorb(pipe: seq<Item>, q: seq<Item>, inWait: bool, id: ProxyId, ahead: int, n: nat, j: nat)
    requires LagItems(pipe, q, inWait, id, ahead) && 1 <= n <= |q| && j <= |pipe| + n
    ensures LagItems((pipe + q[..n])[j..], q[n..], inWait, id, ahead - Size((pipe + q[..n])[..j]))
  {
    var p := pipe + q[..n];
    if !inWait {
      SizePay(p[..j]);
    } else if n < |q| {
      assert forall i | 0 <= i < n :: q[..n][i] == q[..|q|-1][i];
      SizePay(p[..j]);
      DropPay(q, id, n);
    } else {
      assert q[..n] == q;
      PrependPay(pipe, q, id);
      if j < |p| {
        assert p[..j] == p[..|p|-1][..j];
        SizePay(p[..j]);
        DropPay(p, id, j);
      } else {
        var k := |p| - 1;
        assert p[..j] == p[..k] + p[k..];
        SizeAppend(p[..k], p[k..]);
        SizePay(p[..k]);
      }
    }
  }

  lemma DropPay(s: seq<Item>, id: ProxyId, n: nat)
    requires PayThenStart(s, id) && n < |s|
    ensures PayThenStart(s[n..], id)
  {
    var k := |s| - 1;
    assert s[n..][..k-n] == s[..k][n..];
    assert s[n..][k-n..] == s[k..];
  }

  lemma PrependPay(p: seq<Item>, s: seq<Item>, id: ProxyId)
    requires Pay(p) && PayThenStart(s, id)
    ensures PayThenStart(p + s, id)
  {
    assert (p + s)[..|p + s|-1] == p + s[..|s|-1];
    assert (p + s)[|p + s|-1..] == s[|s|-1..];
  }

  /**
    In the lagging client's old session everything has arrived: it resets and asks for a release
    that is no longer due.
  */
  lemma LagCompletes(l: Link)
    requires OuterOk(l.srv.outer) && OuterOk(l.cli.outer)
    requires l.crossed && !l.inMap && !l.unclaimed && !l.missed
    requires Live(l.cli) && l.cli.outer.closing
    requires if l.inWait then l.frees == 0 && l.released == 0 && l.srv == IdleSide()
             else l.frees == 1 && l.released == 1 && Done(l.srv) && l.srv.outer.first
                  && l.srv.outer.written == l.cli.outer.sent
                  && Flow(l.srv.outer, l.s2c, l.cli) && l.cli.total == l.srv.outer.tran
    requires l.c2s == [] && l.up == [] && l.down == []
    requires LagFlow(l) && l.cli.recv == l.cli.total
    ensures Inv(ShutdownLocal(l))
  {
    var l' := ShutdownLocal(l);
    if !l.inWait {
      assert Pooled(l');
    } else if l.s2c != [] {
      assert l.s2c[|l.s2c|-1..] == l.s2c;
      assert Starting(l');
    } else {
      assert l.cli.pipe[|l.cli.pipe|-1..] == l.cli.pipe;
      assert Dead(l');
    }
  }

  lemma CliNoticeInv(l: Link)
    requires Inv(l) && Enabled(l, CliNotice)
    ensures Inv(Apply(l, CliNotice))
  {
    var l1 := l.(cli := Announce(l.cli, l.down[0]), down := l.down[1..]);
    if Active(l) {
      if l1.cli.recv != l1.cli.total {
        assert Active(l1);
      } else {
        ClientCompletes(l1);
      }
    } else {
      assert Lag(l);
      assert l1.cli.total == Announced(l) && l1.down == [];
      if l1.cli.recv != l1.cli.total {
        assert Lag(l1);
      } else {
        LagCompletes(l1);
      }
    }
  }

  lemma SrvNoticeInv(l: Link)
    requires Inv(l) && Enabled(l, SrvNotice)
    ensures Inv(Apply(l, SrvNotice))
  {
    var l1 := l.(up := l.up[1..]);
    if Opening(l) {
      assert Opening(l1.(missed := true));
    } else {
      assert Active(l);
      assert l.up == Untold(l);
      var l2 := l1.(srv := Announce(l.srv, l.up[0].n));
      if l2.srv.recv != l2.srv.total {
        assert Active(l2);
      } else {
        ServerCompletes(l2);
      }
    }
  }

  /** Every handler, in every run, keeps the invariant. */
  lemma StepInv(l: Link, e: Event)
    requires Inv(l) && Enabled(l, e)
    ensures Inv(Apply(l, e))
  {
    match e
    case Claim(fd) => ClaimInv(l, fd);
    case Reuse(fd) => ReuseInv(l, fd);
    case ClientStart(localFd) => ClientStartInv(l, localFd);
    case Bind => BindInv(l);
    case SrvData(n, m) => SrvDataInv(l, n, m);
    case CliData(n, m) => CliDataInv(l, n, m);
    case PubRead(data, k) => PubReadInv(l, data, k);
    case LocRead(data, k) => LocReadInv(l, data, k);
    case PubEof => PubEofInv(l);
    case LocEof => LocEofInv(l);
    case CliNotice => CliNoticeInv(l);
    case SrvNotice => SrvNoticeInv(l);
    case FreeRequest => FreeRequestInv(l);
  }
}
