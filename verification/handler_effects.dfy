/**
  What the handlers that move bytes or take an EOF change, in terms of the fields and FIFOs
  alone, and when the EOFs of a session have crossed.
*/
module HandlerEffects {
  import opened ProxyLink
  import opened ProxySystem
  import PublicFds

  // ---------------------------------------------------------------------------
  // Bytes

  /**
    Bytes from a public connection: all enter its pipe, exactly m leave it for the proxy connection
    and are counted.
  */
  lemma PubReadMoves(l: Link, data: seq<Item>, m: nat)
    requires Enabled(l, PubRead(data, m))
    ensures var r := Apply(l, PubRead(data, m));
            var o, o', moved := l.srv.outer, r.srv.outer, (l.srv.outer.pipe + data)[..m];
            && |moved| == m && r.s2c == l.s2c + moved
            && o' == o.(input := o.input + data, sent := o.sent + moved, tran := o.tran + m,
                        pipe := (o.pipe + data)[m..])
            && r == l.(srv := l.srv.(outer := o'), s2c := r.s2c)
  {
  }

  /** The mirror image. */
  lemma LocReadMoves(l: Link, data: seq<Item>, m: nat)
    requires Enabled(l, LocRead(data, m))
    ensures var r := Apply(l, LocRead(data, m));
            var o, o', moved := l.cli.outer, r.cli.outer, (l.cli.outer.pipe + data)[..m];
            && |moved| == m && r.c2s == l.c2s + moved
            && o' == o.(input := o.input + data, sent := o.sent + moved, tran := o.tran + m,
                        pipe := (o.pipe + data)[m..])
            && r == l.(cli := l.cli.(outer := o'), c2s := r.c2s)
  {
  }

  /** The side after both splices: n items have entered the pipe, m of it have been written and counted. */
  predicate Spliced(x: Side, y: Side, q: seq<Item>, n: nat, m: nat)
    requires n <= |q| && m <= |x.pipe| + n
  {
    var pipe := x.pipe + q[..n];
    && y.pipe == pipe[m..]
    && x.outer.Outer? && y.outer.Outer?
    && y.outer.written == x.outer.written + pipe[..m]
    && y.outer.fd == x.outer.fd && y.outer.input == x.outer.input && y.outer.sent == x.outer.sent
    && y.outer.tran == x.outer.tran && y.outer.pipe == x.outer.pipe && y.outer.closing == x.outer.closing
  }

  /** Bytes at a started server end; the count is that of the bytes written unless the end has been reset. */
  lemma SrvDataMoves(l: Link, n: nat, m: nat)
    requires Enabled(l, SrvData(n, m)) && l.srv.outer.Outer?
    ensures var r := Apply(l, SrvData(n, m));
            var moved := (l.srv.pipe + l.c2s[..n])[..m];
            var done := l.srv.recv + Size(moved) == l.srv.total;
            && r.c2s == l.c2s[n..] && Spliced(l.srv, r.srv, l.c2s, n, m)
            && r.srv.outer.shuts == l.srv.outer.shuts + (if done then 1 else 0)
            && r.srv.started == !(done && l.srv.halfClose)
            && r.srv.halfClose == (done != l.srv.halfClose)
            && r.srv.recv == (if done && l.srv.halfClose then 0 else l.srv.recv + Size(moved))
            && r.srv.total == (if done && l.srv.halfClose then -1 else l.srv.total)
            && r.cli == l.cli && r.s2c == l.s2c && r.down == l.down && r.up == l.up
  {
  }

  lemma CliDataMoves(l: Link, n: nat, m: nat)
    requires Enabled(l, CliData(n, m)) && l.cli.outer.Outer?
    ensures var r := Apply(l, CliData(n, m));
            var moved := (l.cli.pipe + l.s2c[..n])[..m];
            var done := l.cli.recv + Size(moved) == l.cli.total;
            && r.s2c == l.s2c[n..] && Spliced(l.cli, r.cli, l.s2c, n, m)
            && r.cli.outer.shuts == l.cli.outer.shuts + (if done then 1 else 0)
            && r.cli.started == !(done && l.cli.halfClose)
            && r.cli.halfClose == (done != l.cli.halfClose)
            && r.cli.recv == (if done && l.cli.halfClose then 0 else l.cli.recv + Size(moved))
            && r.cli.total == (if done && l.cli.halfClose then -1 else l.cli.total)
            && r.srv == l.srv && r.c2s == l.c2s && r.down == l.down
            && r.up == l.up + (if done && l.cli.halfClose then [UpFree] else [])
  {
    LocalFinishes(l.(cli := Absorb(l.cli, l.s2c[..n], m), s2c := l.s2c[n..]));
  }

  lemma LocalFinishes(l: Link)
    requires l.cli.outer.Outer?
    ensures var r := ShutdownLocal(l);
            var done := l.cli.recv == l.cli.total;
            && r == l.(cli := r.cli, up := l.up + if done && l.cli.halfClose then [UpFree] else [])
            && r.cli.outer == (if done then l.cli.outer.(shuts := l.cli.outer.shuts + 1) else l.cli.outer)
            && r.cli.started == (l.cli.started && !(done && l.cli.halfClose))
            && r.cli.halfClose == (done != l.cli.halfClose) && r.cli.pipe == l.cli.pipe
            && (done && l.cli.halfClose ==> r.cli.recv == 0 && r.cli.total == -1)
            && (!(done && l.cli.halfClose) ==> r.cli.recv == l.cli.recv && r.cli.total == l.cli.total)
  {
  }

  /** A second splice that fails leaves the bytes in the pipe and ends the handler. */
  lemma FailedSplice(l: Link, n: nat)
    ensures Enabled(l, SrvData(n, -1)) ==>
              Apply(l, SrvData(n, -1)) == l.(srv := l.srv.(pipe := l.srv.pipe + l.c2s[..n]), c2s := l.c2s[n..])
    ensures Enabled(l, CliData(n, -1)) ==>
              Apply(l, CliData(n, -1)) == l.(cli := l.cli.(pipe := l.cli.pipe + l.s2c[..n]), s2c := l.s2c[n..])
  {
  }

  // ---------------------------------------------------------------------------
  // EOFs

  /** The notice carries the count of the bytes forwarded; the EOF is the first half-close if none has been made. */
  lemma PubEofTells(l: Link)
    requires Enabled(l, PubEof) && l.inMap
    ensures var r := Apply(l, PubEof);
            && r.down == l.down + [l.srv.outer.tran] && r.srv.outer.Outer? && r.srv.outer.closing
            && r.srv.outer.first == !l.srv.halfClose
            && r.srv.started == (l.srv.started && !l.srv.halfClose) && r.srv.halfClose == !l.srv.halfClose
            && r.srv.outer.shuts == l.srv.outer.shuts && r.cli == l.cli && r.up == l.up
  {
  }

  lemma LocEofTells(l: Link)
    requires Enabled(l, LocEof)
    ensures var r := Apply(l, LocEof);
            && r.up == l.up + [UpNotice(l.cli.outer.tran)] && r.cli.outer.Outer? && r.cli.outer.closing
            && r.cli.outer.first == !l.cli.halfClose
            && r.cli.started == (l.cli.started && !l.cli.halfClose) && r.cli.halfClose == !l.cli.halfClose
            && r.cli.outer.shuts == l.cli.outer.shuts && r.srv == l.srv && r.down == l.down
  {
  }

  // ---------------------------------------------------------------------------
  // Crossed EOFs

  /** The EOFs of the present session have crossed: each was taken before the own end was half-closed. */
  predicate BothFirst(l: Link) {
    IsFirst(l.srv.outer) && IsFirst(l.cli.outer)
  }

  /** Only crossing marks a connection as crossed. */
  lemma CrossedByCrossing(l: Link, e: Event)
    requires Inv(l) && Enabled(l, e) && !e.Reuse?
    ensures Apply(l, e).crossed <==> l.crossed || BothFirst(Apply(l, e))
  {
    StepInv(l, e);
    if BothFirst(Apply(l, e)) { FirstMeansCrossed(Apply(l, e)); }
    if AtClient(e) { ClientCrosses(l, e); } else { ServerCrosses(l, e); }
  }

  lemma FirstMeansCrossed(l: Link)
    requires Inv(l) && BothFirst(l)
    ensures l.crossed
  {
  }

  lemma ClientCrosses(l: Link, e: Event)
    requires AtClient(e) && Enabled(l, e)
    ensures ClientApply(l, e).crossed ==> l.crossed || BothFirst(ClientApply(l, e))
  {
  }

  lemma ServerCrosses(l: Link, e: Event)
    requires !AtClient(e) && Enabled(l, e)
    ensures ServerApply(l, e).crossed ==> l.crossed || BothFirst(ServerApply(l, e))
  {
  }

  /** Reusing a connection says nothing new of crossing. */
  lemma CrossedAtReuse(l: Link, fd: Fd)
    requires Enabled(l, Reuse(fd))
    ensures Apply(l, Reuse(fd)).crossed == l.crossed && !BothFirst(Apply(l, Reuse(fd)))
  {
  }

  lemma CrossingLasts(l: Link, e: Event)
    requires Inv(l) && Enabled(l, e) && !e.Reuse? && BothFirst(l)
    ensures BothFirst(Apply(l, e))
  {
    assert Active(l) || Pooled(l) || Lag(l);
    if AtClient(e) { ClientKeepsCrossing(l, e); } else { ServerKeepsCrossing(l, e); }
  }

  lemma ClientKeepsCrossing(l: Link, e: Event)
    requires AtClient(e) && Enabled(l, e) && !e.ClientStart? && BothFirst(l) && l.cli.outer.closing
    ensures BothFirst(ClientApply(l, e))
  {
    match e
    case CliData(n, m) => LocalKeepsFirst(l.(cli := Absorb(l.cli, l.s2c[..n], m), s2c := l.s2c[n..]));
    case CliNotice => LocalKeepsFirst(l.(cli := Announce(l.cli, l.down[0]), down := l.down[1..]));
    case _ =>
  }

  lemma LocalKeepsFirst(l: Link)
    requires BothFirst(l)
    ensures BothFirst(ShutdownLocal(l))
  {
  }

  lemma PublicKeepsFirst(l: Link)
    requires BothFirst(l)
    ensures BothFirst(ShutdownPublic(l))
  {
  }

  lemma ServerKeepsCrossing(l: Link, e: Event)
    requires !AtClient(e) && Enabled(l, e) && !e.Claim? && !e.Bind? && !e.Reuse? && BothFirst(l) && l.srv.outer.closing
    ensures BothFirst(ServerApply(l, e))
  {
    match e
    case SrvData(n, m) => PublicKeepsFirst(l.(srv := Absorb(l.srv, l.c2s[..n], m), c2s := l.c2s[n..]));
    case SrvNotice => PublicKeepsFirst(l.(up := l.up[1..], srv := Announce(l.srv, l.up[0].n)));
    case _ =>
  }

  /** The EOFs of some session of `p`, past or present, have crossed. */
  ghost predicate SomeCrossed(s: State, p: ProxyId) {
    p in s.wires && p in s.past
    && (BothFirst(View(s, p)) || exists k: nat :: k < |s.past[p]| && BothFirst(s.past[p][k]))
  }

  /** A connection is marked as crossed exactly if the EOFs of one of its sessions have crossed. */
  lemma {:induction false} CrossedExactly(run: seq<Action>, p: ProxyId)
    requires Exec(run).Some? && p in Exec(run).value.wires
    ensures Exec(run).value.wires[p].crossed <==> SomeCrossed(Exec(run).value, p)
  {
    if run != [] {
      var before := run[..|run|-1];
      var s, a := Exec(before).value, run[|run|-1];
      RunInv(before);
      match a
      case Accept(fd) =>
        PublicFds.AcceptParts(s, fd);
        CrossedExactly(before, p);
        AcceptCrossed(s, fd, p);
      case Connect(q, localFd) =>
        if p != q { CrossedExactly(before, p); }
        ConnectView(s, q, localFd, p);
        SameCrossed(s, Step(s, a), p, q);
      case At(q, e) =>
        PublicFds.AtBooks(s, q, e);
        CrossedExactly(before, p);
        assert Inv(View(s, p));
        AtCrossed(s, q, e, p);
    }
  }

  lemma SameCrossed(s: State, s': State, p: ProxyId, q: ProxyId)
    requires p in s'.wires && p in s'.past
    requires p == q ==> s'.past[p] == [] && !BothFirst(View(s', p)) && !s'.wires[p].crossed
    requires p != q ==> p in s.wires && p in s.past && View(s', p) == View(s, p) && s'.past[p] == s.past[p]
                        && (s.wires[p].crossed <==> SomeCrossed(s, p))
    ensures s'.wires[p].crossed <==> SomeCrossed(s', p)
  {
    if p != q { assert View(s', p).crossed == View(s, p).crossed; }
  }

  lemma AtCrossed(s: State, q: ProxyId, e: Event, p: ProxyId)
    requires Can(s, At(q, e)) && p in s.wires && p in s.past && Inv(View(s, p))
    requires s.wires[p].crossed <==> SomeCrossed(s, p)
    ensures Step(s, At(q, e)).wires[p].crossed <==> SomeCrossed(Step(s, At(q, e)), p)
  {
    var s' := Step(s, At(q, e));
    PublicFds.AtBooks(s, q, e);
    PublicFds.AtView(s, q, e, p);
    assert s'.past == s.past && View(s', p).crossed == s'.wires[p].crossed && View(s, p).crossed == s.wires[p].crossed;
    if p == q {
      CrossedByCrossing(View(s, p), e);
      if BothFirst(View(s, p)) { CrossingLasts(View(s, p), e); }
    }
  }

  lemma AcceptCrossed(s: State, fd: Fd, p: ProxyId)
    requires Can(s, Accept(fd)) && p in s.wires && p in s.past
    requires s.wires[p].crossed <==> SomeCrossed(s, p)
    ensures Step(s, Accept(fd)).wires[p].crossed <==> SomeCrossed(Step(s, Accept(fd)), p)
  {
    var s' := Step(s, Accept(fd));
    PublicFds.AcceptParts(s, fd);
    if s.pool.free == [] {
      AcceptNew(s, fd, p);
      SameCrossed(s, s', p, if p == 0 then 1 else 0);
    } else {
      AcceptReuse(s, fd, p);
      var top := s.pool.free[|s.pool.free|-1];
      if p == top {
        CrossedAtReuse(View(s, p), fd);
        SetAsideCrossed(s, s', p);
      } else {
        SameCrossed(s, s', p, top);
      }
    }
  }

  lemma SetAsideCrossed(s: State, s': State, p: ProxyId)
    requires p in s.wires && p in s.past && p in s'.wires && p in s'.past
    requires s'.past[p] == s.past[p] + [View(s, p)] && !BothFirst(View(s', p))
    requires View(s', p).crossed == View(s, p).crossed && (s.wires[p].crossed <==> SomeCrossed(s, p))
    ensures s'.wires[p].crossed <==> SomeCrossed(s', p)
  {
    var n := |s.past[p]|;
    assert View(s', p).crossed == s'.wires[p].crossed && View(s, p).crossed == s.wires[p].crossed;
    assert s'.past[p][n] == View(s, p);
    assert forall k: nat | k < n :: s'.past[p][k] == s.past[p][k];
  }
}
