/**
  Conservation of public connections: every accepted descriptor is at all times in exactly
  one place - the undealt stack, a start request or response in flight, a start request
  read as payload, the proxy connection it is bound to, or a finished session.
*/
module PublicFds {
  import opened Options
  import opened ProxyLink
  import opened ProxySystem

  datatype Place = Undealt(i: nat) | Current(p: ProxyId) | Past(p: ProxyId, k: nat)

  /** The descriptor of a start request at the end of a stream. */
  function ReqAt(s: seq<Item>): Option<Fd> {
    if s != [] && s[|s|-1].StartReq? then Some(s[|s|-1].fd) else None
  }

  function BoundFd(l: Link): Option<Fd> {
    if l.srv.outer.Outer? then Some(l.srv.outer.fd) else None
  }

  /**
    The descriptor a connection in the wait map is being started for: in the start request, in the
    response, or in a request that a client left behind by crossed EOFs has read as payload.
  */
  function WaitingFd(l: Link): Option<Fd> {
    if ReqAt(l.s2c).Some? then ReqAt(l.s2c)
    else if ReqAt(l.cli.pipe).Some? then ReqAt(l.cli.pipe)
    else if l.c2s != [] then (if l.c2s[0].StartRsp? then Some(l.c2s[0].fd) else None)
    else if l.cli.outer.Outer? then ReqAt(l.cli.outer.written) else None
  }

  /** The public descriptor of the session a connection is in, or is being started for. */
  function LinkFd(l: Link): Option<Fd> {
    if l.inWait then WaitingFd(l) else BoundFd(l)
  }

  function FdAt(s: State, x: Place): Option<Fd> {
    match x
    case Undealt(i) => if i < |s.pool.undealt| then Some(s.pool.undealt[i]) else None
    case Current(p) => if p in s.wires then LinkFd(View(s, p)) else None
    case Past(p, k) => if p in s.past && k < |s.past[p]| then LinkFd(s.past[p][k]) else None
  }

  ghost predicate Conserved(s: State) {
    && (forall x, y :: FdAt(s, x).Some? && FdAt(s, x) == FdAt(s, y) ==> x == y)
    && (forall fd :: fd in s.accepted <==> exists x :: FdAt(s, x) == Some(fd))
  }

  lemma ActivePay(l: Link)
    requires Inv(l) && Active(l)
    ensures Pay(l.s2c) && Pay(l.c2s)
  {
    if Live(l.cli) { FlowPay(l.srv.outer, l.s2c, l.cli); }
    if Live(l.srv) { FlowPay(l.cli.outer, l.c2s, l.srv); }
  }

  lemma StaysBound(l: Link, e: Event)
    requires Enabled(l, e) && !e.Claim? && !e.Reuse? && !e.Bind? && l.srv.outer.Outer?
    ensures Bound(Apply(l, e), l.srv.outer.fd)
  {
    if AtClient(e) {
      assert Apply(l, e).srv == l.srv;
    } else {
      ServerStaysBound(l, e);
    }
  }

  lemma ServerStaysBound(l: Link, e: Event)
    requires Enabled(l, e) && !AtClient(e) && !e.Claim? && !e.Reuse? && !e.Bind? && l.srv.outer.Outer?
    ensures Bound(ServerApply(l, e), l.srv.outer.fd)
  {
    if e.SrvData? {
      CompletionKeepsBound(l.(srv := Absorb(l.srv, l.c2s[..e.n], e.m), c2s := l.c2s[e.n..]), l.srv.outer.fd);
    } else if e.SrvNotice? {
      CompletionKeepsBound(l.(up := l.up[1..], srv := Announce(l.srv, l.up[0].n)), l.srv.outer.fd);
    } else {
      OthersKeepBound(l, e);
    }
  }

  lemma CompletionKeepsBound(l: Link, fd: Fd)
    requires Bound(l, fd)
    ensures Bound(ShutdownPublic(l), fd)
  {
  }

  lemma OthersKeepBound(l: Link, e: Event)
    requires Enabled(l, e) && (e.PubRead? || e.PubEof? || e.FreeRequest?) && l.srv.outer.Outer?
    ensures Bound(ServerApply(l, e), l.srv.outer.fd)
  {
  }

  /** Only claiming and reusing give a connection a descriptor; every other handler passes it on. */
  lemma LinkFdKept(l: Link, e: Event)
    requires Inv(l) && Enabled(l, e) && !e.Claim? && !e.Reuse?
    ensures LinkFd(Apply(l, e)) == LinkFd(l)
  {
    if e.Bind? {
      assert Opening(l);
    } else {
      if l.inWait { WaitingFdKept(l, e); } else { BoundFdKept(l, e); }
    }
  }

  lemma BoundFdKept(l: Link, e: Event)
    requires Inv(l) && Enabled(l, e) && !e.Claim? && !e.Reuse? && !e.Bind? && !l.inWait
    ensures BoundFd(Apply(l, e)) == BoundFd(l)
  {
    if l.srv.outer.Outer? {
      StaysBound(l, e);
    } else {
      assert Opening(l);
      if AtClient(e) { assert Apply(l, e).srv == l.srv; }
    }
  }

  lemma WaitingFdKept(l: Link, e: Event)
    requires Inv(l) && Enabled(l, e) && !e.Claim? && !e.Reuse? && !e.Bind? && l.inWait
    ensures WaitingFd(Apply(l, e)) == WaitingFd(l)
  {
    if Lag(l) {
      LagFdKept(l, e);
    } else {
      assert Opening(l) || Starting(l) || Dead(l);
      if e.LocRead? { assert Apply(l, e).c2s[0] == l.c2s[0]; }
    }
  }

  lemma LagFdKept(l: Link, e: Event)
    requires Inv(l) && Lag(l) && Enabled(l, e) && !e.Reuse? && l.inWait
    ensures WaitingFd(Apply(l, e)) == WaitingFd(l)
  {
    if e.CliData? {
      var l1 := l.(cli := Absorb(l.cli, l.s2c[..e.n], e.m), s2c := l.s2c[e.n..]);
      SwallowedFd(l, e.n, if e.m < 0 then 0 else e.m);
      assert WaitingFd(l1) == WaitingFd(l);
      CompletionKeepsFd(l1);
    } else {
      assert e.CliNotice?;
      CompletionKeepsFd(l.(cli := Announce(l.cli, l.down[0]), down := l.down[1..]));
    }
  }

  lemma CompletionKeepsFd(l: Link)
    ensures WaitingFd(ShutdownLocal(l)) == WaitingFd(l)
  {
  }

  /** Wherever the splices stop, the start request is the last item read or still to be read. */
  lemma SwallowedFd(l: Link, n: nat, j: nat)
    requires Lag(l) && l.inWait && 1 <= n <= |l.s2c| && j <= |l.cli.pipe| + n
    ensures var p := l.cli.pipe + l.s2c[..n];
            ReqAt(l.s2c) == if n < |l.s2c| then ReqAt(l.s2c[n..])
                            else if j < |p| then ReqAt(p[j..]) else ReqAt(l.cli.outer.written + p[..j])
    ensures var p := l.cli.pipe + l.s2c[..n];
            ReqAt(l.s2c).Some? && (n < |l.s2c| || j == |p| || ReqAt(p[j..]).Some?)
  {
    assert StartReqOnly(l.s2c[|l.s2c|-1..], l.id);
  }

  lemma LinkFdClaim(l: Link, fd: Fd)
    requires Inv(l) && Enabled(l, Claim(fd))
    ensures LinkFd(l) == None && LinkFd(Apply(l, Claim(fd))) == Some(fd)
  {
    assert Opening(l);
  }

  lemma LinkFdReuse(l: Link, fd: Fd)
    requires Inv(l) && Enabled(l, Reuse(fd))
    ensures LinkFd(l).Some? && LinkFd(Apply(l, Reuse(fd))) == Some(fd)
  {
    assert Pooled(l) || Lag(l);
  }

  predicate Requested(l: Link, fd: Fd) { ReqAt(l.s2c) == Some(fd) }
  predicate Responded(l: Link, fd: Fd) { !l.srv.started && l.c2s != [] && l.c2s[0] == StartRsp(fd, l.id) }
  predicate Bound(l: Link, fd: Fd) { l.srv.outer.Outer? && l.srv.outer.fd == fd }

  /** The request for `fd` has been read as payload. */
  predicate Swallowed(l: Link, fd: Fd) {
    || ReqAt(l.cli.pipe) == Some(fd)
    || (l.inWait && l.s2c == [] && l.cli.pipe == [] && l.c2s == [] && l.cli.outer.Outer?
        && ReqAt(l.cli.outer.written) == Some(fd))
  }

  function One(b: bool): nat { if b then 1 else 0 }

  /**
    The descriptor of a connection is in one message in flight, in a request read as payload, or
    bound, and in one of these only.
  */
  lemma CurrentMeans(l: Link, fd: Fd)
    requires Inv(l) && LinkFd(l) == Some(fd)
    ensures One(Requested(l, fd)) + One(Swallowed(l, fd)) + One(Responded(l, fd)) + One(Bound(l, fd)) == 1
    ensures Swallowed(l, fd) ==> l.crossed
  {
    if Active(l) && Live(l.cli) { FlowPay(l.srv.outer, l.s2c, l.cli); }
    if Active(l) { assert Pay(l.s2c) && Pay(l.cli.pipe); }
  }

  lemma AtFds(s: State, p: ProxyId, e: Event, x: Place)
    requires Can(s, At(p, e)) && Inv(View(s, p))
    ensures FdAt(Step(s, At(p, e)), x) == FdAfter(s, p, e, x)
  {
    AtBooks(s, p, e);
    if x.Current? && x.p in s.wires {
      AtView(s, p, e, x.p);
      if x.p == p { OwnFd(s, p, e); }
    }
    FdsFromBooks(s, Step(s, At(p, e)), p, e, x);
  }

  lemma FdsFromBooks(s: State, s': State, p: ProxyId, e: Event, x: Place)
    requires p in s.wires && s'.past == s.past && s'.wires.Keys == s.wires.Keys && (e.Claim? ==> s.pool.undealt != [])
    requires s'.pool.undealt == s.pool.undealt[..|s.pool.undealt| - if e.Claim? then 1 else 0]
    requires x.Current? && x.p in s.wires ==>
               LinkFd(View(s', x.p)) ==
               if x.p == p && e.Claim? then Some(s.pool.undealt[|s.pool.undealt|-1]) else LinkFd(View(s, x.p))
    ensures FdAt(s', x) == FdAfter(s, p, e, x)
  {
  }

  /** Claiming moves the top of the stack to the connection; any other handler moves no descriptor. */
  function FdAfter(s: State, p: ProxyId, e: Event, x: Place): Option<Fd> {
    var last := Undealt(if s.pool.undealt == [] then 0 else |s.pool.undealt| - 1);
    if !e.Claim? then FdAt(s, x)
    else if x == Current(p) then FdAt(s, last) else if x == last then None else FdAt(s, x)
  }

  lemma AtBooks(s: State, p: ProxyId, e: Event)
    requires Can(s, At(p, e))
    ensures var s' := Step(s, At(p, e));
            && s'.past == s.past && s'.wires.Keys == s.wires.Keys && s'.accepted == s.accepted
            && s'.pool.undealt == s.pool.undealt[..|s.pool.undealt| - if e.Claim? then 1 else 0]
  {
  }

  lemma OwnFd(s: State, p: ProxyId, e: Event)
    requires Can(s, At(p, e)) && Inv(View(s, p))
    ensures LinkFd(Apply(View(s, p), e)) ==
            if e.Claim? then Some(s.pool.undealt[|s.pool.undealt|-1]) else LinkFd(View(s, p))
  {
    var l := View(s, p);
    if e.Claim? { LinkFdClaim(l, e.fd); } else { LinkFdKept(l, e); }
  }

  lemma AtView(s: State, p: ProxyId, e: Event, q: ProxyId)
    requires Can(s, At(p, e)) && q in s.wires
    ensures View(Step(s, At(p, e)), q) == if q == p then Apply(View(s, p), e) else View(s, q)
    ensures Step(s, At(p, e)).wires[p].crossed == Apply(View(s, p), e).crossed
  {
    PoppedView(s, e, p);
    PoppedView(s, e, q);
    ViewPut(Popped(s, e), p, e, q);
  }

  /** A new descriptor goes to the stack, or to the reused connection, whose old one goes to the finished sessions. */
  function FdAccepted(s: State, fd: Fd, x: Place): Option<Fd> {
    if s.pool.free == [] then (if x == Undealt(|s.pool.undealt|) then Some(fd) else FdAt(s, x))
    else
      var p := s.pool.free[|s.pool.free|-1];
      if x == Current(p) then Some(fd)
      else if p in s.past && x == Past(p, |s.past[p]|) then FdAt(s, Current(p))
      else FdAt(s, x)
  }

  lemma AcceptFds(s: State, fd: Fd, x: Place)
    requires Can(s, Accept(fd))
    requires s.pool.free != [] ==> Inv(View(s, s.pool.free[|s.pool.free|-1]))
    ensures FdAt(Step(s, Accept(fd)), x) == FdAccepted(s, fd, x)
  {
    AcceptParts(s, fd);
    if s.pool.free != [] { LinkFdReuse(View(s, s.pool.free[|s.pool.free|-1]), fd); }
    if x.Current? && x.p in s.wires {
      if s.pool.free == [] { AcceptNew(s, fd, x.p); } else { AcceptReuse(s, fd, x.p); }
    }
    FdsFromParts(s, Step(s, Accept(fd)), fd, x);
  }

  lemma FdsFromParts(s: State, s': State, fd: Fd, x: Place)
    requires Parts(s, s', fd)
    requires s.pool.free != [] ==> var p := s.pool.free[|s.pool.free|-1]; p in s.wires && p in s.past
    requires x.Current? && x.p in s.wires ==>
               LinkFd(View(s', x.p)) ==
               if s.pool.free != [] && x.p == s.pool.free[|s.pool.free|-1] then Some(fd) else LinkFd(View(s, x.p))
    ensures FdAt(s', x) == FdAccepted(s, fd, x)
  {
  }

  /** What accepting does apart from the connections. */
  predicate Parts(s: State, s': State, fd: Fd) {
    && s'.wires.Keys == s.wires.Keys
    && s'.pool.undealt == s.pool.undealt + (if s.pool.free == [] then [fd] else [])
    && s'.past == if s.pool.free == [] then s.past
                  else
                    var p := s.pool.free[|s.pool.free|-1];
                    if p in s.past && p in s.wires then s.past[p := s.past[p] + [View(s, p)]] else s.past
  }

  lemma AcceptParts(s: State, fd: Fd)
    requires Can(s, Accept(fd))
    ensures Parts(s, Step(s, Accept(fd)), fd)
  {
  }

  lemma ConnectFds(s: State, p: ProxyId, localFd: Fd, x: Place)
    requires SysInv(s) && Can(s, Connect(p, localFd))
    ensures FdAt(Step(s, Connect(p, localFd)), x) == FdAt(s, x)
  {
    if x.Current? && (x.p == p || x.p in s.wires) { ConnectView(s, p, localFd, x.p); }
  }

  /** Moving one descriptor from one place to an empty one keeps the books. */
  lemma MoveConserved(s: State, s': State, x0: Place, y0: Place)
    requires Conserved(s) && s'.accepted == s.accepted && x0 != y0
    requires FdAt(s, y0) == None
    requires forall x :: FdAt(s', x) == if x == y0 then FdAt(s, x0) else if x == x0 then None else FdAt(s, x)
    ensures Conserved(s')
  {
    forall fd
      ensures fd in s'.accepted <==> exists x :: FdAt(s', x) == Some(fd)
    {
      if fd in s.accepted {
        var x :| FdAt(s, x) == Some(fd);
        assert FdAt(s', if x == x0 then y0 else x) == Some(fd);
      }
      if y :| FdAt(s', y) == Some(fd) {
        assert FdAt(s, if y == y0 then x0 else y) == Some(fd);
      }
    }
  }

  /** So does putting a new descriptor into an empty place. */
  lemma AddConserved(s: State, s': State, x0: Place, fd0: Fd)
    requires Conserved(s) && fd0 !in s.accepted && s'.accepted == s.accepted + {fd0}
    requires FdAt(s, x0) == None
    requires forall x :: FdAt(s', x) == if x == x0 then Some(fd0) else FdAt(s, x)
    ensures Conserved(s')
  {
    forall fd
      ensures fd in s'.accepted <==> exists x :: FdAt(s', x) == Some(fd)
    {
      if fd in s.accepted {
        var x :| FdAt(s, x) == Some(fd);
        assert FdAt(s', x) == Some(fd);
      }
      if fd == fd0 { assert FdAt(s', x0) == Some(fd); }
      if y :| FdAt(s', y) == Some(fd) {
        assert y == x0 || FdAt(s, y) == Some(fd);
      }
    }
  }

  lemma SameConserved(s: State, s': State)
    requires Conserved(s) && s'.accepted == s.accepted
    requires forall x :: FdAt(s', x) == FdAt(s, x)
    ensures Conserved(s')
  {
    forall fd
      ensures fd in s'.accepted <==> exists x :: FdAt(s', x) == Some(fd)
    {
      if fd in s.accepted {
        var x :| FdAt(s, x) == Some(fd);
        assert FdAt(s', x) == Some(fd);
      }
      if y :| FdAt(s', y) == Some(fd) { assert FdAt(s, y) == Some(fd); }
    }
  }

  /** A reused connection first sends its old descriptor to the finished sessions, then takes the new one. */
  lemma AcceptConserved(s: State, fd: Fd)
    requires Can(s, Accept(fd)) && Conserved(s)
    requires s.pool.free != [] ==> Inv(View(s, s.pool.free[|s.pool.free|-1]))
    ensures Conserved(Step(s, Accept(fd)))
  {
    var s' := Step(s, Accept(fd));
    forall x ensures FdAt(s', x) == FdAccepted(s, fd, x) {
      AcceptFds(s, fd, x);
    }
    if s.pool.free == [] {
      AddConserved(s, s', Undealt(|s.pool.undealt|), fd);
    } else {
      var p := s.pool.free[|s.pool.free|-1];
      ReuseConserved(s, s', p, fd);
    }
  }

  lemma ReuseConserved(s: State, s': State, p: ProxyId, fd0: Fd)
    requires Conserved(s) && fd0 !in s.accepted && s'.accepted == s.accepted + {fd0}
    requires p in s.past
    requires forall x :: FdAt(s', x) == if x == Current(p) then Some(fd0)
                                        else if x == Past(p, |s.past[p]|) then FdAt(s, Current(p)) else FdAt(s, x)
    ensures Conserved(s')
  {
    forall fd
      ensures fd in s'.accepted <==> exists x :: FdAt(s', x) == Some(fd)
    {
      if fd in s.accepted {
        var x :| FdAt(s, x) == Some(fd);
        assert FdAt(s', if x == Current(p) then Past(p, |s.past[p]|) else x) == Some(fd);
      }
      if fd == fd0 { assert FdAt(s', Current(p)) == Some(fd); }
      if y :| FdAt(s', y) == Some(fd) {
        assert fd == fd0 || FdAt(s, if y == Past(p, |s.past[p]|) then Current(p) else y) == Some(fd);
      }
    }
  }

  lemma AtConserved(s: State, p: ProxyId, e: Event)
    requires Can(s, At(p, e)) && Inv(View(s, p)) && Conserved(s)
    ensures Conserved(Step(s, At(p, e)))
  {
    var s' := Step(s, At(p, e));
    forall x ensures FdAt(s', x) == FdAfter(s, p, e, x) {
      AtFds(s, p, e, x);
    }
    AtBooks(s, p, e);
    if e.Claim? {
      LinkFdClaim(View(s, p), e.fd);
      MoveConserved(s, s', Undealt(|s.pool.undealt|-1), Current(p));
    } else {
      SameConserved(s, s');
    }
  }

  /** An uncrossed system was uncrossed before. */
  lemma UncrossedBefore(s: State, a: Action)
    requires Can(s, a) && Uncrossed(Step(s, a))
    ensures Uncrossed(s)
  {
    var s' := Step(s, a);
    forall q | q in s.wires
      ensures !s.wires[q].crossed
    {
      assert !s'.wires[q].crossed;
    }
  }

  /** Every accepted public connection is in exactly one place, in every run. */
  lemma {:induction false} PublicConnectionsConserved(run: seq<Action>)
    requires Exec(run).Some?
    ensures Conserved(Exec(run).value)
  {
    if run == [] {
    } else {
      var before := run[..|run|-1];
      var s, a := Exec(before).value, run[|run|-1];
      PublicConnectionsConserved(before);
      RunInv(before);
      match a
      case Accept(fd) => AcceptConserved(s, fd);
      case Connect(p, localFd) =>
        forall x ensures FdAt(Step(s, a), x) == FdAt(s, x) { ConnectFds(s, p, localFd, x); }
        SameConserved(s, Step(s, a));
      case At(p, e) => AtConserved(s, p, e);
    }
  }
}
