/**
  Pooling is invisible: every uncrossed run of the tunnel is matched, step by step, by a
  run of a system that opens a fresh proxy connection for every session and never reuses
  one, and every session looks the same in both.
*/
module PoolRefinement {
  import opened Options
  import opened ProxyLink
  import opened ProxySystem
  import PublicFds

  /** The k-th session carried by connection p. */
  datatype Session = Session(p: ProxyId, k: nat)

  type Unpooled = map<Session, Link>

  datatype UAction = Open(x: Session, localFd: Fd) | Do(x: Session, e: Event)

  /** Handlers other than those that start a connection again. */
  predicate Plain(e: Event) {
    !e.Reuse? && !e.ClientStart? && !e.Bind?
  }

  predicate UCan(u: Unpooled, a: UAction) {
    match a
    case Open(x, _) => x !in u
    case Do(x, e) => x in u && Plain(e) && Enabled(u[x], e)
  }

  function UStep(u: Unpooled, a: UAction): Unpooled
    requires UCan(u, a)
  {
    match a
    case Open(x, localFd) => u[x := Fresh(x.p, localFd)]
    case Do(x, e) => u[x := Apply(u[x], e)]
  }

  function UExec(run: seq<UAction>): Option<Unpooled> {
    if run == [] then Some(map[])
    else
      var before := UExec(run[..|run|-1]);
      var a := run[|run|-1];
      if before.Some? && UCan(before.value, a) then Some(UStep(before.value, a)) else None
  }

  // ---------------------------------------------------------------------------
  // What a pooled connection stands for

  /** The present session has reached the client. */
  predicate Opened(l: Link) {
    !l.inWait || l.cli.started
  }

  /**
    The same session on a connection of its own: the start response becomes the message that claims
    a new connection.
  */
  function Alone(l: Link): Link {
    if l.inWait && l.c2s != [] then l.(inWait := false, unclaimed := true, c2s := [MetaSet(l.id)] + l.c2s[1..]) else l
  }

  function Sessions(s: State): set<Session> {
    set p, k | p in s.wires && p in s.past && 0 <= k <= |s.past[p]| && (k == |s.past[p]| ==> Opened(View(s, p)))
      :: Session(p, k)
  }

  function SessionState(s: State, x: Session): Link
    requires x in Sessions(s)
  {
    if x.k < |s.past[x.p]| then s.past[x.p][x.k] else Alone(View(s, x.p))
  }

  function Abs(s: State): Unpooled {
    map x | x in Sessions(s) :: SessionState(s, x)
  }

  function EventAlone(l: Link, e: Event): Event {
    if e.Bind? && l.c2s != [] && l.c2s[0].StartRsp? then Claim(l.c2s[0].fd) else e
  }

  /** What the unpooled system does when the pooled one takes `a`. */
  function Image(s: State, a: Action): seq<UAction>
    requires Can(s, a)
  {
    match a
    case Accept(_) => []
    case Connect(p, localFd) => [Open(Session(p, 0), localFd)]
    case At(p, e) =>
      var x := Session(p, if p in s.past then |s.past[p]| else 0);
      if e.ClientStart? then [Open(x, e.localFd)] else [Do(x, EventAlone(View(s, p), e))]
  }

  function ImageRun(run: seq<Action>): seq<UAction> {
    if run == [] then []
    else
      var before := run[..|run|-1];
      var a := run[|run|-1];
      if Exec(before).Some? && Can(Exec(before).value, a)
      then ImageRun(before) + Image(Exec(before).value, a) else []
  }

  // ---------------------------------------------------------------------------
  // One connection

  /** A handler on a pooled connection does what it would do on a connection of the session's own. */
  lemma AloneStep(l: Link, e: Event)
    requires Inv(l) && Enabled(l, e) && !Apply(l, e).crossed && !l.crossed && !e.Reuse? && !e.ClientStart?
    ensures Opened(l) && Opened(Apply(l, e))
    ensures Plain(EventAlone(l, e)) && Enabled(Alone(l), EventAlone(l, e))
    ensures Apply(Alone(l), EventAlone(l, e)) == Alone(Apply(l, e))
  {
    if Opening(l) {
      AloneOpening(l, e);
    } else {
      assert Active(l);
      PublicFds.ActivePay(l);
    }
  }

  lemma AloneOpening(l: Link, e: Event)
    requires Inv(l) && Opening(l) && Enabled(l, e) && !l.crossed && !e.Reuse? && !e.ClientStart?
    ensures Opened(l) && Opened(Apply(l, e))
    ensures Plain(EventAlone(l, e)) && Enabled(Alone(l), EventAlone(l, e))
    ensures Apply(Alone(l), EventAlone(l, e)) == Alone(Apply(l, e))
  {
    if e.LocRead? { AloneRead(l, e.data, e.k); }
  }

  lemma AloneRead(l: Link, data: seq<Item>, k: nat)
    requires Opening(l) && Enabled(l, LocRead(data, k))
    ensures Apply(Alone(l), LocRead(data, k)) == Alone(Apply(l, LocRead(data, k)))
  {
    var moved := (l.cli.outer.pipe + data)[..k];
    assert (l.c2s + moved)[1..] == l.c2s[1..] + moved;
    assert [MetaSet(l.id)] + l.c2s[1..] + moved == [MetaSet(l.id)] + (l.c2s[1..] + moved);
  }

  /** A restarted connection is indistinguishable from a fresh one. */
  lemma RestartIsFresh(l: Link, localFd: Fd)
    requires Inv(l) && Enabled(l, ClientStart(localFd)) && !l.crossed
    ensures !Opened(l) && Opened(Apply(l, ClientStart(localFd)))
    ensures Alone(Apply(l, ClientStart(localFd))) == Fresh(l.id, localFd)
  {
    assert Starting(l);
  }

  lemma ReuseSetsAside(l: Link, fd: Fd)
    requires Inv(l) && Enabled(l, Reuse(fd)) && !l.crossed
    ensures Opened(l) && Alone(l) == l && !Opened(Apply(l, Reuse(fd)))
  {
    assert Pooled(l);
  }

  // ---------------------------------------------------------------------------
  // The whole system

  lemma AtViews(s: State, p: ProxyId, e: Event, q: ProxyId)
    requires Can(s, At(p, e)) && q in s.wires
    ensures View(Step(s, At(p, e)), q) == if q == p then Apply(View(s, p), e) else View(s, q)
    ensures Step(s, At(p, e)).past == s.past && Step(s, At(p, e)).wires.Keys == s.wires.Keys
  {
    PublicFds.AtView(s, p, e, q);
    PublicFds.AtBooks(s, p, e);
  }

  lemma AtOthers(s: State, p: ProxyId, e: Event, y: Session)
    requires Can(s, At(p, e)) && p in s.past && y != Session(p, |s.past[p]|)
    ensures y in Sessions(Step(s, At(p, e))) <==> y in Sessions(s)
    ensures y in Sessions(s) ==> SessionState(Step(s, At(p, e)), y) == SessionState(s, y)
  {
    if y.p in s.wires { AtViews(s, p, e, y.p); }
  }

  /** The session `p` is in takes, on its own connection, the step `p` takes. */
  predicate SelfMoves(s: State, p: ProxyId, e: Event)
    requires Can(s, At(p, e)) && p in s.past
  {
    var x := Session(p, |s.past[p]|);
    var s' := Step(s, At(p, e));
    && x in Sessions(s')
    && (if e.ClientStart? then x !in Sessions(s) && SessionState(s', x) == Fresh(p, e.localFd)
        else
          var e' := EventAlone(View(s, p), e);
          && x in Sessions(s) && Plain(e') && Enabled(SessionState(s, x), e')
          && SessionState(s', x) == Apply(SessionState(s, x), e'))
  }

  lemma AtSelf(s: State, p: ProxyId, e: Event)
    requires Can(s, At(p, e)) && p in s.past && Inv(View(s, p))
    requires !View(s, p).crossed && !Apply(View(s, p), e).crossed
    ensures SelfMoves(s, p, e)
  {
    AtViews(s, p, e, p);
    if e.ClientStart? { RestartIsFresh(View(s, p), e.localFd); } else { AloneStep(View(s, p), e); }
    PresentSession(s, p);
    PresentSession(Step(s, At(p, e)), p);
  }

  lemma PresentSession(s: State, p: ProxyId)
    requires p in s.wires && p in s.past
    ensures var x := Session(p, |s.past[p]|);
            (x in Sessions(s) <==> Opened(View(s, p))) && (x in Sessions(s) ==> SessionState(s, x) == Alone(View(s, p)))
  {
  }

  lemma AbsUpdate(s: State, s': State, x: Session)
    requires x in Sessions(s')
    requires forall y | y != x :: y in Sessions(s') <==> y in Sessions(s)
    requires forall y | y != x && y in Sessions(s) :: SessionState(s', y) == SessionState(s, y)
    ensures Abs(s') == Abs(s)[x := SessionState(s', x)]
  {
  }

  lemma AtAbs(s: State, p: ProxyId, e: Event)
    requires Can(s, At(p, e)) && p in s.past && SelfMoves(s, p, e)
    ensures |Image(s, At(p, e))| == 1
    ensures UCan(Abs(s), Image(s, At(p, e))[0])
    ensures Abs(Step(s, At(p, e))) == UStep(Abs(s), Image(s, At(p, e))[0])
  {
    var x := Session(p, |s.past[p]|);
    var s' := Step(s, At(p, e));
    forall y | y != x
      ensures y in Sessions(s') <==> y in Sessions(s)
      ensures y in Sessions(s) ==> SessionState(s', y) == SessionState(s, y)
    {
      AtOthers(s, p, e, y);
    }
    AbsUpdate(s, s', x);
  }

  lemma SameAbs(s: State, s': State)
    requires forall y :: y in Sessions(s') <==> y in Sessions(s)
    requires forall y | y in Sessions(s) :: SessionState(s', y) == SessionState(s, y)
    ensures Abs(s') == Abs(s)
  {
  }

  lemma AcceptNewSession(s: State, fd: Fd, y: Session)
    requires Can(s, Accept(fd)) && s.pool.free == []
    ensures var s' := Step(s, Accept(fd));
            && (y in Sessions(s') <==> y in Sessions(s))
            && (y in Sessions(s) ==> SessionState(s', y) == SessionState(s, y))
  {
    if y.p in s.wires { AcceptNew(s, fd, y.p); }
  }

  lemma AcceptReuseSession(s: State, fd: Fd, y: Session)
    requires Can(s, Accept(fd)) && s.pool.free != []
    requires var l := View(s, s.pool.free[|s.pool.free|-1]);
             Opened(l) && Alone(l) == l && !Opened(Apply(l, Reuse(fd)))
    ensures var s' := Step(s, Accept(fd));
            && (y in Sessions(s') <==> y in Sessions(s))
            && (y in Sessions(s) ==> SessionState(s', y) == SessionState(s, y))
  {
    PublicFds.AcceptParts(s, fd);
    if y.p in s.wires { AcceptReuse(s, fd, y.p); }
    OneMorePast(s, Step(s, Accept(fd)), fd, y);
  }

  /** A session set aside is counted among the past ones and no longer as the present one. */
  lemma OneMorePast(s: State, s': State, fd: Fd, y: Session)
    requires PublicFds.Parts(s, s', fd) && s.pool.free != []
    requires var p := s.pool.free[|s.pool.free|-1];
             && p in s.wires && p in s.past && Opened(View(s, p)) && Alone(View(s, p)) == View(s, p)
             && (y.p == p ==> !Opened(View(s', p)))
             && (y.p != p && y.p in s.wires ==> View(s', y.p) == View(s, y.p))
    ensures y in Sessions(s') <==> y in Sessions(s)
    ensures y in Sessions(s) ==> SessionState(s', y) == SessionState(s, y)
  {
  }

  /** Setting a finished session aside does not show. */
  lemma AcceptAbs(s: State, fd: Fd)
    requires Can(s, Accept(fd))
    requires s.pool.free != [] ==>
               var p := s.pool.free[|s.pool.free|-1]; Inv(View(s, p)) && !View(s, p).crossed
    ensures Abs(Step(s, Accept(fd))) == Abs(s)
  {
    if s.pool.free != [] { ReuseSetsAside(View(s, s.pool.free[|s.pool.free|-1]), fd); }
    var s' := Step(s, Accept(fd));
    forall y
      ensures y in Sessions(s') <==> y in Sessions(s)
      ensures y in Sessions(s) ==> SessionState(s', y) == SessionState(s, y)
    {
      if s.pool.free == [] { AcceptNewSession(s, fd, y); } else { AcceptReuseSession(s, fd, y); }
    }
    SameAbs(s, s');
  }

  lemma ConnectAbs(s: State, p: ProxyId, localFd: Fd)
    requires Known(s) && Can(s, Connect(p, localFd))
    ensures Session(p, 0) !in Abs(s)
    ensures Abs(Step(s, Connect(p, localFd))) == Abs(s)[Session(p, 0) := Fresh(p, localFd)]
  {
    var s' := Step(s, Connect(p, localFd));
    ConnectView(s, p, localFd, p);
    assert Session(p, 0) in Sessions(s');
    forall y
      ensures y in Sessions(s') <==> y in Sessions(s) || y == Session(p, 0)
      ensures y in Sessions(s) ==> y.p != p && SessionState(s', y) == SessionState(s, y)
    {
      if y.p in s.wires { ConnectView(s, p, localFd, y.p); }
    }
  }

  lemma UExecSnoc(run: seq<UAction>, a: UAction)
    requires UExec(run).Some? && UCan(UExec(run).value, a)
    ensures UExec(run + [a]) == Some(UStep(UExec(run).value, a))
  {
    assert (run + [a])[..|run + [a]|-1] == run;
  }

  /**
    Every uncrossed run of the pooled tunnel refines the unpooled one: `ImageRun(run)` is a
    run without reuse that ends with every session, finished or current, in the same state.
  */
  lemma {:induction false} PoolingIsInvisible(run: seq<Action>)
    requires Exec(run).Some? && Uncrossed(Exec(run).value)
    ensures UExec(ImageRun(run)) == Some(Abs(Exec(run).value))
  {
    if run == [] {
      assert Sessions(Init) == {};
    } else {
      var before := run[..|run|-1];
      var s, a := Exec(before).value, run[|run|-1];
      PublicFds.UncrossedBefore(s, a);
      PoolingIsInvisible(before);
      assert SysInv(s) by { RunInv(before); }
      PoolingOneMore(ImageRun(before), s, a);
    }
  }

  lemma PoolingOneMore(image: seq<UAction>, s: State, a: Action)
    requires SysInv(s) && Can(s, a) && Uncrossed(s) && Uncrossed(Step(s, a)) && UExec(image) == Some(Abs(s))
    ensures UExec(image + Image(s, a)) == Some(Abs(Step(s, a)))
  {
    PoolingStep(s, a);
    OneImage(image, Image(s, a), Abs(s), Abs(Step(s, a)));
  }

  lemma OneImage(image: seq<UAction>, step: seq<UAction>, u: Unpooled, u': Unpooled)
    requires UExec(image) == Some(u) && |step| <= 1
    requires step == [] ==> u' == u
    requires step != [] ==> UCan(u, step[0]) && u' == UStep(u, step[0])
    ensures UExec(image + step) == Some(u')
  {
    if step == [] {
      assert image + step == image;
    } else {
      UExecSnoc(image, step[0]);
      assert step == [step[0]];
    }
  }

  lemma PoolingStep(s: State, a: Action)
    requires SysInv(s) && Can(s, a) && Uncrossed(s) && Uncrossed(Step(s, a))
    ensures a.Accept? ==> Image(s, a) == [] && Abs(Step(s, a)) == Abs(s)
    ensures !a.Accept? ==>
              && |Image(s, a)| == 1
              && UCan(Abs(s), Image(s, a)[0])
              && Abs(Step(s, a)) == UStep(Abs(s), Image(s, a)[0])
  {
    match a
    case Accept(fd) => AcceptAbs(s, fd);
    case Connect(p, localFd) => ConnectAbs(s, p, localFd);
    case At(p, e) =>
      AtViews(s, p, e, p);
      assert !Step(s, a).wires[p].crossed;
      AtSelf(s, p, e);
      AtAbs(s, p, e);
  }

  /** No connection of the unpooled system is ever popped for another session. */
  lemma {:induction false} UnpooledNeverReuses(run: seq<UAction>)
    requires UExec(run).Some?
    ensures forall x | x in UExec(run).value :: !UExec(run).value[x].inWait
  {
    if run != [] {
      var before, a := run[..|run|-1], run[|run|-1];
      UnpooledNeverReuses(before);
      StepNeverReuses(UExec(before).value, a);
    }
  }

  lemma StepNeverReuses(u: Unpooled, a: UAction)
    requires UCan(u, a) && forall x | x in u :: !u[x].inWait
    ensures forall x | x in UStep(u, a) :: !UStep(u, a)[x].inWait
  {
  }

  /** A finished session ends on its own connection in the state it was set aside in. */
  lemma PastSessionAlone(run: seq<Action>, p: ProxyId, k: nat)
    requires Exec(run).Some? && Uncrossed(Exec(run).value)
    requires p in Exec(run).value.wires && p in Exec(run).value.past && k < |Exec(run).value.past[p]|
    ensures UExec(ImageRun(run)).Some? && Session(p, k) in UExec(ImageRun(run)).value
    ensures UExec(ImageRun(run)).value[Session(p, k)] == Exec(run).value.past[p][k]
  {
    PoolingIsInvisible(run);
    assert Session(p, k) in Sessions(Exec(run).value);
  }

  /** What a public/local pair can observe of a session. */
  datatype Observed = Observed(pubInput: seq<Item>, pubOutput: seq<Item>, pubShuts: nat,
                               locInput: seq<Item>, locOutput: seq<Item>, locShuts: nat)

  function Observe(l: Link): Observed {
    var pub, loc := l.srv.outer, l.cli.outer;
    Observed(if pub.Outer? then pub.input else [],
             if pub.Outer? then pub.written else [],
             if pub.Outer? then pub.shuts else 0,
             if loc.Outer? then loc.input else [],
             if loc.Outer? then loc.written else [],
             if loc.Outer? then loc.shuts else 0)
  }

  /** The pair served by the present session of `p` sees what it would see on a fresh connection. */
  lemma PairSeesFreshConnection(run: seq<Action>, p: ProxyId)
    requires Exec(run).Some? && Uncrossed(Exec(run).value)
    requires p in Exec(run).value.wires && Opened(View(Exec(run).value, p))
    ensures p in Exec(run).value.past && UExec(ImageRun(run)).Some?
    ensures var x := Session(p, |Exec(run).value.past[p]|);
            x in UExec(ImageRun(run)).value
            && Observe(UExec(ImageRun(run)).value[x]) == Observe(View(Exec(run).value, p))
  {
    PoolingIsInvisible(run);
    assert Known(Exec(run).value) by { RunInv(run); }
    assert Session(p, |Exec(run).value.past[p]|) in Sessions(Exec(run).value);
  }
}
