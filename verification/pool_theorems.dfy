/**
  What holds in every run of the tunnel: release safety, half-close completeness,
  release accounting, mode agreement and conservation of public connections.
*/
module PoolTheorems {
  import opened ProxyLink
  import opened ProxySystem
  import PublicFds

  /** `l` is the view of connection `p` at the end of `run`. */
  predicate Reaches(run: seq<Action>, p: ProxyId, l: Link) {
    Exec(run).Some? && p in Exec(run).value.wires && l == View(Exec(run).value, p)
  }

  lemma ReachesInv(run: seq<Action>, p: ProxyId, l: Link)
    requires Reaches(run, p, l)
    ensures Inv(l) && l.id == p
  {
    RunInv(run);
  }

  // ---------------------------------------------------------------------------
  // Release safety

  /** Nothing of an earlier session is left on the connection or on its way. */
  predicate Pristine(l: Link) {
    && Clean(l.srv) && Clean(l.cli)
    && l.s2c == [] && l.c2s == [] && l.down == [] && l.up == []
  }

  /** In an uncrossed history a connection in the free list is idle and reset at both ends, with nothing in flight. */
  lemma ReleaseSafety(run: seq<Action>, p: ProxyId, l: Link)
    requires Reaches(run, p, l) && !l.crossed
    requires p in Exec(run).value.pool.free
    ensures Pristine(l) && l.frees == 1
    ensures !l.inMap && !l.inWait
  {
    ReachesInv(run, p, l);
    CountMember(Exec(run).value.pool.free, p);
    assert Pooled(l);
  }

  /**
    A start request in flight is the only item on its way and meets an idle client end, so it is
    neither refused nor read as payload.
  */
  lemma StartRequestIsTaken(run: seq<Action>, p: ProxyId, l: Link, i: nat)
    requires Reaches(run, p, l) && !l.crossed
    requires i < |l.s2c| && l.s2c[i].StartReq?
    ensures i == 0 && |l.s2c| == 1
    ensures forall localFd :: Enabled(l, ClientStart(localFd))
    ensures Clean(l.cli)
  {
    ReachesInv(run, p, l);
    if Active(l) && Live(l.cli) { FlowPay(l.srv.outer, l.s2c, l.cli); }
    assert Starting(l);
  }

  /** In every run, crossed or not, a released connection is safe to reuse exactly when its client end has stopped. */
  lemma ReleaseSafetyExactly(run: seq<Action>, p: ProxyId, l: Link)
    requires Reaches(run, p, l)
    requires p in Exec(run).value.pool.free
    ensures (Clean(l.srv) && Clean(l.cli) && l.s2c == [] && l.c2s == [] && l.down == []) <==> !l.cli.started
    ensures l.cli.started ==> l.crossed
  {
    ReachesInv(run, p, l);
    CountMember(Exec(run).value.pool.free, p);
    assert Pooled(l) || Lag(l);
  }

  // ---------------------------------------------------------------------------
  // Half-close completeness

  /**
    SHUT_WR was executed at most once on `o`, and then `o` has got exactly what `far` counted, in
    order, and no more will come.  That is all `far` has read unless a short splice left some in
    its pipe.
  */
  predicate HalfCloseComplete(o: Outer, far: Outer) {
    o.Outer? ==>
      && o.shuts <= 1
      && (o.shuts == 1 ==>
            && far.Outer? && far.closing && o.written == far.sent && |far.sent| == far.tran
            && (o.written == far.input <==> far.pipe == []))
  }

  lemma FlowComplete(o: Outer, q: seq<Item>, x: Side)
    requires OuterOk(o) && Flow(o, q, x) && x.recv == o.tran
    ensures x.outer.written == o.sent && x.pipe == [] && q == []
  {
  }

  lemma LeftInPipe(o: Outer)
    requires OuterOk(o) && o.Outer?
    ensures o.sent == o.input <==> o.pipe == []
  {
    if o.pipe == [] { assert o.sent + o.pipe == o.sent; }
  }

  lemma HalfCloseOfLink(l: Link)
    requires Inv(l) && (l.inWait ==> l.cli.started)
    ensures HalfCloseComplete(l.srv.outer, l.cli.outer)
    ensures HalfCloseComplete(l.cli.outer, l.srv.outer)
  {
    if l.srv.outer.Outer? { LeftInPipe(l.srv.outer); }
    if l.cli.outer.Outer? { LeftInPipe(l.cli.outer); }
    if Active(l) {
      if Live(l.srv) && l.srv.outer.shuts == 1 { FlowComplete(l.cli.outer, l.c2s, l.srv); }
      if Live(l.cli) && l.cli.outer.shuts == 1 { FlowComplete(l.srv.outer, l.s2c, l.cli); }
    }
  }

  /**
    The present session of a connection.  Between a start request and the client's start there is
    none: the last one has been set aside.
  */
  lemma HalfCloseSafety(run: seq<Action>, p: ProxyId, l: Link)
    requires Reaches(run, p, l) && (l.inWait ==> l.cli.started)
    ensures HalfCloseComplete(l.srv.outer, l.cli.outer)
    ensures HalfCloseComplete(l.cli.outer, l.srv.outer)
  {
    ReachesInv(run, p, l);
    HalfCloseOfLink(l);
  }

  /** What is set aside of a finished session. */
  predicate SetAside(s: State, p: ProxyId) {
    p in s.past && p in s.wires &&
    forall k | 0 <= k < |s.past[p]| ::
      var l := s.past[p][k]; Inv(l) && l.frees > 0 && (l.crossed ==> s.wires[p].crossed)
  }

  lemma AcceptSetsAside(s: State, fd: Fd, p: ProxyId)
    requires Can(s, Accept(fd)) && SetAside(s, p) && Inv(View(s, p))
    ensures SetAside(Step(s, Accept(fd)), p)
  {
    PublicFds.AcceptParts(s, fd);
    if s.pool.free == [] { AcceptNew(s, fd, p); } else { AcceptReuse(s, fd, p); }
    StillSetAside(s, Step(s, Accept(fd)), fd, p);
  }

  lemma StillSetAside(s: State, s': State, fd: Fd, p: ProxyId)
    requires PublicFds.Parts(s, s', fd) && SetAside(s, p) && Inv(View(s, p))
    requires s.pool.free != [] && s.pool.free[|s.pool.free|-1] == p ==> View(s, p).frees > 0
    requires View(s, p).crossed ==> View(s', p).crossed
    ensures SetAside(s', p)
  {
  }

  lemma {:induction false} PastSessions(run: seq<Action>, p: ProxyId)
    requires Exec(run).Some? && p in Exec(run).value.wires
    ensures SetAside(Exec(run).value, p)
  {
    if run != [] {
      var before := run[..|run|-1];
      var s, a := Exec(before).value, run[|run|-1];
      RunInv(before);
      match a
      case Accept(fd) =>
        PublicFds.AcceptParts(s, fd);
        PastSessions(before, p);
        AcceptSetsAside(s, fd, p);
      case Connect(q, _) => if p != q { PastSessions(before, p); }
      case At(q, e) =>
        PublicFds.AtBooks(s, q, e);
        PastSessions(before, p);
        PublicFds.AtView(s, q, e, p);
    }
  }

  /** Every finished session that has been set aside. */
  lemma HalfCloseInPastSessions(run: seq<Action>, p: ProxyId, k: nat)
    requires Exec(run).Some? && p in Exec(run).value.wires
    requires p in Exec(run).value.past && k < |Exec(run).value.past[p]|
    ensures var l := Exec(run).value.past[p][k];
            HalfCloseComplete(l.srv.outer, l.cli.outer) && HalfCloseComplete(l.cli.outer, l.srv.outer)
  {
    PastSessions(run, p);
    var l := Exec(run).value.past[p][k];
    assert Pooled(l) || Lag(l);
    HalfCloseOfLink(l);
  }

  /** At any time the bytes written to an outer socket are a prefix of those the far end forwarded. */
  lemma NothingReordered(run: seq<Action>, p: ProxyId, l: Link)
    requires Reaches(run, p, l)
    requires l.srv.outer.Outer? && l.cli.outer.Outer?
    ensures l.srv.outer.written <= l.cli.outer.sent <= l.cli.outer.input
    ensures l.cli.outer.written <= l.srv.outer.sent <= l.srv.outer.input
  {
    ReachesInv(run, p, l);
    assert Active(l) || Pooled(l) || Lag(l);
  }

  // ---------------------------------------------------------------------------
  // Release accounting

  /** In every run a session has entered the free list at most once, and a connection is never in it twice. */
  lemma ReleasedAtMostOnce(run: seq<Action>, p: ProxyId, l: Link)
    requires Reaches(run, p, l)
    ensures l.released <= 1 && l.frees <= l.released
    ensures Count(Exec(run).value.pool.free, p) <= 1
  {
    ReachesInv(run, p, l);
  }

  /** A release is due: both ends have finished the session and it has not been released. */
  predicate ReleaseDue(l: Link) {
    l.inMap && Done(l.srv) && Done(l.cli) && l.released == 0
  }

  lemma FreeRequestEffect(l: Link)
    requires Inv(l) && Enabled(l, FreeRequest)
    ensures var l1 := l.(up := l.up[1..]);
            Apply(l, FreeRequest) == if ReleaseDue(l) then l1.(inMap := false, frees := 1, released := 1) else l1
  {
    if Active(l) && Done(l.srv) { assert ReleaseDue(l); }
  }

  /**
    In every run a release request acts only where a release is due; a late one is consumed and
    changes nothing else.
  */
  lemma LateFreeRequest(run: seq<Action>, p: ProxyId, l: Link)
    requires Reaches(run, p, l) && Can(Exec(run).value, At(p, FreeRequest))
    ensures var s := Exec(run).value;
            var s' := Step(s, At(p, FreeRequest));
            && s'.pool.free == s.pool.free + (if ReleaseDue(l) then [p] else [])
            && (!ReleaseDue(l) ==> s' == s.(up := s.up[1..]))
  {
    ReachesInv(run, p, l);
    FreeRequestEffect(l);
    var s := Exec(run).value;
    FreeRequestPut(s, p);
  }

  lemma FreeRequestPut(s: State, p: ProxyId)
    requires Can(s, At(p, FreeRequest))
    ensures var l := View(s, p);
            var s' := Step(s, At(p, FreeRequest));
            && s'.pool.free == s.pool.free + (if Apply(l, FreeRequest).frees > l.frees then [p] else [])
            && (Apply(l, FreeRequest) == l.(up := l.up[1..]) ==> s' == s.(up := s.up[1..]))
  {
    var l := View(s, p);
    var l' := Apply(l, FreeRequest);
    assert From(l'.down, |l.down|) == [];
    assert From(l'.up, |l.up| - 1) == [];
    if l' == l.(up := l.up[1..]) {
      var s' := Step(s, At(p, FreeRequest));
      assert s'.wires == s.wires;
      assert s'.pool == s.pool;
      assert s'.down == s.down && s'.up == s.up[1..];
    }
  }

  /** In every run, at least one of two finished ends took its EOF first. */
  lemma NotBothRemoteFirst(run: seq<Action>, p: ProxyId, l: Link)
    requires Reaches(run, p, l)
    requires l.srv.outer.Outer? && l.srv.outer.closing && l.cli.outer.Outer? && l.cli.outer.closing
    ensures l.srv.outer.first || l.cli.outer.first
  {
    ReachesInv(run, p, l);
  }

  // ---------------------------------------------------------------------------
  // Mode agreement

  /**
    An end in data mode has only payload on its way; an idle end next reads a frame meant for it,
    and can handle it.
  */
  lemma ModeAgreement(run: seq<Action>, p: ProxyId, l: Link)
    requires Reaches(run, p, l) && !l.crossed
    ensures l.cli.started ==> Pay(l.s2c) && Pay(l.cli.pipe)
    ensures l.srv.started ==> Pay(l.c2s) && Pay(l.srv.pipe)
    ensures !l.cli.started && l.s2c != [] ==> forall localFd :: Enabled(l, ClientStart(localFd))
    ensures !l.srv.started && l.c2s != [] ==>
              (l.c2s[0] == MetaSet(p) && l.unclaimed) || (l.c2s[0].StartRsp? && l.inWait)
  {
    ReachesInv(run, p, l);
    if Active(l) {
      if Live(l.srv) { FlowPay(l.cli.outer, l.c2s, l.srv); }
      if Live(l.cli) { FlowPay(l.srv.outer, l.s2c, l.cli); }
    }
  }

  lemma ClaimIsUnclaimed(l: Link)
    requires Inv(l) && !l.srv.started && l.c2s != [] && l.c2s[0].MetaSet?
    ensures l.unclaimed && l.c2s[0] == MetaSet(l.id)
  {
    assert Opening(l);
  }

  /** `claimProxyConn` never pops an empty stack. */
  lemma ClaimFindsPublicFd(run: seq<Action>, p: ProxyId, l: Link)
    requires Reaches(run, p, l)
    requires !l.srv.started && l.c2s != [] && l.c2s[0].MetaSet?
    ensures Exec(run).value.pool.undealt != []
    ensures exists fd :: Can(Exec(run).value, At(p, Claim(fd)))
  {
    ReachesInv(run, p, l);
    ClaimIsUnclaimed(l);
    StackNotEmpty(run, p);
    ClaimPossible(Exec(run).value, p);
  }

  lemma StackNotEmpty(run: seq<Action>, p: ProxyId)
    requires Exec(run).Some? && p in Exec(run).value.pool.unclaimed
    ensures Exec(run).value.pool.undealt != []
  {
    assert Balanced(Exec(run).value) by { RunInv(run); }
    assert |Exec(run).value.pool.unclaimed| >= 1;
  }

  lemma ClaimPossible(s: State, p: ProxyId)
    requires s.pool.undealt != [] && p in s.wires
    requires !s.wires[p].srv.started && s.wires[p].c2s != [] && s.wires[p].c2s[0] == MetaSet(p)
    ensures exists fd :: Can(s, At(p, Claim(fd)))
  {
    assert Can(s, At(p, Claim(s.pool.undealt[|s.pool.undealt|-1])));
  }

  /** Every count a session keeps fits the 32-bit counters of the source. */
  lemma CountersFit(run: seq<Action>, p: ProxyId, l: Link)
    requires Reaches(run, p, l) && !l.crossed
    ensures -1 <= l.srv.total <= INT_MAX && 0 <= l.srv.recv <= INT_MAX
    ensures -1 <= l.cli.total <= INT_MAX && 0 <= l.cli.recv <= INT_MAX
    ensures l.srv.outer.Outer? ==> 0 <= l.srv.outer.tran <= INT_MAX
    ensures l.cli.outer.Outer? ==> 0 <= l.cli.outer.tran <= INT_MAX
  {
    ReachesInv(run, p, l);
  }
}
