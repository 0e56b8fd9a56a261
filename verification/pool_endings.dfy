/**
  How a session ends: exactly when the outer sockets are half-closed and the connection is
  released, and the states from which this never happens.
*/
module PoolEndings {
  import opened ProxyLink
  import opened ProxySystem
  import opened PoolTheorems
  import opened HandlerEffects
  import PublicFds

  // ---------------------------------------------------------------------------
  // Half-close, exactly

  /** No EOF notice of the client is on its way. */
  predicate NoNotice(up: seq<Up>) {
    forall i | 0 <= i < |up| :: up[i].UpFree?
  }

  /** `missed` is set by taking a notice for a connection that is not in the map, and lasts for the session. */
  lemma MissedMeans(l: Link, e: Event)
    requires Enabled(l, e)
    ensures Apply(l, e).missed == (!e.Reuse? && (l.missed || (e.SrvNotice? && !l.inMap)))
  {
  }

  /**
    The client's EOF has been taken and everything it sent has been read: the public socket has
    been half-closed if and only if no short splice left bytes in the pipe and the notice was
    not dropped.
  */
  lemma PublicHalfClosedExactly(run: seq<Action>, p: ProxyId, l: Link)
    requires Reaches(run, p, l) && (l.inMap || l.frees > 0)
    requires l.cli.outer.Outer? && l.cli.outer.closing && l.c2s == [] && NoNotice(l.up)
    ensures l.srv.outer.Outer?
    ensures l.srv.outer.shuts == 1 <==> l.srv.pipe == [] && !l.missed
  {
    ReachesInv(run, p, l);
    if Active(l) && Live(l.srv) { NoticeTold(l); }
  }

  lemma NoticeTold(l: Link)
    requires UpOk(l) && Live(l.srv) && l.cli.outer.closing && NoNotice(l.up)
    ensures l.srv.total == -1 <==> l.missed
  {
    assert Untold(l)[0] == UpNotice(l.cli.outer.tran);
    assert ([UpFree] + Untold(l))[1] == UpNotice(l.cli.outer.tran);
  }

  /** The mirror image: no notice to the client is dropped. */
  lemma LocalHalfClosedExactly(run: seq<Action>, p: ProxyId, l: Link)
    requires Reaches(run, p, l) && (l.inMap || l.frees > 0)
    requires l.srv.outer.Outer? && l.srv.outer.closing && l.s2c == [] && l.down == []
    ensures l.cli.outer.Outer?
    ensures l.cli.outer.shuts == 1 <==> l.cli.pipe == []
  {
    ReachesInv(run, p, l);
  }

  /**
    Both EOFs taken and nothing on its way: the session has been released if and only if the server
    has half-closed the public socket and, where the client has to ask for the release, the client
    has half-closed the local one.
  */
  lemma ReleasedExactly(run: seq<Action>, p: ProxyId, l: Link)
    requires Reaches(run, p, l)
    requires l.srv.outer.Outer? && l.srv.outer.closing && l.cli.outer.Outer? && l.cli.outer.closing
    requires l.s2c == [] && l.c2s == [] && l.down == [] && l.up == []
    ensures l.released == 1 <==> l.srv.pipe == [] && !l.missed && (l.cli.pipe == [] || l.srv.outer.first)
    ensures !l.crossed ==> (l.released == 1 <==> l.srv.pipe == [] && l.cli.pipe == [])
    ensures l.released == 1 <==> p in Exec(run).value.pool.free
    ensures l.released == 1 ==> l.frees == 1 && l.srv.outer.shuts == 1 && (l.cli.outer.shuts == 1 <==> l.cli.pipe == [])
  {
    ReachesInv(run, p, l);
    CountMember(Exec(run).value.pool.free, p);
  }

  // ---------------------------------------------------------------------------
  // Sessions that never end

  /** The server is in the session and has dropped the client's EOF notice. */
  predicate NeverTold(l: Link) {
    Active(l) && l.missed
  }

  /** Bytes are left in the server's pipe and no more will come to push them out. */
  predicate StrandedAtServer(l: Link) {
    Active(l) && Live(l.srv) && l.cli.outer.closing && l.c2s == [] && l.srv.pipe != []
  }

  /** The same at the client. */
  predicate StrandedAtClient(l: Link) {
    Active(l) && Live(l.cli) && l.srv.outer.closing && l.s2c == [] && l.cli.pipe != []
  }

  /** What the session looks like as long as it lasts. */
  predicate Unfinished(l: Link) {
    l.srv.outer.Outer? && l.srv.outer.shuts == 0 && l.released == 0 && l.frees == 0 && l.inMap
  }

  lemma NeverToldIsUnfinished(l: Link)
    requires Inv(l) && NeverTold(l)
    ensures Unfinished(l) && l.srv.total == -1
  {
  }

  lemma StrandedIsUnfinished(l: Link)
    requires Inv(l) && StrandedAtServer(l)
    ensures Unfinished(l)
  {
    if l.srv.outer.shuts == 1 { FlowComplete(l.cli.outer, l.c2s, l.srv); }
  }

  /** In every run a dropped notice leads there as soon as the connection is in the map. */
  lemma MissedIsNeverTold(run: seq<Action>, p: ProxyId, l: Link)
    requires Reaches(run, p, l) && l.missed && l.inMap
    ensures NeverTold(l)
  {
    ReachesInv(run, p, l);
  }

  lemma NeverToldForever(l: Link, e: Event)
    requires Inv(l) && NeverTold(l) && Enabled(l, e)
    ensures NeverTold(Apply(l, e))
  {
    StepInv(l, e);
    MissedMeans(l, e);
    if AtClient(e) {
      assert Apply(l, e).inMap;
    } else {
      StaysInMap(l, e);
    }
  }

  /** A server end that is in the session and does not complete stays in the map. */
  lemma StaysInMap(l: Link, e: Event)
    requires Inv(l) && NeverTold(l) && Enabled(l, e) && !AtClient(e)
    ensures Apply(l, e).inMap
  {
    NeverToldIsUnfinished(l);
    if e.SrvData? { FlowAbsorb(l.cli.outer, l.c2s, l.srv, e.n, e.m); }
  }

  lemma StrandedAtServerForever(l: Link, e: Event)
    requires Inv(l) && StrandedAtServer(l) && Enabled(l, e)
    ensures StrandedAtServer(Apply(l, e))
  {
    StepInv(l, e);
  }

  lemma StrandedAtClientForever(l: Link, e: Event)
    requires Inv(l) && StrandedAtClient(l) && Enabled(l, e) && !BothFirst(Apply(l, e))
    ensures StrandedAtClient(Apply(l, e))
  {
    StepInv(l, e);
  }

  /** What one action of the system does to the view of `p`. */
  lemma ViewStep(s: State, a: Action, p: ProxyId)
    requires Known(s) && Can(s, a) && p in s.wires && View(s, p).frees == 0
    ensures p in Step(s, a).wires
    ensures View(Step(s, a), p) == if a.At? && a.p == p then Apply(View(s, p), a.e) else View(s, p)
  {
    match a
    case Accept(fd) =>
      PublicFds.AcceptParts(s, fd);
      CountMember(s.pool.free, p);
      if s.pool.free == [] { AcceptNew(s, fd, p); } else { AcceptReuse(s, fd, p); }
    case Connect(q, localFd) => ConnectView(s, q, localFd, p);
    case At(q, e) =>
      PublicFds.AtBooks(s, q, e);
      PublicFds.AtView(s, q, e, p);
  }

  predicate Stuck(l: Link) {
    NeverTold(l) || StrandedAtServer(l)
  }

  lemma StuckStep(l: Link, e: Event)
    requires Inv(l) && Stuck(l) && Enabled(l, e)
    ensures Stuck(Apply(l, e))
  {
    if NeverTold(l) { NeverToldForever(l, e); } else { StrandedAtServerForever(l, e); }
  }

  lemma StuckIsUnfinished(l: Link)
    requires Inv(l) && Stuck(l)
    ensures Unfinished(l)
  {
    if NeverTold(l) { NeverToldIsUnfinished(l); } else { StrandedIsUnfinished(l); }
  }

  /**
    A session whose notice was dropped, or whose bytes are stranded at the server, is in that state in
    every continuation of the run, whatever the far ends do: the public socket is never
    half-closed and the connection never released.
  */
  lemma {:induction false} StuckForever(run: seq<Action>, more: seq<Action>, p: ProxyId, l: Link)
    requires Reaches(run, p, l) && Stuck(l)
    requires Exec(run + more).Some?
    ensures p in Exec(run + more).value.wires
    ensures var l' := View(Exec(run + more).value, p); Stuck(l') && Unfinished(l')
    decreases more
  {
    if more == [] {
      assert run + more == run;
      ReachesInv(run, p, l);
      StuckIsUnfinished(l);
    } else {
      var before, a := more[..|more|-1], more[|more|-1];
      OneMoreAction(run, more);
      StuckForever(run, before, p, l);
      StuckOneMore(run + before, a, p);
    }
  }

  lemma OneMoreAction(run: seq<Action>, more: seq<Action>)
    requires more != [] && Exec(run + more).Some?
    ensures var s, a := Exec(run + more[..|more|-1]), more[|more|-1];
            s.Some? && Can(s.value, a) && Exec(run + more).value == Step(s.value, a)
  {
    assert (run + more)[..|run + more|-1] == run + more[..|more|-1];
  }

  lemma StuckOneMore(run: seq<Action>, a: Action, p: ProxyId)
    requires Exec(run).Some? && p in Exec(run).value.wires && Can(Exec(run).value, a)
    requires var l := View(Exec(run).value, p); Stuck(l) && l.frees == 0
    ensures var s' := Step(Exec(run).value, a);
            p in s'.wires && var l' := View(s', p); Stuck(l') && Unfinished(l')
  {
    var s := Exec(run).value;
    var l := View(s, p);
    ReachesInv(run, p, l);
    assert Known(s) by { RunInv(run); }
    ViewStep(s, a, p);
    if a.At? && a.p == p {
      StuckStep(l, a.e);
      StepInv(l, a.e);
      StuckIsUnfinished(Apply(l, a.e));
    } else {
      StuckIsUnfinished(l);
    }
  }

  /** At no point of the continuation have the EOFs of the session of `p` crossed. */
  predicate NeverCross(run: seq<Action>, more: seq<Action>, p: ProxyId) {
    forall k | 0 <= k <= |more| ::
      var s := Exec(run + more[..k]);
      s.Some? && p in s.value.wires ==> !BothFirst(View(s.value, p))
  }

  /** Bytes stranded at the client stay there, and the connection is not released, as long as the EOFs do not cross. */
  lemma {:induction false} StrandedAtClientRun(run: seq<Action>, more: seq<Action>, p: ProxyId, l: Link)
    requires Reaches(run, p, l) && StrandedAtClient(l)
    requires Exec(run + more).Some? && NeverCross(run, more, p)
    ensures p in Exec(run + more).value.wires
    ensures var l' := View(Exec(run + more).value, p); StrandedAtClient(l') && l'.released == 0 && l'.frees == 0
    decreases more
  {
    if more == [] {
      assert run + more == run;
    } else {
      var before, a := more[..|more|-1], more[|more|-1];
      OneMoreAction(run, more);
      NeverCrossBefore(run, more, p);
      StrandedAtClientRun(run, before, p, l);
      ClientOneMore(run + before, a, p);
    }
  }

  lemma NeverCrossBefore(run: seq<Action>, more: seq<Action>, p: ProxyId)
    requires more != [] && NeverCross(run, more, p)
    ensures NeverCross(run, more[..|more|-1], p)
    ensures var s := Exec(run + more); s.Some? && p in s.value.wires ==> !BothFirst(View(s.value, p))
  {
    var before := more[..|more|-1];
    assert forall k | 0 <= k <= |before| :: before[..k] == more[..k];
    assert more[..|more|] == more;
  }

  lemma ClientOneMore(run: seq<Action>, a: Action, p: ProxyId)
    requires Exec(run).Some? && p in Exec(run).value.wires && Can(Exec(run).value, a)
    requires StrandedAtClient(View(Exec(run).value, p))
    requires var s' := Step(Exec(run).value, a); p in s'.wires ==> !BothFirst(View(s', p))
    ensures var s' := Step(Exec(run).value, a);
            p in s'.wires && var l' := View(s', p); StrandedAtClient(l') && l'.released == 0 && l'.frees == 0
  {
    var s := Exec(run).value;
    var l := View(s, p);
    ReachesInv(run, p, l);
    assert Known(s) by { RunInv(run); }
    ViewStep(s, a, p);
    if a.At? && a.p == p { StrandedAtClientForever(l, a.e); }
  }
}
