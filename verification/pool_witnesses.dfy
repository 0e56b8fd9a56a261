/**
  Runs that show where the hypotheses of the other theorems are needed, and what becomes
  of a session whose EOF notice overtakes its opening message.
*/
module PoolWitnesses {
  import opened Options
  import opened ProxyLink
  import opened ProxySystem
  import opened PoolEndings

  /** One public connection accepted and a proxy connection opened for it. */
  const ConnectRun: seq<Action> := [Accept(1), Connect(0, 5)]

  const ClaimRun: seq<Action> := ConnectRun + [At(0, Claim(1))]

  /** Both EOFs taken before either notice has arrived, then the client's notice. */
  const CrossedRun: seq<Action> := ClaimRun + [At(0, PubEof)] + [At(0, LocEof)] + [At(0, SrvNotice)]

  /** The connection is reused, and its client end reads what arrives. */
  const SwallowRun: seq<Action> := CrossedRun + [Accept(2)] + [At(0, CliData(1, 1))]

  /** The client's EOF notice arrives before the server has claimed the connection. */
  const OvertakingRun: seq<Action> := ConnectRun + [At(0, LocEof)] + [At(0, SrvNotice)] + [At(0, Claim(1))]

  const Byte := [Payload(7)]
  const TwoBytes := [Payload(7), Payload(8)]

  /** One byte from the client, of which the second splice moves nothing, then EOF. */
  const StrandedRun: seq<Action> :=
    ClaimRun + [At(0, LocRead(Byte, 1))] + [At(0, LocEof)] + [At(0, SrvData(1, 0))] + [At(0, SrvNotice)]

  /** Two bytes from the local server, of which one reaches the proxy connection before EOF. */
  const LostRun: seq<Action> :=
    ClaimRun + [At(0, LocRead(TwoBytes, 1))] + [At(0, LocEof)] + [At(0, SrvData(1, 1))] + [At(0, SrvNotice)]

  /** An empty session, the client's EOF first. */
  const ReleaseRun: seq<Action> :=
    ClaimRun + [At(0, LocEof)] + [At(0, SrvNotice)] + [At(0, PubEof)] + [At(0, CliNotice)] + [At(0, FreeRequest)]

  const ReuseRun: seq<Action> := ReleaseRun + [Accept(2)]

  // ---------------------------------------------------------------------------
  // Stepping a run on

  lemma ExecSnoc(run: seq<Action>, a: Action)
    requires Exec(run).Some? && Can(Exec(run).value, a)
    ensures Exec(run + [a]) == Some(Step(Exec(run).value, a))
  {
    assert (run + [a])[..|run + [a]|-1] == run;
  }

  /** Connection 0 is the only one. */
  predicate Single(s: State) {
    && s.wires.Keys == {0} && s.past.Keys == {0}
    && (forall i | 0 <= i < |s.down| :: s.down[i].Notice? && s.down[i].id == 0)
    && (forall i | 0 <= i < |s.up| :: s.up[i].id == 0)
    && (forall i | 0 <= i < |s.pool.free| :: s.pool.free[i] == 0)
  }

  /** `run` leads to a state with connection 0 only, and to `l` on it. */
  predicate LeadsTo(run: seq<Action>, l: Link, undealt: seq<Fd>, accepted: set<Fd>) {
    && Exec(run).Some?
    && var s := Exec(run).value;
    Single(s) && View(s, 0) == l && s.pool.undealt == undealt && s.accepted == accepted
  }

  lemma Connected()
    ensures LeadsTo(ConnectRun, Fresh(0, 5), [1], {1})
  {
    assert Exec([]) == Some(Init);
    ExecSnoc([], Accept(1));
    assert [] + [Accept(1)] == [Accept(1)];
    ExecSnoc([Accept(1)], Connect(0, 5));
    assert [Accept(1)] + [Connect(0, 5)] == ConnectRun;
  }

  lemma NextClaim(run: seq<Action>, l: Link, fd: Fd, accepted: set<Fd>)
    requires LeadsTo(run, l, [fd], accepted) && Enabled(l, Claim(fd))
    ensures LeadsTo(run + [At(0, Claim(fd))], Apply(l, Claim(fd)), [], accepted)
  {
    var s := Exec(run).value;
    var s1 := s.(pool := s.pool.(undealt := []));
    ClaimIsPut(s, s1, fd);
    ExecSnoc(run, At(0, Claim(fd)));
    ViewPut(s1, 0, Claim(fd), 0);
    SinglePut(s1, Claim(fd));
  }

  lemma ClaimIsPut(s: State, s1: State, fd: Fd)
    requires Single(s) && s.pool.undealt == [fd] && Enabled(View(s, 0), Claim(fd))
    requires s1 == s.(pool := s.pool.(undealt := []))
    ensures Single(s1) && View(s1, 0) == View(s, 0)
    ensures Can(s, At(0, Claim(fd))) && Step(s, At(0, Claim(fd))) == Put(s1, 0, Claim(fd))
  {
  }

  lemma Next(run: seq<Action>, l: Link, e: Event, undealt: seq<Fd>, accepted: set<Fd>)
    requires LeadsTo(run, l, undealt, accepted) && Enabled(l, e) && !e.Claim? && !e.Reuse?
    ensures LeadsTo(run + [At(0, e)], Apply(l, e), undealt, accepted)
  {
    var s := Exec(run).value;
    SingleHeads(s, e);
    StepIsPut(s, e);
    ExecSnoc(run, At(0, e));
    ViewPut(s, 0, e, 0);
    SinglePut(s, e);
  }

  lemma Claimed()
    ensures LeadsTo(ClaimRun, Apply(Fresh(0, 5), Claim(1)), [], {1})
  {
    Connected();
    NextClaim(ConnectRun, Fresh(0, 5), 1, {1});
  }

  lemma Next4(run: seq<Action>, l0: Link, e0: Event, l1: Link, e1: Event, l2: Link, e2: Event, l3: Link, e3: Event)
    requires LeadsTo(run, l0, [], {1})
    requires Enabled(l0, e0) && l1 == Apply(l0, e0) && Enabled(l1, e1) && l2 == Apply(l1, e1)
    requires Enabled(l2, e2) && l3 == Apply(l2, e2) && Enabled(l3, e3)
    requires forall e | e in {e0, e1, e2, e3} :: !e.Claim? && !e.Reuse?
    ensures LeadsTo(run + [At(0, e0)] + [At(0, e1)] + [At(0, e2)] + [At(0, e3)], Apply(l3, e3), [], {1})
  {
    Next(run, l0, e0, [], {1});
    var r1 := run + [At(0, e0)];
    Next(r1, l1, e1, [], {1});
    var r2 := r1 + [At(0, e1)];
    Next(r2, l2, e2, [], {1});
    Next(r2 + [At(0, e2)], l3, e3, [], {1});
  }

  lemma NextAccept(run: seq<Action>, l: Link, fd: Fd, accepted: set<Fd>)
    requires LeadsTo(run, l, [], accepted) && l.frees > 0 && fd !in accepted
    ensures LeadsTo(run + [Accept(fd)], Apply(l, Reuse(fd)), [], accepted + {fd})
  {
    var s := Exec(run).value;
    CountMember(s.pool.free, 0);
    AcceptIsPut(s, fd);
    ExecSnoc(run, Accept(fd));
    AcceptReuse(s, fd, 0);
    SinglePut(s.(accepted := s.accepted + {fd}), Reuse(fd));
  }

  lemma AcceptIsPut(s: State, fd: Fd)
    requires Single(s) && s.pool.free != [] && fd !in s.accepted && Enabled(View(s, 0), Reuse(fd))
    ensures Can(s, Accept(fd))
    ensures var s1 := s.(accepted := s.accepted + {fd});
            && Single(s1) && Heads(s1, 0, Reuse(fd)) && View(s1, 0) == View(s, 0)
            && Step(s, Accept(fd)) == Put(s1, 0, Reuse(fd)).(past := s.past[0 := s.past[0] + [View(s, 0)]])
  {
  }

  lemma SingleHeads(s: State, e: Event)
    requires Single(s) && Enabled(View(s, 0), e) && !e.Reuse?
    ensures Heads(s, 0, e)
  {
  }

  lemma StepIsPut(s: State, e: Event)
    requires Single(s) && Heads(s, 0, e) && Enabled(View(s, 0), e) && !e.Claim? && !e.Reuse?
    ensures Can(s, At(0, e)) && Step(s, At(0, e)) == Put(s, 0, e)
  {
  }

  lemma SinglePut(s: State, e: Event)
    requires Single(s) && Heads(s, 0, e) && Enabled(View(s, 0), e)
    ensures Single(Put(s, 0, e))
    ensures Put(s, 0, e).accepted == s.accepted && Put(s, 0, e).pool.undealt == s.pool.undealt
  {
    SingleInstall(s, e, Apply(View(s, 0), e));
  }

  lemma SingleInstall(s: State, e: Event, l: Link)
    requires Single(s) && Heads(s, 0, e)
    ensures Single(Install(s, 0, e, l))
  {
    OnlyNotices(s.down[PopDown(e)..], From(l.down, |DownFor(s.down, 0)| - PopDown(e)));
    OnlyMessages(s.up[PopUp(e)..], From(l.up, |UpFor(s.up, 0)| - PopUp(e)));
  }

  lemma OnlyNotices(a: seq<Down>, ns: seq<int>)
    requires forall i | 0 <= i < |a| :: a[i].Notice? && a[i].id == 0
    ensures var d := a + Notices(0, ns); forall i | 0 <= i < |d| :: d[i].Notice? && d[i].id == 0
  {
  }

  lemma OnlyMessages(a: seq<UpMsg>, ms: seq<Up>)
    requires forall i | 0 <= i < |a| :: a[i].id == 0
    ensures var d := a + Messages(0, ms); forall i | 0 <= i < |d| :: d[i].id == 0
  {
  }

  // ---------------------------------------------------------------------------
  // Crossed EOFs

  /** The client swallows a start request in data mode. */
  lemma Swallow(l: Link)
    requires l.cli.started && l.cli.outer.Outer? && l.cli.pipe == [] && l.cli.outer.written == []
    requires l.cli.recv == 0 && l.cli.total == -1 && l.s2c == [StartReq(2, 0)]
    ensures Enabled(l, CliData(1, 1))
    ensures var l' := Apply(l, CliData(1, 1));
            l'.s2c == [] && l'.inWait == l.inWait && l'.cli.outer.Outer? && l'.cli.outer.written == [StartReq(2, 0)]
  {
    var q := [StartReq(2, 0)];
    assert l.s2c[..1] == q && (l.cli.pipe + q)[..1] == q;
    assert Size(q) == 24 + Size(q[1..]);
  }

  /**
    The uncrossed hypothesis is needed: with crossed EOFs a connection gets into the free
    list while its client end is still started, and the start request of the next session
    is then read as payload and written to the old local socket.
  */
  lemma CrossedRunIsUnsafe()
    ensures Exec(CrossedRun).Some? && 0 in Exec(CrossedRun).value.wires
    ensures 0 in Exec(CrossedRun).value.pool.free && View(Exec(CrossedRun).value, 0).cli.started
    ensures Exec(SwallowRun).Some? && 0 in Exec(SwallowRun).value.wires
    ensures var l := View(Exec(SwallowRun).value, 0);
            l.inWait && l.s2c == [] && l.cli.outer.Outer? && l.cli.outer.written == [StartReq(2, 0)]
  {
    var l0 := Apply(Fresh(0, 5), Claim(1));
    var l1 := PublicEof(l0);
    var l2 := LocalEof(l1);
    CrossedLink(l0, l1, l2);
    var l3 := Apply(l2, SrvNotice);
    CrossedLeadsTo(l0, l1, l2);
    CountMember(Exec(CrossedRun).value.pool.free, 0);
    Swallow(Apply(l3, Reuse(2)));
    SwallowLeadsTo(l3);
  }

  lemma CrossedLink(l0: Link, l1: Link, l2: Link)
    requires l0 == Apply(Fresh(0, 5), Claim(1)) && l1 == PublicEof(l0) && l2 == LocalEof(l1)
    ensures Enabled(l0, PubEof) && Apply(l0, PubEof) == l1
    ensures Enabled(l1, LocEof) && Apply(l1, LocEof) == l2
    ensures Enabled(l2, SrvNotice)
    ensures var l3 := Apply(l2, SrvNotice);
            && l3.frees > 0 && l3.cli.started && l3.cli.outer.Outer? && l3.cli.pipe == [] && l3.cli.outer.written == []
            && l3.cli.recv == 0 && l3.cli.total == -1 && l3.s2c == [] && l3.id == 0
  {
  }

  lemma CrossedLeadsTo(l0: Link, l1: Link, l2: Link)
    requires Enabled(Fresh(0, 5), Claim(1)) && l0 == Apply(Fresh(0, 5), Claim(1))
    requires Enabled(l0, PubEof) && l1 == Apply(l0, PubEof)
    requires Enabled(l1, LocEof) && l2 == Apply(l1, LocEof) && Enabled(l2, SrvNotice)
    ensures LeadsTo(CrossedRun, Apply(l2, SrvNotice), [], {1})
  {
    Claimed();
    Next(ClaimRun, l0, PubEof, [], {1});
    var r1 := ClaimRun + [At(0, PubEof)];
    Next(r1, l1, LocEof, [], {1});
    Next(r1 + [At(0, LocEof)], l2, SrvNotice, [], {1});
  }

  lemma SwallowLeadsTo(l: Link)
    requires LeadsTo(CrossedRun, l, [], {1}) && l.frees > 0 && Enabled(Apply(l, Reuse(2)), CliData(1, 1))
    ensures LeadsTo(SwallowRun, Apply(Apply(l, Reuse(2)), CliData(1, 1)), [], {1} + {2})
  {
    NextAccept(CrossedRun, l, 2, {1});
    Next(CrossedRun + [Accept(2)], Apply(l, Reuse(2)), CliData(1, 1), [], {1} + {2});
  }

  // ---------------------------------------------------------------------------
  // A notice that overtakes the opening message

  lemma OvertakenLink(l1: Link, l2: Link)
    requires l1 == LocalEof(Fresh(0, 5)) && l2 == l1.(up := [], missed := true)
    ensures Enabled(Fresh(0, 5), LocEof) && Apply(Fresh(0, 5), LocEof) == l1
    ensures Enabled(l1, SrvNotice) && Apply(l1, SrvNotice) == l2
    ensures Enabled(l2, Claim(1)) && NeverTold(Apply(l2, Claim(1))) && !Apply(l2, Claim(1)).crossed
  {
  }

  lemma OvertakingLeadsTo(l1: Link, l2: Link)
    requires Enabled(Fresh(0, 5), LocEof) && Apply(Fresh(0, 5), LocEof) == l1
    requires Enabled(l1, SrvNotice) && Apply(l1, SrvNotice) == l2 && Enabled(l2, Claim(1))
    ensures LeadsTo(OvertakingRun, Apply(l2, Claim(1)), [], {1})
  {
    Connected();
    Next(ConnectRun, Fresh(0, 5), LocEof, [1], {1});
    var r1 := ConnectRun + [At(0, LocEof)];
    Next(r1, l1, SrvNotice, [1], {1});
    NextClaim(r1 + [At(0, SrvNotice)], l2, 1, {1});
  }

  /**
    Such a state is reached in an uncrossed run: the notice is dropped because the connection is
    not yet in the map.
  */
  lemma OvertakingNoticeIsLost()
    ensures Exec(OvertakingRun).Some? && 0 in Exec(OvertakingRun).value.wires
    ensures !View(Exec(OvertakingRun).value, 0).crossed && NeverTold(View(Exec(OvertakingRun).value, 0))
  {
    var l1 := LocalEof(Fresh(0, 5));
    var l2 := l1.(up := [], missed := true);
    OvertakenLink(l1, l2);
    OvertakingLeadsTo(l1, l2);
  }

  // ---------------------------------------------------------------------------
  // A short splice

  /**
    A byte is left in the server's pipe by a short second splice: everything else is drained and
    the session is stuck.
  */
  lemma ShortSpliceStrands()
    ensures Exec(StrandedRun).Some? && 0 in Exec(StrandedRun).value.wires
    ensures var l := View(Exec(StrandedRun).value, 0);
            !l.crossed && Drained(l) && l.srv.pipe == l.cli.outer.sent == Byte && StrandedAtServer(l)
  {
    StrandedLeadsTo();
    assert Inv(View(Exec(StrandedRun).value, 0)) by { RunInv(StrandedRun); }
    DrainedIsStranded(View(Exec(StrandedRun).value, 0));
  }

  lemma DrainedIsStranded(l: Link)
    requires Inv(l) && Drained(l) && l.srv.pipe == Byte
    ensures StrandedAtServer(l)
  {
  }

  lemma StrandedLeadsTo()
    ensures Exec(StrandedRun).Some? && 0 in Exec(StrandedRun).value.wires
    ensures var l := View(Exec(StrandedRun).value, 0);
            !l.crossed && Drained(l) && l.srv.pipe == l.cli.outer.sent == Byte
  {
    var l0 := Apply(Fresh(0, 5), Claim(1));
    ByteArrives(l0);
    var l1 := Apply(l0, LocRead(Byte, 1));
    var l2 := LocalEof(l1);
    ByteStays(l2);
    var l3 := Apply(l2, SrvData(1, 0));
    ByteIsStranded(l3);
    Claimed();
    Next4(ClaimRun, l0, LocRead(Byte, 1), l1, LocEof, l2, SrvData(1, 0), l3, SrvNotice);
  }

  predicate Drained(l: Link) {
    && l.cli.outer.Outer? && l.cli.outer.closing && l.inMap
    && l.s2c == [] && l.c2s == [] && l.down == [] && l.up == [] && l.cli.pipe == []
  }

  lemma ByteArrives(l: Link)
    requires l == Apply(Fresh(0, 5), Claim(1))
    ensures Enabled(l, LocRead(Byte, 1))
    ensures var l2 := Apply(l, LocRead(Byte, 1));
            l2 == l.(c2s := Byte, cli := l.cli.(outer := l.cli.outer.(input := Byte, sent := Byte, tran := 1)))
  {
    var none: seq<Item> := [];
    assert none + Byte == Byte && Byte[..1] == Byte && Byte[1..] == none;
    assert l.c2s == none && l.cli.outer.pipe == none;
  }

  lemma ByteStays(l: Link)
    requires l.srv.started && l.srv.pipe == [] && l.c2s == Byte && l.srv.recv == 0 && l.srv.total == -1
               && l.srv.outer.Outer?
    ensures Enabled(l, SrvData(1, 0))
    ensures Apply(l, SrvData(1, 0)) == l.(c2s := [], srv := l.srv.(pipe := Byte))
  {
    assert Byte[..1] == Byte && [] + Byte == Byte && Size(Byte) == 1;
    assert l.srv.outer.written + Byte[..0] == l.srv.outer.written;
  }

  lemma ByteIsStranded(l: Link)
    requires l.srv.started && l.inMap && l.up == [UpNotice(1)] && l.srv.total == -1 && l.srv.recv == 0
               && l.srv.pipe == Byte
    requires !l.crossed && l.s2c == [] && l.c2s == [] && l.down == []
    requires l.cli.outer.Outer? && l.cli.outer.closing && l.cli.outer.sent == Byte && l.cli.pipe == []
    ensures Enabled(l, SrvNotice)
    ensures var l2 := Apply(l, SrvNotice); !l2.crossed && Drained(l2) && l2.srv.pipe == l2.cli.outer.sent == Byte
  {
  }

  /**
    Bytes a short splice leaves in the pipe of the local connection itself are lost: the session
    ends as if they had not been read.
  */
  lemma BytesBeforeEofAreLost()
    ensures Exec(LostRun).Some? && 0 in Exec(LostRun).value.wires
    ensures var l := View(Exec(LostRun).value, 0);
            && !l.crossed && l.srv.outer.Outer? && l.cli.outer.Outer?
            && l.srv.outer.shuts == 1 && l.srv.outer.written == Byte && l.cli.outer.input == TwoBytes
  {
    var l0 := Apply(Fresh(0, 5), Claim(1));
    TwoArrive(l0);
    var l1 := Apply(l0, LocRead(TwoBytes, 1));
    var l2 := LocalEof(l1);
    OneIsWritten(l2);
    var l3 := Apply(l2, SrvData(1, 1));
    Claimed();
    Next4(ClaimRun, l0, LocRead(TwoBytes, 1), l1, LocEof, l2, SrvData(1, 1), l3, SrvNotice);
  }

  lemma TwoArrive(l: Link)
    requires l == Apply(Fresh(0, 5), Claim(1))
    ensures Enabled(l, LocRead(TwoBytes, 1))
    ensures Apply(l, LocRead(TwoBytes, 1)) ==
            var o := l.cli.outer.(input := TwoBytes, pipe := [Payload(8)], sent := Byte, tran := 1);
            l.(c2s := Byte, cli := l.cli.(outer := o))
  {
    var none: seq<Item> := [];
    assert none + TwoBytes == TwoBytes && TwoBytes[..1] == Byte && TwoBytes[1..] == [Payload(8)] && none + Byte == Byte;
    assert l.c2s == none && l.cli.outer.pipe == none;
  }

  lemma OneIsWritten(l: Link)
    requires l.srv.started && l.srv.pipe == [] && l.c2s == Byte && l.srv.recv == 0 && l.srv.total == -1
    requires l.srv.outer.Outer? && l.srv.outer.written == []
    ensures Enabled(l, SrvData(1, 1))
    ensures Apply(l, SrvData(1, 1)) == l.(c2s := [], srv := l.srv.(recv := 1, outer := l.srv.outer.(written := Byte)))
  {
    var none: seq<Item> := [];
    assert Byte[..1] == Byte && none + Byte == Byte && Byte[1..] == none && Size(Byte) == 1;
  }

  // ---------------------------------------------------------------------------
  // An ordinary reuse

  predicate JustReleased(l: Link) {
    l.frees == 1 && !l.crossed && l.s2c == [] && !l.cli.started && l.id == 0
  }

  lemma SessionIsReleased()
    ensures Exec(ReleaseRun).Some? && 0 in Exec(ReleaseRun).value.wires
    ensures var l := View(Exec(ReleaseRun).value, 0); LeadsTo(ReleaseRun, l, [], {1}) && JustReleased(l)
  {
    var l0 := Apply(Fresh(0, 5), Claim(1));
    var l1 := LocalEof(l0);
    FirstHalf(l0, l1);
    var l2 := Apply(l1, SrvNotice);
    var l3 := PublicEof(l2);
    SecondHalf(l2, l3);
    LastRequest(l3);
    var l4 := Apply(l3, CliNotice);
    ReleaseLeadsTo(l0, l1, l2, l3, l4);
  }

  lemma Reused(l: Link)
    requires JustReleased(l)
    ensures var l' := Apply(l, Reuse(2));
            l'.frees == 0 && !l'.crossed && l'.inWait && l'.s2c == [StartReq(2, 0)] && !l'.cli.started
  {
  }

  /** An uncrossed session ends, its connection is released and used again. */
  lemma ConnectionIsReused()
    ensures Exec(ReleaseRun).Some? && Exec(ReuseRun).Some?
    ensures var s := Exec(ReleaseRun).value; 0 in s.wires && !s.wires[0].crossed && s.pool.free == [0]
    ensures var s := Exec(ReuseRun).value;
            && 0 in s.wires && !s.wires[0].crossed && s.pool.free == [] && 0 in s.pool.waiting
            && s.wires[0].s2c == [StartReq(2, 0)] && !s.wires[0].cli.started
  {
    SessionIsReleased();
    var l := View(Exec(ReleaseRun).value, 0);
    OneFree(Exec(ReleaseRun).value);
    NextAccept(ReleaseRun, l, 2, {1});
    Reused(l);
    OnlyZeros(Exec(ReuseRun).value);
  }

  /** The server has half-closed the public socket, the client waits for the public EOF. */
  predicate OneSideDone(l: Link) {
    && l.id == 0 && l.inMap && l.frees == 0 && l.s2c == [] && l.down == [] && l.up == [] && !l.crossed
    && l.srv.started && l.srv.halfClose && l.srv.outer.Outer? && !l.srv.outer.closing && l.srv.outer.tran == 0
    && l.cli.started && l.cli.halfClose && l.cli.recv == 0 && l.cli.total == -1
  }

  lemma FirstHalf(l0: Link, l1: Link)
    requires l0 == Apply(Fresh(0, 5), Claim(1)) && l1 == LocalEof(l0)
    ensures Enabled(l0, LocEof) && Apply(l0, LocEof) == l1
    ensures Enabled(l1, SrvNotice) && OneSideDone(Apply(l1, SrvNotice))
  {
  }

  lemma SecondHalf(l2: Link, l3: Link)
    requires OneSideDone(l2) && l3 == PublicEof(l2)
    ensures Enabled(l2, PubEof) && Apply(l2, PubEof) == l3
    ensures Enabled(l3, CliNotice) && !l3.srv.started && l3.down == [0] && l3.cli == l2.cli && l3.up == []
              && l3.s2c == []
    ensures l3.inMap && l3.frees == 0 && !l3.crossed && l3.id == 0
  {
  }

  lemma LastRequest(l3: Link)
    requires Enabled(l3, CliNotice) && !l3.srv.started && l3.down == [0] && l3.up == [] && l3.s2c == []
    requires l3.cli.started && l3.cli.halfClose && l3.cli.recv == 0 && l3.cli.total == -1
    requires l3.inMap && l3.frees == 0 && !l3.crossed && l3.id == 0
    ensures var l4 := Apply(l3, CliNotice); Enabled(l4, FreeRequest) && JustReleased(Apply(l4, FreeRequest))
  {
  }

  lemma ReleaseLeadsTo(l0: Link, l1: Link, l2: Link, l3: Link, l4: Link)
    requires Enabled(Fresh(0, 5), Claim(1)) && l0 == Apply(Fresh(0, 5), Claim(1))
    requires Enabled(l0, LocEof) && l1 == Apply(l0, LocEof)
    requires Enabled(l1, SrvNotice) && l2 == Apply(l1, SrvNotice)
    requires Enabled(l2, PubEof) && l3 == Apply(l2, PubEof)
    requires Enabled(l3, CliNotice) && l4 == Apply(l3, CliNotice) && Enabled(l4, FreeRequest)
    ensures LeadsTo(ReleaseRun, Apply(l4, FreeRequest), [], {1})
  {
    Claimed();
    Next4(ClaimRun, l0, LocEof, l1, SrvNotice, l2, PubEof, l3, CliNotice);
    Next(ClaimRun + [At(0, LocEof)] + [At(0, SrvNotice)] + [At(0, PubEof)] + [At(0, CliNotice)],
         l4, FreeRequest, [], {1});
  }

  lemma {:induction false} CountZeros(free: seq<ProxyId>)
    requires forall i | 0 <= i < |free| :: free[i] == 0
    ensures Count(free, 0) == |free|
  {
    if free != [] { CountZeros(free[1..]); }
  }

  lemma OneFree(s: State)
    requires Single(s) && View(s, 0).frees == 1
    ensures s.pool.free == [0]
  {
    CountZeros(s.pool.free);
  }

  lemma OnlyZeros(s: State)
    requires Single(s) && View(s, 0).frees == 0
    ensures s.pool.free == []
  {
    CountZeros(s.pool.free);
  }
}
