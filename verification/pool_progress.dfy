/**
  Which runs there are: what the kernel and the far ends may do at any time, what is always
  taken from a FIFO, and that a session can always be brought to its end.
*/
module PoolProgress {
  import opened Options
  import opened ProxyLink
  import opened ProxySystem
  import opened PoolTheorems
  import opened HandlerEffects
  import PublicFds

  /** `run` can be followed by `a`. */
  predicate Goes(run: seq<Action>, a: Action) {
    Exec(run + [a]).Some?
  }

  lemma Go(run: seq<Action>, a: Action)
    requires Exec(run).Some? && Can(Exec(run).value, a)
    ensures Goes(run, a)
  {
    assert (run + [a])[..|run + [a]|-1] == run;
  }

  // ---------------------------------------------------------------------------
  // At any time

  /** A new public connection is accepted at any time. */
  lemma AcceptAnyTime(run: seq<Action>, fd: Fd)
    requires Exec(run).Some? && fd !in Exec(run).value.accepted
    ensures Goes(run, Accept(fd))
  {
    assert Known(Exec(run).value) by { RunInv(run); }
    CanAccept(Exec(run).value, fd);
    Go(run, Accept(fd));
  }

  lemma CanAccept(s: State, fd: Fd)
    requires Known(s) && fd !in s.accepted
    ensures Can(s, Accept(fd))
  {
    if s.pool.free != [] {
      var p := s.pool.free[|s.pool.free|-1];
      CountMember(s.pool.free, p);
      assert View(s, p).frees > 0;
    }
  }

  /** The first control message to the client is always taken. */
  lemma DownIsTaken(run: seq<Action>, p: ProxyId, localFd: Fd)
    requires Exec(run).Some? && Exec(run).value.down != []
    ensures Exec(run).value.down[0].NeedProxy? && p !in Exec(run).value.wires ==> Goes(run, Connect(p, localFd))
    ensures Exec(run).value.down[0].Notice? ==> Goes(run, At(Exec(run).value.down[0].id, CliNotice))
  {
    var s := Exec(run).value;
    assert Known(s) by { RunInv(run); }
    if s.down[0].NeedProxy? {
      if p !in s.wires { Go(run, Connect(p, localFd)); }
    } else {
      CanTakeNotice(s);
      Go(run, At(s.down[0].id, CliNotice));
    }
  }

  lemma CanTakeNotice(s: State)
    requires Known(s) && s.down != [] && s.down[0].Notice?
    ensures Can(s, At(s.down[0].id, CliNotice))
  {
    assert View(s, s.down[0].id).down != [];
  }

  /** So is the first one to the server. */
  lemma UpIsTaken(run: seq<Action>)
    requires Exec(run).Some? && Exec(run).value.up != []
    ensures var m := Exec(run).value.up[0];
            Goes(run, At(m.id, if m.m.UpFree? then FreeRequest else SrvNotice))
  {
    var s := Exec(run).value;
    assert Known(s) by { RunInv(run); }
    CanTakeUp(s);
    Go(run, At(s.up[0].id, if s.up[0].m.UpFree? then FreeRequest else SrvNotice));
  }

  lemma CanTakeUp(s: State)
    requires Known(s) && s.up != []
    ensures Can(s, At(s.up[0].id, if s.up[0].m.UpFree? then FreeRequest else SrvNotice))
  {
    assert View(s, s.up[0].id).up[0] == s.up[0].m;
  }

  /** A handler that takes no control message and no descriptor is possible once its connection is ready for it. */
  lemma GoAt(run: seq<Action>, p: ProxyId, l: Link, e: Event)
    requires Reaches(run, p, l) && Enabled(l, e)
    requires !e.Claim? && !e.Reuse? && PopDown(e) == 0 && PopUp(e) == 0
    ensures Goes(run, At(p, e))
  {
    assert Can(Exec(run).value, At(p, e));
    Go(run, At(p, e));
  }

  /** The public client may close, or send up to 2048 bytes of which any number are forwarded. */
  lemma PublicAnyTime(run: seq<Action>, p: ProxyId, l: Link, data: seq<Item>, m: nat)
    requires Reaches(run, p, l) && l.srv.outer.Outer? && !l.srv.outer.closing
    ensures Goes(run, At(p, PubEof))
    ensures Pay(data) && 1 <= |data| <= 2048 && m <= |data| && l.srv.outer.tran + m <= 0x7fff_ffff ==>
              Goes(run, At(p, PubRead(data, m)))
  {
    GoAt(run, p, l, PubEof);
    if Pay(data) && 1 <= |data| <= 2048 && m <= |data| && l.srv.outer.tran + m <= 0x7fff_ffff {
      GoAt(run, p, l, PubRead(data, m));
    }
  }

  /** The local server likewise. */
  lemma LocalAnyTime(run: seq<Action>, p: ProxyId, l: Link, data: seq<Item>, m: nat)
    requires Reaches(run, p, l) && l.cli.outer.Outer? && !l.cli.outer.closing
    ensures Goes(run, At(p, LocEof))
    ensures Pay(data) && 1 <= |data| <= 2048 && m <= |data| && l.cli.outer.tran + m <= 0x7fff_ffff ==>
              Goes(run, At(p, LocRead(data, m)))
  {
    GoAt(run, p, l, LocEof);
    if Pay(data) && 1 <= |data| <= 2048 && m <= |data| && l.cli.outer.tran + m <= 0x7fff_ffff {
      GoAt(run, p, l, LocRead(data, m));
    }
  }

  /**
    A started end reads any number of the bytes that have come, and writes any number of those on, or
    none for an error.
  */
  lemma DataAnyTime(run: seq<Action>, p: ProxyId, l: Link, n: nat, m: int)
    requires Reaches(run, p, l) && !l.crossed && 1 <= n <= 2048 && -1 <= m <= n
    ensures l.srv.started && n <= |l.c2s| ==> Goes(run, At(p, SrvData(n, m)))
    ensures l.cli.started && n <= |l.s2c| ==> Goes(run, At(p, CliData(n, m)))
  {
    ModeAgreement(run, p, l);
    if l.srv.started && n <= |l.c2s| {
      PayIsEnabled(l.srv, l.c2s, n, m);
      GoAt(run, p, l, SrvData(n, m));
    }
    if l.cli.started && n <= |l.s2c| {
      PayIsEnabled(l.cli, l.s2c, n, m);
      GoAt(run, p, l, CliData(n, m));
    }
  }

  lemma PayIsEnabled(x: Side, q: seq<Item>, n: nat, m: int)
    requires x.started && Pay(q) && Pay(x.pipe) && 1 <= n <= |q| && n <= 2048 && -1 <= m <= n
    ensures DataEnabled(x, q, n, m)
  {
    SizePay(q[..n]);
    if m >= 0 { SizePay((x.pipe + q[..n])[..m]); }
  }

  /** An idle end takes the frame that has come. */
  lemma FrameIsTaken(run: seq<Action>, p: ProxyId, l: Link, localFd: Fd)
    requires Reaches(run, p, l) && !l.crossed
    ensures !l.cli.started && l.s2c != [] ==> Goes(run, At(p, ClientStart(localFd)))
    ensures !l.srv.started && l.c2s != [] ==>
              Goes(run, At(p, Bind)) || exists fd :: Goes(run, At(p, Claim(fd)))
  {
    ModeAgreement(run, p, l);
    if !l.cli.started && l.s2c != [] { GoAt(run, p, l, ClientStart(localFd)); }
    if !l.srv.started && l.c2s != [] {
      if l.c2s[0] == MetaSet(p) {
        ClaimFindsPublicFd(run, p, l);
        var fd :| Can(Exec(run).value, At(p, Claim(fd)));
        Go(run, At(p, Claim(fd)));
      } else {
        GoAt(run, p, l, Bind);
      }
    }
  }

  // ---------------------------------------------------------------------------
  // A session can be brought to its end

  /** What a connection goes through in taking `events`. */
  function Course(l: Link, events: seq<Event>): Option<Link>
    decreases events
  {
    if events == [] then Some(l)
    else if Enabled(l, events[0]) then Course(Apply(l, events[0]), events[1..]) else None
  }

  lemma {:induction false} CourseAppend(l: Link, a: seq<Event>, b: seq<Event>)
    requires Course(l, a).Some?
    ensures Course(l, a + b) == Course(Course(l, a).value, b)
    decreases a
  {
    if a == [] {
      assert a + b == b;
    } else {
      assert (a + b)[0] == a[0] && (a + b)[1..] == a[1..] + b;
      CourseAppend(Apply(l, a[0]), a[1..], b);
    }
  }

  predicate Leads(l: Link, events: seq<Event>, l': Link) {
    Course(l, events) == Some(l')
  }

  lemma LeadsOn(l: Link, a: seq<Event>, l1: Link, b: seq<Event>, l2: Link)
    requires Leads(l, a, l1) && Leads(l1, b, l2)
    ensures Leads(l, a + b, l2)
  {
    CourseAppend(l, a, b);
  }

  /** A session in which nothing has gone wrong: no short splice, no dropped notice, no crossed EOFs. */
  predicate Sound(l: Link) {
    && Inv(l) && (Active(l) || Pooled(l)) && !l.crossed && !l.missed
    && l.srv.pipe == [] && l.cli.pipe == []
  }

  /** Messages on their way, a byte or notice to the client counting double for the request it may cause. */
  function Pending(l: Link): nat {
    2 * |l.s2c| + |l.c2s| + 2 * |l.down| + |l.up|
  }

  /** What takes the next of them. */
  function NextTaken(l: Link): Event {
    if l.s2c != [] then CliData(1, 1)
    else if l.c2s != [] then SrvData(1, 1)
    else if l.down != [] then CliNotice
    else if l.up != [] && l.up[0].UpNotice? then SrvNotice else FreeRequest
  }

  /** Which EOFs have been taken. */
  predicate SameEofs(l: Link, l': Link) {
    && l.srv.outer.Outer? && l'.srv.outer.Outer? && l.cli.outer.Outer? && l'.cli.outer.Outer?
    && l'.srv.outer.closing == l.srv.outer.closing && l'.cli.outer.closing == l.cli.outer.closing
  }

  lemma TakeData(l: Link, e: Event)
    requires Sound(l) && Pending(l) > 0 && e == NextTaken(l) && (e.CliData? || e.SrvData?)
    ensures Enabled(l, e) && Sound(Apply(l, e)) && Pending(Apply(l, e)) < Pending(l) && SameEofs(l, Apply(l, e))
  {
    assert Active(l);
    PublicFds.ActivePay(l);
    if e.CliData? {
      PayIsEnabled(l.cli, l.s2c, 1, 1);
      CliDataMoves(l, 1, 1);
      assert (l.cli.pipe + l.s2c[..1])[1..] == [];
    } else {
      PayIsEnabled(l.srv, l.c2s, 1, 1);
      SrvDataMoves(l, 1, 1);
      assert (l.srv.pipe + l.c2s[..1])[1..] == [];
    }
    StepInv(l, e);
    StaysSound(l, e);
  }

  /** Nothing goes wrong in a step that is no EOF and leaves the pipes empty. */
  lemma StaysSound(l: Link, e: Event)
    requires Sound(l) && Enabled(l, e) && Inv(Apply(l, e)) && !e.Reuse? && !e.PubEof? && !e.LocEof?
    requires e.SrvNotice? ==> l.inMap
    requires Apply(l, e).srv.pipe == [] && Apply(l, e).cli.pipe == []
    ensures Sound(Apply(l, e))
  {
    if AtClient(e) { ClientStaysSound(l, e); } else { ServerStaysSound(l, e); }
  }

  lemma ClientStaysSound(l: Link, e: Event)
    requires Sound(l) && AtClient(e) && Enabled(l, e) && Inv(ClientApply(l, e)) && !e.LocEof?
    ensures !ClientApply(l, e).crossed && !ClientApply(l, e).missed
    ensures Active(ClientApply(l, e)) || Pooled(ClientApply(l, e))
  {
  }

  lemma ServerStaysSound(l: Link, e: Event)
    requires Sound(l) && !AtClient(e) && Enabled(l, e) && Inv(ServerApply(l, e)) && !e.Reuse? && !e.PubEof?
    requires e.SrvNotice? ==> l.inMap
    ensures !ServerApply(l, e).crossed && !ServerApply(l, e).missed
    ensures Active(ServerApply(l, e)) || Pooled(ServerApply(l, e))
  {
  }

  lemma TakeMessage(l: Link, e: Event)
    requires Sound(l) && Pending(l) > 0 && e == NextTaken(l) && !e.CliData? && !e.SrvData?
    ensures Enabled(l, e) && Sound(Apply(l, e)) && Pending(Apply(l, e)) < Pending(l) && SameEofs(l, Apply(l, e))
  {
    assert Active(l);
    StepInv(l, e);
    MessageKeeps(l, e);
    StaysSound(l, e);
  }

  lemma MessageKeeps(l: Link, e: Event)
    requires Sound(l) && Active(l) && Enabled(l, e) && (e.CliNotice? || e.SrvNotice? || e.FreeRequest?)
    requires l.s2c == [] && l.c2s == []
    ensures Apply(l, e).srv.pipe == [] && Apply(l, e).cli.pipe == []
    ensures Pending(Apply(l, e)) < Pending(l) && SameEofs(l, Apply(l, e))
  {
  }

  /** Everything on its way can be taken. */
  lemma {:induction false} CanDrain(l: Link)
    requires Sound(l) && l.srv.outer.Outer? && l.cli.outer.Outer?
    ensures exists events, l' :: Leads(l, events, l') && Sound(l') && Pending(l') == 0 && SameEofs(l, l')
    decreases Pending(l)
  {
    if Pending(l) == 0 {
      assert Leads(l, [], l);
    } else {
      var e := NextTaken(l);
      if e.CliData? || e.SrvData? { TakeData(l, e); } else { TakeMessage(l, e); }
      CanDrain(Apply(l, e));
      var events, l' :| Leads(Apply(l, e), events, l') && Sound(l') && Pending(l') == 0 && SameEofs(Apply(l, e), l');
      EventFirst(l, e, events, l');
    }
  }

  /** With one EOF taken and everything drained, the other end has half-closed and can take its own. */
  lemma SecondEof(l: Link)
    requires Sound(l) && Pending(l) == 0 && l.srv.outer.Outer? && l.cli.outer.Outer?
    requires l.srv.outer.closing != l.cli.outer.closing
    ensures var e := if l.cli.outer.closing then PubEof else LocEof;
            Enabled(l, e) && Sound(Apply(l, e))
            && var r := Apply(l, e);
               r.srv.outer.Outer? && r.srv.outer.closing && r.cli.outer.Outer? && r.cli.outer.closing
  {
    assert Active(l);
    StepInv(l, if l.cli.outer.closing then PubEof else LocEof);
  }

  lemma FirstEof(l: Link)
    requires Sound(l) && l.srv.outer.Outer? && l.cli.outer.Outer? && !l.srv.outer.closing && !l.cli.outer.closing
    ensures Enabled(l, LocEof) && Sound(Apply(l, LocEof))
    ensures var r := Apply(l, LocEof);
            r.srv.outer.Outer? && !r.srv.outer.closing && r.cli.outer.Outer? && r.cli.outer.closing
  {
    assert Active(l);
    StepInv(l, LocEof);
  }

  lemma DrainedIsReleased(l: Link)
    requires Sound(l) && Pending(l) == 0 && l.srv.outer.Outer? && l.cli.outer.Outer?
    requires l.srv.outer.closing && l.cli.outer.closing
    ensures Pooled(l)
  {
  }

  /** Both EOFs taken: the session can be drained and is then released. */
  lemma CanRelease(l: Link)
    requires Sound(l) && l.srv.outer.Outer? && l.cli.outer.Outer? && l.srv.outer.closing && l.cli.outer.closing
    ensures exists events, l' :: Leads(l, events, l') && Pooled(l')
  {
    CanDrain(l);
    var events, l' :| Leads(l, events, l') && Sound(l') && Pending(l') == 0 && SameEofs(l, l');
    DrainedIsReleased(l');
  }

  /** One EOF taken. */
  lemma CanReleaseAfterOne(l: Link)
    requires Sound(l) && l.srv.outer.Outer? && l.cli.outer.Outer? && l.srv.outer.closing != l.cli.outer.closing
    ensures exists events, l' :: Leads(l, events, l') && Pooled(l')
  {
    CanDrain(l);
    var events, l1 :| Leads(l, events, l1) && Sound(l1) && Pending(l1) == 0 && SameEofs(l, l1);
    ReleasedByTheOther(l1);
    var more, l2 :| Leads(l1, more, l2) && Pooled(l2);
    LeadsOn(l, events, l1, more, l2);
  }

  lemma ReleasedByTheOther(l: Link)
    requires Sound(l) && Pending(l) == 0 && l.srv.outer.Outer? && l.cli.outer.Outer?
    requires l.srv.outer.closing != l.cli.outer.closing
    ensures exists events, l' :: Leads(l, events, l') && Pooled(l')
  {
    SecondEof(l);
    var e := if l.cli.outer.closing then PubEof else LocEof;
    CanRelease(Apply(l, e));
    var more, l' :| Leads(Apply(l, e), more, l') && Pooled(l');
    EventFirst(l, e, more, l');
  }

  lemma EventFirst(l: Link, e: Event, more: seq<Event>, l': Link)
    requires Enabled(l, e) && Leads(Apply(l, e), more, l')
    ensures Leads(l, [e] + more, l')
  {
    assert ([e] + more)[0] == e && ([e] + more)[1..] == more;
  }

  /**
    From every state of a session in which nothing has gone wrong, both ends can close and the
    connection be released, whatever is still on its way.
  */
  lemma SessionCanEnd(l: Link)
    requires Sound(l)
    ensures exists events, l' :: Leads(l, events, l') && Pooled(l')
  {
    if Pooled(l) {
      assert Leads(l, [], l);
    } else if l.srv.outer.closing && l.cli.outer.closing {
      CanRelease(l);
    } else if l.srv.outer.closing != l.cli.outer.closing {
      CanReleaseAfterOne(l);
    } else {
      FirstEof(l);
      CanReleaseAfterOne(Apply(l, LocEof));
      var more, l' :| Leads(Apply(l, LocEof), more, l') && Pooled(l');
      EventFirst(l, LocEof, more, l');
    }
  }

  /** In particular a connection that has just been claimed. */
  lemma FreshCanEnd(p: ProxyId, localFd: Fd, fd: Fd)
    ensures exists events, l' :: Leads(Fresh(p, localFd), events, l') && Pooled(l')
  {
    var l := Fresh(p, localFd);
    FreshInv(p, localFd);
    ClaimInv(l, fd);
    var l1 := Apply(l, Claim(fd));
    assert Active(l1);
    SessionCanEnd(l1);
    var more, l' :| Leads(l1, more, l') && Pooled(l');
    EventFirst(l, Claim(fd), more, l');
  }
}
