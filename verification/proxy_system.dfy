/**
  The whole tunnel: any number of proxy connections, the two control connections they
  share, the server's `proxy_conn_map_`, `wait_for_start_proxy_conn_map_`,
  `free_proxy_conns_`, `undeal_public_fds_` and its map of unclaimed connections.

  A connection is stepped by `ProxyLink.Apply` on its `View`; `Put` writes the outcome
  back, so the order of the shared FIFOs, the LIFO free list and the stack of waiting
  public descriptors are those of the source.
*/
module ProxySystem {
  import opened Options
  import opened ProxyLink

  /** Control messages from server to client. */
  datatype Down = NeedProxy | Notice(id: ProxyId, n: int)

  /** Control messages from client to server. */
  datatype UpMsg = UpMsg(id: ProxyId, m: Up)

  /** What a proxy connection consists of apart from its place on the server. */
  datatype Wire = Wire(srv: Side, cli: Side, s2c: seq<Item>, c2s: seq<Item>, released: nat, crossed: bool, missed: bool)

  datatype Pool = Pool(
    unclaimed: set<ProxyId>, inMap: set<ProxyId>, waiting: set<ProxyId>, free: seq<ProxyId>, undealt: seq<Fd>)

  /** `past` keeps, per connection, the final state of every earlier session; `accepted` all public fds so far. */
  datatype State = State(
    wires: map<ProxyId, Wire>, pool: Pool, down: seq<Down>, up: seq<UpMsg>,
    past: map<ProxyId, seq<Link>>, accepted: set<Fd>)

  datatype Action =
    | Accept(fd: Fd)                   // one turn of the loop in Tunnel::newPublicConnHandler
    | Connect(p: ProxyId, localFd: Fd) // Client::handleProxyNotify and the accept on the server
    | At(p: ProxyId, e: Event)         // any other handler, on connection p

  const Init := State(map[], Pool({}, {}, {}, [], []), [], [], map[], {})

  function DownFor(s: seq<Down>, p: ProxyId): seq<int> {
    if s == [] then []
    else (if s[0].Notice? && s[0].id == p then [s[0].n] else []) + DownFor(s[1..], p)
  }

  function UpFor(s: seq<UpMsg>, p: ProxyId): seq<Up> {
    if s == [] then [] else (if s[0].id == p then [s[0].m] else []) + UpFor(s[1..], p)
  }

  function Count(s: seq<ProxyId>, p: ProxyId): nat {
    if s == [] then 0 else (if s[0] == p then 1 else 0) + Count(s[1..], p)
  }

  function View(s: State, p: ProxyId): Link
    requires p in s.wires
  {
    var w := s.wires[p];
    Link(p, w.srv, w.cli, w.s2c, w.c2s, DownFor(s.down, p), UpFor(s.up, p),
         p in s.pool.unclaimed, p in s.pool.inMap, p in s.pool.waiting, Count(s.pool.free, p),
         w.released, w.crossed, w.missed)
  }

  function Member(xs: set<ProxyId>, p: ProxyId, yes: bool): set<ProxyId> {
    if yes then xs + {p} else xs - {p}
  }

  function From<T>(s: seq<T>, k: int): seq<T> {
    if 0 <= k <= |s| then s[k..] else []
  }

  function Notices(p: ProxyId, ns: seq<int>): seq<Down> {
    seq(|ns|, i requires 0 <= i < |ns| => Notice(p, ns[i]))
  }

  function Messages(p: ProxyId, ms: seq<Up>): seq<UpMsg> {
    seq(|ms|, i requires 0 <= i < |ms| => UpMsg(p, ms[i]))
  }

  function PopDown(e: Event): nat { if e.CliNotice? then 1 else 0 }
  function PopUp(e: Event): nat { if e.SrvNotice? || e.FreeRequest? then 1 else 0 }

  /** The head of a control FIFO is handled only by the connection it names. */
  predicate Heads(s: State, p: ProxyId, e: Event) {
    && (e.CliNotice? ==> s.down != [] && s.down[0].Notice? && s.down[0].id == p)
    && (PopUp(e) == 1 ==> s.up != [] && s.up[0].id == p)
    && (e.Reuse? ==> s.pool.free != [] && s.pool.free[|s.pool.free|-1] == p)
  }

  /** The system after connection `p` has handled `e`. */
  function Put(s: State, p: ProxyId, e: Event): State
    requires p in s.wires && Heads(s, p, e) && Enabled(View(s, p), e)
  {
    Install(s, p, e, Apply(View(s, p), e))
  }

  /** `s` with connection `p` in state `l`: what `l` has gained is appended to the shared lists. */
  function Install(s: State, p: ProxyId, e: Event, l: Link): State
    requires p in s.wires && Heads(s, p, e)
  {
    var free :=
      if e.Reuse? then s.pool.free[..|s.pool.free|-1]
      else if l.frees > Count(s.pool.free, p) then s.pool.free + [p] else s.pool.free;
    s.(wires := s.wires[p := Wire(l.srv, l.cli, l.s2c, l.c2s, l.released, l.crossed, l.missed)],
       pool := Pool(Member(s.pool.unclaimed, p, l.unclaimed), Member(s.pool.inMap, p, l.inMap),
                    Member(s.pool.waiting, p, l.inWait), free, s.pool.undealt),
       down := s.down[PopDown(e)..] + Notices(p, From(l.down, |DownFor(s.down, p)| - PopDown(e))),
       up := s.up[PopUp(e)..] + Messages(p, From(l.up, |UpFor(s.up, p)| - PopUp(e))))
  }

  /** Claiming a connection takes the top of the stack. */
  function Popped(s: State, e: Event): State {
    if e.Claim? && s.pool.undealt != [] then s.(pool := s.pool.(undealt := s.pool.undealt[..|s.pool.undealt|-1])) else s
  }

  predicate Can(s: State, a: Action) {
    match a
    case Accept(fd) =>
      && fd !in s.accepted
      && (s.pool.free != [] ==>
            var p := s.pool.free[|s.pool.free|-1];
            p in s.wires && p in s.past && Enabled(View(s, p), Reuse(fd)))
    case Connect(p, _) => s.down != [] && s.down[0].NeedProxy? && p !in s.wires
    case At(p, e) =>
      && p in s.wires && !e.Reuse? && Heads(s, p, e) && Enabled(View(s, p), e)
      && (e.Claim? ==> s.pool.undealt != [] && e.fd == s.pool.undealt[|s.pool.undealt|-1])
  }

  function Step(s: State, a: Action): State
    requires Can(s, a)
  {
    match a
    case Accept(fd) =>
      var s1 := s.(accepted := s.accepted + {fd});
      if s.pool.free == [] then
        s1.(pool := s.pool.(undealt := s.pool.undealt + [fd]), down := s.down + [NeedProxy])
      else
        var p := s.pool.free[|s.pool.free|-1];
        Put(s1, p, Reuse(fd)).(past := s.past[p := s.past[p] + [View(s, p)]])
    case Connect(p, localFd) =>
      var l := Fresh(p, localFd);
      s.(wires := s.wires[p := Wire(l.srv, l.cli, l.s2c, l.c2s, 0, false, false)],
         pool := s.pool.(unclaimed := s.pool.unclaimed + {p}),
         down := s.down[1..],
         past := s.past[p := []])
    case At(p, e) =>
      Put(Popped(s, e), p, e)
  }

  /** A run is a sequence of actions, each possible when it is taken. */
  function Exec(run: seq<Action>): Option<State> {
    if run == [] then Some(Init)
    else
      var before := Exec(run[..|run|-1]);
      var a := run[|run|-1];
      if before.Some? && Can(before.value, a) then Some(Step(before.value, a)) else None
  }

  /** No session so far had both EOFs taken while the taking end's `half_close_` was false. */
  predicate Uncrossed(s: State) {
    forall p | p in s.wires :: !s.wires[p].crossed
  }

  // ---------------------------------------------------------------------------
  // Projection onto one connection

  lemma Assoc<T>(a: seq<T>, b: seq<T>, c: seq<T>)
    ensures a + (b + c) == a + b + c
  {
  }

  lemma {:induction false} DownForAppend(a: seq<Down>, b: seq<Down>, p: ProxyId)
    ensures DownFor(a + b, p) == DownFor(a, p) + DownFor(b, p)
  {
    if a == [] {
      assert a + b == b;
    } else {
      var first := if a[0].Notice? && a[0].id == p then [a[0].n] else [];
      assert (a + b)[0] == a[0] && (a + b)[1..] == a[1..] + b;
      DownForAppend(a[1..], b, p);
      Assoc(first, DownFor(a[1..], p), DownFor(b, p));
    }
  }

  lemma {:induction false} UpForAppend(a: seq<UpMsg>, b: seq<UpMsg>, p: ProxyId)
    ensures UpFor(a + b, p) == UpFor(a, p) + UpFor(b, p)
  {
    if a == [] {
      assert a + b == b;
    } else {
      var first := if a[0].id == p then [a[0].m] else [];
      assert (a + b)[0] == a[0] && (a + b)[1..] == a[1..] + b;
      UpForAppend(a[1..], b, p);
      Assoc(first, UpFor(a[1..], p), UpFor(b, p));
    }
  }

  lemma {:induction false} NoticesFor(p: ProxyId, ns: seq<int>, q: ProxyId)
    ensures DownFor(Notices(p, ns), q) == if p == q then ns else []
  {
    if ns != [] {
      assert Notices(p, ns)[1..] == Notices(p, ns[1..]);
      NoticesFor(p, ns[1..], q);
    }
  }

  lemma {:induction false} MessagesFor(p: ProxyId, ms: seq<Up>, q: ProxyId)
    ensures UpFor(Messages(p, ms), q) == if p == q then ms else []
  {
    if ms != [] {
      assert Messages(p, ms)[1..] == Messages(p, ms[1..]);
      MessagesFor(p, ms[1..], q);
    }
  }

  lemma {:induction false} CountAppend(a: seq<ProxyId>, b: seq<ProxyId>, p: ProxyId)
    ensures Count(a + b, p) == Count(a, p) + Count(b, p)
  {
    if a == [] {
      assert a + b == b;
    } else {
      assert (a + b)[1..] == a[1..] + b;
      CountAppend(a[1..], b, p);
    }
  }

  lemma {:induction false} CountMember(s: seq<ProxyId>, p: ProxyId)
    ensures Count(s, p) > 0 <==> p in s
  {
    if s != [] { CountMember(s[1..], p); }
  }

  lemma PrefixAndRest<T>(a: seq<T>, b: seq<T>)
    requires a <= b
    ensures b == a + From(b, |a|)
  {
  }

  /** A handler takes its control message from the front and only appends. */
  lemma DownAppendsOnly(l: Link, e: Event)
    requires Enabled(l, e)
    ensures |l.down| >= PopDown(e)
    ensures Apply(l, e).down == l.down[PopDown(e)..] + From(Apply(l, e).down, |l.down| - PopDown(e))
  {
    DownKept(l, e);
    PrefixAndRest(l.down[PopDown(e)..], Apply(l, e).down);
  }

  lemma DownKept(l: Link, e: Event)
    requires Enabled(l, e)
    ensures l.down[PopDown(e)..] <= Apply(l, e).down
  {
  }

  lemma UpAppendsOnly(l: Link, e: Event)
    requires Enabled(l, e)
    ensures |l.up| >= PopUp(e)
    ensures Apply(l, e).up == l.up[PopUp(e)..] + From(Apply(l, e).up, |l.up| - PopUp(e))
  {
    UpKept(l, e);
    PrefixAndRest(l.up[PopUp(e)..], Apply(l, e).up);
  }

  lemma UpKept(l: Link, e: Event)
    requires Enabled(l, e)
    ensures l.up[PopUp(e)..] <= Apply(l, e).up
  {
  }

  lemma FreesAfter(l: Link, e: Event)
    requires Enabled(l, e)
    ensures Apply(l, e).frees ==
            if e.Reuse? then l.frees - 1 else if Apply(l, e).frees > l.frees then l.frees + 1 else l.frees
  {
  }

  lemma PutDown(s: State, p: ProxyId, e: Event, q: ProxyId)
    requires p in s.wires && Heads(s, p, e) && Enabled(View(s, p), e)
    ensures DownFor(Put(s, p, e).down, q) == if q == p then Apply(View(s, p), e).down else DownFor(s.down, q)
  {
    DownAppendsOnly(View(s, p), e);
    InstallDown(s, p, e, Apply(View(s, p), e), q);
  }

  lemma InstallDown(s: State, p: ProxyId, e: Event, l: Link, q: ProxyId)
    requires p in s.wires && Heads(s, p, e) && |DownFor(s.down, p)| >= PopDown(e)
    requires l.down == DownFor(s.down, p)[PopDown(e)..] + From(l.down, |DownFor(s.down, p)| - PopDown(e))
    ensures DownFor(Install(s, p, e, l).down, q) == if q == p then l.down else DownFor(s.down, q)
  {
    var added := From(l.down, |DownFor(s.down, p)| - PopDown(e));
    DownForAppend(s.down[PopDown(e)..], Notices(p, added), q);
    NoticesFor(p, added, q);
  }

  lemma PutUp(s: State, p: ProxyId, e: Event, q: ProxyId)
    requires p in s.wires && Heads(s, p, e) && Enabled(View(s, p), e)
    ensures UpFor(Put(s, p, e).up, q) == if q == p then Apply(View(s, p), e).up else UpFor(s.up, q)
  {
    UpAppendsOnly(View(s, p), e);
    InstallUp(s, p, e, Apply(View(s, p), e), q);
  }

  lemma InstallUp(s: State, p: ProxyId, e: Event, l: Link, q: ProxyId)
    requires p in s.wires && Heads(s, p, e) && |UpFor(s.up, p)| >= PopUp(e)
    requires l.up == UpFor(s.up, p)[PopUp(e)..] + From(l.up, |UpFor(s.up, p)| - PopUp(e))
    ensures UpFor(Install(s, p, e, l).up, q) == if q == p then l.up else UpFor(s.up, q)
  {
    var added := From(l.up, |UpFor(s.up, p)| - PopUp(e));
    UpForAppend(s.up[PopUp(e)..], Messages(p, added), q);
    MessagesFor(p, added, q);
  }

  lemma PutFree(s: State, p: ProxyId, e: Event, q: ProxyId)
    requires p in s.wires && Heads(s, p, e) && Enabled(View(s, p), e)
    ensures Count(Put(s, p, e).pool.free, q) == if q == p then Apply(View(s, p), e).frees else Count(s.pool.free, q)
  {
    FreesAfter(View(s, p), e);
    var free := s.pool.free;
    if e.Reuse? {
      assert free == free[..|free|-1] + [p];
      CountAppend(free[..|free|-1], [p], q);
    } else {
      CountAppend(free, [p], q);
    }
  }

  /** Handling `e` on connection `p` is `Apply` on its own view and leaves every other view alone. */
  lemma ViewPut(s: State, p: ProxyId, e: Event, q: ProxyId)
    requires p in s.wires && Heads(s, p, e) && Enabled(View(s, p), e) && q in s.wires
    ensures View(Put(s, p, e), q) == if q == p then Apply(View(s, p), e) else View(s, q)
  {
    PutDown(s, p, e, q);
    PutUp(s, p, e, q);
    PutFree(s, p, e, q);
    FreesAfter(View(s, p), e);
  }

  // ---------------------------------------------------------------------------
  // The invariant of the whole system

  function NeedCount(s: seq<Down>): nat {
    if s == [] then 0 else (if s[0].NeedProxy? then 1 else 0) + NeedCount(s[1..])
  }

  lemma {:induction false} NeedCountAppend(a: seq<Down>, b: seq<Down>)
    ensures NeedCount(a + b) == NeedCount(a) + NeedCount(b)
  {
    if a == [] {
      assert a + b == b;
    } else {
      assert (a + b)[1..] == a[1..] + b;
      NeedCountAppend(a[1..], b);
    }
  }

  lemma {:induction false} NoticesNeedNothing(p: ProxyId, ns: seq<int>)
    ensures NeedCount(Notices(p, ns)) == 0
  {
    if ns != [] {
      assert Notices(p, ns)[1..] == Notices(p, ns[1..]);
      NoticesNeedNothing(p, ns[1..]);
    }
  }

  /** Every name the server or a control message uses is that of an existing connection. */
  predicate Known(s: State) {
    && s.past.Keys == s.wires.Keys
    && s.pool.unclaimed <= s.wires.Keys && s.pool.inMap <= s.wires.Keys && s.pool.waiting <= s.wires.Keys
    && (forall p | p in s.pool.free :: p in s.wires)
    && (forall i | 0 <= i < |s.down| && s.down[i].Notice? :: s.down[i].id in s.wires)
    && (forall i | 0 <= i < |s.up| :: s.up[i].id in s.wires)
  }

  predicate LinksOk(s: State) {
    forall p | p in s.wires :: Inv(View(s, p))
  }

  /** One waiting public descriptor for each connection requested or not yet claimed. */
  predicate Balanced(s: State) {
    |s.pool.undealt| == NeedCount(s.down) + |s.pool.unclaimed|
  }

  predicate SysInv(s: State) {
    Known(s) && LinksOk(s) && Balanced(s)
  }

  lemma PutKnown(s: State, p: ProxyId, e: Event)
    requires p in s.wires && Heads(s, p, e) && Enabled(View(s, p), e) && Known(s)
    ensures Known(Put(s, p, e))
  {
    InstallKnown(s, p, e, Apply(View(s, p), e));
  }

  lemma InstallKnown(s: State, p: ProxyId, e: Event, l: Link)
    requires p in s.wires && Heads(s, p, e) && Known(s)
    ensures Known(Install(s, p, e, l))
  {
  }

  lemma PutLinksOk(s: State, p: ProxyId, e: Event)
    requires p in s.wires && Heads(s, p, e) && Enabled(View(s, p), e) && LinksOk(s)
    ensures LinksOk(Put(s, p, e))
  {
    StepInv(View(s, p), e);
    forall q | q in s.wires
      ensures Inv(View(Put(s, p, e), q))
    {
      ViewPut(s, p, e, q);
    }
  }

  lemma PutBalanced(s: State, p: ProxyId, e: Event)
    requires p in s.wires && Heads(s, p, e) && Enabled(View(s, p), e)
    requires e.Claim? ==> p in s.pool.unclaimed
    ensures NeedCount(Put(s, p, e).down) == NeedCount(s.down)
    ensures |Put(s, p, e).pool.unclaimed| == |s.pool.unclaimed| - if e.Claim? then 1 else 0
  {
    PutNeeds(s, p, e);
    PutUnclaimed(s, p, e);
  }

  lemma PutNeeds(s: State, p: ProxyId, e: Event)
    requires p in s.wires && Heads(s, p, e) && Enabled(View(s, p), e)
    ensures NeedCount(Put(s, p, e).down) == NeedCount(s.down)
  {
    InstallNeeds(s, p, e, Apply(View(s, p), e));
  }

  lemma InstallNeeds(s: State, p: ProxyId, e: Event, l: Link)
    requires p in s.wires && Heads(s, p, e)
    ensures NeedCount(Install(s, p, e, l).down) == NeedCount(s.down)
  {
    var added := From(l.down, |DownFor(s.down, p)| - PopDown(e));
    NeedCountAppend(s.down[PopDown(e)..], Notices(p, added));
    NoticesNeedNothing(p, added);
  }

  lemma PutUnclaimed(s: State, p: ProxyId, e: Event)
    requires p in s.wires && Heads(s, p, e) && Enabled(View(s, p), e)
    requires e.Claim? ==> p in s.pool.unclaimed
    ensures |Put(s, p, e).pool.unclaimed| == |s.pool.unclaimed| - if e.Claim? then 1 else 0
  {
    FreesAfter(View(s, p), e);
    assert Put(s, p, e).pool.unclaimed == if e.Claim? then s.pool.unclaimed - {p} else s.pool.unclaimed;
  }

  lemma AtSysInv(s: State, p: ProxyId, e: Event)
    requires SysInv(s) && Can(s, At(p, e))
    ensures SysInv(Step(s, At(p, e)))
  {
    PoppedKeeps(s, e);
    AtBalanced(s, p, e);
    PutKnown(Popped(s, e), p, e);
    PutLinksOk(Popped(s, e), p, e);
  }

  lemma PoppedKeeps(s: State, e: Event)
    requires Known(s) && LinksOk(s)
    ensures Known(Popped(s, e)) && LinksOk(Popped(s, e))
  {
    forall q | q in s.wires ensures Inv(View(Popped(s, e), q)) {
      PoppedView(s, e, q);
    }
  }

  lemma PoppedView(s: State, e: Event, q: ProxyId)
    requires q in s.wires
    ensures View(Popped(s, e), q) == View(s, q)
  {
  }

  lemma ClaimIsOfUnclaimed(l: Link, fd: Fd)
    requires Inv(l) && Enabled(l, Claim(fd))
    ensures l.unclaimed
  {
  }

  lemma AtBalanced(s: State, p: ProxyId, e: Event)
    requires Balanced(s) && Can(s, At(p, e)) && Inv(View(s, p))
    ensures Balanced(Step(s, At(p, e)))
  {
    if e.Claim? { ClaimIsOfUnclaimed(View(s, p), e.fd); }
    PoppedView(s, e, p);
    PutBalanced(Popped(s, e), p, e);
  }

  lemma AcceptNew(s: State, fd: Fd, q: ProxyId)
    requires Can(s, Accept(fd)) && s.pool.free == [] && q in s.wires
    ensures View(Step(s, Accept(fd)), q) == View(s, q)
  {
    DownForAppend(s.down, [NeedProxy], q);
  }

  lemma AcceptReuse(s: State, fd: Fd, q: ProxyId)
    requires Can(s, Accept(fd)) && s.pool.free != [] && q in s.wires
    ensures var p := s.pool.free[|s.pool.free|-1];
            View(Step(s, Accept(fd)), q) == if q == p then Apply(View(s, p), Reuse(fd)) else View(s, q)
  {
    ViewPut(s.(accepted := s.accepted + {fd}), s.pool.free[|s.pool.free|-1], Reuse(fd), q);
  }

  lemma AcceptLinksOk(s: State, fd: Fd)
    requires SysInv(s) && Can(s, Accept(fd))
    ensures LinksOk(Step(s, Accept(fd)))
  {
    var s' := Step(s, Accept(fd));
    forall q | q in s'.wires
      ensures Inv(View(s', q))
    {
      assert q in s.wires && Inv(View(s, q));
      if s.pool.free == [] {
        AcceptNew(s, fd, q);
      } else {
        AcceptReuse(s, fd, q);
        if q == s.pool.free[|s.pool.free|-1] { StepInv(View(s, q), Reuse(fd)); }
      }
    }
  }

  lemma AcceptBooks(s: State, fd: Fd)
    requires Known(s) && Balanced(s) && Can(s, Accept(fd))
    ensures Known(Step(s, Accept(fd))) && Balanced(Step(s, Accept(fd)))
  {
    if s.pool.free == [] { RequestBooks(s, fd); } else { ReuseBooks(s, fd); }
  }

  lemma RequestBooks(s: State, fd: Fd)
    requires Known(s) && Balanced(s) && Can(s, Accept(fd)) && s.pool.free == []
    ensures Known(Step(s, Accept(fd))) && Balanced(Step(s, Accept(fd)))
  {
    NeedCountAppend(s.down, [NeedProxy]);
  }

  lemma ReuseBooks(s: State, fd: Fd)
    requires Known(s) && Balanced(s) && Can(s, Accept(fd)) && s.pool.free != []
    ensures Known(Step(s, Accept(fd))) && Balanced(Step(s, Accept(fd)))
  {
    var p := s.pool.free[|s.pool.free|-1];
    var s1 := s.(accepted := s.accepted + {fd});
    PutKnown(s1, p, Reuse(fd));
    PutBalanced(s1, p, Reuse(fd));
  }

  lemma {:induction false} UnknownDown(s: seq<Down>, p: ProxyId)
    requires forall i | 0 <= i < |s| && s[i].Notice? :: s[i].id != p
    ensures DownFor(s, p) == []
  {
    if s != [] { UnknownDown(s[1..], p); }
  }

  lemma {:induction false} UnknownUp(s: seq<UpMsg>, p: ProxyId)
    requires forall i | 0 <= i < |s| :: s[i].id != p
    ensures UpFor(s, p) == []
  {
    if s != [] { UnknownUp(s[1..], p); }
  }

  lemma ConnectView(s: State, p: ProxyId, localFd: Fd, q: ProxyId)
    requires Known(s) && Can(s, Connect(p, localFd)) && (q == p || q in s.wires)
    ensures View(Step(s, Connect(p, localFd)), q) == if q == p then Fresh(p, localFd) else View(s, q)
  {
    if q == p {
      UnknownDown(s.down[1..], p);
      UnknownUp(s.up, p);
      CountMember(s.pool.free, p);
    }
  }

  lemma ConnectLinksOk(s: State, p: ProxyId, localFd: Fd)
    requires SysInv(s) && Can(s, Connect(p, localFd))
    ensures LinksOk(Step(s, Connect(p, localFd)))
  {
    var s' := Step(s, Connect(p, localFd));
    forall q | q in s'.wires
      ensures Inv(View(s', q))
    {
      ConnectView(s, p, localFd, q);
      if q == p { FreshInv(p, localFd); } else { assert Inv(View(s, q)); }
    }
  }

  lemma ConnectBooks(s: State, p: ProxyId, localFd: Fd)
    requires Known(s) && Balanced(s) && Can(s, Connect(p, localFd))
    ensures Known(Step(s, Connect(p, localFd))) && Balanced(Step(s, Connect(p, localFd)))
  {
    assert p !in s.pool.unclaimed;
  }

  lemma StepSysInv(s: State, a: Action)
    requires SysInv(s) && Can(s, a)
    ensures SysInv(Step(s, a))
  {
    match a
    case Accept(fd) =>
      AcceptLinksOk(s, fd);
      AcceptBooks(s, fd);
    case Connect(p, localFd) =>
      ConnectLinksOk(s, p, localFd);
      ConnectBooks(s, p, localFd);
    case At(p, e) => AtSysInv(s, p, e);
  }

  /** The invariant holds at the end of every run, crossed or not. */
  lemma {:induction false} RunInv(run: seq<Action>)
    ensures Exec(run).Some? ==> SysInv(Exec(run).value)
  {
    if run != [] && Exec(run).Some? {
      var before := run[..|run|-1];
      RunInv(before);
      StepSysInv(Exec(before).value, run[|run|-1]);
    }
  }
}
