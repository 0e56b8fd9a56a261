/**
  The server's `Tunnel`: the map of paired connections, the wait map, the free list and the
  waiting public descriptors.  `At` is what the tunnel contributes to the `Link` of one
  connection, and every handler is shown to make of it what `ProxyLink.Apply` says.
*/
module ServerTunnel {
  import P = ProxyLink
  import S = ProxySystem
  import opened ProxyConns

  /** The ids of a list of connections. */
  ghost function Ids(conns: seq<ProxyConn>): seq<P.ProxyId> {
    seq(|conns|, i requires 0 <= i < |conns| => conns[i].id)
  }

  lemma CountSnoc(conns: seq<ProxyConn>, c: ProxyConn, p: P.ProxyId)
    ensures S.Count(Ids(conns + [c]), p) == S.Count(Ids(conns), p) + if c.id == p then 1 else 0
  {
    assert Ids(conns + [c]) == Ids(conns) + [c.id];
    S.CountAppend(Ids(conns), [c.id], p);
  }

  /** Entries for all of `conns`, the last one entered first. */
  ghost function AddAll(m: map<P.ProxyId, ProxyConn>, conns: seq<ProxyConn>): map<P.ProxyId, ProxyConn> {
    if conns == [] then m else AddAll(m, conns[1..])[conns[0].id := conns[0]]
  }

  /** The tunnel before an accept loop. */
  datatype Before = Before(free: seq<ProxyConn>, outgoing: seq<seq<P.Item>>, waitMap: map<P.ProxyId, ProxyConn>,
                           undealt: seq<P.Fd>, control: seq<S.Down>)

  predicate Distinct(conns: seq<ProxyConn>) {
    forall i, j | 0 <= i < j < |conns| :: conns[i] != conns[j]
  }

  ghost function Outgoing(conns: seq<ProxyConn>): (r: seq<seq<P.Item>>)
    reads conns
    ensures |r| == |conns|
  {
    seq(|conns|, i requires 0 <= i < |conns| reads conns => conns[i].outgoing)
  }

  /**
    The last `k` connections, from the back, have been asked to start for the first `k`
    descriptors, the others not.
  */
  ghost predicate Asked(conns: seq<ProxyConn>, k: nat, fds: seq<P.Fd>, was: seq<seq<P.Item>>)
    reads conns
  {
    && |was| == |conns| && k <= |conns| && k <= |fds|
    && forall i | 0 <= i < |conns| ::
         conns[i].outgoing == was[i] + if i < |conns| - k then [] else [P.StartReq(fds[|conns| - 1 - i], conns[i].id)]
  }

  function Requests(k: nat): seq<S.Down> {
    if k == 0 then [] else Requests(k - 1) + [S.NeedProxy]
  }

  function Smaller(a: int, b: int): int { if a < b then a else b }

  /** The automaton's `Reuse`, from its parts. */
  lemma Reused(l: P.Link, fd: P.Fd)
    requires l.frees > 0
    ensures P.Enabled(l, P.Reuse(fd))
    ensures P.Apply(l, P.Reuse(fd)) ==
            l.(srv := l.srv.(outer := P.NoOuter), s2c := l.s2c + [P.StartReq(fd, l.id)],
               inWait := true, frees := l.frees - 1, released := 0, missed := false)
  {
  }

  class Tunnel {
    var proxyConnMap: map<P.ProxyId, ProxyConn>
    var waitMap: map<P.ProxyId, ProxyConn>
    var free: seq<ProxyConn>
    var undealt: seq<P.Fd>
    // Messages handed to the control connection and not yet taken by the client.
    var control: seq<S.Down>

    constructor ()
      ensures Valid() && proxyConnMap == map[] && waitMap == map[] && free == [] && undealt == [] && control == []
    {
      proxyConnMap, waitMap, free, undealt, control := map[], map[], [], [], [];
    }

    /** Every connection is kept under its own id and in one place only. */
    ghost predicate Valid()
      reads this
    {
      && (forall p | p in proxyConnMap :: proxyConnMap[p].id == p)
      && (forall p | p in waitMap :: waitMap[p].id == p)
      && proxyConnMap.Keys !! waitMap.Keys
      && (forall i | 0 <= i < |free| :: free[i].id !in proxyConnMap && free[i].id !in waitMap)
      && (forall i, j | 0 <= i < j < |free| :: free[i].id != free[j].id)
    }

    /** `rest` with the server's part of connection `c` filled in; a waiting connection has no current peer. */
    ghost function At(c: ProxyConn, rest: P.Link): P.Link
      reads this, c, c.peer
    {
      rest.(id := c.id,
            srv := if c.id in waitMap then c.View().(outer := P.NoOuter) else c.View(),
            s2c := c.outgoing, down := S.DownFor(control, c.id),
            inMap := c.id in proxyConnMap, inWait := c.id in waitMap,
            frees := S.Count(Ids(free), c.id), released := c.released)
    }

    /** `popFreeProxyConn`: the connection released last. */
    method PopFreeProxyConn() returns (conn: ProxyConn?)
      modifies this`free
      ensures old(free) == [] ==> conn == null && free == []
      ensures old(free) != [] ==> conn != null && old(free) == free + [conn]
    {
      if free == [] { return null; }
      conn := free[|free|-1];
      free := free[..|free|-1];
    }

    /** A turn of the accept loop that finds a free connection: the one released last is asked to start. */
    method StartAgain(fd: P.Fd, ghost rest: P.Link)
      requires Valid() && free != []
      modifies this`free, this`waitMap, free[|free|-1]
      ensures Valid()
      ensures var n := |old(free)| - 1;
              var conn := old(free)[n];
              && free == old(free)[..n] && waitMap == old(waitMap)[conn.id := conn]
              && conn.outgoing == old(conn.outgoing) + [P.StartReq(fd, conn.id)]
              && P.Enabled(old(At(conn, rest)), P.Reuse(fd))
              && var l := P.Apply(old(At(conn, rest)), P.Reuse(fd)); At(conn, l) == l
    {
      ghost var all := free;
      var conn := PopFreeProxyConn();
      assert forall i | 0 <= i < |free| :: free[i] == all[i];
      CountSnoc(free, conn, conn.id);
      ghost var l := old(At(conn, rest));
      conn.SendMsg(P.StartReq(fd, conn.id));
      waitMap := waitMap[conn.id := conn];
      conn.released := 0;
      Reused(l, fd);
    }

    /** The same, as far as the loop needs it. */
    method AskToStart(fd: P.Fd, ghost rest: P.Link)
      requires Valid() && free != []
      modifies this`free, this`waitMap, free[|free|-1]
      ensures Valid() && free == old(free)[..|old(free)| - 1]
      ensures var conn := old(free)[|old(free)| - 1];
              && waitMap == old(waitMap)[conn.id := conn]
              && conn.outgoing == old(conn.outgoing) + [P.StartReq(fd, conn.id)]
    {
      StartAgain(fd, rest);
    }

    /** A turn that finds none: the descriptor waits and a connection is requested. */
    method RequestProxy(fd: P.Fd)
      modifies this`undealt, this`control
      ensures undealt == old(undealt) + [fd] && control == old(control) + [S.NeedProxy]
    {
      undealt := undealt + [fd];
      control := control + [S.NeedProxy];
    }

    ghost function Snapshot(): Before
      reads this, free
    {
      Before(free, Outgoing(free), waitMap, undealt, control)
    }

    /**
      The tunnel after `i` descriptors have been accepted in state `b`: the free connections are asked
      to start from the back, one for each descriptor, and descriptors left over wait.
    */
    ghost predicate Accepted(b: Before, fds: seq<P.Fd>, i: nat)
      reads this, b.free
      requires i <= |fds|
    {
      var n, k := |b.free|, Smaller(i, |b.free|);
      && free == b.free[..n - k] && waitMap == AddAll(b.waitMap, b.free[n - k..])
      && undealt == b.undealt + fds[k..i] && control == b.control + Requests(i - k)
      && Asked(b.free, k, fds, b.outgoing)
    }

    /** `newPublicConnHandler`: `fds` is what `accept` returns until it fails. */
    method NewPublicConnHandler(fds: seq<P.Fd>, ghost rest: P.Link)
      requires Valid()
      modifies this`free, this`waitMap, this`undealt, this`control, set i | 0 <= i < |free| :: free[i]
      ensures Valid() && Accepted(old(Snapshot()), fds, |fds|)
    {
      ghost var b := Snapshot();
      NothingAccepted(fds);
      var i := 0;
      while i < |fds|
        invariant 0 <= i <= |fds| && Distinct(b.free) && Valid() && Accepted(b, fds, i)
      {
        FreeIsPrefix(b, fds, i);
        Turn(fds, i, b, rest);
        i := i + 1;
      }
    }

    lemma NothingAccepted(fds: seq<P.Fd>)
      requires Valid()
      ensures Distinct(free) && Accepted(Snapshot(), fds, 0)
    {
    }

    lemma FreeIsPrefix(b: Before, fds: seq<P.Fd>, i: nat)
      requires i <= |fds| && Accepted(b, fds, i)
      ensures free != [] ==> |free| <= |b.free| && free[|free|-1] == b.free[|free|-1]
    {
    }

    method Turn(fds: seq<P.Fd>, i: nat, ghost b: Before, ghost rest: P.Link)
      requires i < |fds| && Valid() && Distinct(b.free) && Accepted(b, fds, i)
      modifies this`free, this`waitMap, this`undealt, this`control, if free == [] then {} else {free[|free|-1]}
      ensures Valid() && Accepted(b, fds, i + 1)
    {
      if free != [] {
        TurnAgain(fds, i, b, rest);
      } else {
        TurnRequest(fds, i, b);
      }
    }

    method TurnAgain(fds: seq<P.Fd>, i: nat, ghost b: Before, ghost rest: P.Link)
      requires i < |fds| && free != [] && Valid() && Distinct(b.free) && Accepted(b, fds, i)
      modifies this`free, this`waitMap, free[|free|-1]
      ensures Valid() && Accepted(b, fds, i + 1)
    {
      ghost var all, top := b.free, |free| - 1;
      assert Smaller(i, |all|) == i && Smaller(i + 1, |all|) == i + 1;
      assert all[top..] == [all[top]] + all[top + 1..];
      assert free[top] == all[top];
      AskToStart(fds[i], rest);
      assert fds[i..i] == fds[i + 1..i + 1];
    }

    method TurnRequest(fds: seq<P.Fd>, i: nat, ghost b: Before)
      requires i < |fds| && free == [] && Valid() && Accepted(b, fds, i)
      modifies this`undealt, this`control
      ensures Valid() && Accepted(b, fds, i + 1)
    {
      ghost var k := Smaller(i, |b.free|);
      RequestProxy(fds[i]);
      assert fds[k..i + 1] == fds[k..i] + [fds[i]];
    }

    /** `getAndPopUndealPublicFd`. */
    method GetAndPopUndealPublicFd() returns (fd: P.Fd)
      requires undealt != []
      modifies this`undealt
      ensures old(undealt) == undealt + [fd]
    {
      fd := undealt[|undealt|-1];
      undealt := undealt[..|undealt|-1];
    }

    method BindPublicFdToProxyConn(fd: P.Fd, conn: ProxyConn)
      modifies this`proxyConnMap, conn`isStart, conn`peer
      ensures proxyConnMap == old(proxyConnMap)[conn.id := conn]
      ensures conn.View() == P.Start(old(conn.View()), P.NewOuter(fd))
    {
      var publicConn := new OuterConn(fd);
      conn.Start(publicConn);
      proxyConnMap := proxyConnMap[conn.id := conn];
    }

    /** `claimProxyConn`, on a connection nobody has claimed. */
    method ClaimProxyConn(conn: ProxyConn, ghost rest: P.Link) returns (fd: P.Fd)
      requires Valid() && undealt != [] && !conn.isStart
      requires conn.id !in proxyConnMap && conn.id !in waitMap && forall i | 0 <= i < |free| :: free[i].id != conn.id
      modifies this`undealt, this`proxyConnMap, conn`isStart, conn`peer
      ensures Valid() && old(undealt) == undealt + [fd] && proxyConnMap == old(proxyConnMap)[conn.id := conn]
      ensures P.Enabled(old(At(conn, rest)), P.Claim(fd)) ==>
                var l := P.Apply(old(At(conn, rest)), P.Claim(fd)); At(conn, l) == l
    {
      fd := GetAndPopUndealPublicFd();
      BindPublicFdToProxyConn(fd, conn);
    }

    /** `handleStartProxyConnRsp`: a connection that is not waiting is left alone. */
    method HandleStartProxyConnRsp(fd: P.Fd, conn: ProxyConn, ghost rest: P.Link)
      requires Valid() && !conn.isStart && (conn.id in waitMap ==> waitMap[conn.id] == conn)
      modifies this`proxyConnMap, this`waitMap, conn`isStart, conn`peer
      ensures Valid()
      ensures conn.id !in old(waitMap) ==> proxyConnMap == old(proxyConnMap) && waitMap == old(waitMap)
      ensures conn.id in old(waitMap) ==>
                && proxyConnMap == old(proxyConnMap)[conn.id := conn]
                && waitMap == old(waitMap) - {conn.id}
      ensures P.Enabled(old(At(conn, rest)), P.Bind) && rest.c2s[0].fd == fd ==>
                var l := P.Apply(old(At(conn, rest)), P.Bind); At(conn, l) == l
    {
      if conn.id !in waitMap { return; }
      BindPublicFdToProxyConn(fd, conn);
      waitMap := waitMap - {conn.id};
    }

    /** `freeProxyConn`: an unknown or a started connection is left alone. */
    method FreeProxyConn(id: P.ProxyId, ghost rest: P.Link)
      requires Valid()
      modifies this`proxyConnMap, this`free, if id in proxyConnMap then {proxyConnMap[id]} else {}
      ensures Valid()
      ensures id !in old(proxyConnMap) || old(proxyConnMap[id].isStart) ==>
                proxyConnMap == old(proxyConnMap) && free == old(free)
      ensures id in old(proxyConnMap) && !old(proxyConnMap[id].isStart) ==>
                proxyConnMap == old(proxyConnMap) - {id} && free == old(free) + [old(proxyConnMap[id])]
      ensures id in old(proxyConnMap) ==>
                var conn := old(proxyConnMap[id]);
                conn.peer == old(conn.peer) && var l := P.FreeProxy(old(At(conn, rest))); At(conn, l) == l
    {
      if id !in proxyConnMap { return; }
      var conn := proxyConnMap[id];
      if conn.isStart { return; }
      CountSnoc(free, conn, id);
      proxyConnMap := proxyConnMap - {id};
      free := free + [conn];
      conn.released := conn.released + 1;
    }

    /** `conn` has moved from the map to the end of the free list if `ended`; nothing else has moved. */
    ghost predicate Moved(was: map<P.ProxyId, ProxyConn>, wasFree: seq<ProxyConn>, conn: ProxyConn, ended: bool)
      reads this
    {
      && proxyConnMap == (if ended then was - {conn.id} else was)
      && free == (if ended then wasFree + [conn] else wasFree)
    }

    /** `shutdownPublicConn`. */
    method ShutdownPublicConn(conn: ProxyConn, ghost rest: P.Link)
      requires Valid() && conn.id in proxyConnMap && proxyConnMap[conn.id] == conn
      modifies this`proxyConnMap, this`free, conn, conn.peer
      ensures Valid() && Moved(old(proxyConnMap), old(free), conn, Ends(old(conn.View())))
      ensures var l := P.ShutdownPublic(old(At(conn, rest))); At(conn, l) == l
    {
      if conn.recvCount != conn.theoreticalTotal { return; }
      ghost var l := At(conn, rest);
      var isFree := conn.ShutdownFromRemote();
      ghost var l1 := l.(srv := P.FromRemote(l.srv));
      assert At(conn, l1) == l1;
      if isFree { FreeProxyConn(conn.id, l1); }
    }

    /** `handleRead` of a started server end: the splices, then the completion check. */
    method HandleData(conn: ProxyConn, items: seq<P.Item>, m: int, ghost rest: P.Link)
      requires Valid() && conn.id in proxyConnMap && proxyConnMap[conn.id] == conn
      requires conn.isStart && conn.peer != null && -1 <= m <= |conn.pipe| + |items|
      modifies this`proxyConnMap, this`free, conn, conn.peer
      ensures Valid()
      ensures Moved(old(proxyConnMap), old(free), conn, m >= 0 && Ends(P.Absorb(old(conn.View()), items, m)))
      ensures |items| <= |rest.c2s| && rest.c2s[..|items|] == items
                && P.Enabled(old(At(conn, rest)), P.SrvData(|items|, m)) ==>
                var l := P.Apply(old(At(conn, rest)), P.SrvData(|items|, m)); At(conn, l) == l
    {
      ghost var l := At(conn, rest);
      conn.Splice(items, m);
      ghost var l1 := l.(srv := P.Absorb(l.srv, items, m), c2s := if |items| <= |l.c2s| then l.c2s[|items|..] else []);
      assert At(conn, l1) == l1;
      if m < 0 { return; }
      if conn.recvCount == conn.theoreticalTotal { ShutdownPublicConn(conn, l1); }
    }

    /** `Control::handleShutdownPublicConn`: a notice for a connection that is not paired is dropped. */
    method HandleShutdownPublicConn(id: P.ProxyId, n: int, ghost rest: P.Link)
      requires Valid()
      modifies this`proxyConnMap, this`free
      modifies if id in proxyConnMap then {proxyConnMap[id], proxyConnMap[id].peer} else {}
      ensures Valid()
      ensures id !in old(proxyConnMap) ==> proxyConnMap == old(proxyConnMap) && free == old(free)
      ensures id in old(proxyConnMap) ==>
                var conn := old(proxyConnMap[id]);
                Moved(old(proxyConnMap), old(free), conn, Ends(P.Announce(old(conn.View()), n)))
      ensures id in old(proxyConnMap) ==>
                var conn := old(proxyConnMap[id]);
                P.Enabled(old(At(conn, rest)), P.SrvNotice) && rest.up[0].n == n ==>
                  var l := P.Apply(old(At(conn, rest)), P.SrvNotice); At(conn, l) == l
    {
      if id !in proxyConnMap { return; }
      var conn := proxyConnMap[id];
      ghost var l := At(conn, rest);
      conn.IncrTheoreticalTotal(n);
      ghost var l1 := l.(srv := P.Announce(l.srv, n), up := if l.up == [] then [] else l.up[1..]);
      assert At(conn, l1) == l1;
      ShutdownPublicConn(conn, l1);
    }

    /** `shutdownFromPublic`, called with the count of a public connection that has seen EOF. */
    method ShutdownFromPublic(id: P.ProxyId, n: int)
      requires Valid()
      modifies this`control, if id in proxyConnMap then {proxyConnMap[id]} else {}
      ensures Valid()
      ensures id !in proxyConnMap ==> control == old(control)
      ensures id in proxyConnMap ==>
                var conn := proxyConnMap[id];
                && control == old(control) + [S.Notice(id, n)]
                && conn.View() == P.FromLocal(old(conn.View()))
                && conn.peer == old(conn.peer)
                && conn.outgoing == old(conn.outgoing) && conn.released == old(conn.released)
    {
      if id !in proxyConnMap { return; }
      var isFree := proxyConnMap[id].ShutdownFromLocal();
      control := control + [S.Notice(id, n)];
    }

    /** `PublicConn::handleRead` at EOF; without an entry in the map nobody is told. */
    method PublicEof(conn: ProxyConn, pub: OuterConn, ghost rest: P.Link)
      requires Valid() && (conn.id in proxyConnMap ==> proxyConnMap[conn.id] == conn) && conn.peer == pub
                 && !pub.closing
      modifies this`control, conn, pub
      ensures Valid() && pub.closing
      ensures conn.id !in proxyConnMap ==>
                && control == old(control) && conn.View() == old(conn.View()).(outer := pub.View())
                && pub.shuts == old(pub.shuts)
      ensures conn.id in proxyConnMap ==> control == old(control) + [S.Notice(conn.id, pub.tranCount)]
      ensures P.Enabled(old(At(conn, rest)), P.PubEof) <==> conn.id !in waitMap
      ensures conn.id !in waitMap ==> var l := P.Apply(old(At(conn, rest)), P.PubEof); At(conn, l) == l
    {
      ghost var first := conn.id in proxyConnMap && !conn.halfClose;
      S.DownForAppend(control, [S.Notice(conn.id, pub.tranCount)], conn.id);
      ShutdownFromPublic(conn.id, pub.tranCount);
      pub.Close(first);
    }

    /** `PublicConn::handleRead` with data. */
    method PublicData(conn: ProxyConn, pub: OuterConn, data: seq<P.Item>, m: nat, ghost rest: P.Link)
      requires conn.peer == pub && m <= |data|
      modifies conn`outgoing, pub
      ensures pub.View() == P.Forward(old(pub.View()), data, m)
      ensures conn.outgoing == old(conn.outgoing) + (old(pub.pipe) + data)[..m]
      ensures pub.tranCount == old(pub.tranCount) + m && pub.input == old(pub.input) + data
      ensures P.Enabled(old(At(conn, rest)), P.PubRead(data, m)) ==>
                var l := P.Apply(old(At(conn, rest)), P.PubRead(data, m)); At(conn, l) == l
    {
      var moved := pub.HandleRead(data, m);
      conn.outgoing := conn.outgoing + moved;
    }
  }
}
