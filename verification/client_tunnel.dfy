/**
  The client's `Tunnel`: its connections by id.  `At` is what it contributes to the `Link` of
  one connection, and every handler is shown to make of it what `ProxyLink.Apply` says.
*/
module ClientTunnel {
  import P = ProxyLink
  import S = ProxySystem
  import opened ProxyConns

  /** The automaton's completion, from its parts. */
  lemma Completed(l: P.Link, cli: P.Side, up: seq<P.Up>)
    requires l.cli.recv == l.cli.total && cli == P.FromRemote(l.cli)
    requires up == if l.cli.halfClose then l.up + [P.UpFree] else l.up
    ensures P.ShutdownLocal(l) == l.(cli := cli, up := up)
  {
  }

  /** The automaton's data step, from its parts. */
  lemma DataIs(l: P.Link, l1: P.Link, items: seq<P.Item>, m: int)
    requires -1 <= m <= |l.cli.pipe| + |items|
    requires l1 == l.(cli := P.Absorb(l.cli, items, m), s2c := if |items| <= |l.s2c| then l.s2c[|items|..] else [])
    ensures |items| <= |l.s2c| && l.s2c[..|items|] == items && P.Enabled(l, P.CliData(|items|, m)) ==>
              P.Apply(l, P.CliData(|items|, m)) == if m < 0 then l1 else P.ShutdownLocal(l1)
    ensures l1.cli.recv != l1.cli.total ==> P.ShutdownLocal(l1) == l1
  {
  }

  lemma NoticeIs(l: P.Link, l1: P.Link)
    requires P.Enabled(l, P.CliNotice) && l1 == l.(cli := P.Announce(l.cli, l.down[0]), down := l.down[1..])
    ensures P.Apply(l, P.CliNotice) == P.ShutdownLocal(l1)
  {
  }

  /** The release request, if one is sent. */
  function Release(id: P.ProxyId, ended: bool): seq<S.UpMsg> {
    if ended then [S.UpMsg(id, P.UpFree)] else []
  }

  class Tunnel {
    var proxyConnMap: map<P.ProxyId, ProxyConn>
    // Messages handed to the control connection and not yet taken by the server.
    var control: seq<S.UpMsg>

    constructor ()
      ensures Valid() && proxyConnMap == map[] && control == []
    {
      proxyConnMap, control := map[], [];
    }

    ghost predicate Valid()
      reads this
    {
      forall p | p in proxyConnMap :: proxyConnMap[p].id == p
    }

    /** `rest` with the client's part of connection `c` filled in. */
    ghost function At(c: ProxyConn, rest: P.Link): P.Link
      reads this, c, c.peer
    {
      rest.(id := c.id, cli := c.View(), c2s := c.outgoing, up := S.UpFor(control, c.id))
    }

    /** `Client::handleProxyNotify`, with an id that is not in use. */
    method HandleProxyNotify(id: P.ProxyId, localFd: P.Fd) returns (conn: ProxyConn)
      requires Valid() && id !in proxyConnMap
      modifies this`proxyConnMap
      ensures Valid() && proxyConnMap == old(proxyConnMap)[id := conn] && fresh(conn)
      ensures S.UpFor(control, id) == [] ==> var l := P.Fresh(id, localFd); At(conn, l) == l
    {
      conn := new ProxyConn(id);
      proxyConnMap := proxyConnMap[id := conn];
      var localConn := new OuterConn(localFd);
      conn.SendMsg(P.MetaSet(id));
      conn.Start(localConn);
    }

    /** `handleStartProxyConnReq`: an unknown or a started connection is left alone. */
    method HandleStartProxyConnReq(id: P.ProxyId, fd: P.Fd, localFd: P.Fd, ghost rest: P.Link)
      requires Valid()
      modifies if id in proxyConnMap then {proxyConnMap[id]} else {}
      ensures Valid()
      ensures id in proxyConnMap && old(proxyConnMap[id].isStart) ==>
                var conn := proxyConnMap[id]; conn.View() == old(conn.View()) && conn.outgoing == old(conn.outgoing)
      ensures id in proxyConnMap && rest.s2c != [] && rest.s2c[0] == P.StartReq(fd, id)
                && !old(proxyConnMap[id].isStart) ==>
                var conn := proxyConnMap[id];
                && P.Enabled(old(At(conn, rest)), P.ClientStart(localFd))
                && var l := P.Apply(old(At(conn, rest)), P.ClientStart(localFd)); At(conn, l) == l
    {
      if id !in proxyConnMap { return; }
      var conn := proxyConnMap[id];
      if conn.isStart { return; }
      var localConn := new OuterConn(localFd);
      conn.SendMsg(P.StartRsp(fd, id));
      conn.Start(localConn);
    }

    /** `shutdonwLocalConn`: the second half-close asks the server for a release. */
    method ShutdownLocalConn(conn: ProxyConn, ghost rest: P.Link)
      requires Valid()
      modifies this`control, conn, conn.peer
      ensures Valid() && control == old(control) + Release(conn.id, Ends(old(conn.View())))
      ensures var l := P.ShutdownLocal(old(At(conn, rest))); At(conn, l) == l
    {
      if conn.theoreticalTotal == conn.recvCount { Finish(conn, rest); }
    }

    method Finish(conn: ProxyConn, ghost rest: P.Link)
      requires Valid() && conn.theoreticalTotal == conn.recvCount
      modifies this`control, conn, conn.peer
      ensures Valid() && control == old(control) + Release(conn.id, Ends(old(conn.View())))
      ensures var l := P.ShutdownLocal(old(At(conn, rest))); At(conn, l) == l
    {
      ghost var l := At(conn, rest);
      S.UpForAppend(control, [S.UpMsg(conn.id, P.UpFree)], conn.id);
      var isFree := conn.ShutdownFromRemote();
      if isFree { control := control + [S.UpMsg(conn.id, P.UpFree)]; }
      Completed(l, conn.View(), S.UpFor(control, conn.id));
    }

    /** `handleRead` of a started client end: the splices, then the completion check. */
    method HandleData(conn: ProxyConn, items: seq<P.Item>, m: int, ghost rest: P.Link)
      requires Valid() && conn.isStart && conn.peer != null && -1 <= m <= |conn.pipe| + |items|
      modifies this`control, conn, conn.peer
      ensures Valid()
      ensures control == old(control) + Release(conn.id, m >= 0 && Ends(P.Absorb(old(conn.View()), items, m)))
      ensures |items| <= |rest.s2c| && rest.s2c[..|items|] == items
                && P.Enabled(old(At(conn, rest)), P.CliData(|items|, m)) ==>
                var l := P.Apply(old(At(conn, rest)), P.CliData(|items|, m)); At(conn, l) == l
    {
      ghost var l := At(conn, rest);
      conn.Splice(items, m);
      ghost var l1 := l.(cli := P.Absorb(l.cli, items, m), s2c := if |items| <= |l.s2c| then l.s2c[|items|..] else []);
      assert At(conn, l1) == l1;
      DataIs(l, l1, items, m);
      if m >= 0 && conn.recvCount == conn.theoreticalTotal { ShutdownLocalConn(conn, l1); }
    }

    /** `Client::handleShutdownLocalConn`. */
    method HandleShutdownLocalConn(id: P.ProxyId, n: int, ghost rest: P.Link)
      requires Valid()
      modifies this`control
      modifies if id in proxyConnMap then {proxyConnMap[id], proxyConnMap[id].peer} else {}
      ensures Valid()
      ensures id !in proxyConnMap ==> control == old(control)
      ensures id in proxyConnMap ==>
                control == old(control) + Release(id, Ends(P.Announce(old(proxyConnMap[id].View()), n)))
      ensures id in proxyConnMap ==>
                var conn := proxyConnMap[id];
                P.Enabled(old(At(conn, rest)), P.CliNotice) && rest.down[0] == n ==>
                  var l := P.Apply(old(At(conn, rest)), P.CliNotice); At(conn, l) == l
    {
      if id !in proxyConnMap { return; }
      var conn := proxyConnMap[id];
      ghost var l := At(conn, rest);
      conn.IncrTheoreticalTotal(n);
      ghost var l1 := l.(cli := P.Announce(l.cli, n), down := if l.down == [] then [] else l.down[1..]);
      assert At(conn, l1) == l1;
      if l.down != [] && l.down[0] == n { NoticeIs(l, l1); }
      ShutdownLocalConn(conn, l1);
    }

    /** `LocalConn::handleRead` at EOF, with `shutdownFromLocal` of the tunnel and the client. */
    method LocalEof(conn: ProxyConn, local: OuterConn, ghost rest: P.Link)
      requires Valid() && (conn.id in proxyConnMap ==> proxyConnMap[conn.id] == conn) && conn.peer == local
                 && !local.closing
      modifies this`control, conn, local
      ensures Valid() && local.closing
      ensures conn.id !in proxyConnMap ==>
                && control == old(control)
                && conn.View() == old(conn.View()).(outer := local.View())
      ensures P.Enabled(old(At(conn, rest)), P.LocEof)
      ensures conn.id in proxyConnMap ==> control == old(control) + [S.UpMsg(conn.id, P.UpNotice(local.tranCount))]
      ensures conn.id in proxyConnMap ==> var l := P.Apply(old(At(conn, rest)), P.LocEof); At(conn, l) == l
    {
      ghost var first := conn.id in proxyConnMap && !conn.halfClose;
      if conn.id in proxyConnMap {
        S.UpForAppend(control, [S.UpMsg(conn.id, P.UpNotice(local.tranCount))], conn.id);
        var isFree := conn.ShutdownFromLocal();
        control := control + [S.UpMsg(conn.id, P.UpNotice(local.tranCount))];
      }
      local.Close(first);
    }

    /** `LocalConn::handleRead` with data. */
    method LocalData(conn: ProxyConn, local: OuterConn, data: seq<P.Item>, m: nat, ghost rest: P.Link)
      requires conn.peer == local && m <= |data|
      modifies conn`outgoing, local
      ensures local.View() == P.Forward(old(local.View()), data, m)
      ensures conn.outgoing == old(conn.outgoing) + (old(local.pipe) + data)[..m]
      ensures local.tranCount == old(local.tranCount) + m && local.input == old(local.input) + data
      ensures P.Enabled(old(At(conn, rest)), P.LocRead(data, m)) ==>
                var l := P.Apply(old(At(conn, rest)), P.LocRead(data, m)); At(conn, l) == l
    {
      var moved := local.HandleRead(data, m);
      conn.outgoing := conn.outgoing + moved;
    }
  }
}
