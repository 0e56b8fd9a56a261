/**
  The connection objects of both programs: `ProxyConn`, and `OuterConn` for what is a
  `PublicConn` on the server and a `LocalConn` on the client.  Each method is tied to the
  function of `ProxyLink` that the proofs about runs reason with.
*/
module ProxyConns {
  import P = ProxyLink

  /** The second half-close is due. */
  predicate Ends(x: P.Side) {
    x.recv == x.total && x.halfClose
  }

  class OuterConn {
    const fd: P.Fd
    var tranCount: int
    var closing: bool
    var pipe: seq<P.Item>
    // What has happened on the socket; nothing is decided on these.
    ghost var first: bool
    ghost var input: seq<P.Item>
    ghost var sent: seq<P.Item>
    ghost var written: seq<P.Item>
    ghost var shuts: nat

    constructor (fd: P.Fd)
      ensures View() == P.NewOuter(fd)
    {
      this.fd := fd;
      tranCount, closing, pipe := 0, false, [];
      first, input, sent, written, shuts := false, [], [], [], 0;
    }

    ghost function View(): P.Outer
      reads this
    {
      P.Outer(fd, tranCount, closing, first, pipe, input, sent, written, shuts)
    }

    /** `handleRead` with data: `data` enters the pipe and `m` items of it go to the proxy connection. */
    method HandleRead(data: seq<P.Item>, m: nat) returns (moved: seq<P.Item>)
      requires m <= |data|
      modifies this
      ensures View() == P.Forward(old(View()), data, m)
      ensures moved == (old(pipe) + data)[..m] && pipe == (old(pipe) + data)[m..]
      ensures tranCount == old(tranCount) + m && input == old(input) + data && sent == old(sent) + moved
    {
      pipe := pipe + data;
      moved := pipe[..m];
      pipe := pipe[m..];
      tranCount := tranCount + m;
      input := input + data;
      sent := sent + moved;
    }

    /** What the proxy connection's second splice writes to this socket. */
    ghost method Wrote(items: seq<P.Item>)
      modifies this`written
      ensures written == old(written) + items
    {
      written := written + items;
    }

    /** `shutdown(fd, SHUT_WR)`. */
    ghost method Shutdown()
      modifies this`shuts
      ensures View() == P.ShutWrite(old(View()))
    {
      shuts := shuts + 1;
    }

    /** EOF has been taken. */
    method Close(ghost first: bool)
      modifies this`closing, this`first
      ensures View() == P.MarkEof(old(View()), first)
    {
      closing := true;
      this.first := first;
    }
  }

  class ProxyConn {
    const id: P.ProxyId
    var isStart: bool
    var halfClose: bool
    var recvCount: int
    var theoreticalTotal: int
    var pipe: seq<P.Item>
    var peer: OuterConn?
    // Sent on this connection and not yet read at the far end.
    var outgoing: seq<P.Item>
    ghost var released: nat

    constructor (id: P.ProxyId)
      ensures this.id == id && View() == P.IdleSide() && outgoing == [] && released == 0
    {
      this.id := id;
      isStart, halfClose, recvCount, theoreticalTotal := false, false, 0, -1;
      pipe, peer, outgoing, released := [], null, [], 0;
    }

    ghost function View(): P.Side
      reads this, peer
    {
      P.Side(isStart, halfClose, recvCount, theoreticalTotal, pipe, if peer == null then P.NoOuter else peer.View())
    }

    method Start(conn: OuterConn)
      modifies this`isStart, this`peer
      ensures View() == P.Start(old(View()), conn.View()) && peer == conn
    {
      isStart := true;
      peer := conn;
    }

    method SendMsg(msg: P.Item)
      modifies this`outgoing
      ensures outgoing == old(outgoing) + [msg]
    {
      outgoing := outgoing + [msg];
    }

    method IncrTheoreticalTotal(n: int)
      modifies this`theoreticalTotal
      ensures View() == P.Announce(old(View()), n)
      ensures theoreticalTotal == if old(theoreticalTotal) == -1 then n else old(theoreticalTotal) + n
    {
      if theoreticalTotal == -1 {
        theoreticalTotal := n;
      } else {
        theoreticalTotal := theoreticalTotal + n;
      }
    }

    /** Both splices in data mode; `m` is what the second one returns. */
    method Splice(items: seq<P.Item>, m: int)
      requires isStart && peer != null && -1 <= m <= |pipe| + |items|
      modifies this`pipe, this`recvCount, peer`written
      ensures View() == P.Absorb(old(View()), items, m)
      ensures var all, k := old(pipe) + items, if m < 0 then 0 else m;
              pipe == all[k..] && recvCount == old(recvCount) + P.Size(all[..k])
                  && peer.written == old(peer.written) + all[..k]
    {
      pipe := pipe + items;
      if m < 0 { return; }
      peer.Wrote(pipe[..m]);
      recvCount := recvCount + P.Size(pipe[..m]);
      pipe := pipe[m..];
    }

    method ResetConn()
      modifies this`isStart, this`halfClose, this`recvCount, this`theoreticalTotal
      ensures View() == P.Reset(old(View()))
    {
      recvCount := 0;
      theoreticalTotal := -1;
      isStart := false;
      halfClose := false;
    }

    method ShutdownFromRemote() returns (isFree: bool)
      modifies this`isStart, this`halfClose, this`recvCount, this`theoreticalTotal, peer
      ensures View() == P.FromRemote(old(View())) && isFree == old(halfClose)
    {
      if peer != null { peer.Shutdown(); }
      isFree := halfClose;
      if halfClose {
        ResetConn();
      } else {
        halfClose := true;
      }
    }

    method ShutdownFromLocal() returns (isFree: bool)
      modifies this`isStart, this`halfClose, this`recvCount, this`theoreticalTotal
      ensures View() == P.FromLocal(old(View())) && isFree == old(halfClose)
    {
      isFree := halfClose;
      if halfClose {
        ResetConn();
      } else {
        halfClose := true;
      }
    }
  }
}
