# CProxy, verified

A model of the reverse proxy CProxy and of the two libraries bundled with it, with proofs.

CProxy exposes a local server through a public one. The server accepts public connections; for each of
them a *proxy connection* between server and client carries the bytes to a local connection on the
client's side. Proxy connections are pooled and used again. Payload travels on the proxy connection, EOF
notices and release requests travel on a separate control connection, so a notice can overtake data; each
end half-closes its outer socket (section 3.6.1 of RFC 9293) when the bytes it has written reach the
announced total, and the second of the two half-closes resets the connection.

Every claim about runs is a claim about every sequence of handler steps, with everything the kernel decides
(how many bytes a `splice` moves, what arrives, which descriptor is accepted) left open. One event handler
is one step, except in `completion_race.dfy`, where each locked counter access is a step.

| file | what it holds |
|---|---|
| `proxy_link.dfy` | one proxy connection as an automaton, and the invariant of every run, crossed or not |
| `proxy_system.dfy` | the whole tunnel: shared control FIFOs, maps, LIFO free list, stack of waiting descriptors |
| `handler_effects.dfy` | what the handlers that move bytes or take an EOF change, in plain fields, and when EOFs have crossed |
| `pool_progress.dfy` | which runs there are, and that a session can always be brought to its end |
| `pool_theorems.dfy`, `public_fds.dfy` | release safety, half-close completeness, release accounting, mode agreement, conservation |
| `pool_endings.dfy` | exactly when sockets are half-closed and connections released, and the states from which that never happens |
| `pool_refinement.dfy` | the pooled tunnel refines one that never reuses a connection |
| `pool_witnesses.dfy` | runs that show where the hypotheses are needed |
| `completion_race.dfy` | the completion check at thread granularity |
| `proxy_conn.dfy`, `server_tunnel.dfy`, `client_tunnel.dfy` | the classes of the two programs, each handler proved to do the step of the automaton |
| `rings.dfy`, `ring_buffer.dfy`, `framing.dfy` | the growing ring buffer and length-prefixed messages |
| `bignum_math.dfy`, `bigint.dfy` | fmt's multi-precision integers |
| `decimal.dfy`, `dragon.dfy`, `dragon_shortest.dfy` | `format_dragon` with and without a digit count |
| `format_parser.dfy` | both paths of fmt's format-string parser |
| `log_queue.dfy`, `thread_pool.dfy` | spdlog's queues and the shutdown of its thread pool |
| `options.dfy` | the optional value the other files share |

## Hypotheses

- *Uncrossed*: in no session are both EOFs taken while the taking end's `half_close_` is still false.
  `ProxyLink.StepInv` and `ProxySystem.RunInv` hold without it; the theorems that use it say so, and
  `PoolWitnesses.CrossedRunIsUnsafe` shows that it is needed.
- What an outer connection forwards in one session stays within 2^31 - 1 bytes; every counter then fits (`PoolTheorems.CountersFit`).
- Connects succeed, proxy ids are unique, proxy connections are not torn down.

## What the code does not do

- With crossed EOFs the server releases its end while the client is still started; the next start request
  is then read as payload and written to the old local socket (`PoolWitnesses.CrossedRunIsUnsafe`). In
  every run a released connection is safe to reuse exactly when its client end has stopped
  (`PoolTheorems.ReleaseSafetyExactly`).
- An EOF notice that the server takes before the connection is in its map is dropped. In every run, with the
  client's EOF taken and everything read, the public socket has been half-closed if and only if no notice was
  dropped and no bytes are left in the server's pipe (`PoolEndings.PublicHalfClosedExactly`); otherwise it never
  will be and the connection is never released, whatever the far ends do (`PoolEndings.StuckForever`). The
  local socket is half-closed if and only if the client's pipe is empty (`PoolEndings.LocalHalfClosedExactly`).
  `PoolWitnesses.OvertakingNoticeIsLost` is such a run.
- Bytes that a short second `splice` leaves in the pipe of a proxy connection are written only when more
  data arrives. In every run, with both EOFs taken and nothing on its way, the session has been released if and
  only if the server's pipe is empty, no notice was dropped, and the client's pipe is empty or the server took
  its EOF first; without crossed EOFs, if and only if both pipes are empty (`PoolEndings.ReleasedExactly`,
  `PoolWitnesses.ShortSpliceStrands`). Bytes stranded at the client keep the connection from being released
  as long as the EOFs do not cross (`PoolEndings.StrandedAtClientRun`).
- Bytes left by a short `splice` in the pipe of an outer connection that then sees EOF are lost while the
  session ends cleanly; what arrives is all that was read if and only if that pipe is empty
  (`PoolTheorems.HalfCloseSafety`, `PoolWitnesses.BytesBeforeEofAreLost`).
- Between the two threads no completion is lost, but it may come twice. `CompletionRace.CompletionsExactly`
  says exactly when, in terms of the order of the counter accesses: a second completion resets the connection
  without the EOF, or leaves `half_close_` set on a connection that has been reset
  (`CompletionRace.CompletionMayComeTwice`). With one handler at a time it comes once and the reset is clean
  (`CompletionRace.SerialCompletesOnce`), which is what the handler-level model takes for granted.
- `compare` on big integers is wrong exactly for equal values stored with different exponents
  (`Bigints.Compare`). `divmod_assign` then leaves a remainder equal to the divisor; the digit loops
  never get there (`Dragon.NeverHitsUp`, `Dragon.NeverHitsDown`). The comparison with `lower` in the shortest
  mode does get there, and a lower end that belongs to the rounding interval is not searched.
  `DragonShortest.FormatShortest` says exactly when a shorter decimal is passed over for it: if and only if the
  lower end is a decimal of a length at which nothing lies strictly inside. `DragonShortest.ShorterIsPassedOver`
  gives such a value. A nearer decimal of the same length is passed over only where the lower neighbour is closer.
- In the shortest mode a single digit 9 may be rounded up to the character after '9', without a carry.
  `DragonShortest.FormatShortest` says exactly for which values; `DragonShortest.TenIsWritten` gives one.
- An index in a format string that does not fit an `int` is not refused by the parser but taken for the largest
  one (`FormatParser.IndexThatDoesNotFit`).
- With several workers the thread pool does not process log messages in the order posted
  (`ThreadPool.ProcessedOutOfOrder`), and a worker may take its terminate message while another has yet to
  process its own (`ThreadPool.TerminateBeforeProcessing`); everything has been processed at that moment if and
  only if no worker holds a message (`ThreadPool.TerminateOnlyWhenDrained`). With one worker the order is kept
  (`ThreadPool.SingleWorkerInOrder`), and after the shutdown every message has been processed exactly once
  (`ThreadPool.ShutdownComplete`).
- A log queue of size 0 blocks the destructor of the thread pool for ever (`ThreadPool.EmptyQueueSticks`).

## Model

| member | source | states |
|---|---|---|
| `ProxyLink.StepInv` | lib/proxy_conn.cpp:10-177 | every handler on either end, in every reachable state of one connection, crossed or not, keeps the session invariant: bytes forwarded are bytes written, piped or in flight in order; totals are unset or right; SHUT_WR happened exactly when the total was reached; each connection is in one place |
| `ProxyLink.FreshInv` | client/Client.cpp:90-121 | a connection just created and announced satisfies the invariant |
| `ProxyLink.ClaimInv` | server/Tunnel.cpp:49-67 | claiming an announced connection keeps it |
| `ProxyLink.ReuseInv` | server/Tunnel.cpp:18-28 | popping a connection from the free list and sending the start request keeps it |
| `ProxyLink.ClientStartInv` | client/Tunnel.cpp:64-95 | answering a start request and starting keeps it |
| `ProxyLink.BindInv` | server/Tunnel.cpp:103-113 | binding the public connection on the response keeps it |
| `ProxyLink.FlowAbsorb` | lib/proxy_conn.cpp:12-28 | reading in data mode keeps the stream in order and the count exact wherever the second splice stops, and never counts past what was sent |
| `ProxyLink.ServerCompletes` | server/Tunnel.cpp:124-153 | at completion everything announced has been written and SHUT_WR executed; the server end stays in the session half-closed, or is reset and released once, with both ends clean unless the EOFs crossed and the client lags behind |
| `ProxyLink.ClientCompletes` | client/Tunnel.cpp:97-111 | at completion everything announced has been written and SHUT_WR executed; the client end stays half-closed, or is reset and its release request follows what it has told before |
| `ProxyLink.LagDataInv` | lib/proxy_conn.cpp:10-34 | a client end left behind by crossed EOFs stays in the characterised set of states, even when it reads a start request as payload |
| `ProxySystem.ViewPut` | server/Tunnel.h:72-75 | a handler on one connection acts on that connection's view as the automaton does and on no other, through the shared FIFOs, maps and lists |
| `ProxySystem.RunInv` | server/Tunnel.cpp:13-153 | at the end of every run of the tunnel all connections satisfy the session invariant and the waiting descriptors balance requested and unclaimed connections |
| `PoolTheorems.ReleaseSafety` | server/Tunnel.cpp:69-79 | in every uncrossed run a connection in the free list is there once, both ends are idle and reset, and nothing is in flight in data or control direction |
| `PoolTheorems.StartRequestIsTaken` | client/Tunnel.cpp:69-78 | in every uncrossed run a start request in flight is alone and meets an idle client end, so the "cannot start again" guard never fires |
| `PoolTheorems.ReleaseSafetyExactly` | server/Tunnel.cpp:124-153 | in every run a released connection is clean if and only if its client end has stopped, which fails only after crossed EOFs |
| `PoolTheorems.HalfCloseSafety` | lib/proxy_conn.cpp:140-154 | in every run SHUT_WR is executed at most once in the present session and only when the bytes written are exactly, in order, those the far end counted and closed on; these are all it had read if and only if its own pipe is empty |
| `PoolTheorems.HalfCloseInPastSessions` | lib/proxy_conn.cpp:140-177 | the same for every finished session of a connection that has been used again |
| `PoolTheorems.NothingReordered` | server/public_conn.cpp:8-33 | in every run, at all times, what an outer socket got is a prefix of what the far end forwarded, itself a prefix of what it read |
| `PoolTheorems.ReleasedAtMostOnce` | server/Tunnel.cpp:137-153 | in every run a session enters the free list at most once and no connection is in it twice |
| `PoolTheorems.LateFreeRequest` | server/Control.cpp:83-94 | in every run a release request acts if and only if a release is due; otherwise the whole system stays as it was but for the consumed message |
| `PoolTheorems.FreeRequestEffect` | server/Tunnel.cpp:137-153 | the same for one connection |
| `PoolTheorems.NotBothRemoteFirst` | client/Tunnel.cpp:102-110 | in no run do both ends finish remote-first |
| `PoolTheorems.ModeAgreement` | lib/proxy_conn.cpp:10-84 | in every uncrossed run an end in data mode has only payload coming, and an idle end reads next a frame meant for it that it can handle |
| `PoolTheorems.ClaimFindsPublicFd` | server/Server.cpp:133-157 | in every run a connection about to be claimed finds a waiting public descriptor: the stack is never popped empty |
| `PoolTheorems.CountersFit` | lib/tran_conn.h:89-92 | in every uncrossed run `recv_count_`, the announced total and `tran_count_` stay within -1 and 2^31 - 1 at both ends |
| `PoolEndings.PublicHalfClosedExactly` | server/Control.cpp:70-78 | in every run, with the client's EOF taken, all it sent read and no notice on its way, the public socket has been half-closed if and only if the server's pipe is empty and no notice was taken while the connection was not in the map (`PoolEndings.MissedMeans` says what is recorded of that) |
| `PoolEndings.LocalHalfClosedExactly` | client/Client.cpp:124-143 | the mirror image in every run: the local socket has been half-closed if and only if the client's pipe is empty |
| `PoolEndings.ReleasedExactly` | server/Tunnel.cpp:131-153 | in every run, with both EOFs taken and nothing on its way in any direction, the session is in the free list, once, if and only if the server's pipe is empty, no notice was dropped, and the client's pipe is empty or the server took its EOF first; in an uncrossed history if and only if both pipes are empty |
| `PoolEndings.MissedIsNeverTold` | server/Control.cpp:70-75 | in every run a dropped notice leaves a server end in the map that will never be told |
| `PoolEndings.NeverToldForever` | server/Control.cpp:58-79 | no step whatever, the public EOF included, leads out of that state |
| `PoolEndings.StrandedAtServerForever` | lib/proxy_conn.cpp:12-32 | bytes in the server's pipe with nothing more to come stay there in every step |
| `PoolEndings.StrandedAtClientForever` | lib/proxy_conn.cpp:12-32 | bytes in the client's pipe stay there in every step after which the EOFs of the session have not crossed |
| `PoolEndings.StuckForever` | lib/proxy_conn.cpp:10-34 | a session whose notice was dropped or whose bytes are stranded at the server is never half-closed towards the public side and never released, in every continuation of the run |
| `PoolEndings.StrandedAtClientRun` | lib/proxy_conn.cpp:10-34 | one whose bytes are stranded at the client is never released in any continuation in which its EOFs do not cross |
| `PublicFds.PublicConnectionsConserved` | server/Tunnel.cpp:13-67 | in every run, crossed or not, the accepted public descriptors are exactly those in the undealt stack, current on one connection or of a finished session, each in one place |
| `PublicFds.CurrentMeans` | server/Tunnel.cpp:93-113 | a descriptor current on a connection is in the start request, in the response, in a start request read as payload (after crossed EOFs only) or bound, and in exactly one of these |
| `PublicFds.LinkFdKept` | server/Tunnel.cpp:60-67 | only claiming and reusing give a connection a descriptor; every other handler passes the one it has on |
| `PoolRefinement.PoolingIsInvisible` | server/Tunnel.cpp:13-37 | every uncrossed run maps to a run of a system that never reuses a connection and ends with every session, finished or current, in the same state |
| `PoolRefinement.PairSeesFreshConnection` | lib/proxy_conn.cpp:140-177 | each public/local pair sees the bytes and half-closes it would see on a fresh connection |
| `PoolRefinement.PastSessionAlone` | server/Tunnel.cpp:18-28 | each finished session ends, on a connection of its own, in the state in which it was set aside |
| `PoolRefinement.UnpooledNeverReuses` | server/Tunnel.cpp:30-35 | the system compared with never asks a connection to start again |
| `PoolRefinement.RestartIsFresh` | client/Tunnel.cpp:64-95 | a restarted connection is indistinguishable from a new one |
| `PoolRefinement.AloneStep` | lib/proxy_conn.cpp:10-34 | a handler on a reused connection does what it does on a connection of the session's own |
| `PoolWitnesses.CrossedRunIsUnsafe` | server/Tunnel.cpp:131-134 | a run with crossed EOFs releases a connection whose client is started, and its next start request ends up in the old local socket |
| `PoolWitnesses.OvertakingNoticeIsLost` | server/Control.cpp:70-75 | an uncrossed run in which the notice arrives before the claim and is dropped |
| `PoolWitnesses.ShortSpliceStrands` | lib/proxy_conn.cpp:22-32 | a run in which a byte stays in the server's pipe, all else is drained and the session is in one of the states that last for ever |
| `PoolWitnesses.BytesBeforeEofAreLost` | client/local_conn.cpp:19-30 | a run that reads two bytes, writes one and half-closes |
| `PoolWitnesses.ConnectionIsReused` | server/Tunnel.cpp:13-37 | an uncrossed run in which a session ends, its connection is released and is asked to start again |
| `HandlerEffects.PubReadMoves` | server/public_conn.cpp:10-29 | of the bytes read from a public connection all enter its pipe and exactly as many as the second splice moved, oldest first, are put on the proxy connection and counted; nothing else changes |
| `HandlerEffects.LocReadMoves` | client/local_conn.cpp:11-30 | the same on the local side |
| `HandlerEffects.SrvDataMoves` | lib/proxy_conn.cpp:12-32 | at the server end the bytes the second splice moves are written to the public socket and counted, the rest stay in the pipe; SHUT_WR and the change of state happen exactly when the count reaches the total |
| `HandlerEffects.CliDataMoves` | lib/proxy_conn.cpp:12-32 | the same at the client end, with the release request exactly at the second half-close |
| `HandlerEffects.FailedSplice` | lib/proxy_conn.cpp:22-26 | a failing second splice leaves the bytes in the pipe and changes nothing else |
| `HandlerEffects.PubEofTells` | server/Tunnel.cpp:69-79 | at the public EOF the notice carries the bytes forwarded, and the EOF counts as taken first exactly if the end was not half-closed |
| `HandlerEffects.LocEofTells` | client/Tunnel.cpp:53-62 | the same for the local EOF |
| `HandlerEffects.CrossedByCrossing` | lib/proxy_conn.cpp:157-166 | a handler other than a reuse leaves the connection marked as crossed if and only if it was so before or each of the two EOFs of the session has been taken before the own end was half-closed |
| `HandlerEffects.CrossedExactly` | server/Tunnel.cpp:69-79 | in every run a connection is marked as crossed if and only if both EOFs of its present or of some past session were taken that way |
| `PoolProgress.AcceptAnyTime` | server/Tunnel.cpp:13-37 | every run can go on with the accept of a public connection |
| `PoolProgress.DownIsTaken` | client/Client.cpp:90-143 | every run can go on with the client taking the first control message |
| `PoolProgress.UpIsTaken` | server/Control.cpp:58-94 | every run can go on with the server taking the first control message |
| `PoolProgress.PublicAnyTime` | server/public_conn.cpp:10-29 | while its EOF has not been taken, a public connection may at any time send up to 2048 bytes, of which the second splice may move any number, or close |
| `PoolProgress.LocalAnyTime` | client/local_conn.cpp:11-30 | so may a local connection |
| `PoolProgress.DataAnyTime` | lib/proxy_conn.cpp:12-32 | in an uncrossed run a started end may read any number of the bytes that have come, up to 2048, and write any number of those on, or fail to |
| `PoolProgress.FrameIsTaken` | lib/proxy_conn.cpp:35-84 | in an uncrossed run an idle end to which something has come can take it as a frame |
| `PoolProgress.SessionCanEnd` | lib/proxy_conn.cpp:140-177 | from every state of an uncrossed session in which no notice was dropped and nothing is left in a pipe, handlers lead to the release, whatever is still on its way |
| `PoolProgress.FreshCanEnd` | server/Tunnel.cpp:49-67 | in particular from a connection just created |
| `CompletionRace.NoLostCompletion` | lib/tran_conn.h:27-71 | in every interleaving of single counter accesses of the two threads, with the EOF of the outer connection anywhere, once all bytes are counted and the total is set at least one comparison has seen equality |
| `CompletionRace.CompletionsExactly` | lib/proxy_conn.cpp:28-32 | in every finished interleaving of positive counts there are one or two completions, two if and only if each thread reads after the other's last write and all four reads come before the counter they read is cleared; reset and `half_close_` of the outcome follow from that and the EOF |
| `CompletionRace.SerialCompletesOnce` | client/Tunnel.cpp:97-111 | if no two handlers overlap there is exactly one completion and the reset, if the EOF has been taken, is clean |
| `CompletionRace.CompletionMayComeTwice` | client/Client.cpp:141-142 | an interleaving with two completions: reset without the EOF, and, with the EOF taken first, reset with `half_close_` set |
| `CompletionRace.NoticeAnyTime` | client/Client.cpp:124-143 | every interleaving without the notice can be continued by it: it may come before, between and after the bytes |
| `CompletionRace.EofBetweenHandlers` | client/local_conn.cpp:19-23 | the EOF may be taken whenever the data thread is between handlers and nobody resets |
| `CompletionRace.EitherReadFirst` | client/Tunnel.cpp:99-101 | in each comparison either counter may be read first, whatever the other thread is doing |
| `CompletionRace.ComparisonEnds` | lib/proxy_conn.cpp:140-177 | a comparison with both counters read goes on at once, unless it saw equality and a reset holds the lock |
| `CompletionRace.SomeAccessIsNext` | lib/tran_conn.h:27-71 | no interleaving is stuck before both threads have finished |
| `CompletionRace.EveryRunCanFinish` | lib/tran_conn.h:27-71 | every interleaving can be continued to a finished one |
| `CompletionRace.NoticeFirstCompletesOnce` | client/Client.cpp:141-142 | the serial run in which the notice comes before its bytes is completed exactly once |
| `ProxyConns.OuterConn.HandleRead` | server/public_conn.cpp:23-29 | forwards through the pipe and counts as the automaton's `Forward`, and returns what it moved |
| `ProxyConns.ProxyConn.constructor` | lib/proxy_conn.h:41-51 | a new end is idle with the total unset |
| `ProxyConns.ProxyConn.Start` | lib/proxy_conn.h:63-70 | pairs the end with a connection and sets nothing else |
| `ProxyConns.ProxyConn.IncrTheoreticalTotal` | lib/tran_conn.h:59-66 | the first announcement sets the total, later ones add |
| `ProxyConns.ProxyConn.Splice` | lib/proxy_conn.cpp:12-28 | both splices as the automaton's `Absorb`, for every result of the second |
| `ProxyConns.ProxyConn.ResetConn` | lib/proxy_conn.cpp:169-177 | counters, total and flags back to those of a new end, pipe kept |
| `ProxyConns.ProxyConn.ShutdownFromRemote` | lib/proxy_conn.cpp:140-154 | SHUT_WR, then half-closed or reset; free exactly when it was half-closed |
| `ProxyConns.ProxyConn.ShutdownFromLocal` | lib/proxy_conn.cpp:157-166 | the same without SHUT_WR |
| `ServerTunnel.Tunnel.PopFreeProxyConn` | server/Tunnel.cpp:81-91 | takes the connection released last, or none |
| `ServerTunnel.Tunnel.GetAndPopUndealPublicFd` | server/Tunnel.cpp:39-47 | takes the descriptor pushed last |
| `ServerTunnel.Tunnel.NewPublicConnHandler` | server/Tunnel.cpp:13-37 | for any number of accepted descriptors: free connections are asked to start from the back, one per descriptor, and enter the wait map; the remaining descriptors wait in order, one request to the client each |
| `ServerTunnel.Tunnel.StartAgain` | server/Tunnel.cpp:22-28 | a turn with a free connection does the automaton's `Reuse` step and keeps every connection in one place |
| `ServerTunnel.Tunnel.RequestProxy` | server/Tunnel.cpp:30-35 | a turn without one queues the descriptor and a request |
| `ServerTunnel.Tunnel.ClaimProxyConn` | server/Tunnel.cpp:49-58 | does the `Claim` step with the top of the stack |
| `ServerTunnel.Tunnel.BindPublicFdToProxyConn` | server/Tunnel.cpp:60-67 | starts the end with a new public connection and enters it in the map |
| `ServerTunnel.Tunnel.HandleStartProxyConnRsp` | server/Tunnel.cpp:103-113 | does the `Bind` step; an unexpected response changes nothing |
| `ServerTunnel.Tunnel.FreeProxyConn` | server/Tunnel.cpp:137-153 | moves a known, stopped connection from the map to the end of the free list and leaves any other alone |
| `ServerTunnel.Tunnel.ShutdownPublicConn` | server/Tunnel.cpp:124-135 | does what the automaton does at a completion check; map and free list change for this connection only, and exactly when the second half-close is due |
| `ServerTunnel.Tunnel.HandleData` | lib/proxy_conn.cpp:10-34 | does the `SrvData` step, with the exact new map and free list |
| `ServerTunnel.Tunnel.HandleShutdownPublicConn` | server/Control.cpp:58-79 | does the `SrvNotice` step, with the exact new map and free list; a notice for a connection not in the map changes nothing |
| `ServerTunnel.Tunnel.ShutdownFromPublic` | server/Tunnel.cpp:69-79 | half-closes or resets the end and queues the notice, for a connection in the map only, and releases nothing |
| `ServerTunnel.Tunnel.PublicEof` | server/public_conn.cpp:17-22 | does the `PubEof` step; without an entry in the map only the public connection is marked |
| `ServerTunnel.Tunnel.PublicData` | server/public_conn.cpp:10-29 | does the `PubRead` step; the connection's pipe, counters and the bytes forwarded are stated in full |
| `ClientTunnel.Tunnel.HandleProxyNotify` | client/Client.cpp:90-121 | creates the connection the automaton starts from, opening message first |
| `ClientTunnel.Tunnel.HandleStartProxyConnReq` | client/Tunnel.cpp:64-95 | does the `ClientStart` step, response before any payload; a started connection is left alone |
| `ClientTunnel.Tunnel.ShutdownLocalConn` | client/Tunnel.cpp:97-111 | does what the automaton does at a completion check; the control messages gain exactly the release request, when it is due |
| `ClientTunnel.Tunnel.HandleData` | lib/proxy_conn.cpp:10-34 | does the `CliData` step, with the exact new control messages |
| `ClientTunnel.Tunnel.HandleShutdownLocalConn` | client/Client.cpp:124-143 | does the `CliNotice` step, with the exact new control messages |
| `ClientTunnel.Tunnel.LocalEof` | client/local_conn.cpp:19-23 | does the `LocEof` step and appends exactly the notice to the control messages; without an entry in the map only the local connection is marked |
| `ClientTunnel.Tunnel.LocalData` | client/local_conn.cpp:10-30 | does the `LocRead` step; the connection's pipe, counters and the bytes forwarded are stated in full |
| `ByteQueue.HistoryConserved` | lib/Buffer.cpp:79-135 | for every history of writes and removals, what was accepted is what was removed followed by what is unread, in order; rejected writes change nothing and the maximum stays |
| `ByteQueue.Grown` | lib/Buffer.cpp:18-41 | the new capacity has room for the insert and is within the maximum |
| `ByteQueue.Quarters` | lib/Buffer.cpp:32-39 | the growth loop ends with room, within the maximum |
| `ByteQueue.GrowthRule` | lib/Buffer.cpp:18-41 | growing gives exactly what is needed if that is more than twice the capacity, else twice the capacity within the maximum below 1024, else less than a quarter more than is needed |
| `ByteQueue.GrowthByQuarters` | lib/Buffer.cpp:32-39 | from 1024 on the capacity grows a quarter at a time until there is room or the maximum is reached |
| `ByteQueue.WriteTakesAllOrNone` | lib/Buffer.cpp:97-113 | the bytes are all appended if and only if they fit as it is or the maximum leaves room for as many more than the capacity; else nothing changes |
| `ByteQueue.LongestFrameFits` | lib/ctl_conn.h:14-14 | the empty buffer of a control connection takes the longest frame and grows to 3080 bytes for it |
| `RingBuffer.Buffer.constructor` | lib/Buffer.h:7-11 | an empty queue with one spare slot and a maximum not below the capacity |
| `RingBuffer.Buffer.UnreadSize` | lib/Buffer.cpp:48-53 | the number of slots from the read index to the write index around the ring, at most the capacity |
| `RingBuffer.Buffer.Resize` | lib/Buffer.cpp:55-77 | changes the capacity and not the unread bytes, and does nothing where they would not fit |
| `RingBuffer.Buffer.EnsureInsert` | lib/Buffer.cpp:11-44 | succeeds exactly when there is room or the maximum allows growth, and then there is room; contents unchanged |
| `RingBuffer.Buffer.WriteToBuffer` | lib/Buffer.cpp:97-113 | appends all the bytes or none, like the plain queue |
| `RingBuffer.Buffer.Read` | lib/Buffer.cpp:79-95 | removes and returns the first bytes, or refuses and changes nothing |
| `RingBuffer.Buffer.WriteToSock` | lib/Buffer.cpp:115-135 | for every sequence of short and interrupted writes the socket gets a prefix of the contents, of the length those writes allow, and the rest stays |
| `RingBuffer.TwoFullWritesDrain` | lib/Buffer.cpp:117-133 | two writes that take all they are offered empty the buffer wherever it wraps |
| `RingBuffer.InterruptsDoNotMatter` | lib/Buffer.cpp:122-130 | interrupted writes change nothing about what is sent |
| `RingBuffer.FirstWrite` | lib/Buffer.cpp:118-132 | the first write is offered what lies before the end of the array, and one that takes nothing ends the loop |
| `Framing.MakeCtlMsg` | lib/Msg.cpp:4-14 | the body size read back from a message is that of the body, and the wire form is length, type, body |
| `Framing.ToNet` | lib/ctl_conn.cpp:129-130 | four bytes from which the receiver reads the same length |
| `Framing.SendMsg` | lib/ctl_conn.cpp:127-139 | queues the whole frame or nothing |
| `Framing.ReadN` | lib/Util.cpp:70-92 | however short the reads and however many retries, the first bytes of the stream up to the size asked for, and whether EOF came first |
| `Framing.HandleRead` | lib/ctl_conn.cpp:13-43 | takes exactly the next frame off the stream, or reports EOF or a bad length and how far it has read |
| `Framing.ReadAll` | lib/ctl_conn.cpp:13-43 | repeated calls give the decoded messages of the stream, reading on after a bad length |
| `Framing.DecodeFrames` | lib/ctl_conn.cpp:13-43 | of any prefix of the frame stream exactly the messages with complete frames are decoded |
| `Framing.BadLengthSkipped` | lib/ctl_conn.cpp:28-43 | four bytes that are no length from 4 to 2056 are skipped, and decoding goes on with what follows |
| `Framing.GoodLengthTaken` | lib/ctl_conn.cpp:35-43 | any other length ends the frame there if that much comes; if not, nothing more is decoded |
| `Framing.NetworkOrder` | lib/ctl_conn.cpp:129-130 | the most significant byte comes first |
| `Framing.FramingRoundTrip` | lib/ctl_conn.cpp:127-139 | any mix of sends and partial drains decodes to the accepted messages whose frames have left, all of them once the buffer is empty; a message without room is dropped whole |
| `Bigints.Bigint.AssignInt` | include/spdlog/fmt/bundled/format-inl.h:463-471 | the value is exactly n |
| `Bigints.Bigint.Multiply32` | include/spdlog/fmt/bundled/format-inl.h:417-426 | multiplies the value exactly |
| `Bigints.Bigint.Multiply64` | include/spdlog/fmt/bundled/format-inl.h:428-443 | multiplies the value exactly, adding at most two bigits |
| `Bigints.CarrySum` | include/spdlog/fmt/bundled/format-inl.h:435-436 | the carry of the 64-bit multiplication never exceeds 2^64 - 1 |
| `Bigints.ProductPlus` | include/spdlog/fmt/bundled/format-inl.h:434-434 | neither does the product with the low carry |
| `Bigints.Bigint.ShiftLeft` | include/spdlog/fmt/bundled/format-inl.h:477-490 | multiplies the value by 2^shift |
| `Bigints.Bigint.RemoveLeadingZeros` | include/spdlog/fmt/bundled/format-inl.h:399-403 | keeps the value and leaves a nonzero top or one bigit |
| `Bigints.Bigint.SubtractBigits` | include/spdlog/fmt/bundled/format-inl.h:393-397 | the wrapped 64-bit difference is the bigit and the borrow of the true difference |
| `Bigints.Bigint.SubtractAligned` | include/spdlog/fmt/bundled/format-inl.h:406-415 | subtracts exactly while the number has at most one bigit more |
| `Bigints.Bigint.Align` | include/spdlog/fmt/bundled/format-inl.h:589-598 | keeps the value and brings the exponent down to the other's |
| `Bigints.Compare` | include/spdlog/fmt/bundled/format-inl.h:498-512 | the sign of the difference if and only if the values differ or the exponents agree; on the tie with different exponents the one with the smaller exponent is taken for the larger |
| `Bigints.AddCompare` | include/spdlog/fmt/bundled/format-inl.h:515-536 | the sign of a + b - c for any exponents, although it stops early |
| `Bigints.Bigint.DivmodAssign` | include/spdlog/fmt/bundled/format-inl.h:602-613 | terminates with old = q * divisor + remainder; the remainder is below the divisor if and only if dividend and divisor are not equal with the dividend's exponent larger |
| `Bigints.Bigint.Square` | include/spdlog/fmt/bundled/format-inl.h:558-585 | exactly n * n |
| `Bigints.Bigint.StoreColumn` | include/spdlog/fmt/bundled/format-inl.h:566-573 | one column is stored and carried exactly, the accumulator below 2^128 for every size an `int` can hold |
| `Bigints.Bigint.AssignPow10` | include/spdlog/fmt/bundled/format-inl.h:539-556 | exactly 10^exp |
| `Dragon.SetUp` | include/spdlog/fmt/bundled/format-inl.h:2228-2272 | numerator / denominator is f * 2^e / 10^exp10 and lower, upper are the half-distances to the neighbours, in all three cases |
| `Dragon.RatioOfPowers` | include/spdlog/fmt/bundled/format-inl.h:2228-2272 | the ratio in these statements is 1 for exponents 0, doubles with e and is divided by ten with exp10 |
| `Dragon.NeverHitsUp` | include/spdlog/fmt/bundled/format-inl.h:2239-2250 | with a nonnegative binary exponent above the decimal one no multiple by powers of ten ever equals the denominator, so the flaw of `compare` is not met |
| `Dragon.NeverHitsDown` | include/spdlog/fmt/bundled/format-inl.h:2251-2261 | the same for a negative decimal exponent |
| `Dragon.TakeDigit` | include/spdlog/fmt/bundled/format-inl.h:2313-2317 | a digit from 0 to 9 and a remainder below the denominator |
| `Dragon.GenerateDigits` | include/spdlog/fmt/bundled/format-inl.h:2312-2317 | value * 10^(n-1) is the digits' number times the denominator plus the remainder |
| `Dragon.PropagateCarry` | include/spdlog/fmt/bundled/format-inl.h:2321-2327 | the carry chain keeps the number and leaves proper digits but possibly the first |
| `Dragon.RoundUp` | include/spdlog/fmt/bundled/format-inl.h:2319-2336 | adds one to the number; the exponent is bumped exactly when all digits were nine |
| `Dragon.FixedDigits` | include/spdlog/fmt/bundled/format-inl.h:2311-2336 | the digits are the value rounded half to even, bump included |
| `Dragon.FormatFixed` | include/spdlog/fmt/bundled/format-inl.h:2225-2337 | for every value below 10^(exp10 + 1) and every digit count, the digits times 10^exp are f * 2^e rounded half to even (section 4.3.1 of IEEE 754-2008) |
| `Dragon.LastResort` | include/spdlog/fmt/bundled/format-inl.h:2305-2310 | with no digits asked for, the value rounded to one unit above the leading digit |
| `Decimal.RoundIsNearest` | include/spdlog/fmt/bundled/format-inl.h:2318-2319 | the rounding used in these statements is the nearest integer, the even one on a tie |
| `Decimal.RoundsTo` | include/spdlog/fmt/bundled/format-inl.h:2318-2319 | a value rounds to n if and only if it lies between n - 1/2 and n + 1/2, the ends included exactly for an even n |
| `DragonShortest.ShortestDigits` | include/spdlog/fmt/bundled/format-inl.h:2274-2302 | the digits lie in the interval, none nearer has as many digits and none shorter lies in it; they are proper digits if and only if the first is not a nine that is rounded up, and then the result is that one "ten" |
| `DragonShortest.FormatShortest` | include/spdlog/fmt/bundled/format-inl.h:2225-2302 | the same in terms of f * 2^e, with the exact interval searched; in the rounding interval itself the result is the shortest if and only if it is not the case that f is even, the lower end is not searched and that end is a decimal of a length at which nothing lies strictly inside; it is the nearest of its length unless the lower end is and is not searched, which needs the closer lower neighbour; proper digits under the exact condition above; the decimal reads back as f |
| `DragonShortest.IntervalIsHalfWay` | include/spdlog/fmt/bundled/format-inl.h:2234-2262 | the rounding interval ends half-way to the neighbours: half an ulp above, half below, or a quarter below where the lower neighbour is closer |
| `DragonShortest.FractionIsHalfWay` | include/spdlog/fmt/bundled/format-inl.h:2234-2272 | so does the interval the set-up computes |
| `DragonShortest.InsideReadsBack` | include/spdlog/fmt/bundled/format-inl.h:2263-2272 | a decimal lies in the rounding interval if and only if reading it, rounding to the nearest significand with ties to even, gives f back |
| `DragonShortest.Finish` | include/spdlog/fmt/bundled/format-inl.h:2285-2293 | the last digit is kept exactly when the low end is in reach and the high end is not, or the remainder is below half, or half with an even digit |
| `DragonShortest.ShorterIsPassedOver` | include/spdlog/fmt/bundled/format-inl.h:2281-2281 | an even f for which eight digits lie on the lower end and none of eight digits in the interval searched |
| `DragonShortest.TenIsWritten` | include/spdlog/fmt/bundled/format-inl.h:2285-2293 | an input whose only digit is rounded up past nine |
| `FormatParser.ParseFormatString` | include/spdlog/fmt/bundled/core.h:2611-2662 | for every string and handler the tokens and the error are those of one specification, whichever path is taken |
| `FormatParser.ParseShort` | include/spdlog/fmt/bundled/core.h:2620-2637 | the one-pass loop meets it, on strings of any length |
| `FormatParser.ParseLong` | include/spdlog/fmt/bundled/core.h:2638-2661 | so does the two-pass search, on strings of any length |
| `FormatParser.WriteIsParse` | include/spdlog/fmt/bundled/core.h:2638-2653 | text up to an opening brace or the end, errors included, is parsed as the writer writes it |
| `FormatParser.WriteText` | include/spdlog/fmt/bundled/core.h:2639-2651 | the writer's jumps from brace to brace write what a character-wise pass writes |
| `FormatParser.ParseReplacementField` | include/spdlog/fmt/bundled/core.h:2571-2609 | the field or the error of the specification |
| `FormatParser.ParseArgument` | include/spdlog/fmt/bundled/core.h:2344-2380 | the argument reference of the specification |
| `FormatParser.ParseNonnegativeInt` | include/spdlog/fmt/bundled/core.h:2276-2296 | in wrapping 32-bit arithmetic the exact number if it has at most ten digits and fits an `int`, else the error value |
| `FormatParser.Find` | include/spdlog/fmt/bundled/core.h:2258-2263 | the first occurrence |
| `FormatParser.FormatRoundTrip` | include/spdlog/fmt/bundled/core.h:2611-2662 | any text and fields, written with braces doubled, are parsed back to exactly these tokens without error |
| `FormatParser.RefusedArgument` | include/spdlog/fmt/bundled/core.h:2574-2596 | after any written tokens, an argument that the handler refuses ends the parse with the handler's error and exactly those tokens told, whatever follows the argument |
| `FormatParser.RefusedField` | include/spdlog/fmt/bundled/core.h:2590-2599 | so does a field without specifiers that it refuses |
| `FormatParser.RefusedSpecs` | include/spdlog/fmt/bundled/core.h:2600-2601 | so do specifiers that it refuses |
| `FormatParser.UnknownSpecs` | include/spdlog/fmt/bundled/core.h:2602-2603 | specifiers after which the handler does not stop at a closing brace end it with that error |
| `FormatParser.MissingBraceError` | include/spdlog/fmt/bundled/core.h:2604-2606 | an accepted name followed by neither a closing brace nor a colon, or by nothing, ends it with a missing brace |
| `FormatParser.MalformedIndex` | include/spdlog/fmt/bundled/core.h:2348-2360 | an index followed by anything else, a digit after a leading zero included, is malformed |
| `FormatParser.MalformedArgument` | include/spdlog/fmt/bundled/core.h:2361-2364 | so is whatever begins no argument, and an opening brace at the end |
| `FormatParser.IndexThatDoesNotFit` | include/spdlog/fmt/bundled/core.h:2276-2296 | an index above 2^31 - 1, of any length, is taken for 2^31 - 1: the handler is asked for that argument, and its refusal of it or of the field is the error |
| `FormatParser.UnmatchedBraceError` | include/spdlog/fmt/bundled/core.h:2629-2637 | a single closing brace ends the parse; the text before it that follows the last field or doubled brace is not told |
| `FormatParser.NameCharacters` | include/spdlog/fmt/bundled/core.h:2339-2341 | the ASCII codes a name may begin with and go on with |
| `LogQueue.CircularQ.Size` | include/spdlog/details/circular_q.h:77-87 | the number of slots from head to tail around the ring |
| `LogQueue.CircularQ.Full` | include/spdlog/details/circular_q.h:109-117 | full exactly when one slot is left |
| `LogQueue.CircularQ.At` | include/spdlog/details/circular_q.h:91-95 | the i-th item in order |
| `LogQueue.CircularQ.PushBack` | include/spdlog/details/circular_q.h:49-62 | appends; a full queue loses its oldest item and counts it; a disabled one does nothing |
| `LogQueue.CircularQ.PopFront` | include/spdlog/details/circular_q.h:99-102 | removes the oldest item and nothing else |
| `LogQueue.BlockingQueue.Enqueue` | include/spdlog/details/mpmc_blocking_q.h:32-40 | after its wait nothing is overrun |
| `LogQueue.BlockingQueue.EnqueueNowait` | include/spdlog/details/mpmc_blocking_q.h:43-50 | keeps the newest items up to the capacity and counts what is lost |
| `LogQueue.BlockingQueue.DequeueFor` | include/spdlog/details/mpmc_blocking_q.h:54-67 | the oldest item, or none exactly when the queue is empty |
| `ThreadPool.TakenInOrder` | include/spdlog/details/thread_pool-inl.h:83-98 | in every run jobs are taken from the queue once each, in the order posted, and nothing is overrun |
| `ThreadPool.ProcessedOnce` | include/spdlog/details/thread_pool-inl.h:103-121 | in every run the jobs taken are those processed and those in the hands of workers, each once |
| `ThreadPool.SingleWorkerInOrder` | include/spdlog/details/thread_pool-inl.h:95-98 | with one worker jobs are processed in the order posted |
| `ThreadPool.ProcessedOutOfOrder` | include/spdlog/details/thread_pool-inl.h:103-121 | a run of two workers that process two jobs in the opposite order |
| `ThreadPool.TerminateBeforeProcessing` | include/spdlog/details/thread_pool-inl.h:103-125 | a run in which one worker has gone while the other has yet to process a posted job |
| `ThreadPool.TerminateOnlyWhenDrained` | include/spdlog/details/thread_pool-inl.h:103-133 | no worker takes a terminate before every posted job has been taken; every one has been processed as well if and only if no worker holds one |
| `ThreadPool.ShutdownNeverSticks` | include/spdlog/details/thread_pool-inl.h:45-60 | with queue size at least 1, while workers remain a post, a take or the processing of a job is possible, and each of these leaves less to do |
| `ThreadPool.ShutdownComplete` | include/spdlog/details/thread_pool-inl.h:54-57 | when the last worker has gone nothing is queued, held or left to post and every posted job has been processed exactly once |
| `ThreadPool.PostAnyTime` | include/spdlog/details/thread_pool-inl.h:83-90 | a message is posted whenever the queue has room and waits exactly when it is full; the destructor may be entered at any time |
| `ThreadPool.TerminatesArePosted` | include/spdlog/details/thread_pool-inl.h:49-52 | the destructor posts its terminate messages under the same condition, one by one |
| `ThreadPool.IdleWorkerTakes` | include/spdlog/details/thread_pool-inl.h:95-121 | any worker without a job takes the first message, a job into its hand or its own end |
| `ThreadPool.HolderProcesses` | include/spdlog/details/thread_pool-inl.h:103-121 | any worker with a job can process it, whatever the others do |
| `ThreadPool.ShutdownCanFinish` | include/spdlog/details/thread_pool-inl.h:45-60 | with queue size at least 1 every state of a shutdown leads on to one in which the last worker has gone |
| `ThreadPool.EmptyQueueSticks` | include/spdlog/details/thread_pool-inl.h:49-52 | with queue size 0 every shutdown sticks with all workers waiting |

## Left out

- epoll, event loops, channels, thread start-up: any enabled handler may step.
- Tearing down a proxy connection (server/Tunnel.cpp:115-122), failing connects, random ids, socket set-up and option parsing.
- More than one tunnel or control connection; the tunnel and control lookups by id always succeed.
- The server's accept of a proxy connection (server/Server.cpp:101-123) happens in the same step as the client's connect; the unclaimed maps keyed by descriptor are one set.
- A descriptor stands for one public connection: `accept` returns each at most once, and reuse of its number after it has been closed is not modelled.
- Frames on a proxy connection arrive whole; a `StartProxyConnReq` read in data mode is one item of its wire size and is not split by a splice.
- Message ids, struct padding and the contents of message bodies; field layout beyond the length prefix.
- RingBuffer.Buffer.WriteToSock: `write` takes 0 or more of the bytes offered; its error return -1, held unsigned in the source, is not modelled.
- RingBuffer.Buffer.EnsureInsert: capacities are unbounded integers; 32-bit overflow of `capacity_ * 2` is not modelled.
- Framing.ReadN: errors of `read` other than EINTR and EAGAIN are not modelled; the stream ends with EOF.
- Bigints.Bigint.AssignPow10: the bit mask does not overflow, as it would in an `int` for exponents of 2^30 and more.
- FormatParser.ParseReplacementField: format specifiers and argument checks are the handler's and are arbitrary functions of what it has been told so far; what is parsed inside specifiers is not modelled.
- ServerTunnel.Tunnel.ClaimProxyConn: requires a waiting descriptor, as the source does; `PoolTheorems.ClaimFindsPublicFd` shows that every run provides one.
- spdlog's other overflow policy in the thread pool, its timeouts' durations, registry, sinks and pattern formatter.
- Dragonbox, Grisu and their tables, `umul128` and the product of `fp` values; formatting of anything but decimal digits.
- fmt's colour, chrono, printf, os and wide-character parts.
