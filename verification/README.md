# Verified model of the SIMUTGW network core

This Dafny project models three parts of the gateway's shared network code and
proves properties of them for all inputs, all messages and all interleavings.

**The CRC-32 engine** (`shared_src/tool_net/CRC32.cpp`). `Crc32Engine` is the
object itself: one 32-bit register, two lookups in the 16-word table per byte.
`Crc32Register` holds the same register one bit at a time, with the two facts
everything else rests on: a step is linear over exclusive-or and can be undone.
`Crc32Run` lifts these to whole messages, `Crc32Bits` reads registers and
messages as bit lists, `BitPolynomials` defines products and remainders of
polynomials over GF(2) without any register, `Crc32Polynomial` proves that the
checksum is the remainder section 3.2.9 of IEEE 802.3 asks for, and
`Crc32Errors` derives which errors it cannot miss.

**IOCP connections** (`shared_src/win_iocpbase`). `IocpConnection` and
`ConnectionRegistry` are the objects. `ConnectionInterleavings` treats the two
separate reads of `HasOutstandingContext`. `ServerTeardown` is the whole end of
a server connection as a step system with any number of threads: send
completions, the closing receive, `Disconnect`, disconnect packets; it proves
when teardown is never too early. `TeardownHandlers` says what each handler does
from beginning to end when it runs alone, and which completions post when it does
not. `TeardownGuarantees` proves when teardown is certain, exactly and for every
reachable state, and draws the consequences for each place that asks for it. The order in which the handlers read and write is that of
`HandleAccept`, `HandleReceive`, `HandleSend` and `HandleDisconnect`
(`shared_src/win_iocpbase/IOCP_Thread_Server.cpp`, lines 255-266 and 290-439) and
of `Send` and `Disconnect`
(`shared_src/simutgw/win_iocp_simutgw_server/SocketIOCPServer.cpp`, lines
272-311 and 332-362). These two files are not UTF-8 text, so the table below
cites what the handlers call and what the interfaces promise.

**The epoll client thread** (`shared_src/linux_epoll_server`,
`shared_src/linux_socket_base`). `SocketReceive` is the `RecvData` loop,
`EdgeTriggered` the thread against an edge-triggered kernel, `EdgeTriggeredRuns`
the laws of its whole runs, `ClientThread` the event loop's books: the client counter of one thread against the connections it
counts, in the manager that all client threads share.

## How the concurrent parts are modelled

A step system has a state, an `Enabled` predicate and an `Apply` function; a run
is a sequence of events legal from the start state, and every main result
quantifies over all such runs. One event is one atomic action of the source: an
interlocked operation, a section under one mutex, one system call. Memory is
sequentially consistent.

Assumptions, all stated in the definitions that use them:

- the kernel marks a watched descriptor ready on every arrival and on the peer's
  close, looks at the socket when a descriptor is added, and reports `EPOLLIN`
  whenever bytes are pending or the peer has closed at the time of the wait
  (`EdgeTriggered.ApplyWorld`, `Reportable`);
- `recv` writes `errno` only when it fails (`SocketReceive.Socket.Recv`);
- an event handler is attached to the client thread;
- a completion that no longer finds its connection returns from `HandleSend`, as it
  does when the assert there is compiled out (`ServerTeardown.Apply`);
- `ServerTeardown.TeardownNeverEarly` supposes that no send is created once a
  `Disconnect` has begun (`Considerate`) nor after the first receive was refused
  (`Forewarned`). An application that overrides `OnClientDisconnect` can keep the
  first by itself; with the default handler, which calls `Disconnect`, it is not
  told in time. Nobody tells it of the second. `NeverEarlyExactly` needs neither:
  it gives the condition on the run itself. A refused post is the system's doing
  and is never restrained;
- the guarantees of `TeardownGuarantees` start from every reachable state,
  whatever the application did before, and speak of the runs from there in which
  nothing more is sent.

## Where the code does not keep what its documentation says

- `shared_src/socket_conn_manage_base/SocketServiceBase.h:65-67` promises an
  `OnDisconnect` for every `Disconnect` once the sends are done.
  `DisconnectGuarantee` proves that this is certain exactly when, at the call,
  `m_rcvClosed` is already set and no `Send` stands between queueing its context
  and posting it (or the connection is leaving anyhow). `RefusedSendLosesTeardown`
  gives the failing run with the receive closed, for a call of the application
  and for the default handler's.
- `shared_src/simutgw/win_iocp_simutgw_server/EchoHandler.h:157-158` promises an
  `OnDisconnect` for every `OnNewConnection`. `RefusedReceiveGuarantee` proves
  that, when the first receive is refused and nothing is sent afterwards, this is
  certain exactly when no send is outstanding, or a `Disconnect` has begun and
  every send is posted. `RefusedReceiveNeverCertain` proves that a further send
  can always lose it, and `SendAfterRefusalLosesTeardown` is a run in which no
  post fails.
- `HandleSend` asserts that a completion finds its connection.
  `NeverEarlyExactly` and `LateSendOutlivesConnection` say exactly when it does;
  `SendAfterRefusalIsOrphaned` is a run in which the application has not even
  seen a `Disconnect` begin.
- An orderly close by the peer is classified by whatever `errno` was left over:
  `CloseReportedExactly`. An interrupted `epoll_wait`
  (`EpollServer_Client_Thread.cpp:74-81`) leaves the very value that hides it:
  `InterruptedWaitHidesClose`, `InterruptedCloseIsHidden`; so does a thread's very
  first read, `FirstCloseIsHidden`. When it is reported, the bytes that came with it are
  thrown away: `CloseDeliversExactly` and `CloseCostsLastCall` say exactly what the
  application misses, and `LastBytesLost` is the run.
- A number that the system reuses while its former connection is being read hands
  that connection's bytes on as the new one's: `ReuseMixesStreams`.
- `GetNextId` reads outside its lock and can hand out one id twice:
  `IdsCollideExactly`, with the run `TwoCallersOneId`.
- The client counter stays right through a step exactly when the step is no
  slip: a removal by the thread of something that is not its own, a removal of its
  own by somebody else, or a refused insertion (`StaysRightExactly`,
  `OrderlyRunsCountRight`); after a run it is right exactly when the slips balance
  (`CounterRightExactly`). `WithdrawnStaysCounted` is a run that leaves it wrong.
  One event can lower it twice: `DecrementsOfOneEvent`, `ReusedNumberCountsTwice`;
  and since all client threads share the manager, a number accepted again for
  another thread makes it wrong (`NumberOfAnotherThreadCountsTwice`).
- An event with neither readiness ends the client thread for good, while
  `AddNewClient` goes on accepting for it; `EdgeTriggered.ExitStrands` remarks that
  nothing is then delivered any more.

## Model

| member | source | states |
|---|---|---|
| Crc32Engine.Crc32.constructor | shared_src/tool_net/CRC32.h:28 | a new object has been fed nothing |
| Crc32Engine.Crc32.Reset | shared_src/tool_net/CRC32.cpp:29-32 | the object is as if nothing had been fed, whatever came before |
| Crc32Engine.Crc32.Update | shared_src/tool_net/CRC32.cpp:34-43 | two table lookups with 8-bit truncation equal eight serial bit steps, and the register stays that of everything fed so far |
| Crc32Engine.Crc32.UpdateBuffer | shared_src/tool_net/CRC32.cpp:45-51 | the loop leaves the register of the bit-serial run over the buffer, for every buffer and start state |
| Crc32Engine.Crc32.Finalize | shared_src/tool_net/CRC32.cpp:59-62 | after any mixture of calls the result is the checksum of all bytes fed since the last reset, and the run is not disturbed |
| Crc32Engine.Crc32.FinalizeBuffer | shared_src/tool_net/CRC32.cpp:53-57 | the same, with one more buffer fed first and kept |
| Crc32Engine.Crc32.Calculate | shared_src/tool_net/CRC32.cpp:22-27 | one call gives the checksum of the buffer's first `size` bytes |
| Crc32Register.TableIsFourSteps | shared_src/tool_net/CRC32.cpp:15-20 | each of the 16 table words is its index after four zero-input bit steps of the IEEE 802.3 register |
| Crc32Register.LookupIsFourSteps | shared_src/tool_net/CRC32.cpp:39-40 | one lookup, with its truncation and masking, equals four bit steps with the data nibble mixed in |
| Crc32Register.TwoNibblesAreOneByte | shared_src/tool_net/CRC32.cpp:34-43 | low nibble then high nibble equals the whole byte at once |
| Crc32Register.StepsXor | shared_src/tool_net/CRC32.cpp:34-43 | any number of zero-input steps is linear over exclusive-or |
| Crc32Register.StepsInjective | shared_src/tool_net/CRC32.cpp:34-43 | no two registers merge under any number of steps |
| Crc32Run.RunIsUpdateByTable | shared_src/tool_net/CRC32.cpp:45-51 | every run equals the 256-entry byte-table algorithm of section 8 of RFC 1952 |
| Crc32Run.RunAppend | shared_src/tool_net/CRC32.cpp:45-51 | feeding a message in two parts equals feeding it whole |
| Crc32Run.RunXor | shared_src/tool_net/CRC32.cpp:34-51 | runs are linear in start state and message together |
| Crc32Run.CalculateAffine | shared_src/tool_net/CRC32.cpp:22-62 | for three messages of one length, the checksum of their bytewise sum is the sum of their checksums |
| Crc32Run.CalculateConcatenation | shared_src/tool_net/CRC32.cpp:22-51 | the checksum of a concatenation follows from both checksums and the second length alone |
| Crc32Run.RunBijective | shared_src/tool_net/CRC32.cpp:34-51 | for a fixed message start and end states correspond one to one, with the inverse run given |
| Crc32Run.UniqueSuffix | shared_src/tool_net/CRC32.cpp:34-51 | from any state exactly one four-byte suffix reaches any chosen state, and which |
| Crc32Run.ResidueExactly | shared_src/tool_net/CRC32.cpp:34-62 | from every state, four bytes leave 0xDEBB20E3 if and only if they are the little-endian checksum |
| Crc32Run.TrailerAccepted | shared_src/tool_net/CRC32.cpp:22-62 | a message with four bytes appended has checksum 0x2144DF1C if and only if the four bytes are its checksum |
| Crc32Bits.RunIsBitRun | shared_src/tool_net/CRC32.cpp:34-51 | a run over bytes is the serial circuit over their bits, lowest bit of each byte first |
| BitPolynomials.RemainderUnique | shared_src/tool_net/CRC32.cpp:15-20 | a polynomial has at most one remainder modulo a divisor with leading coefficient one, so the definition of the CRC determines it |
| Crc32Polynomial.PolynomialIsGenerator | shared_src/tool_net/CRC32.cpp:18 | the table's word 8 is the generator of section 3.2.9 of IEEE 802.3, reflected and without x^32 |
| Crc32Polynomial.StepIsReduce | shared_src/tool_net/CRC32.cpp:34-43 | one clock of the register is one line of long division by the generator |
| Crc32Polynomial.CalculateIsComplementedRemainder | shared_src/tool_net/CRC32.cpp:22-62 | for every message, empty and short ones included, the checksum is the reflected complement of the remainder of M(x) x^32 with its first 32 bits complemented, and of no other polynomial |
| Crc32Errors.EqualChecksumsIffMultiple | shared_src/tool_net/CRC32.cpp:22-62 | two messages of one length share a checksum if and only if the generator divides their difference times x^32 |
| Crc32Errors.BurstDetected | shared_src/tool_net/CRC32.cpp:15-51 | messages of one length that differ only inside 32 consecutive bits, byte-aligned or not, share a checksum only if they are equal |
| Crc32Errors.OnlyGeneratorMissed | shared_src/tool_net/CRC32.cpp:15-51 | inside 33 bits the one change that goes unnoticed is the generator's own pattern, so 32 is the exact bound |
| IocpConnection.SendQueue.AddSendContext | shared_src/win_iocpbase/SendQueue.cpp:19-27 | adds the context, and the insertion assert holds exactly if it was not queued |
| IocpConnection.SendQueue.RemoveSendContext | shared_src/win_iocpbase/SendQueue.cpp:29-34 | removes the context, queued or not, and returns how many remain |
| IocpConnection.SendQueue.NumOutstandingContext | shared_src/win_iocpbase/SendQueue.cpp:36-40 | the number of queued contexts |
| IocpConnection.SendQueue.CloseAllSends | shared_src/win_iocpbase/SendQueue.cpp:42-57 | every queued context's event is closed and the queue keeps its contexts |
| IocpConnection.Connection.CreateSendContext | shared_src/win_iocpbase/Connection.cpp:26-33 | a fresh context joins the queue and the insertion assert never fires |
| IocpConnection.Connection.HasOutstandingContext | shared_src/win_iocpbase/Connection.cpp:35-48 | undisturbed, true exactly if the receive is open or a send is queued |
| IocpConnection.Connection.CloseRcvContext | shared_src/win_iocpbase/Connection.cpp:51-65 | only the first caller gets true, and only its call touches the event |
| IocpConnection.CompletionsCountDown | shared_src/win_iocpbase/SendQueue.cpp:29-34 | in whatever order N sends complete they are told N-1 down to 0, each once, so exactly one sees an empty queue |
| ConnectionInterleavings.AnswersLinearize | shared_src/win_iocpbase/Connection.cpp:35-48 | in every interleaving with creates, removes and closes, each answer, true or false, is what an atomic call would give at the caller's last read |
| ConnectionInterleavings.EveryCallAnsweredOnce | shared_src/win_iocpbase/Connection.cpp:35-48 | in every run each call that is not between its two reads has been answered exactly once |
| ConnectionInterleavings.SharedIsHistory | shared_src/win_iocpbase/Connection.cpp:26-65 | a send is outstanding exactly if it was created and not removed since, the receive closed exactly if somebody closed it |
| ConnectionInterleavings.OverlappingCallsDiffer | shared_src/win_iocpbase/Connection.cpp:35-48 | two overlapping calls that both saw the receive closed can be told different things |
| ConnectionInterleavings.LastPartyIsTold | shared_src/win_iocpbase/Connection.cpp:35-65 | if every party lets go before it asks and nobody joins after the first release, nobody hears "nothing outstanding" early and somebody does in the end |
| ConnectionInterleavings.NobodyStuck | shared_src/win_iocpbase/Connection.cpp:35-65 | a party that has not been told can always take its own next move, whatever the others do |
| ConnectionInterleavings.GetsTold | shared_src/win_iocpbase/Connection.cpp:35-65 | and is told after at most three of them |
| ConnectionInterleavings.ReadsTell | shared_src/win_iocpbase/Connection.cpp:35-48 | the second read tells exactly whether anything is outstanding |
| ServerTeardown.SoundAlways | shared_src/win_iocpbase/SendQueue.cpp:19-40 | every step of every handler, interleaved in any way and whatever the application does, keeps track of sends, requests to disconnect and notices |
| ServerTeardown.NeverEarlyExactly | shared_src/win_iocpbase/Connection.cpp:26-48 | a run never gives a connection up with a send outstanding if and only if it creates no send after a handler has found nothing outstanding |
| ServerTeardown.TeardownNeverEarly | shared_src/win_iocpbase/Connection.cpp:35-65 | if no send is created after a Disconnect has begun or the first receive was refused, the connection leaves the manager only with everything closed, every send completion still finds it (the assert in HandleSend holds), and OnDisconnect is called at most once |
| ServerTeardown.SendAfterRefusalIsOrphaned | shared_src/simutgw/win_iocp_simutgw_server/EchoHandler.h:153-174 | a run with no Disconnect at all in which a completion finds no connection, so the second clause is needed |
| ServerTeardown.LateSendOutlivesConnection | shared_src/win_iocpbase/Connection.cpp:26-48 | a new send can outlive its connection if and only if it is created after a disconnect handler found nothing outstanding or after the removal |
| ServerTeardown.LeavingIsReached | shared_src/win_iocpbase/Connection.cpp:35-48 | an ordinary close by the peer reaches the state in which a send is too late |
| TeardownHandlers.SendAlone | shared_src/win_iocpbase/Connection.cpp:26-33 | an accepted send is queued and in flight, a refused one leaves no trace |
| TeardownHandlers.HandleSendAlone | shared_src/win_iocpbase/SendQueue.cpp:29-34 | a completion removes its context and posts a packet if and only if it was the last, the receive is closed and a Disconnect is pending |
| TeardownHandlers.HandleDisconnectAlone | shared_src/win_iocpbase/Connection.cpp:35-48 | a packet removes the connection and tells the application if and only if it is still registered, closed and without queued sends |
| TeardownHandlers.DisconnectAlone | shared_src/socket_conn_manage_base/SocketServiceBase.h:64-93 | a Disconnect is counted and posts one packet exactly if the connection is found |
| TeardownHandlers.HandleReceiveAlone | shared_src/win_iocpbase/IocpEventHandler.cpp:61-81 | the peer's close closes the receive, and the default handler disconnects |
| TeardownHandlers.HandleAcceptAlone | shared_src/win_iocpbase/Connection.cpp:51-65 | a refused first receive closes the receive and posts one packet |
| TeardownHandlers.LastCompletionTearsDown | shared_src/socket_conn_manage_base/SocketServiceBase.h:64-67 | with a Disconnect pending the last completion ends in one OnDisconnect |
| TeardownHandlers.OnlyLastCompletionPosts | shared_src/win_iocpbase/SendQueue.cpp:29-34 | in every run without new sends, completions post at most one packet beyond those already on their way to it |
| TeardownHandlers.PostNeedsBoth | shared_src/win_iocpbase/SendQueue.cpp:29-34 | in every run no completion comes newly to post before the receive is closed or before a Disconnect is counted |
| TeardownHandlers.RefusedExactly | shared_src/win_iocpbase/Connection.cpp:51-65 | the receive is closed without ever having been posted exactly if the first one was refused |
| TeardownGuarantees.AtRestExactly | shared_src/win_iocpbase/Connection.cpp:35-48 | no handler has a step left exactly when no send is queued but those whose completion found no connection, and nobody is inside a handler |
| TeardownGuarantees.HandlersFinish | shared_src/win_iocpbase/SendQueue.cpp:29-40 | left to themselves the handlers stop after a number of steps that the state bounds |
| TeardownGuarantees.TornDownExactly | shared_src/win_iocpbase/Connection.cpp:35-65 | from every reachable state teardown is certain if and only if the receive is closed and the connection is leaving, or every send is posted, outstanding ones have a Disconnect behind them and somebody will still post or look at a packet |
| TeardownGuarantees.TeardownHappens | shared_src/simutgw/win_iocp_simutgw_server/EchoHandler.h:153-174 | where it is certain it comes about: every run of the handlers is bounded, and when none has a step left there has been exactly one OnDisconnect |
| TeardownGuarantees.DisconnectGuarantee | shared_src/socket_conn_manage_base/SocketServiceBase.h:64-93 | from every reachable state, a Disconnect call is certain to end in one OnDisconnect, whatever the application's own OnClientDisconnect does, if and only if the receive is closed and no send is queued but not yet posted, or the connection is leaving |
| TeardownGuarantees.DefaultHandlerTearsDown | shared_src/win_iocpbase/IocpEventHandler.cpp:61-81 | the Disconnect of the default OnClientDisconnect is certain to end in one OnDisconnect if and only if no send is queued but not yet posted, or the connection is leaving |
| TeardownGuarantees.RefusedSendLosesTeardown | shared_src/socket_conn_manage_base/SocketServiceBase.h:64-93 | the failing run for both: a send refused after the packet was looked at leaves the connection in the manager for good |
| TeardownGuarantees.RefusedReceiveGuarantee | shared_src/simutgw/win_iocp_simutgw_server/EchoHandler.h:153-174 | when the first receive is refused and nothing is sent afterwards, teardown is certain if and only if no send is outstanding, or a Disconnect has begun and every send is posted |
| TeardownGuarantees.RefusedReceiveNeverCertain | shared_src/simutgw/win_iocp_simutgw_server/EchoHandler.h:153-174 | if one more send is created after the refusal, teardown can be lost, from every reachable state |
| TeardownGuarantees.SendAfterRefusalLosesTeardown | shared_src/simutgw/win_iocp_simutgw_server/EchoHandler.h:153-174 | a run with every post accepted and no Disconnect in which it is lost |
| ConnectionRegistry.ConnectionManager.AddConnection | shared_src/win_iocpbase/ConnectionManager.cpp:17-26 | inserts without replacing; the assert holds exactly if the id was free |
| ConnectionRegistry.ConnectionManager.RemoveConnection | shared_src/win_iocpbase/ConnectionManager.cpp:28-40 | removes the id and says whether it was there |
| ConnectionRegistry.ConnectionManager.GetConnection | shared_src/win_iocpbase/ConnectionManager.cpp:42-54 | finds the connection with that very id, or nothing if it is not registered |
| ConnectionRegistry.ConnectionManager.GetAllConnectionIds | shared_src/win_iocpbase/ConnectionManager.cpp:68-80 | appends exactly the registered ids, ascending and once each, to what the vector held |
| ConnectionRegistry.IocpDataBase.GetNextId | shared_src/win_iocpbase/IocpDataBase.h:53-61 | undisturbed, the successor modulo 2^64 |
| ConnectionRegistry.ReadsAtLeastOwn | shared_src/win_iocpbase/IocpDataBase.h:53-61 | in every interleaving the id returned is the number of increments before the read modulo 2^64, and until the counter wraps at least what the caller's own increment produced |
| ConnectionRegistry.CallsTakeTurns | shared_src/win_iocpbase/IocpDataBase.h:53-61 | each caller's increments and reads alternate in every run |
| ConnectionRegistry.IdsCollideExactly | shared_src/win_iocpbase/IocpDataBase.h:55-60 | in every run two calls return one id if and only if a multiple of 2^64 increments, such as none, lies between their reads |
| ConnectionRegistry.TwoCallersOneId | shared_src/win_iocpbase/IocpDataBase.h:55-60 | the shortest run in which two callers are given the same id |
| ConnectionRegistry.SerializedIdsAreConsecutive | shared_src/win_iocpbase/IocpDataBase.h:53-61 | calls made one after the other, by whichever threads, return consecutive numbers until the counter wraps |
| ConnectionRegistry.InsertionNeverRefused | shared_src/win_iocpbase/ConnectionManager.cpp:17-26 | with serialized accepts and any removals the next id is never taken before the counter wraps |
| ConnectionRegistry.IocpDataBase.Accept | shared_src/win_iocpbase/ConnectionManager.cpp:17-26 | a new connection gets the next id and, until the counter wraps, the insertion assert holds, whatever was accepted and dropped before |
| ConnectionRegistry.IocpDataBase.Drop | shared_src/win_iocpbase/ConnectionManager.cpp:28-40 | removes exactly that id and says whether it was accepted and not yet dropped |
| ConnectionRegistry.IocpDataBase.ListIds | shared_src/win_iocpbase/ConnectionManager.cpp:68-80 | lists exactly the ids accepted and not dropped since, ascending and once each |
| SocketReceive.RecvData | shared_src/linux_socket_base/LinuxNetUtil.cpp:528-603 | appends exactly the bytes before the first empty-handed `recv`, uses that call and no further one, terminates, fails exactly on the stated errno values (EINTR with a negative result included), and writes out_errno only then |
| SocketReceive.UnreadIsTheRest | shared_src/linux_socket_base/LinuxNetUtil.cpp:543-573 | whatever is to come after the first empty-handed `recv` is left for the next reader |
| SocketReceive.TwoCallsInARow | shared_src/linux_socket_base/LinuxNetUtil.cpp:536-600 | two calls in a row append what both scripts bring, the second going on where the first stopped |
| SocketReceive.CloseReportedExactly | shared_src/linux_socket_base/LinuxNetUtil.cpp:543-561 | an orderly close is reported if and only if the left-over errno is neither 0 nor EINTR |
| SocketReceive.CloseReportedAfterDrain | shared_src/linux_socket_base/LinuxNetUtil.cpp:543-580 | after a call that ran dry the next close on the thread is reported if and only if the last value written to errno in between, if any, is neither 0 nor EINTR, and under that value; as EAGAIN if nothing was written |
| SocketReceive.InterruptedWaitHidesClose | shared_src/linux_epoll_server/EpollServer_Client_Thread.cpp:73-81 | a wait interrupted by a signal between the two calls hides the close |
| EdgeTriggered.NoWakeupIsLost | shared_src/linux_epoll_server/EpollServer_Client_Thread.cpp:70-118 | in every reachable state each live stream with readable bytes or an end not yet met is ready, in the rest of the batch or being drained; on every stream not mixed with another's, what the calls collected, what is held and what is pending make up what arrived, in order; a sleeping thread has delivered everything and met every close |
| EdgeTriggered.ThreadStepShrinks | shared_src/linux_epoll_server/EpollServer_Client_Thread.cpp:91-233 | without arrivals the thread's own steps cannot go on forever |
| EdgeTriggered.EventuallyDelivered | shared_src/linux_epoll_server/EpollServer_Client_Thread.cpp:70-139 | whatever batches are reported and however the bytes are cut, a thread left to itself until it has no step left has delivered everything, if no read of an open descriptor fails and no event has neither readiness |
| EdgeTriggered.DeliverySchedule | shared_src/linux_epoll_server/EpollServer_Client_Thread.cpp:70-139 | such a run exists from every invariant state |
| EdgeTriggered.CloseDeliversExactly | shared_src/linux_epoll_server/EpollServer_Client_Thread.cpp:107-138 | a call that meets the peer's close fails exactly if the left-over errno is neither 0 nor EINTR; the application then misses exactly what that call had read, and nothing if and only if errno was one of the two or the call had read nothing |
| EdgeTriggered.CloseCostsLastCall | shared_src/linux_epoll_server/EpollServer_Client_Thread.cpp:107-138 | and it stays so: on a stream whose first failing call met the close, what was delivered and what that call had read are all that ever arrives |
| EdgeTriggered.InterruptedCloseIsHidden | shared_src/linux_epoll_server/EpollServer_Client_Thread.cpp:73-81 | an interruption just before the read hides the close: the bytes are delivered and nobody is told |
| EdgeTriggered.FirstCloseIsHidden | shared_src/linux_socket_base/LinuxNetUtil.cpp:543-561 | a close that is the first thing a thread reads goes unnoticed, from the initial state |
| EdgeTriggered.LastBytesLost | shared_src/linux_socket_base/LinuxNetUtil.cpp:543-561 | bytes that come together with the close are lost, from every sleeping state with EAGAIN in errno |
| EdgeTriggered.ReuseMixesStreams | shared_src/linux_epoll_server/EpollServer_Core.cpp:214-226 | a number reused during the read of its former stream delivers that stream's bytes as the new one's |
| EdgeTriggered.LeftOverReadsNewOwner | shared_src/linux_epoll_server/EpollServer_Core.cpp:214-226 | an event left over for a former owner of a number makes the thread read the new one's stream |
| EdgeTriggered.ReadBeforeReuse | shared_src/linux_epoll_server/EpollServer_Core.cpp:214-226 | bytes read before the reuse are handed on under the number afterwards |
| EdgeTriggered.NeitherEndsThread | shared_src/linux_epoll_server/EpollServer_Client_Thread.cpp:190-232 | an event ends the thread if and only if it has neither readiness |
| EdgeTriggered.DrainIsRecvData | shared_src/linux_socket_base/LinuxNetUtil.cpp:528-603 | however the kernel cuts the pending bytes and however the call ends, the drain succeeds exactly when RecvData does, leaves its errno, and holds what it appends or throws it away |
| EdgeTriggeredRuns.ReportedOncePerEdge | shared_src/linux_epoll_server/EpollServer_Client_Thread.cpp:70-91 | over every run a descriptor is reported at most once for each arrival, close, watch or re-arming |
| EdgeTriggeredRuns.StreamIsHistory | shared_src/linux_epoll_server/EpollServer_Core.cpp:214-226 | what arrived, closed, is watched and is open is what the run brought, in order |
| EdgeTriggeredRuns.WatchedOnce | shared_src/linux_epoll_server/EpollServer_Client_Thread.cpp:268-285 | a descriptor is taken on once, and never while it is being dropped |
| EdgeTriggeredRuns.LateWatchReads | shared_src/linux_epoll_server/EpollServer_Client_Thread.cpp:268-285 | bytes that came before the descriptor was watched are read all the same |
| EdgeTriggeredRuns.BatchSize | shared_src/linux_epoll_server/EpollServer_Client_Thread.cpp:13-74 | one wait reports between one and a hundred descriptors |
| EdgeTriggeredRuns.ChunkSize | shared_src/linux_socket_base/LinuxNetUtil.cpp:528-545 | one `recv` takes between one byte and a full buffer of 10240 |
| EdgeTriggeredRuns.WriteReadinessReadsNothing | shared_src/linux_epoll_server/EpollServer_Client_Thread.cpp:141-187 | an event that is only writable reads nothing and leaves the thread as it was |
| EdgeTriggeredRuns.StrayLeavesNothing | shared_src/linux_epoll_server/EpollServer_Client_Thread.cpp:96-118 | another thread that reads the stream first leaves this thread's read empty-handed |
| EdgeTriggeredRuns.ErrnoIsLastWrite | shared_src/linux_socket_base/LinuxNetUtil.cpp:543-573 | in every run errno holds the last value written: by a read that ran dry, one that failed, or another call; delivering and waiting write nothing |
| EdgeTriggeredRuns.CloseAfterDrainFails | shared_src/linux_socket_base/LinuxNetUtil.cpp:543-561 | after a drain, on whatever stream, the next close met without a failing call in between drops its connection |
| ClientThread.Worker.AddNewClient | shared_src/linux_epoll_server/EpollServer_Client_Thread.cpp:255-285 | counts and reports a client exactly when the thread looks alive and the watch succeeds |
| ClientThread.Worker.ProcessBatch | shared_src/linux_epoll_server/EpollServer_Client_Thread.cpp:91-233 | the loop with its `continue`s and its early return leaves counter and manager as the fold of its events, and leaves the thread looking alive |
| ClientThread.EventInItsFields | shared_src/linux_epoll_server/EpollServer_Client_Thread.cpp:96-232 | one event removes and counts off its number if it has neither readiness or its read fails, a found number if its send fails, and does nothing otherwise |
| ClientThread.BatchDropsExactly | shared_src/linux_epoll_server/EpollServer_Client_Thread.cpp:93-233 | a registered number is gone after a batch if and only if the loop gets to an event for it with no readiness, a failed read or a failed send |
| ClientThread.SuccessfulBatchChangesNothing | shared_src/linux_epoll_server/EpollServer_Client_Thread.cpp:93-233 | events that have a readiness and whose calls succeed leave counter and manager alone |
| ClientThread.BatchIsOperations | shared_src/linux_epoll_server/EpollServer_Client_Thread.cpp:91-233 | what the loop does to one batch, undisturbed, is a piece of the runs the counter law speaks about, step by step, cut at an event that ends the thread |
| ClientThread.DecrementsOfOneEvent | shared_src/linux_epoll_server/EpollServer_Client_Thread.cpp:96-229 | with other threads between any two steps, one event lowers the counter once if its read fails or it has neither readiness, and once if its lookup finds a connection, of whichever client thread, whose send fails |
| ClientThread.OneDecrementAtMost | shared_src/linux_epoll_server/EpollServer_Client_Thread.cpp:96-189 | one event lowers the counter twice only if its number was inserted anew between its two halves, for this or another client thread, and both its read and its write fail |
| ClientThread.ReusedNumberCountsTwice | shared_src/linux_epoll_server/EpollServer_Core.cpp:214-226 | and then it does: the run in which the freed number is accepted again in between |
| ClientThread.NumberOfAnotherThreadCountsTwice | shared_src/linux_epoll_server/EpollServer_Core.cpp:214-226 | the freed number is accepted for another client thread: the event counts twice and a client that is still connected is no longer counted |
| ClientThread.CounterLaw | shared_src/linux_epoll_server/EpollServer_Client_Thread.cpp:91-285 | over every interleaving, other client threads on the same manager included, the counter is the thread's clients plus removals of them by others and refused insertions minus removals of what was not its own, modulo 2^64 |
| ClientThread.CounterRightExactly | shared_src/linux_epoll_server/EpollServer_Core.cpp:214-226 | after a run the counter equals the clients if and only if those slips balance modulo 2^64 |
| ClientThread.StaysRightExactly | shared_src/linux_epoll_server/EpollServer_Client_Thread.cpp:93-189 | a step leaves a right counter right if and only if it is no slip |
| ClientThread.OrderlyRunsCountRight | shared_src/linux_epoll_server/EpollServer_Client_Thread.cpp:93-189 | the counter is right all through a run if and only if no step of it is a slip |
| ClientThread.CarefulRunsCountRight | shared_src/linux_epoll_server/EpollServer_Client_Thread.cpp:93-189 | a run is orderly if no insertion is refused, nobody else removes this thread's clients, events come only for inserted clients of it, and no number goes to another thread while an event of it is in hand |
| ClientThread.RightNeverWraps | shared_src/linux_epoll_server/EpollServer_Client_Thread.cpp:137 | while the counter is right a decrement does not wrap |
| ClientThread.WithdrawnStaysCounted | shared_src/linux_epoll_server/EpollServer_Core.cpp:409 | a client removed by Disconnect stays counted |
| ClientThread.RefusedInsertionStaysCounted | shared_src/linux_epoll_server/EpollServer_Core.cpp:214-226 | a client whose number the manager still holds is counted and never found |
| ClientThread.WithdrawnInHandIsCountedOff | shared_src/linux_epoll_server/EpollServer_Core.cpp:409 | two slips cancel when a client is removed while its failing event is in hand |
| ClientThread.EndedCountsNothing | shared_src/linux_epoll_server/EpollServer_Client_Thread.cpp:190-232 | after an event with neither readiness the thread counts nothing off any more |

## Left out

- NoWakeupIsLost: promises no wakeup to a stream once one of its reads has failed or its descriptor is closed, and no order to a stream whose bytes were mixed with another's through a reused number (`ReuseMixesStreams`) or read by another client thread for a former owner of its number.
- EventuallyDelivered: supposes that no read of an open descriptor fails other than by meeting the close; an event with neither readiness is excluded because it ends the thread.
- DisconnectGuarantee: a failing `PostQueuedCompletionStatus` is not modelled.
- LastPartyIsTold: a context's address is not reused while its party is still known.
- RecvData: `recv` results are a finite script that then reports an empty socket; a peer that sends without pause keeps the source in the loop.
- Errors of `epoll_wait`, stop requests, the closing of the epoll descriptor and the state of a thread without an event handler.
- TwoCallersOneId: what the manager then does with the second connection is `AddConnection`; the objects of `IocpDataBase` are used by one caller at a time.
- The write side: `LoopSend`, the epoll send queue and `EPOLLOUT` registration appear only as an outcome and as a re-arming of the descriptor.
- The listening socket, which accepts once per edge-triggered event; the receive result does not carry over to it.
- Socket creation and options, keep-alive, address handling, and the choice of the least loaded client thread.
- Network packets: the decimal field the checksum is written to, the packet header with its own checksum, and reassembly from a stream.
- The other callbacks, logging, configuration, databases, and the client-side copies of the IOCP and epoll cores.
- `ConnectionManager::CloseAllConnections`, which only cancels I/O.
- Windows handles beyond an open or closed bit, and memory orders weaker than sequential consistency.
