# Verified model of the libc shim's protocols

libc-shim lets code built for Android's C library (the guest) call the C library
of another system (the host). Most of it forwards calls. This project models the
parts that hold a protocol, a heap structure, a translation or arithmetic, and
proves what they promise for every input, every interleaving and every run.

| files | what they model |
|---|---|
| `LazySync`, `LazyRuns`, `LazyCases`, `CondWait`, `RwRuns`, `HostSync`, `Payload`, `Bits` | guest mutexes, condition variables and read-write locks whose host object is created on first use, as an interleaved transition system over one atomic word, a heap of host objects and any number of threads; where the pointer lies inside the guest object |
| `Once` | `pthread_once` over any number of concurrent calls, with progress |
| `Cleanup` | the per-thread stack of cleanup handlers as a linked structure |
| `AddrInfo`, `Hints`, `IfAddrs`, `Heap` | the linked lists of `getaddrinfo` and `getifaddrs`, their conversion errors and who frees what |
| `Sockaddr`, `IfConf`, `Mmsg` | socket address layouts, interface records compacted in place, many messages per call |
| `IoRewrite` | path rewriting, and what rewriting twice does |
| `ErrnoMirror`, `ErrnoTable`, `ErrnoLinux` | the guest's errno beside the host's, the two translation tables, and what they do on a host with Linux's numbers |
| `SetJmp`, `CookieRace` | setjmp and longjmp for 32-bit x86, and their cookie with one thread and with many |
| `PollSelect`, `Strlcpy`, `TzFormat` | poll over select, `strlcpy`, the TZ value |

The main results, in words:

- However many threads race on the first use of a guest mutex, condition variable
  or read-write lock, the run is a run of one host object that existed from the
  start (`LazyRuns.RunRefines`). Everyone gets the same object, error-checking for
  the initialiser 0x8000, recursive for 0x4000 and else normal
  (`LazyRuns.StaticKind`), although the kind may be read after the pointer was
  published; at most one thread holds the mutex, also while threads wait on a
  condition with it; allocations minus frees are the published object and one per thread
  inside an initialiser or a destroy; the unaligned and lost-race runtime errors
  are never reached. However the threads interleave, each is through `to_host` after
  at most six steps of its own (`LazyRuns.WaitFree`). A thread that write-locks a
  read-write lock is alone with it until it releases it (`RwRuns.WriterExclusion`).
- A condition variable and its mutex, both raced for, lose no wakeup: a thread that
  looked at its condition with the mutex held and then waits is queued before any
  other thread gets the mutex, and the first signal or broadcast after that finds it
  (`CondWait.NoLostWakeup`).
- A thread that reads the kind when the word already is a pointer builds a mutex of
  the wrong kind and always loses (`LazyRuns.WrongKindLoses`); this does happen
  (`LazyCases.WrongKindReached`).
- A destroyed mutex that is used again has its static kind on LP64 and is a normal
  one on ILP32, where the pointer has overwritten the initialiser
  (`LazyRuns.RunKind`, and a run of it in `LazyCases.KindForgotten`).
- Every run of concurrent `pthread_once` calls starts the routine at most once and
  can be finished, with all its calls back (`Once.OnceOnly`, `Once.AllReturn`).
- `getaddrinfo` gives exactly the entries that translate, in order, and frees all
  it allocates but the answer when every hint has a host form. When a hint has
  none, the nodes made up to it are never freed (`Hints.GetAddrInfo`); protocol
  132 or a socket type of 4 is enough (`Hints.HintsWithoutHostForm`).
- The second rewrite in `__libc_shim_open_3` is harmless for every path exactly when
  it is for a few deciding paths read off the table (`IoRewrite.TableExact`); for a
  single rule that is when its target is not a proper prefix of its source, or for
  `.` when it is absolute or empty (`IoRewrite.SingleRuleExact`). With `/data/app`
  to `/data` another path is opened (`IoRewrite.Open3Differs`).
- In any run of guest stores and library calls the guest's cell is one errno, and the
  host's stands for what it holds back for the next open. The open functions copy
  errno out but not in, and bare calls like `fopen` do neither, so a successful open
  keeps errno exactly when it is what the host holds back
  (`ErrnoMirror.OpenKeepsExact`); while no bare call has set errno since it was last
  reported, that is when it still is what was reported
  (`ErrnoMirror.OpenKeepsReported`). Otherwise an old error comes back
  (`ErrnoMirror.StaleErrno`) or one the guest was never told of
  (`ErrnoMirror.BareErrorSurfaces`).
- A jump restores exactly the registers its setjmp saved. Both calls give
  `sigprocmask` the number 2; a saved signal mask comes back exactly on a host where
  that sets the mask (`SetJmp.MaskComesBackExact`). On Darwin, the only host the file
  is built for, it unblocks: signals blocked at the setjmp and at the jump are let
  through (`SetJmp.UnblockExact`, `SetJmp.BlockedSignalLetThrough`). With several threads the first
  calls race for the cookie: a saved buffer passes every later check exactly when
  there is a cookie as it is saved and no call is between its test and its store
  (`CookieRace.SavedPassesExact`); `CookieRace.RaceBreaks` is a run that spoils a
  buffer although its cookie was not 0. With one thread only a cookie drawn as 0 or
  1, and so 0, can change (`SetJmp.SavedWordPasses`, `SetJmp.ZeroCookieBreaks`).
- The value `poll` returns through `select` counts reported bits of distinct
  descriptors. It is the number of ready entries for every answer of select exactly
  when no two entries share a descriptor and none asks for data
  (`PollSelect.CountsEntriesExact`); `PollSelect.CountsTwice` and
  `PollSelect.SharedCountsOnce` are answers for which it is not. A descriptor that is
  negative or too large overruns the sets (`PollSelect.PollViaSelect`), and a negative
  timeout makes a time value select does not take (`PollSelect.TimeoutExact`).
- The TZ value is read exactly when the first five letters of the zone make a name
  and there are no more hours than the reader takes (`TzFormat.TzRoundTrip`).

What the model assumes:

- Threads interleave sequentially consistently; a compare-exchange does not fail
  spuriously; memory does not run out.
- A new host object lies at an address that is not live and that reads as a
  pointer. The host may refuse any init; refusing a lazy one ends the thread.
- An explicit init starts a run on any memory, and later stores only over a word
  that is not initialised; a destroy starts when the object is not in use and nobody
  else is inside but woken waiters, whom the host lets leave. Unlocking a normal
  mutex one does not own, and waiting with one not held exactly once, are outside
  the contract.
- The host's own objects and functions do what `HostSync.HostStep`,
  `PollSelect.SelectContract` and the parameters of the other modules say, and
  otherwise anything.
- A `pthread_once` routine returns and does not call back into the same control
  word. Cleanup handlers leave the stack alone.
- Paths, rules and names hold no NUL. Hours of a time zone offset fit an `int`.
- Host errno numbers are a parameter; two labels of one switch have two numbers, as
  the compiler demands.
- Handling of the host's list between the host's answer and its release is
  reading only.

## Model

| member | source | states |
|---|---|---|
| `Payload.SlotIsLeastAligned` | src/pthreads.h:33-49 | for every word size, header and power-of-two alignment, adding and masking gives the least aligned address that leaves the header free |
| `Payload.PayloadInside` | src/pthreads.h:33-49 | the pointer slot of a 4-aligned mutex, cond or rwlock is the first 8-aligned address behind the header, and ends inside the object |
| `Bits.AndNegatedPower` | src/pthreads.h:41-41 | masking with a negated power of two rounds down to its multiple |
| `LazyRuns.StaticWords` | src/pthreads.h:52-59 | on ILP32 the mask takes exactly four words for static initialisers: the three kinds and 0xC000 |
| `LazyRuns.ZeroWord` | src/pthreads.h:52-59 | where the whole word is a pointer, only 0 is uninitialised |
| `HostSync.InUseExact` | src/pthreads.cpp:322-331 | a destroy's condition, that the object is not in use, means that no thread holds it or waits on it |
| `LazySync.StartInv` | src/pthreads.h:33-59 | an object fresh from a static initialiser or an explicit init satisfies the invariant and stands for the object its word encodes or the init has made |
| `LazySync.RawInit` | src/pthreads.cpp:307-320 | an explicit init may start from any memory, also if the word there reads as a pointer |
| `LazySync.LoadOk` | src/pthreads.h:90-116 | the first load keeps the invariant, for all three sorts |
| `LazySync.ReadKindOk` | src/pthreads.h:91-98 | reading the kind after the payload, possibly when it already is a pointer, keeps the invariant |
| `LazySync.AllocateOk` | src/pthreads.cpp:34-51 | building a private object, which the host may refuse to initialise, keeps the invariant and is invisible |
| `LazySync.PublishOk` | src/pthreads.cpp:53-56 | the compare-exchange, won or lost, keeps the invariant and the object everyone means |
| `LazySync.AdoptOk` | src/pthreads.cpp:57-62 | the loser frees only its own object and adopts a live, initialised one |
| `LazySync.InitOk` | src/pthreads.cpp:307-315 | an explicit init, refused or not, is invisible before its store |
| `LazySync.InitStepOk` | src/pthreads.cpp:317-319 | the store of an explicit init sets the object to a fresh one of the asked kind |
| `LazySync.InitOverUsed` | src/pthreads.cpp:317-319 | that store orphans an object exactly when the word is initialised |
| `LazySync.DestroyOk` | src/pthreads.cpp:322-327 | a destroy hands the host only a live object, lets woken waiters leave, and leaves an object never used alone |
| `LazySync.DestroyUnderUse` | src/pthreads.cpp:327-329 | whatever the host's destroy said, the object is freed, and a thread that still has its pointer then uses a dead object |
| `LazySync.DestroyStepOk` | src/pthreads.cpp:328-329 | the store of a destroy brings back an unused object, of the static kind where the header survives |
| `LazySync.CallStepOk` | src/pthreads.cpp:333-346 | a host call on what `to_host` returned, or either half of a wait, is one on the one object |
| `LazySync.StepOk` | src/pthreads.cpp:34-105 | every step of every thread keeps the invariant, keeps the header and is a step of the object created in advance |
| `LazyRuns.RunInv` | src/pthreads.cpp:34-105 | the invariant holds in every reachable state and the header never changes |
| `LazyRuns.RunIsSafe` | src/pthreads.cpp:57-62 | no run reaches the unaligned or the lost-race error, uses a dead object or frees twice; what `to_host` returned is live and published, and what a thread has yet to store or free is live and its own |
| `LazyRuns.RunRefines` | src/pthreads.h:90-116 | every run, with its calls and their results, is a run of one host object that was there from the start |
| `LazyRuns.WordStable` | src/pthreads.cpp:53-62 | once a pointer, the word does not change before a destroy |
| `LazyRuns.OneHostObject` | src/pthreads.h:91-98 | all threads that finish `to_host` between two destroys get the same object |
| `LazyRuns.RunKind` | src/pthreads.cpp:322-331 | the kind of the mutex after any run, through inits and destroys, for both layouts |
| `LazyRuns.ReadyKind` | src/pthreads.cpp:41-46 | the mutex a thread gets has the kind of the initial word, or of the last init or destroy since |
| `LazyRuns.StaticKind` | src/pthreads.cpp:41-46 | with no init or destroy in the run, in both layouts, a thread gets an error-checking mutex exactly for the initial word 0x8000, a recursive one exactly for 0x4000, else a normal one |
| `LazyRuns.KindSince` | src/pthreads.cpp:307-331 | after the last init the kind asked for; after the last destroy a normal mutex on ILP32 and the one of the header on LP64 |
| `LazyRuns.WaitFree` | src/pthreads.h:90-116 | however the threads interleave, each of a thread's own steps in `to_host` brings it closer to the end, which is at most six steps away |
| `LazySync.LazyEnabled` | src/pthreads.h:90-116 | inside `to_host` a thread has a step, whatever the others have done |
| `LazySync.LifeEnabled` | src/pthreads.cpp:307-331 | so has a thread in an explicit init, and in a destroy once woken waiters have left |
| `LazyRuns.WrongKindLoses` | src/pthreads.h:97-97 | a thread whose mutex is of another kind than the guest's finds that the word has become a pointer |
| `LazyCases.WrongKindReached` | src/pthreads.h:91-98 | a run of two threads in which the second reads a pointer as the kind and builds a normal mutex for a recursive one |
| `LazyCases.DeadlockDetected` | src/pthreads.cpp:45-46 | a run from the initialiser 0x8000 in which a thread's second lock returns EDEADLK |
| `LazyCases.KindForgotten` | src/pthreads.cpp:322-331 | a run of a 32-bit recursive mutex through use, destroy and use, after which it is a normal one |
| `LazyRuns.LiveObjects` | src/pthreads.cpp:34-105 | the live objects are the published one and those of threads in an init or a destroy |
| `LazyRuns.RunConserves` | src/pthreads.cpp:307-331 | in every reachable state allocations equal frees plus the published object plus one per thread inside an init or a destroy or ended by a refused lazy init |
| `LazyRuns.GainStep` | src/pthreads.cpp:333-346 | the count the object keeps for a thread moves with the results its calls return |
| `LazyRuns.RunHolds` | src/pthreads.cpp:333-346 | what a thread's returned calls add up to is how often the object says it holds the mutex |
| `LazyRuns.MutualExclusion` | src/pthreads.cpp:333-346 | by the results of their calls and the halves of their waits, no two threads hold the mutex at once in any run |
| `LazyRuns.QueuedIsPublished` | src/pthreads.h:100-107 | nobody waits on a host condition variable other than the published one |
| `LazyRuns.SignalWakesSomeone` | src/pthreads.cpp:394-407 | a signal takes exactly one waiter off if any thread waits anywhere, a broadcast takes all, a wait adds the caller, a waiter that goes on removes itself |
| `CondWait.JointExclusion` | src/pthreads.cpp:394-397 | in every run of a condition variable and its mutex, both lazily created, at most one thread holds the mutex |
| `CondWait.StaysQueued` | src/pthreads.cpp:394-407 | from its wait on, a thread is queued until a signal, a broadcast or its own leaving |
| `CondWait.NoLostWakeup` | src/pthreads.cpp:394-407 | who gets the mutex after a waiter's look at its condition does so after the waiter was queued, and the first signal or broadcast finds it queued |
| `CondWait.CanWait` | src/pthreads.cpp:394-397 | in every state the invariant allows, a thread that holds the mutex once can wait, and then is queued and holds nothing |
| `CondWait.CanLeave` | src/pthreads.cpp:394-397 | a waiter can always leave the queue |
| `CondWait.CanRetake` | src/pthreads.cpp:394-397 | then, when nobody holds the mutex, it can take it again |
| `CondWait.CanSignal` | src/pthreads.cpp:394-407 | a signal can always be given, and can take any waiter off the queue |
| `RwRuns.RunRwHolds` | src/pthreads.cpp:584-588 | what a thread's returned read, write and release calls add up to is how often the read-write lock says it holds it, in any run |
| `RwRuns.WriterExclusion` | src/pthreads.cpp:584-588 | from a write lock to its holder's next release no other thread holds the lock to read or write, and nobody held it before |
| `RwRuns.CanRead` | src/pthreads.cpp:584-588 | a read lock can be had while nobody writes |
| `RwRuns.CanWrite` | src/pthreads.cpp:584-588 | a write lock can be had while nobody holds the lock |
| `Once.StepKeepsInv` | src/pthreads.cpp:498-514 | every step keeps the invariant, moves the control word by at most one and counts each start |
| `Once.ControlClimbs` | src/pthreads.cpp:498-514 | over any run the control word only climbs from 0 to 2 |
| `Once.OnceOnly` | src/pthreads.cpp:498-514 | the routine starts at most once, and who returns does so after it finished |
| `Once.StepDecreases` | src/pthreads.cpp:510-512 | each step of a call lessens what is left to do, but for a spin that still reads 1, which changes nothing |
| `Once.NeverStuck` | src/pthreads.cpp:498-514 | while a call is not back, some call can take a step that changes something |
| `Once.AllReturn` | src/pthreads.cpp:498-514 | every run has a continuation in which all calls that came in are back |
| `Once.EffectiveCounts` | src/pthreads.cpp:498-514 | the steps counted as doing something are those after which the state differs |
| `Once.BoundedWork` | src/pthreads.cpp:498-514 | however calls interleave, a fixed number of steps do anything at all |
| `Cleanup.Holder.Push` | src/pthreads.cpp:485-490 | the frame goes on top of the stack with its handler |
| `Cleanup.Holder.Pop` | src/pthreads.cpp:492-496 | the stack drops to below the frame; its handler is called if asked for |
| `Cleanup.Holder.Destroy` | src/pthreads.cpp:26-32 | the walk ends and calls every remaining handler once, last in first |
| `Cleanup.Run` | src/pthreads.cpp:485-496 | a balanced run restores the stack; an exit leaves exactly the handlers still due above it |
| `Cleanup.RunThread` | src/pthreads.cpp:26-32 | a whole thread calls the same handlers in the same order as a definition by structure that has no stack |
| `Sockaddr.FromHost` | src/network.cpp:119-142 | writes the guest form of the address and no other byte; an unknown family is an error and writes nothing |
| `Sockaddr.ReadsExact` | src/network.cpp:119-167 | a reader takes bytes for an address exactly when they are the guest's structure, field by field at its offset |
| `Sockaddr.BionicLenIs` | src/network.cpp:180-189 | the length is 110, 16 or 28 exactly for UNIX, INET and INET6, and none otherwise |
| `Sockaddr.WritesBelowLen` | src/network.cpp:180-189 | every byte written lies below the length announced for the family |
| `Sockaddr.HostRoundTrip` | src/network.cpp:119-167 | host to guest and back is the identity, whatever the buffer held |
| `Sockaddr.GuestRoundTrip` | src/network.cpp:119-167 | guest to host and back keeps every address byte of UNIX, INET and INET6 |
| `Sockaddr.Apply` | src/network.h:246-251 | writes only within the caller's length, or nothing and an error when that is too small or the family has no guest form |
| `AddrInfo.Fill` | src/network.cpp:191-208 | fails exactly for entries that do not translate, and then before any buffer was allocated; else the node shows the translation |
| `AddrInfo.Link` | src/network.cpp:209-210 | a filled node goes in front of a list it shares nothing with |
| `AddrInfo.FromHostAlloc` | src/network.cpp:191-220 | no error escapes; the nodes are copies, one to one and in order, of exactly the entries with a type, protocol and address the guest knows, field by field and by the guest's numbers, and are all the heap grew by |
| `AddrInfo.ShownIsCopies` | src/network.cpp:81-104 | a list that shows the translation has SOCK_STREAM, SOCK_DGRAM, SOCK_RAW for 1, 2, 3, the protocols 0, 6, 17, 41, the families 1, 2, 10, 16, the three flags, and each entry's own address and name |
| `AddrInfo.FreeBionicList` | src/network.cpp:222-230 | frees each node and buffer of the list once and nothing else |
| `Hints.FillHost` | src/network.cpp:232-248 | fails exactly for hints without a host form, and then before the address buffer was allocated |
| `Hints.ToHostAlloc` | src/network.cpp:232-252 | builds a copy of every hint, in order and number by number, when each has a host form, else leaves behind exactly the nodes up to the first that has not |
| `Hints.LeadingAt` | src/network.cpp:232-252 | the conversion goes hint by hint up to the first without a host form |
| `Hints.FreeHostList` | src/network.cpp:254-261 | frees each node and address buffer once and nothing else |
| `Hints.TranslateExact` | src/network.cpp:90-97 | exactly which hints have a host form |
| `Hints.HintsWithoutHostForm` | src/network.cpp:232-244 | two hints that have none |
| `Hints.GetAddrInfo` | src/network.cpp:375-385 | the outcome for every mix of hints and host answers, and what stays allocated: copies of the host's entries the guest can be told of, nothing, or the nodes lost to a failed hint |
| `IfAddrs.CopyEntry` | src/network.cpp:423-546 | one round: a copy of the entry, with buffers of its own, goes behind the last node |
| `IfAddrs.Append` | src/network.cpp:538-544 | through the tail pointer alone the new node becomes the last of the list |
| `IfAddrs.GetIfAddrs` | src/network.cpp:413-550 | the list holds copies of exactly the host's entries with an address of family 2 or 10, in order, each with its address, name, defined flags, and its netmask exactly if of such a family; nothing is shared, and it is all the heap grew by; a failure writes nothing |
| `IfAddrs.ShownIsCopies` | src/network.cpp:423-435 | a list that shows the filtered and mapped entries holds those copies |
| `IfAddrs.FreeIfAddrs` | src/network.cpp:552-567 | ends, and frees every node and buffer once and nothing else |
| `IfConf.KeptAt` | src/file_misc.cpp:103-114 | an IPv4 record is found behind exactly the IPv4 records before it |
| `IfConf.CopyRecords` | src/file_misc.cpp:102-114 | the array holds the first IPv4 records there is room for, in order, and behind them the name of the last record if that was not kept and there is room |
| `IfConf.GetConf` | src/file_misc.cpp:92-118 | the length covers the records kept; a failure changes nothing and leaves the host buffer allocated |
| `Mmsg.ReportedExact` | src/network.cpp:605-614 | the number returned is the number of messages exactly while that is an `int` |
| `Mmsg.SendMmsg` | src/network.cpp:605-614 | exactly the messages before the first failure have their length stored, and the result reports them |
| `Mmsg.RecvMmsg` | src/network.cpp:646-703 | exactly the slots before the first failure, timeout or bad address are filled, in order, with the message's length modulo 2^32, flags, no control data, and its sender and the size of its form where a name is asked for; the others are unchanged |
| `Mmsg.FilledMeans` | src/network.cpp:677-700 | a message cannot be reported exactly when a name is asked for and its family has no guest form or one larger than the room |
| `Mmsg.MinusOneMeansNothing` | src/network.cpp:667-700 | -1 comes back exactly when the host refused the first message |
| `IoRewrite.FirstMatch` | src/iorewrite.h:5-19 | only the first rule that fires counts, which is one for `.` and a relative path, or whose source is a prefix of the path and not of its own target; and what it does to the path |
| `IoRewrite.ScanIs` | src/iorewrite.h:5-19 | the scan by substring search gives just that, over plain prefixes |
| `IoRewrite.Unchanged` | src/iorewrite.h:5-19 | when a path stays as it is |
| `IoRewrite.Idempotent` | src/iorewrite.h:5-19 | with absolute targets that no active source overlaps, a second rewrite changes nothing |
| `IoRewrite.TableExact` | src/iorewrite.h:5-19 | a table may be applied twice to every path exactly when that is so for each rule's head alone, with one more character, and with what makes another source fire on its target |
| `IoRewrite.SingleRuleExact` | src/iorewrite.h:9-14 | a single rule may be applied twice to every path exactly when its target is no proper prefix of its source, or for `.` is absolute or empty |
| `IoRewrite.SingleBreaks` | src/iorewrite.h:12-14 | for every other rule, a path on which the second rewrite goes further |
| `IoRewrite.Open3Exact` | src/file_misc.cpp:163-168 | both rewrites together open what one would exactly when no rule fires on the result of the first, or only `.` with nothing to add |
| `IoRewrite.Open3Differs` | src/file_misc.cpp:263-263 | a rule and a path for which they open something else |
| `ErrnoTable.TablesAgree` | src/errno.cpp:53-356 | the two switches list the same pairs of constant and code, on Linux and elsewhere |
| `ErrnoLinux.LinuxIdentity` | src/errno.cpp:53-356 | on a host with Linux's own errno numbers both translations change no value at all |
| `ErrnoLinux.LinuxExists` | src/errno.cpp:53-356 | there is such a host: its numbers give every constant its listed code |
| `ErrnoLinux.Elsewhere` | src/errno.cpp:97-352 | elsewhere each constant has the same code, but for those of Linux alone, which have none |
| `ErrnoMirror.MutualInverse` | src/errno.cpp:53-356 | the two translations undo each other on the tabled codes and on the constants' numbers, whatever those are |
| `ErrnoMirror.RoundTripExact` | src/errno.cpp:53-356 | there and back keeps a value exactly when it is a tabled code or no number of a constant; a value without a label passes each translation unchanged |
| `ErrnoMirror.Errno.Wrapper` | src/errno.h:50-67 | sync, call, exception to EINVAL and -1, and update on the way out are one step of the two cells |
| `ErrnoMirror.RunsAsOneErrno` | src/errno.cpp:24-39 | over any run of stores, `set_errno`, wrapped calls, opens and bare calls the guest's cell is one errno, the host's stands for what is held back, and they agree after a wrapped call or an open |
| `ErrnoMirror.ReportedAt` | src/errno.h:50-67 | what was last reported, and that it is what is held back while no bare call has set errno since |
| `ErrnoMirror.OpenKeepsExact` | src/file_misc.cpp:124-168 | after any run a successful open keeps errno exactly when it is what the host holds back |
| `ErrnoMirror.OpenKeepsReported` | src/file_misc.cpp:124-168 | while no bare call has set errno since it was reported, exactly when it still is what was reported |
| `ErrnoMirror.BareErrorSurfaces` | src/cstdio.cpp:174-174 | an error of a bare call stays hidden and comes out of the next successful open |
| `ErrnoMirror.StaleErrno` | src/file_misc.cpp:124-168 | a run in which an open brings an old error back |
| `SetJmp.Cookie.Get` | src/bionic/setjmp_cookie.c:35-48 | with one thread, the first use draws the cookie; the word carries the flag; other flags abort |
| `CookieRace.AloneIsAtomic` | src/bionic/setjmp_cookie.c:40-48 | with nobody else inside, the separate steps do just that, abort exactly on other flags, and else leave the cookie settled unless it is 0 |
| `CookieRace.FlagsCameIn` | src/bionic/setjmp_cookie.c:35-48 | in any run a saved word carries the flag its call came with, and there is no abort unless some call came with another flag than 0 and 1 |
| `SetJmp.CookieRun` | src/bionic/setjmp_cookie.c:40-48 | with one thread, a cookie that is not 0 never changes again |
| `SetJmp.SavedWordPasses` | src/bionic/setjmp_cookie.c:35-56 | with one thread, a saved word passes after any further setjmps exactly when its cookie is not 0 or the cookie still is |
| `CookieRace.SettledExact` | src/bionic/setjmp_cookie.c:40-48 | it can never change again exactly when there is one and no call is between its test and its store |
| `CookieRace.SavedPassesExact` | src/bionic/setjmp_cookie.c:40-56 | when the word a call saves passes the check throughout a given run, and throughout every run |
| `CookieRace.RaceBreaks` | src/bionic/setjmp_cookie.c:40-56 | two racing first calls, after which the buffer of one fails |
| `SetJmp.CookieIsZero` | src/bionic/setjmp_cookie.c:35-39 | the cookie is 0 exactly while every draw was 0 or 1 |
| `SetJmp.ZeroCookieBreaks` | src/bionic/setjmp_cookie.c:35-56 | draws after which a second setjmp spoils the buffer of the first |
| `SetJmp.ChecksumExact` | src/bionic/arch-x86/setjmp.S:73-78 | the checksum takes a changed buffer exactly when the changes to its registers cancel |
| `SetJmp.OneRegisterChanged` | src/bionic/arch-x86/setjmp.S:73-78 | it takes no change to a single register word |
| `SetJmp.Machine.SaveRegisters` | src/bionic/arch-x86/setjmp.S:134-143 | the buffer gets the mangled registers and the machine keeps the plain ones |
| `SetJmp.Machine.SigSetjmp` | src/bionic/arch-x86/setjmp.S:94-150 | saves the caller's registers, mask and checksum under the cookie and returns 0 with every saved register as it was |
| `SetJmp.MaskComesBackExact` | src/bionic/arch-x86/setjmp.S:166-174 | the saved mask comes back for every mask at the jump exactly on a host where 2 sets the mask |
| `SetJmp.UnblockExact` | src/bionic/arch-x86/setjmp.S:166-174 | where 2 unblocks, signal by signal what the mask becomes, and that it is the saved one only if both masks are empty |
| `SetJmp.BlockedSignalLetThrough` | src/bionic/arch-x86/setjmp.S:166-174 | a signal blocked at both calls and let through after the jump |
| `SetJmp.Machine.SigLongjmp` | src/bionic/arch-x86/setjmp.S:152-211 | aborts exactly on a bad checksum or cookie, else hands the saved mask to the host and resumes where the buffer was saved with a value that is not 0 |
| `SetJmp.SavedFits` | src/bionic/arch-x86/setjmp.S:60-78 | mangling and summing words of n bits gives words of n bits |
| `SetJmp.SetThenJump` | src/bionic/arch-x86/setjmp.S:94-211 | whatever runs in between, further setjmps included, the jump restores return address and registers, makes of the mask what the host does with the saved one, and aborts exactly when the cookie was 0 and has been drawn since |
| `PollSelect.TimeoutExact` | src/file_misc.cpp:195-197 | the time value is the timeout, and valid exactly when that is not negative; else both its parts are at most 0 |
| `PollSelect.BuildSets` | src/file_misc.cpp:199-212 | overruns the sets exactly when a descriptor is out of range, else asks select for exactly what the entries want, up to the largest descriptor |
| `PollSelect.PollViaSelect` | src/file_misc.cpp:193-224 | unless a descriptor overruns the sets, select is asked for what the entries want, each entry has POLLIN, POLLOUT and POLLERR exactly by the three result sets, no other bit and the rest unchanged, and the return value is select's |
| `PollSelect.ReturnValue` | src/file_misc.cpp:193-224 | on success, with distinct descriptors, the result counts the reported bits |
| `PollSelect.CountsEntriesExact` | src/file_misc.cpp:204-223 | it is the number of ready entries for every answer of select exactly when no two entries share a descriptor and none asks for data |
| `PollSelect.SharedCountsOnce` | src/file_misc.cpp:204-223 | for any two entries on one descriptor, an answer of select for which it is not |
| `PollSelect.CountsTwice` | src/file_misc.cpp:204-223 | for any entry that does, an answer of select for which it is not |
| `Strlcpy.StrLenIsFirst` | src/bionic/strlcpy.cpp:28-49 | the length of a string is the position of its first NUL |
| `Strlcpy.StrlCpy` | src/bionic/strlcpy.cpp:28-49 | returns the source's length, writes as much as fits and a NUL, and nothing else; both loops end |
| `TzFormat.Decompose` | src/common.cpp:696-700 | hours, minutes and seconds add up to the offset's size, minutes and seconds below 60 |
| `TzFormat.TzRoundTrip` | src/common.cpp:696-703 | by section 8.3 of the POSIX.1-2017 Base Definitions the printed value is read exactly when the first five letters of the zone make a name and there are not too many hours, and then as that name and exactly the negated offset |
| `TzFormat.TzShape` | src/common.cpp:701-702 | below a hundred hours the offset is a sign, a minus exactly east of Greenwich, and hours, minutes and seconds in two digits each between colons |
| `TzFormat.TzHours` | src/common.cpp:696-703 | by the standard's bound of 24 that is below 25 hours, and below a hundred for a reader that takes two digits |
| `TzFormat.TzFits` | src/common.cpp:701-702 | below a hundred hours at most 17 of the 20 bytes are used; with a full name they suffice exactly up to five digits of hours |

## Left out

- The symbol tables, function-pointer registration, argument rewriting and variadic or hard-float plumbing: build-time wiring.
- The host kernel and library: their calls are steps, parameters or methods with a stated contract.
- Weak memory orderings: steps interleave sequentially consistently.
- The one-branch maps of enumerations and flags, `sysconf`, stat and stdio forwarding, scheduler and signal stubs, system properties and macOS compatibility: they would add only easy members.
- Destroy concurrent with use, init over a live object, a once routine that throws, and memory running out: outside the contract.
- LazySync.InitStepOk: within a run requires a word that is not initialised; `LazySync.InitOverUsed` says what the store does to one that is.
- LazySync.DestroyOk: requires an object that is not in use and nobody else inside but woken waiters, as POSIX does; `LazySync.DestroyUnderUse` says what happens otherwise.
- LazySync.AllocateOk: the thread a refused host init ends makes no further step; where its exception goes is not modelled.
- CondWait.NoLostWakeup: that queueing and letting go of the mutex are one step is the host's promise.
- LazyRuns.SignalWakesSomeone: a queued thread may also leave by a timeout or a spurious wakeup, so nothing is said about when a thread wakes.
- Once.BoundedWork: fairness itself is not modelled; the lemma bounds the steps that do anything, and `Once.NeverStuck` says one is always possible.
- ErrnoMirror.MutualInverse: the switches stand block by block of codes; concerns builds that translate errno; elsewhere both cells are one.
- SetJmp.Machine.SigSetjmp: words are natural numbers, bounded by `SetJmp.SavedFits`; the signal mask is one word, as on Darwin; one thread at a time asks for the cookie, and several are the subject of `CookieRace` alone; pushes and pops around the C calls cancel and are not steps.
- setjmp for processors other than 32-bit x86.
- AddrInfo.FromHostAlloc: flags, families and protocols are named, not numbered, on the host side; the host frees its own list.
- Hints.ToHostAlloc: a hint's canonical name is borrowed, not copied, and is not modelled; host addresses have the Linux layout.
- IfAddrs.GetIfAddrs: an address buffer is an immutable object once filled, and all node fields but the link are constant; the host frees its own list.
- IfConf.GetConf: records have a fixed size or their own, which only decides how the host's records are walked; the host's copy of a record, written back after conversion, is not modelled.
- Mmsg.RecvMmsg: the wait time that remains is the host's; the plain `recvmsg`, which compares with the length the host wrote, is not modelled.
- PollSelect.PollViaSelect: what a write past the sets does is not modelled. After a failed select the entries report the sets that were asked for, as the code does.
- Strlcpy.StrlCpy: the two buffers are different arrays; overlap is outside its contract.
