/** Runs of a 32-bit mutex that show what the theorems about all runs allow. */
module LazyCases {
  import opened Bits
  import opened HostSync
  import opened LazyRuns
  import opened LazySync
  import opened Wrappers
  import Payload

  ghost predicate Mutex32(c: Config) {
    c.layout.Ilp32? && c.sort.MutexSort? && InMemory(c)
  }

  /** A statically initialised recursive mutex. */
  function Fresh(): State {
    State(RECURSIVE_INIT, 0, map[], map[], 0, 0, false)
  }

  // ---- Paths ------------------------------------------------------------------------

  ghost predicate Steps(c: Config, ss: seq<State>, es: seq<Event>) {
    |ss| == |es| + 1 && forall i :: 0 <= i < |es| ==> Step(c, ss[i], es[i], ss[i + 1])
  }

  ghost predicate Path(c: Config, s: State, es: seq<Event>, s': State) {
    exists ss :: Steps(c, ss, es) && ss[0] == s && ss[|es|] == s'
  }

  lemma PathNone(c: Config, s: State)
    ensures Path(c, s, [], s)
  {
    assert Steps(c, [s], []);
  }

  lemma PathJoin(c: Config, s: State, es: seq<Event>, s1: State, fs: seq<Event>, s2: State)
    requires Path(c, s, es, s1) && Path(c, s1, fs, s2)
    ensures Path(c, s, es + fs, s2)
  {
    var ss :| Steps(c, ss, es) && ss[0] == s && ss[|es|] == s1;
    var ts :| Steps(c, ts, fs) && ts[0] == s1 && ts[|fs|] == s2;
    StepsJoin(c, ss, es, ts, fs);
  }

  lemma StepsJoin(c: Config, ss: seq<State>, es: seq<Event>, ts: seq<State>, fs: seq<Event>)
    requires Steps(c, ss, es) && Steps(c, ts, fs) && ss[|es|] == ts[0]
    ensures Steps(c, ss + ts[1..], es + fs)
  {
    var us, gs := ss + ts[1..], es + fs;
    forall i | 0 <= i < |gs|
      ensures Step(c, us[i], gs[i], us[i + 1])
    {
      if i < |es| {
        OneStep(c, ss, es, i, us[i], us[i + 1]);
      } else {
        OneStep(c, ts, fs, i - |es|, us[i], us[i + 1]);
      }
    }
  }

  lemma OneStep(c: Config, ss: seq<State>, es: seq<Event>, i: nat, s: State, s': State)
    requires Steps(c, ss, es) && i < |es| && s == ss[i] && s' == ss[i + 1]
    ensures Step(c, s, es[i], s')
  {
  }

  lemma PathOne(c: Config, s: State, e: Event, s': State)
    requires Step(c, s, e, s')
    ensures Path(c, s, [e], s')
  {
    var ss := [s, s'];
    assert Steps(c, ss, [e]);
  }

  lemma PathMore(c: Config, s: State, es: seq<Event>, s1: State, e: Event, s2: State)
    requires Path(c, s, es, s1) && Step(c, s1, e, s2)
    ensures Path(c, s, es + [e], s2)
  {
    PathOne(c, s1, e, s2);
    PathJoin(c, s, es, s1, [e], s2);
  }

  lemma PathTau(c: Config, s: State, es: seq<Event>, s1: State, t: Thread, addr: Word, s2: State)
    requires Path(c, s, es, s1) && LazyStep(c, s1, t, addr, s2)
    ensures Path(c, s, es + [Tau(t)], s2)
  {
    PathMore(c, s, es, s1, Tau(t), s2);
  }

  lemma PathLife(c: Config, s: State, es: seq<Event>, s1: State, t: Thread, s2: State)
    requires Path(c, s, es, s1) && LifeStep(c, s1, t, 0, false, s2)
    ensures Path(c, s, es + [Tau(t)], s2)
  {
    PathMore(c, s, es, s1, Tau(t), s2);
  }

  lemma PathCall(c: Config, s: State, es: seq<Event>, s1: State, t: Thread, op: Op, a: Word, o: HostObj)
    requires PcOf(s1, t) == Ready(op, a) && !Parks(op) && a in s1.heap && HostStep(s1.heap[a], t, op, Success, o)
    requires Path(c, s, es, s1)
    ensures Path(c, s, es + [HostCall(t, op, Success)], At(s1.(heap := s1.heap[a := o]), t, Idle))
  {
    PathMore(c, s, es, s1, HostCall(t, op, Success), At(s1.(heap := s1.heap[a := o]), t, Idle));
  }

  // ---- Reading the kind too late ------------------------------------------------------

  function Both(p: Pc, q: Pc): State {
    Fresh().(pcs := map[1 := p, 2 := q])
  }

  lemma BothBegin(c: Config) returns (es: seq<Event>)
    requires Mutex32(c)
    ensures Path(c, Fresh(), es, Both(Load(Lock), Load(Lock))) && Harmless(es)
  {
    var s := At(Fresh(), 1, Load(Lock));
    PathOne(c, Fresh(), Begin(1, Lock), s);
    es := [Begin(1, Lock)];
    PathMore(c, Fresh(), es, s, Begin(2, Lock), Both(Load(Lock), Load(Lock)));
    es := es + [Begin(2, Lock)];
  }

  /** Threads 1 and 2 both load the static initialiser. */
  lemma BothLoad(c: Config) returns (es: seq<Event>)
    requires Mutex32(c) && !Initialized(c, RECURSIVE_INIT)
    ensures Path(c, Fresh(), es, Both(ReadKind(Lock, RECURSIVE_INIT), ReadKind(Lock, RECURSIVE_INIT)))
    ensures Harmless(es)
  {
    var l, r := Load(Lock), ReadKind(Lock, RECURSIVE_INIT);
    es := BothBegin(c);
    PathTau(c, Fresh(), es, Both(l, l), 1, 0, Both(r, l));
    es := es + [Tau(1)];
    PathTau(c, Fresh(), es, Both(r, l), 2, 0, Both(r, r));
    es := es + [Tau(2)];
  }

  /** Thread 1 has published its mutex; thread 2 is where it was. */
  function OnePublished(a: Word, q: Pc): State {
    State(a, 0, map[a := Mutex(Recursive, None, 0)], map[1 := Ready(Lock, a), 2 := q], 1, 0, false)
  }

  /** Thread 1 has built its mutex. */
  function OneBuilt(a: Word): State {
    var q := Both(Publish(Lock, RECURSIVE_INIT, a), ReadKind(Lock, RECURSIVE_INIT));
    q.(heap := map[a := Mutex(Recursive, None, 0)], allocs := 1)
  }

  lemma FirstBuilds(c: Config, a: Word) returns (es: seq<Event>)
    requires Mutex32(c) && Initialized(c, a)
    ensures Path(c, Both(ReadKind(Lock, RECURSIVE_INIT), ReadKind(Lock, RECURSIVE_INIT)), es, OneBuilt(a))
    ensures Harmless(es)
  {
    var r, w := ReadKind(Lock, RECURSIVE_INIT), RECURSIVE_INIT;
    var s, s1 := Both(r, r), Both(Allocate(Lock, w, w), r);
    PathNone(c, s);
    PathTau(c, s, [], s, 1, 0, s1);
    es := [] + [Tau(1)];
    PathTau(c, s, es, s1, 1, a, OneBuilt(a));
    es := es + [Tau(1)];
  }

  lemma FirstPublishes(c: Config, a: Word) returns (es: seq<Event>)
    requires Mutex32(c) && Initialized(c, a)
    ensures Path(c, Both(ReadKind(Lock, RECURSIVE_INIT), ReadKind(Lock, RECURSIVE_INIT)), es,
                 OnePublished(a, ReadKind(Lock, RECURSIVE_INIT)))
    ensures Harmless(es)
  {
    var r := ReadKind(Lock, RECURSIVE_INIT);
    es := FirstBuilds(c, a);
    PathTau(c, Both(r, r), es, OneBuilt(a), 1, 0, OnePublished(a, r));
    es := es + [Tau(1)];
  }

  /** The late reader when it is about to publish. */
  function LateState(a: Word, b: Word): State {
    State(a, 0, map[a := Mutex(Recursive, None, 0), b := Mutex(Normal, None, 0)],
          map[1 := Ready(Lock, a), 2 := Publish(Lock, RECURSIVE_INIT, b)], 2, 0, false)
  }

  /** Thread 2 reads the address as the kind and builds a normal mutex. */
  lemma SecondBuilds(c: Config, a: Word, b: Word) returns (es: seq<Event>)
    requires Mutex32(c) && a != b && Initialized(c, a) && Initialized(c, b) && KindOf(a) == Normal
    ensures Path(c, OnePublished(a, ReadKind(Lock, RECURSIVE_INIT)), es, LateState(a, b)) && Harmless(es)
  {
    var s, s1 := OnePublished(a, ReadKind(Lock, RECURSIVE_INIT)), OnePublished(a, Allocate(Lock, RECURSIVE_INIT, a));
    PathNone(c, s);
    PathTau(c, s, [], s, 2, 0, s1);
    es := [] + [Tau(2)];
    PathTau(c, s, es, s1, 2, b, LateState(a, b));
    es := es + [Tau(2)];
  }

  lemma LateRead(c: Config, a: Word, b: Word) returns (es: seq<Event>)
    requires Mutex32(c) && !Initialized(c, RECURSIVE_INIT)
    requires a != b && Initialized(c, a) && Initialized(c, b) && KindOf(a) == Normal
    ensures Path(c, Fresh(), es, LateState(a, b)) && Harmless(es)
  {
    var s, s1 := Both(ReadKind(Lock, RECURSIVE_INIT), ReadKind(Lock, RECURSIVE_INIT)),
                 OnePublished(a, ReadKind(Lock, RECURSIVE_INIT));
    var fs := BothLoad(c);
    var gs := FirstPublishes(c, a);
    var hs := SecondBuilds(c, a, b);
    PathJoin(c, Fresh(), fs, s, gs, s1);
    PathJoin(c, Fresh(), fs + gs, s1, hs, LateState(a, b));
    es := fs + gs + hs;
  }

  lemma AtZero(c: Config)
    requires c == Config(Ilp32, MutexSort, 0)
    ensures Mutex32(c)
  {
    Pow2Grows(6, Payload.POINTER_BITS);
    assert Pow2(6) == 64;
  }

  lemma Addresses(c: Config, a: Word, b: Word)
    requires Mutex32(c) && a == 0x1_0000 && b == 0x2_0000
    ensures Initialized(c, a) && Initialized(c, b) && KindOf(a) == Normal && !Initialized(c, RECURSIVE_INIT)
  {
    StaticWords(c, a);
    StaticWords(c, b);
    StaticWords(c, RECURSIVE_INIT);
  }

  lemma RunOfPath(c: Config, es: seq<Event>, s: State) returns (ss: seq<State>)
    requires Mutex32(c) && !Initialized(c, RECURSIVE_INIT) && Path(c, Fresh(), es, s)
    ensures IsRun(c, ss, es) && ss[0] == Fresh() && ss[|es|] == s
  {
    ss :| Steps(c, ss, es) && ss[0] == Fresh() && ss[|es|] == s;
  }

  /** The race is reachable: a thread does build the wrong kind, and loses. */
  lemma WrongKindReached() returns (c: Config, ss: seq<State>, es: seq<Event>)
    ensures IsRun(c, ss, es) && c.sort.MutexSort?
    ensures var s := ss[|es|];
            && PcOf(s, 2).Publish? && PcOf(s, 2).own in s.heap
            && s.heap[PcOf(s, 2).own] != NewObj(c, KindAfter(c, ss[0].header, FirstKind(c, ss[0]), es))
            && s.word != PcOf(s, 2).expected
  {
    c := Config(Ilp32, MutexSort, 0);
    var a: Word, b: Word := 0x1_0000, 0x2_0000;
    AtZero(c);
    Addresses(c, a, b);
    es := LateRead(c, a, b);
    ss := RunOfPath(c, es, LateState(a, b));
    HarmlessKeepsKind(c, 0, Recursive, es);
  }

  // ---- Losing the kind ------------------------------------------------------------

  /** Thread 1 alone, at pc, with the word w and the mutex o at w, if any. */
  predicate Alone(s: State, pc: Pc, w: Word, heap: map<Word, HostObj>) {
    s.pcs == map[1 := pc] && s.word == w && s.heap == heap
  }

  /** It goes through to_host on an uninitialised word. */
  lemma FirstUse(c: Config, s: State, w: Word, op: Op, addr: Word) returns (es: seq<Event>, s': State)
    requires Mutex32(c) && !Initialized(c, w) && Initialized(c, addr) && Alone(s, Load(op), w, map[])
    ensures Path(c, s, es, s') && Alone(s', Ready(op, addr), addr, map[addr := Mutex(KindOf(w), None, 0)])
  {
    var s1, s2 := At(s, 1, ReadKind(op, w)), At(s, 1, Allocate(op, w, w));
    PathNone(c, s);
    PathTau(c, s, [], s, 1, 0, s1);
    es := [] + [Tau(1)];
    assert s2 == At(s1, 1, Allocate(op, w, w));
    PathTau(c, s, es, s1, 1, 0, s2);
    es := es + [Tau(1)];
    var fs: seq<Event>;
    fs, s' := Publishes(c, s2, w, op, addr);
    PathJoin(c, s, es, s2, fs, s');
    es := es + fs;
  }

  lemma Publishes(c: Config, s: State, w: Word, op: Op, addr: Word) returns (es: seq<Event>, s': State)
    requires Mutex32(c) && Initialized(c, addr) && Alone(s, Allocate(op, w, w), w, map[])
    ensures Path(c, s, es, s') && Alone(s', Ready(op, addr), addr, map[addr := Mutex(KindOf(w), None, 0)])
  {
    var s1 := At(Allocated(s, addr, Mutex(KindOf(w), None, 0)), 1, Publish(op, w, addr));
    PathNone(c, s);
    PathTau(c, s, [], s, 1, addr, s1);
    es := [] + [Tau(1)];
    s' := At(s1.(word := addr), 1, Ready(op, addr));
    PathTau(c, s, es, s1, 1, 0, s');
    es := es + [Tau(1)];
  }

  /** It locks the mutex and asks for the unlock. */
  lemma Locks(c: Config, s: State, a: Word, kind: Kind) returns (es: seq<Event>, s': State)
    requires c.sort.MutexSort? && Alone(s, Ready(Lock, a), a, map[a := Mutex(kind, None, 0)])
    ensures Path(c, s, es, s') && Alone(s', Load(Unlock), a, map[a := Mutex(kind, Some(1), 1)])
  {
    var held := Mutex(kind, Some(1), 1);
    PathNone(c, s);
    PathCall(c, s, [], s, 1, Lock, a, held);
    es := [] + [HostCall(1, Lock, Success)];
    var s1 := At(s.(heap := s.heap[a := held]), 1, Idle);
    s' := At(s1, 1, Load(Unlock));
    PathMore(c, s, es, s1, Begin(1, Unlock), s');
    es := es + [Begin(1, Unlock)];
  }

  lemma Unlocks(c: Config, s: State, a: Word, kind: Kind) returns (es: seq<Event>, s': State)
    requires Initialized(c, a) && Alone(s, Load(Unlock), a, map[a := Mutex(kind, Some(1), 1)])
    ensures Path(c, s, es, s') && Alone(s', Idle, a, map[a := Mutex(kind, None, 0)])
  {
    var s1 := At(s, 1, Ready(Unlock, a));
    PathNone(c, s);
    PathTau(c, s, [], s, 1, 0, s1);
    es := [] + [Tau(1)];
    PathCall(c, s, es, s1, 1, Unlock, a, Mutex(kind, None, 0));
    s' := At(s1.(heap := s1.heap[a := Mutex(kind, None, 0)]), 1, Idle);
    es := es + [HostCall(1, Unlock, Success)];
  }

  /** It destroys the free mutex. */
  lemma BeginsDestroy(c: Config, s: State, a: Word, kind: Kind) returns (es: seq<Event>, s': State)
    requires Initialized(c, a) && Alone(s, Idle, a, map[a := Mutex(kind, None, 0)])
    ensures Path(c, s, es, s') && Alone(s', DestroyHost(a), a, map[a := Mutex(kind, None, 0)])
  {
    var s1 := At(s, 1, DestroyLoad);
    PathOne(c, s, BeginDestroy(1), s1);
    es := [BeginDestroy(1)];
    s' := At(s1, 1, DestroyHost(a));
    PathLife(c, s, es, s1, 1, s');
    es := es + [Tau(1)];
  }

  lemma Destroys(c: Config, s: State, a: Word, kind: Kind) returns (es: seq<Event>, s': State)
    requires Alone(s, DestroyHost(a), a, map[a := Mutex(kind, None, 0)])
    ensures Path(c, s, es, s') && Alone(s', DestroyFree(a), 0, map[a := Mutex(kind, None, 0)])
  {
    var s1 := At(s.(fault := s.fault || a !in s.heap), 1, DestroyStore(a));
    PathNone(c, s);
    PathLife(c, s, [], s, 1, s1);
    es := [] + [Tau(1)];
    s' := At(s1.(word := 0), 1, DestroyFree(a));
    PathMore(c, s, es, s1, Destroyed(1), s');
    es := es + [Destroyed(1)];
  }

  /** It frees the object and asks for the lock again. */
  lemma LocksAgain(c: Config, s: State, a: Word, kind: Kind) returns (es: seq<Event>, s': State)
    requires c.sort.MutexSort? && Alone(s, DestroyFree(a), 0, map[a := Mutex(kind, None, 0)])
    ensures Path(c, s, es, s') && Alone(s', Load(Lock), 0, map[])
  {
    var s1 := At(Freed(s, a), 1, Idle);
    PathNone(c, s);
    PathLife(c, s, [], s, 1, s1);
    es := [] + [Tau(1)];
    s' := At(s1, 1, Load(Lock));
    PathMore(c, s, es, s1, Begin(1, Lock), s');
    es := es + [Begin(1, Lock)];
  }

  lemma FirstLock(c: Config, a: Word) returns (es: seq<Event>, s: State)
    requires Mutex32(c) && Initialized(c, a) && !Initialized(c, RECURSIVE_INIT)
    ensures Path(c, Fresh(), es, s) && Alone(s, Ready(Lock, a), a, map[a := Mutex(Recursive, None, 0)])
  {
    var s1 := At(Fresh(), 1, Load(Lock));
    PathOne(c, Fresh(), Begin(1, Lock), s1);
    es, s := FirstUse(c, s1, RECURSIVE_INIT, Lock, a);
    PathJoin(c, Fresh(), [Begin(1, Lock)], s1, es, s);
    es := [Begin(1, Lock)] + es;
  }

  /** The way of a mutex of any kind from its first lock to a lock after a
      destroy. */
  lemma UsedAgain(c: Config, s: State, a: Word, kind: Kind, b: Word) returns (es: seq<Event>, s': State)
    requires Mutex32(c) && Initialized(c, a) && Initialized(c, b) && !Initialized(c, 0)
    requires Alone(s, Ready(Lock, a), a, map[a := Mutex(kind, None, 0)])
    ensures Path(c, s, es, s') && Alone(s', Ready(Lock, b), b, map[b := Mutex(Normal, None, 0)])
  {
    var es1, s1 := Locks(c, s, a, kind);
    var es2, s2 := Unlocks(c, s1, a, kind);
    PathJoin(c, s, es1, s1, es2, s2);
    var es3, s3 := BeginsDestroy(c, s2, a, kind);
    PathJoin(c, s, es1 + es2, s2, es3, s3);
    var es4, s4 := Destroys(c, s3, a, kind);
    PathJoin(c, s, es1 + es2 + es3, s3, es4, s4);
    var es5, s5 := LocksAgain(c, s4, a, kind);
    PathJoin(c, s, es1 + es2 + es3 + es4, s4, es5, s5);
    es, s' := FirstUse(c, s5, 0, Lock, b);
    PathJoin(c, s, es1 + es2 + es3 + es4 + es5, s5, es, s');
    es := es1 + es2 + es3 + es4 + es5 + es;
  }

  /** A recursive mutex is used, destroyed and used again, and is a normal one. */
  lemma KindForgotten() returns (c: Config, ss: seq<State>, es: seq<Event>, i: nat)
    ensures IsRun(c, ss, es) && i <= |es| && ss[0].word == RECURSIVE_INIT
    ensures PcOf(ss[i], 1) == Ready(Lock, ss[i].word) && PcOf(ss[|es|], 1) == Ready(Lock, ss[|es|].word)
    ensures ss[i].heap == map[ss[i].word := Mutex(Recursive, None, 0)]
    ensures ss[|es|].heap == map[ss[|es|].word := Mutex(Normal, None, 0)]
  {
    c := Config(Ilp32, MutexSort, 0);
    var a: Word, b: Word := 0x1_0000, 0x2_0000;
    AtZero(c);
    Addresses(c, a, b);
    ZeroUninitialized(c);
    var fs, s := FirstLock(c, a);
    var gs, s' := UsedAgain(c, s, a, Recursive, b);
    i := |fs|;
    ss, es := Through(c, fs, s, gs, s');
  }

  /** A run that passes through s on its way to s'. */
  lemma Through(c: Config, fs: seq<Event>, s: State, gs: seq<Event>, s': State) returns (ss: seq<State>, es: seq<Event>)
    requires Mutex32(c) && !Initialized(c, RECURSIVE_INIT)
    requires Path(c, Fresh(), fs, s) && Path(c, s, gs, s')
    ensures es == fs + gs && IsRun(c, ss, es) && ss[0] == Fresh() && ss[|fs|] == s && ss[|es|] == s'
  {
    var rs :| Steps(c, rs, fs) && rs[0] == Fresh() && rs[|fs|] == s;
    var ts :| Steps(c, ts, gs) && ts[0] == s && ts[|gs|] == s';
    StepsJoin(c, rs, fs, ts, gs);
    ss, es := rs + ts[1..], fs + gs;
  }

  // ---- An error-checking mutex -------------------------------------------------------

  /** The lock of an error-checking mutex, and the begin of another. */
  lemma LocksOnce(c: Config, s: State, a: Word) returns (es: seq<Event>, s': State)
    requires c.sort.MutexSort? && Alone(s, Ready(Lock, a), a, map[a := Mutex(ErrorCheck, None, 0)])
    ensures Path(c, s, es, s') && Alone(s', Load(Lock), a, map[a := Mutex(ErrorCheck, Some(1), 1)])
  {
    var held := Mutex(ErrorCheck, Some(1), 1);
    PathNone(c, s);
    PathCall(c, s, [], s, 1, Lock, a, held);
    es := [] + [HostCall(1, Lock, Success)];
    var s1 := At(s.(heap := s.heap[a := held]), 1, Idle);
    s' := At(s1, 1, Load(Lock));
    PathMore(c, s, es, s1, Begin(1, Lock), s');
    es := es + [Begin(1, Lock)];
  }

  /** From that lock to the second one by the same thread. */
  lemma Relocks(c: Config, s: State, a: Word) returns (es: seq<Event>, s': State)
    requires Mutex32(c) && Initialized(c, a)
    requires Alone(s, Ready(Lock, a), a, map[a := Mutex(ErrorCheck, None, 0)])
    ensures Path(c, s, es, s') && Alone(s', Ready(Lock, a), a, map[a := Mutex(ErrorCheck, Some(1), 1)])
  {
    var s1;
    es, s1 := LocksOnce(c, s, a);
    s' := At(s1, 1, Ready(Lock, a));
    PathTau(c, s, es, s1, 1, 0, s');
    es := es + [Tau(1)];
  }

  lemma Refuses(c: Config, s: State, a: Word)
    requires Alone(s, Ready(Lock, a), a, map[a := Mutex(ErrorCheck, Some(1), 1)])
    ensures Step(c, s, HostCall(1, Lock, Deadlock), At(s, 1, Idle))
  {
    assert s.heap[a := Mutex(ErrorCheck, Some(1), 1)] == s.heap;
    assert HostStep(s.heap[a], 1, Lock, Deadlock, s.heap[a]);
  }

  lemma BeginsLock(c: Config, s: State)
    requires c.sort.MutexSort? && s.pcs == map[]
    ensures Path(c, s, [Begin(1, Lock)], At(s, 1, Load(Lock)))
  {
    PathOne(c, s, Begin(1, Lock), At(s, 1, Load(Lock)));
  }

  /** A mutex from 0x8000, locked twice by one thread: the second lock is refused. */
  lemma DeadlockDetected() returns (c: Config, first: State, es: seq<Event>, last: State)
    ensures Start(c, first) && c.sort.MutexSort? && c.layout.Ilp32? && first.word == 0x8000
    ensures Path(c, first, es, last) && es != [] && es[|es| - 1] == HostCall(1, Lock, Deadlock)
  {
    c := Config(Ilp32, MutexSort, 0);
    var a: Word, b: Word := 0x1_0000, 0x2_0000;
    AtZero(c);
    Addresses(c, a, b);
    StaticWords(c, ERRORCHECK_INIT);
    first := State(ERRORCHECK_INIT, 0, map[], map[], 0, 0, false);
    var s1 := At(first, 1, Load(Lock));
    BeginsLock(c, first);
    var fs, s2 := FirstUse(c, s1, ERRORCHECK_INIT, Lock, a);
    PathJoin(c, first, [Begin(1, Lock)], s1, fs, s2);
    var gs, s3 := Relocks(c, s2, a);
    PathJoin(c, first, [Begin(1, Lock)] + fs, s2, gs, s3);
    Refuses(c, s3, a);
    last := At(s3, 1, Idle);
    es := [Begin(1, Lock)] + fs + gs;
    PathMore(c, first, es, s3, HostCall(1, Lock, Deadlock), last);
    es := es + [HostCall(1, Lock, Deadlock)];
  }
}
