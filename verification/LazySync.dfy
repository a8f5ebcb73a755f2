/** Guest mutexes, condition variables and read-write locks, whose host object
    is created on first use.  Any number of threads interleave; one step is one
    access to shared memory, one allocation or one host call. */
module LazySync {
  import opened Bits
  import opened HostSync
  import opened Wrappers
  import Payload

  /** On ILP32 the host pointer overwrites the static initialiser; on LP64 it
      has a word of its own. */
  datatype Layout = Ilp32 | Lp64

  datatype Sort = MutexSort | CondSort | RwlockSort

  /** base is the address of the guest object. */
  datatype Config = Config(layout: Layout, sort: Sort, base: nat)

  type Word = nat

  const RECURSIVE_INIT: Word := 0x4000
  const ERRORCHECK_INIT: Word := 0x8000
  const INIT_MUTEX_MASK: nat := 0xFFFF_3FFF

  /** Whether a payload word is a host pointer. */
  predicate Initialized(c: Config, w: Word) {
    if c.layout.Ilp32? && c.sort.MutexSort? then BitAnd(w, INIT_MUTEX_MASK) != 0 else w != 0
  }

  function KindOf(init: Word): Kind {
    if init == RECURSIVE_INIT then Recursive
    else if init == ERRORCHECK_INIT then ErrorCheck
    else Normal
  }

  function NewObj(c: Config, kind: Kind): HostObj {
    match c.sort
    case MutexSort => Mutex(kind, None, 0)
    case CondSort => Cond({})
    case RwlockSort => Rwlock(None, multiset{})
  }

  /** Where a thread is: in to_host on behalf of op, holding the host object,
      in an explicit init, in a destroy, or in none of them. */
  datatype Pc =
    | Idle
    | Load(op: Op)
    | ReadKind(op: Op, expected: Word)
    | Allocate(op: Op, expected: Word, init: Word)
    | Publish(op: Op, expected: Word, own: Word)
    | Refused(own: Word)
    | Discard(op: Op, seen: Word, own: Word)
    | Adopt(op: Op, seen: Word)
    | Ready(op: Op, ptr: Word)
    | Waiting(ptr: Word)
    | InitAllocate(attr: Kind)
    | InitStore(attr: Kind, own: Word)
    | InitFree(own: Word)
    | DestroyLoad
    | DestroyHost(v: Word)
    | DestroyStore(v: Word)
    | DestroyFree(v: Word)
    | Failed

  /** word is the atomic payload word and header the untouched first word of an
      LP64 object; heap holds the live host objects.  fault is set by a host
      call on, or a free of, an address that is not live. */
  datatype State = State(word: Word, header: Word, heap: map<Word, HostObj>, pcs: map<Thread, Pc>,
                         allocs: nat, frees: nat, fault: bool)

  /** Inited and Destroyed are the stores an explicit init and a destroy make;
      HostCall is a call on the host object that returned. */
  datatype Event =
    | Begin(t: Thread, op: Op)
    | BeginInit(t: Thread, attr: Kind)
    | BeginDestroy(t: Thread)
    | Tau(t: Thread)
    | HostCall(t: Thread, op: Op, r: Ret)
    | Inited(t: Thread, attr: Kind)
    | Destroyed(t: Thread)

  function PcOf(s: State, t: Thread): Pc {
    if t in s.pcs then s.pcs[t] else Idle
  }

  function At(s: State, t: Thread, pc: Pc): State {
    s.(pcs := s.pcs[t := pc])
  }

  /** What reading data[0] gives. */
  function FirstWord(c: Config, s: State): Word {
    if c.layout.Ilp32? then s.word else s.header
  }

  predicate SlotAligned(c: Config) {
    if c.layout.Lp64? then Aligned(Payload.PayloadPointer(c.base), 3) else Aligned(c.base, 2)
  }

  /** Outside every call for good or for now. */
  predicate Out(pc: Pc) {
    pc.Idle? || pc.Refused?
  }

  predicate Destroying(pc: Pc) {
    pc.DestroyLoad? || pc.DestroyHost? || pc.DestroyStore? || pc.DestroyFree?
  }

  /** Where others may be while one thread is at pc: a destroy wants them out,
      except that waiters of a condition variable that have been woken may still
      be on their way until the host's destroy is over. */
  predicate Tolerates(c: Config, pc: Pc, other: Pc) {
    || !Destroying(pc) || Out(other)
    || (other.Waiting? && c.sort.CondSort? && (pc.DestroyLoad? || pc.DestroyHost?))
  }

  /** malloc gives an address that is not live and that reads as a pointer. */
  predicate Malloc(c: Config, s: State, addr: Word) {
    addr !in s.heap && Initialized(c, addr)
  }

  function Allocated(s: State, addr: Word, o: HostObj): State {
    s.(heap := s.heap[addr := o], allocs := s.allocs + 1)
  }

  function Freed(s: State, addr: Word): State {
    s.(heap := s.heap - {addr}, frees := s.frees + 1, fault := s.fault || addr !in s.heap)
  }

  // ---- Steps ----------------------------------------------------------------

  /** A call may start unless a destroy is going on; destroy waits for everyone
      else to be out and for the object not to be in use.  Whoever still waits on
      a condition variable that is not in use has been woken. */
  ghost predicate BeginStep(c: Config, s: State, e: Event, s': State)
    requires e.Begin? || e.BeginInit? || e.BeginDestroy?
  {
    && PcOf(s, e.t) == Idle
    && (forall u :: u in s.pcs ==> !Destroying(s.pcs[u]))
    && match e
       case Begin(t, op) => !Unparks(op) && Accepts(NewObj(c, Normal), op) && s' == At(s, t, Load(op))
       case BeginInit(t, attr) => s' == At(s, t, InitAllocate(attr))
       case BeginDestroy(t) =>
         && (forall u :: u in s.pcs && u != t ==> Tolerates(c, DestroyLoad, s.pcs[u]))
         && (Initialized(c, s.word) && s.word in s.heap ==> !InUse(s.heap[s.word]))
         && s' == At(s, t, DestroyLoad)
  }

  /** The internal steps of to_host and of the static initialisers.  When the
      host refuses to initialise the new object, an error ends the thread, and
      the object stays allocated. */
  predicate LazyStep(c: Config, s: State, t: Thread, addr: Word, s': State) {
    match PcOf(s, t)
    case Load(op) =>
      if Initialized(c, s.word) then s' == At(s, t, Ready(op, s.word))
      else if c.sort.MutexSort? then s' == At(s, t, ReadKind(op, s.word))
      else s' == At(s, t, Allocate(op, s.word, 0))
    case ReadKind(op, expected) => s' == At(s, t, Allocate(op, expected, FirstWord(c, s)))
    case Allocate(op, expected, init) =>
      if !SlotAligned(c) then s' == At(s, t, Failed)
      else Malloc(c, s, addr) &&
           var made := Allocated(s, addr, NewObj(c, KindOf(init)));
           s' == At(made, t, Publish(op, expected, addr)) || s' == At(made, t, Refused(addr))
    case Publish(op, expected, own) =>
      if s.word == expected then s' == At(s.(word := own), t, Ready(op, own))
      else s' == At(s, t, Discard(op, s.word, own))
    case Discard(op, seen, own) => s' == At(Freed(s, own), t, Adopt(op, seen))
    case Adopt(op, seen) => s' == At(s, t, if Initialized(c, seen) then Ready(op, seen) else Failed)
    case _ => false
  }

  /** The internal steps of an explicit init, which the host may refuse, and of a
      destroy, which does nothing to an object that was never used.  The host's
      destroy lets woken waiters leave first. */
  predicate LifeStep(c: Config, s: State, t: Thread, addr: Word, refused: bool, s': State) {
    match PcOf(s, t)
    case InitAllocate(attr) =>
      Malloc(c, s, addr) &&
      s' == At(Allocated(s, addr, NewObj(c, attr)), t, if refused then InitFree(addr) else InitStore(attr, addr))
    case InitFree(own) => s' == At(Freed(s, own), t, Idle)
    case DestroyLoad => s' == At(s, t, if Initialized(c, s.word) then DestroyHost(s.word) else Idle)
    case DestroyHost(v) =>
      && (forall u :: u in s.pcs && u != t ==> Out(s.pcs[u]))
      && s' == At(s.(fault := s.fault || v !in s.heap), t, DestroyStore(v))
    case DestroyFree(v) => s' == At(Freed(s, v), t, Idle)
    case _ => false
  }

  /** A host call on the pointer to_host returned. */
  ghost predicate CallStep(s: State, t: Thread, op: Op, r: Ret, s': State) {
    var pc := PcOf(s, t);
    && ((pc.Ready? && pc.op == op) || (pc.Waiting? && Unparks(op)))
    && var next := if Parks(op) then Waiting(pc.ptr) else Idle;
       if pc.ptr !in s.heap then s' == At(s.(fault := true), t, next)
       else exists o :: HostStep(s.heap[pc.ptr], t, op, r, o) &&
                        s' == At(s.(heap := s.heap[pc.ptr := o]), t, next)
  }

  /** The state after the store of an explicit init. */
  function Stored(s: State, t: Thread): State
    requires PcOf(s, t).InitStore?
  {
    At(s.(word := s.pcs[t].own), t, Idle)
  }

  /** An explicit init must not hit an object that is already in use. */
  predicate StoreStep(c: Config, s: State, e: Event, s': State)
    requires e.Inited? || e.Destroyed?
  {
    var pc := PcOf(s, e.t);
    match e
    case Inited(t, attr) =>
      pc.InitStore? && pc.attr == attr && !Initialized(c, s.word) && s' == Stored(s, t)
    case Destroyed(t) => pc.DestroyStore? && s' == At(s.(word := 0), t, DestroyFree(pc.v))
  }

  ghost predicate Step(c: Config, s: State, e: Event, s': State) {
    match e
    case Tau(t) =>
      || (exists addr :: LazyStep(c, s, t, addr, s'))
      || (exists addr, refused :: LifeStep(c, s, t, addr, refused, s'))
    case HostCall(t, op, r) => CallStep(s, t, op, r, s')
    case Inited(_, _) => StoreStep(c, s, e, s')
    case Destroyed(_) => StoreStep(c, s, e, s')
    case _ => BeginStep(c, s, e, s')
  }

  /** The guest object is 4-aligned and ends inside the address space. */
  predicate InMemory(c: Config) {
    Aligned(c.base, 2) && c.base + Payload.MUTEX_SIZE <= Pow2(Payload.POINTER_BITS)
  }

  /** A guest object fresh from its static initialiser; no thread inside. */
  predicate StaticStart(c: Config, s: State) {
    && !Initialized(c, s.word)
    && s.heap == map[] && s.pcs == map[]
    && s.allocs == 0 && s.frees == 0 && !s.fault
  }

  /** A guest object fresh from an explicit init of whatever memory it lies in. */
  ghost predicate InitStart(c: Config, s: State) {
    && Initialized(c, s.word)
    && (exists attr :: s.heap == map[s.word := NewObj(c, attr)])
    && (forall t :: t in s.pcs ==> s.pcs[t] == Idle)
    && s.allocs == 1 && s.frees == 0 && !s.fault
  }

  ghost predicate Start(c: Config, s: State) {
    InMemory(c) && (StaticStart(c, s) || InitStart(c, s))
  }

  // ---- Invariant ------------------------------------------------------------

  /** The live object a thread alone is responsible for. */
  predicate Owns(pc: Pc) {
    pc.Publish? || pc.Refused? || pc.Discard? || pc.InitStore? || pc.InitFree? || pc.DestroyFree?
  }

  function Owned(pc: Pc): Word
    requires Owns(pc)
  {
    match pc
    case Publish(_, _, own) => own
    case Refused(own) => own
    case Discard(_, _, own) => own
    case InitStore(_, own) => own
    case InitFree(own) => own
    case DestroyFree(v) => v
  }

  /** The object a static initialiser word stands for. */
  function StaticObj(c: Config, s: State): HostObj {
    NewObj(c, if c.sort.MutexSort? then KindOf(FirstWord(c, s)) else Normal)
  }

  /** The word a lazy initialiser expects is stale or still there. */
  predicate Expecting(c: Config, s: State, expected: Word) {
    !Initialized(c, expected) && (s.word == expected || Initialized(c, s.word))
  }

  predicate Published(c: Config, s: State, w: Word) {
    Initialized(c, w) && w == s.word
  }

  predicate PcOk(c: Config, s: State, pc: Pc) {
    && (Owns(pc) ==> Owned(pc) in s.heap && Owned(pc) != s.word && !InUse(s.heap[Owned(pc)]))
    && match pc
       case ReadKind(_, expected) => Expecting(c, s, expected) && c.sort.MutexSort?
       case Allocate(_, expected, init) =>
         && Expecting(c, s, expected)
         && (s.word == expected ==> NewObj(c, KindOf(init)) == StaticObj(c, s))
       case Publish(_, expected, own) =>
         && Expecting(c, s, expected)
         && (s.word == expected ==> s.heap[own] == StaticObj(c, s))
       case Discard(_, seen, _) => Published(c, s, seen)
       case Adopt(_, seen) => Published(c, s, seen)
       case Ready(op, ptr) => Published(c, s, ptr)
       case Waiting(ptr) => Published(c, s, ptr)
       case InitStore(attr, own) => s.heap[own] == NewObj(c, attr)
       case DestroyLoad => Initialized(c, s.word) && s.word in s.heap ==> !InUse(s.heap[s.word])
       case DestroyHost(v) => Published(c, s, v) && (v in s.heap ==> !InUse(s.heap[v]))
       case DestroyStore(v) => Published(c, s, v) && (v in s.heap ==> !InUse(s.heap[v]))
       case Failed => false
       case _ => true
  }

  predicate PtrsOk(c: Config, s: State) {
    && (Initialized(c, s.word) ==> s.word in s.heap)
    && forall a :: a in s.heap ==> Initialized(c, a) && WellFormed(s.heap[a]) && OfSort(c, s.heap[a])
  }

  predicate OfSort(c: Config, o: HostObj) {
    match c.sort
    case MutexSort => o.Mutex?
    case CondSort => o.Cond?
    case RwlockSort => o.Rwlock?
  }

  ghost predicate HeldBy(pcs: map<Thread, Pc>, a: Word) {
    exists t :: t in pcs && Owns(pcs[t]) && Owned(pcs[t]) == a
  }

  /** Every live object is published or some thread's own. */
  ghost predicate NoLeak(word: Word, live: set<Word>, pcs: map<Thread, Pc>) {
    forall a :: a in live ==> a == word || HeldBy(pcs, a)
  }

  ghost predicate PcsOk(c: Config, s: State) {
    forall t :: t in s.pcs ==> PcOk(c, s, s.pcs[t])
  }

  predicate DistinctOwned(pcs: map<Thread, Pc>) {
    forall t, u :: t in pcs && u in pcs && t != u && Owns(pcs[t]) && Owns(pcs[u])
                   ==> Owned(pcs[t]) != Owned(pcs[u])
  }

  predicate QuietDestroy(c: Config, pcs: map<Thread, Pc>) {
    forall t, u :: t in pcs && u in pcs && t != u ==> Tolerates(c, pcs[t], pcs[u])
  }

  ghost predicate Inv(c: Config, s: State) {
    && SlotAligned(c) && !s.fault
    && PtrsOk(c, s) && PcsOk(c, s)
    && NoLeak(s.word, s.heap.Keys, s.pcs)
    && DistinctOwned(s.pcs) && QuietDestroy(c, s.pcs)
    && s.allocs == s.frees + |s.heap|
  }

  // ---- The eager object it refines ------------------------------------------

  /** The one host object the guest object stands for: the published one, or the
      one its static initialiser promises. */
  function Abs(c: Config, s: State): HostObj {
    if Initialized(c, s.word) && s.word in s.heap then s.heap[s.word] else StaticObj(c, s)
  }

  /** A guest object that is its host object, created in advance. */
  ghost predicate EagerStep(c: Config, header: Word, o: HostObj, e: Event, o': HostObj) {
    match e
    case HostCall(t, op, r) => HostStep(o, t, op, r, o')
    case Inited(_, attr) => !InUse(o) && o' == NewObj(c, attr)
    case Destroyed(_) =>
      !InUse(o) && o' == NewObj(c, if c.layout.Lp64? && c.sort.MutexSort? then KindOf(header) else Normal)
    case _ => o' == o
  }

  lemma StartInv(c: Config, s: State)
    requires Start(c, s)
    ensures Inv(c, s)
    ensures !Initialized(c, s.word) ==> Abs(c, s) == StaticObj(c, s)
    ensures Initialized(c, s.word) ==> exists attr :: Abs(c, s) == NewObj(c, attr)
  {
    if c.layout.Lp64? {
      Payload.PayloadInside(c.base, Payload.MUTEX_SIZE);
    }
    if Initialized(c, s.word) {
      var attr :| s.heap == map[s.word := NewObj(c, attr)];
      assert s.heap.Keys == {s.word};
    }
  }

  /** An explicit init may start from raw memory, even if the word there reads as
      a pointer: its three steps lead to a start. */
  lemma RawInit(c: Config, s: State, t: Thread, attr: Kind, addr: Word)
    requires InMemory(c) && s.heap == map[] && s.pcs == map[] && s.allocs == 0 && s.frees == 0 && !s.fault
    requires Initialized(c, addr)
    ensures var s1, s2 := At(s, t, InitAllocate(attr)),
                          At(Allocated(s, addr, NewObj(c, attr)), t, InitStore(attr, addr));
            && BeginStep(c, s, BeginInit(t, attr), s1) && LifeStep(c, s1, t, addr, false, s2)
            && Start(c, Stored(s2, t)) && Abs(c, Stored(s2, t)) == NewObj(c, attr)
  {
    var s2 := At(Allocated(s, addr, NewObj(c, attr)), t, InitStore(attr, addr));
    assert s.pcs[t := InitAllocate(attr)][t := InitStore(attr, addr)] == s2.pcs;
    assert Stored(s2, t).heap == map[addr := NewObj(c, attr)];
  }

  // ---- What one step keeps --------------------------------------------------

  lemma QuietStep(c: Config, pcs: map<Thread, Pc>, t: Thread, pc: Pc)
    requires QuietDestroy(c, pcs)
    requires forall u :: u in pcs && u != t ==> Tolerates(c, pc, pcs[u]) && Tolerates(c, pcs[u], pc)
    ensures QuietDestroy(c, pcs[t := pc])
  {
  }

  lemma DistinctStep(pcs: map<Thread, Pc>, t: Thread, pc: Pc)
    requires DistinctOwned(pcs)
    requires Owns(pc) ==> forall u :: u in pcs && u != t && Owns(pcs[u]) ==> Owned(pcs[u]) != Owned(pc)
    ensures DistinctOwned(pcs[t := pc])
  {
  }

  /** Only the thread that moves can let go of an object. */
  lemma NoLeakStep(word: Word, live: set<Word>, word': Word, live': set<Word>, pcs: map<Thread, Pc>, t: Thread, pc: Pc)
    requires NoLeak(word, live, pcs)
    requires forall a :: a in live' && a != word' && a !in live ==> Owns(pc) && Owned(pc) == a
    requires word in live' && word != word' ==> Owns(pc) && Owned(pc) == word
    requires t in pcs && Owns(pcs[t]) && Owned(pcs[t]) in live' && Owned(pcs[t]) != word'
             ==> Owns(pc) && Owned(pc) == Owned(pcs[t])
    ensures NoLeak(word', live', pcs[t := pc])
  {
    var pcs' := pcs[t := pc];
    forall a | a in live' && a != word'
      ensures HeldBy(pcs', a)
    {
      if Owns(pc) && Owned(pc) == a {
        assert t in pcs' && pcs'[t] == pc;
      } else {
        var u :| u in pcs && Owns(pcs[u]) && Owned(pcs[u]) == a;
        assert u in pcs' && pcs'[u] == pcs[u];
      }
    }
  }

  /** The conditions under which moving t to pc, with new memory, keeps Inv. */
  lemma StepKeepsInv(c: Config, s: State, s': State, t: Thread, pc: Pc)
    requires Inv(c, s) && s'.pcs == s.pcs[t := pc]
    requires !s'.fault && PtrsOk(c, s') && s'.allocs == s'.frees + |s'.heap|
    requires PcOk(c, s', pc)
    requires forall u :: u in s.pcs && u != t ==> PcOk(c, s', s.pcs[u])
    requires forall a :: a in s'.heap && a != s'.word && a !in s.heap ==> Owns(pc) && Owned(pc) == a
    requires s.word in s'.heap && s.word != s'.word ==> Owns(pc) && Owned(pc) == s.word
    requires Owns(PcOf(s, t)) && Owned(PcOf(s, t)) in s'.heap && Owned(PcOf(s, t)) != s'.word
             ==> Owns(pc) && Owned(pc) == Owned(PcOf(s, t))
    requires Owns(pc) ==> forall u :: u in s.pcs && u != t && Owns(s.pcs[u]) ==> Owned(s.pcs[u]) != Owned(pc)
    requires forall u :: u in s.pcs && u != t ==> Tolerates(c, pc, s.pcs[u]) && Tolerates(c, s.pcs[u], pc)
    ensures Inv(c, s')
  {
    QuietStep(c, s.pcs, t, pc);
    DistinctStep(s.pcs, t, pc);
    NoLeakStep(s.word, s.heap.Keys, s'.word, s'.heap.Keys, s.pcs, t, pc);
  }

  /** While a thread is inside, and not waiting, nobody else destroys. */
  lemma OthersStay(c: Config, s: State, t: Thread)
    requires QuietDestroy(c, s.pcs) && !Out(PcOf(s, t)) && !PcOf(s, t).Waiting?
    ensures forall u :: u in s.pcs && u != t ==> !Destroying(s.pcs[u]) && Tolerates(c, s.pcs[t], s.pcs[u])
  {
    forall u | u in s.pcs && u != t
      ensures !Destroying(s.pcs[u]) && Tolerates(c, s.pcs[t], s.pcs[u])
    {
      assert Tolerates(c, s.pcs[u], s.pcs[t]);
    }
  }

  /** A thread's facts survive changes to objects that are not its own. */
  lemma PcFrame(c: Config, s: State, s': State, pc: Pc)
    requires PcOk(c, s, pc) && s'.word == s.word && s'.header == s.header
    requires Owns(pc) ==> Owned(pc) in s'.heap && s'.heap[Owned(pc)] == s.heap[Owned(pc)]
    requires Destroying(pc) && s.word in s'.heap ==> s.word in s.heap && s'.heap[s.word] == s.heap[s.word]
    ensures PcOk(c, s', pc)
  {
  }

  lemma MoveStep(c: Config, s: State, t: Thread, pc: Pc)
    requires Inv(c, s) && PcOk(c, At(s, t, pc), pc)
    requires Owns(PcOf(s, t)) == Owns(pc)
    requires Owns(pc) ==> Owned(pc) == Owned(PcOf(s, t))
    requires forall u :: u in s.pcs && u != t ==> Tolerates(c, pc, s.pcs[u]) && Tolerates(c, s.pcs[u], pc)
    ensures Inv(c, At(s, t, pc))
    ensures Abs(c, At(s, t, pc)) == Abs(c, s)
  {
    var s' := At(s, t, pc);
    forall u | u in s.pcs && u != t
      ensures PcOk(c, s', s.pcs[u])
    {
      PcFrame(c, s, s', s.pcs[u]);
    }
    StepKeepsInv(c, s, s', t, pc);
  }

  lemma MallocStep(c: Config, s: State, t: Thread, addr: Word, o: HostObj, pc: Pc)
    requires Inv(c, s) && Malloc(c, s, addr) && WellFormed(o) && OfSort(c, o)
    requires !Out(PcOf(s, t)) && !PcOf(s, t).Waiting?
    requires !Owns(PcOf(s, t)) && Owns(pc) && Owned(pc) == addr && !Destroying(pc)
    requires PcOk(c, At(Allocated(s, addr, o), t, pc), pc)
    ensures Inv(c, At(Allocated(s, addr, o), t, pc))
    ensures Abs(c, At(Allocated(s, addr, o), t, pc)) == Abs(c, s)
  {
    var s' := At(Allocated(s, addr, o), t, pc);
    OthersStay(c, s, t);
    forall u | u in s.pcs && u != t
      ensures PcOk(c, s', s.pcs[u])
    {
      PcFrame(c, s, s', s.pcs[u]);
    }
    StepKeepsInv(c, s, s', t, pc);
  }

  lemma FreeStep(c: Config, s: State, t: Thread, pc: Pc)
    requires Inv(c, s) && Owns(PcOf(s, t)) && !Out(PcOf(s, t)) && !Owns(pc) && !Destroying(pc)
    requires PcOk(c, At(Freed(s, Owned(PcOf(s, t))), t, pc), pc)
    ensures Inv(c, At(Freed(s, Owned(PcOf(s, t))), t, pc))
    ensures Abs(c, At(Freed(s, Owned(PcOf(s, t))), t, pc)) == Abs(c, s)
  {
    var own := Owned(PcOf(s, t));
    var s' := At(Freed(s, own), t, pc);
    OthersStay(c, s, t);
    assert PcOk(c, s, s.pcs[t]);
    forall u | u in s.pcs && u != t
      ensures PcOk(c, s', s.pcs[u])
    {
      PcFrame(c, s, s', s.pcs[u]);
    }
    assert s.heap.Keys == s'.heap.Keys + {own};
    StepKeepsInv(c, s, s', t, pc);
  }

  lemma WordFrame(c: Config, s: State, own: Word, s': State, pc: Pc)
    requires PcOk(c, s, pc) && !Initialized(c, s.word) && Initialized(c, own) && !Destroying(pc)
    requires Owns(pc) ==> Owned(pc) != own
    requires s'.word == own && s'.header == s.header && s'.heap == s.heap
    ensures PcOk(c, s', pc)
  {
  }

  /** The payload word goes from a static initialiser to a live pointer. */
  lemma WordStep(c: Config, s: State, t: Thread, pc: Pc)
    requires Inv(c, s) && Owns(PcOf(s, t)) && !Out(PcOf(s, t)) && !Destroying(PcOf(s, t)) && !Initialized(c, s.word)
    requires pc == Idle || (pc.Ready? && pc.ptr == Owned(PcOf(s, t)))
    ensures Inv(c, At(s.(word := Owned(PcOf(s, t))), t, pc))
    ensures Abs(c, At(s.(word := Owned(PcOf(s, t))), t, pc)) == s.heap[Owned(PcOf(s, t))]
  {
    var own := Owned(PcOf(s, t));
    var s' := At(s.(word := own), t, pc);
    OthersStay(c, s, t);
    assert PcOk(c, s, s.pcs[t]);
    forall u | u in s.pcs && u != t
      ensures PcOk(c, s', s.pcs[u])
    {
      WordFrame(c, s, own, s', s.pcs[u]);
    }
    StepKeepsInv(c, s, s', t, pc);
  }

  // ---- Every step keeps the invariant and refines ----------------------------

  lemma LoadOk(c: Config, s: State, t: Thread, addr: Word, s': State)
    requires Inv(c, s) && LazyStep(c, s, t, addr, s') && PcOf(s, t).Load?
    ensures Inv(c, s') && Abs(c, s') == Abs(c, s)
  {
    var pc := s.pcs[t];
    if Initialized(c, s.word) {
      LoadMoves(c, s, t, Ready(pc.op, s.word));
    } else {
      LoadMoves(c, s, t, if c.sort.MutexSort? then ReadKind(pc.op, s.word) else Allocate(pc.op, s.word, 0));
    }
  }

  lemma LoadMoves(c: Config, s: State, t: Thread, next: Pc)
    requires Inv(c, s) && PcOf(s, t).Load? && PcOk(c, At(s, t, next), next)
    requires next.Ready? || next.ReadKind? || next.Allocate?
    ensures Inv(c, At(s, t, next)) && Abs(c, At(s, t, next)) == Abs(c, s)
  {
    OthersStay(c, s, t);
    MoveStep(c, s, t, next);
  }

  lemma ReadKindOk(c: Config, s: State, t: Thread, addr: Word, s': State)
    requires Inv(c, s) && LazyStep(c, s, t, addr, s') && PcOf(s, t).ReadKind?
    ensures Inv(c, s') && Abs(c, s') == Abs(c, s)
  {
    OthersStay(c, s, t);
    var pc := s.pcs[t];
    assert PcOk(c, s, pc);
    MoveStep(c, s, t, Allocate(pc.op, pc.expected, FirstWord(c, s)));
  }

  lemma AllocateOk(c: Config, s: State, t: Thread, addr: Word, s': State)
    requires Inv(c, s) && LazyStep(c, s, t, addr, s') && PcOf(s, t).Allocate?
    ensures Inv(c, s') && Abs(c, s') == Abs(c, s)
  {
    OthersStay(c, s, t);
    var pc := s.pcs[t];
    assert PcOk(c, s, pc);
    var o := NewObj(c, KindOf(pc.init));
    MallocStep(c, s, t, addr, o, if s'.pcs[t].Publish? then Publish(pc.op, pc.expected, addr) else Refused(addr));
  }

  lemma PublishOk(c: Config, s: State, t: Thread, addr: Word, s': State)
    requires Inv(c, s) && LazyStep(c, s, t, addr, s') && PcOf(s, t).Publish?
    ensures Inv(c, s') && Abs(c, s') == Abs(c, s)
  {
    OthersStay(c, s, t);
    var pc := s.pcs[t];
    assert PcOk(c, s, pc);
    if s.word == pc.expected {
      WordStep(c, s, t, Ready(pc.op, pc.own));
    } else {
      MoveStep(c, s, t, Discard(pc.op, s.word, pc.own));
    }
  }

  lemma AdoptOk(c: Config, s: State, t: Thread, addr: Word, s': State)
    requires Inv(c, s) && LazyStep(c, s, t, addr, s') && (PcOf(s, t).Discard? || PcOf(s, t).Adopt?)
    ensures Inv(c, s') && Abs(c, s') == Abs(c, s)
  {
    OthersStay(c, s, t);
    var pc := s.pcs[t];
    assert PcOk(c, s, pc);
    if pc.Discard? {
      FreeStep(c, s, t, Adopt(pc.op, pc.seen));
    } else {
      MoveStep(c, s, t, Ready(pc.op, pc.seen));
    }
  }

  lemma LazyStepOk(c: Config, s: State, t: Thread, addr: Word, s': State)
    requires Inv(c, s) && LazyStep(c, s, t, addr, s')
    ensures Inv(c, s') && Abs(c, s') == Abs(c, s)
  {
    match PcOf(s, t)
    case Load(_) => LoadOk(c, s, t, addr, s');
    case ReadKind(_, _) => ReadKindOk(c, s, t, addr, s');
    case Allocate(_, _, _) => AllocateOk(c, s, t, addr, s');
    case Publish(_, _, _) => PublishOk(c, s, t, addr, s');
    case Discard(_, _, _) => AdoptOk(c, s, t, addr, s');
    case Adopt(_, _) => AdoptOk(c, s, t, addr, s');
  }

  lemma InitOk(c: Config, s: State, t: Thread, addr: Word, refused: bool, s': State)
    requires Inv(c, s) && LifeStep(c, s, t, addr, refused, s') && PcOf(s, t).InitAllocate?
    ensures Inv(c, s') && Abs(c, s') == Abs(c, s)
  {
    OthersStay(c, s, t);
    var pc := s.pcs[t];
    assert PcOk(c, s, pc);
    MallocStep(c, s, t, addr, NewObj(c, pc.attr), if refused then InitFree(addr) else InitStore(pc.attr, addr));
  }

  lemma DestroyOk(c: Config, s: State, t: Thread, addr: Word, refused: bool, s': State)
    requires Inv(c, s) && LifeStep(c, s, t, addr, refused, s') && (PcOf(s, t).DestroyLoad? || PcOf(s, t).DestroyHost?)
    ensures Inv(c, s') && Abs(c, s') == Abs(c, s)
  {
    OthersStay(c, s, t);
    var pc := s.pcs[t];
    assert PcOk(c, s, pc);
    if pc.DestroyLoad? {
      MoveStep(c, s, t, if Initialized(c, s.word) then DestroyHost(s.word) else Idle);
    } else {
      assert s == s.(fault := s.fault || pc.v !in s.heap);
      MoveStep(c, s, t, DestroyStore(pc.v));
    }
  }

  lemma LifeStepOk(c: Config, s: State, t: Thread, addr: Word, refused: bool, s': State)
    requires Inv(c, s) && LifeStep(c, s, t, addr, refused, s')
    ensures Inv(c, s') && Abs(c, s') == Abs(c, s)
  {
    match PcOf(s, t)
    case InitAllocate(_) => InitOk(c, s, t, addr, refused, s');
    case DestroyLoad => DestroyOk(c, s, t, addr, refused, s');
    case DestroyHost(_) => DestroyOk(c, s, t, addr, refused, s');
    case _ => FreeStep(c, s, t, Idle);
  }

  lemma BeginStepOk(c: Config, s: State, e: Event, s': State)
    requires e.Begin? || e.BeginInit? || e.BeginDestroy?
    requires Inv(c, s) && BeginStep(c, s, e, s')
    ensures Inv(c, s') && Abs(c, s') == Abs(c, s)
  {
    match e
    case Begin(t, op) => MoveStep(c, s, t, Load(op));
    case BeginInit(t, attr) => MoveStep(c, s, t, InitAllocate(attr));
    case BeginDestroy(t) => MoveStep(c, s, t, DestroyLoad);
  }

  /** The published object changes under threads that are not destroying it. */
  lemma ObjFrame(c: Config, s: State, o: HostObj, s': State, pc: Pc)
    requires PcOk(c, s, pc) && !Destroying(pc)
    requires s'.word == s.word && s'.header == s.header && s'.heap == s.heap[s.word := o]
    ensures PcOk(c, s', pc)
  {
  }

  lemma ObjPtrs(c: Config, s: State, o: HostObj, s': State)
    requires PtrsOk(c, s) && s.word in s.heap && WellFormed(o) && OfSort(c, o)
    requires s'.word == s.word && s'.heap == s.heap[s.word := o]
    ensures PtrsOk(c, s') && s'.heap.Keys == s.heap.Keys && |s'.heap| == |s.heap|
  {
    assert s'.heap.Keys == s.heap.Keys;
  }

  lemma ObjMoves(c: Config, s: State, t: Thread, o: HostObj, pc: Pc)
    requires Inv(c, s) && Initialized(c, s.word) && WellFormed(o) && OfSort(c, o)
    requires PcOf(s, t).Ready? || PcOf(s, t).Waiting?
    requires pc in {Idle, Waiting(s.word)}
    requires forall u :: u in s.pcs && u != t ==> !Destroying(s.pcs[u])
    ensures Inv(c, At(s.(heap := s.heap[s.word := o]), t, pc))
  {
    var s' := At(s.(heap := s.heap[s.word := o]), t, pc);
    ObjPtrs(c, s, o, s');
    assert PcOk(c, s, s.pcs[t]);
    forall u | u in s.pcs && u != t
      ensures PcOk(c, s', s.pcs[u])
    {
      ObjFrame(c, s, o, s', s.pcs[u]);
    }
    StepKeepsInv(c, s, s', t, pc);
  }

  lemma CallKeepsSort(c: Config, s: State, t: Thread, op: Op, r: Ret, o: HostObj)
    requires PtrsOk(c, s) && s.word in s.heap && HostStep(s.heap[s.word], t, op, r, o)
    ensures WellFormed(o) && OfSort(c, o)
  {
    StepKeepsShape(s.heap[s.word], t, op, r, o);
  }

  /** A woken waiter that leaves while another thread destroys the condition
      variable finds nothing to take off its queue. */
  lemma NothingToTake(c: Config, s: State, t: Thread, op: Op, r: Ret, o: HostObj, u: Thread)
    requires PtrsOk(c, s) && s.word in s.heap && Initialized(c, s.word) && HostStep(s.heap[s.word], t, op, r, o)
    requires Unparks(op) && c.sort.CondSort? && u in s.pcs && PcOk(c, s, s.pcs[u])
    requires s.pcs[u].DestroyLoad? || s.pcs[u].DestroyHost?
    ensures s.heap[s.word := o] == s.heap
  {
    var none: set<Thread> := {};
    assert s.heap[s.word] == Cond(none) && none - {t} == none;
    assert o == s.heap[s.word];
  }

  lemma LeavesDuring(c: Config, s: State, t: Thread, op: Op, r: Ret, o: HostObj, u: Thread)
    requires Inv(c, s) && Initialized(c, s.word) && s.word in s.heap && HostStep(s.heap[s.word], t, op, r, o)
    requires PcOf(s, t) == Ready(op, s.word) || (PcOf(s, t) == Waiting(s.word) && Unparks(op))
    requires u in s.pcs && u != t && Destroying(s.pcs[u])
    ensures s.heap[s.word := o] == s.heap && Unparks(op) && Inv(c, At(s, t, Idle))
  {
    assert Tolerates(c, s.pcs[u], s.pcs[t]);
    assert PcOk(c, s, s.pcs[u]);
    NothingToTake(c, s, t, op, r, o, u);
    MoveStep(c, s, t, Idle);
  }

  lemma CallMoves(c: Config, s: State, t: Thread, op: Op, r: Ret, o: HostObj, pc: Pc)
    requires Inv(c, s) && Initialized(c, s.word) && s.word in s.heap && HostStep(s.heap[s.word], t, op, r, o)
    requires PcOf(s, t) == Ready(op, s.word) || (PcOf(s, t) == Waiting(s.word) && Unparks(op))
    requires pc == if Parks(op) then Waiting(s.word) else Idle
    ensures Inv(c, At(s.(heap := s.heap[s.word := o]), t, pc))
  {
    if u :| u in s.pcs && u != t && Destroying(s.pcs[u]) {
      LeavesDuring(c, s, t, op, r, o, u);
    } else {
      CallKeepsSort(c, s, t, op, r, o);
      ObjMoves(c, s, t, o, pc);
    }
  }

  /** A call the host can finish is a step. */
  lemma CallEnabled(c: Config, s: State, t: Thread, op: Op, p: Word, o: HostObj)
    requires PcOf(s, t) == Ready(op, p) || (PcOf(s, t) == Waiting(p) && Unparks(op))
    requires p in s.heap && HostStep(s.heap[p], t, op, Success, o)
    ensures Step(c, s, HostCall(t, op, Success),
                 At(s.(heap := s.heap[p := o]), t, if Parks(op) then Waiting(p) else Idle))
  {
  }

  lemma CallStepOk(c: Config, s: State, t: Thread, op: Op, r: Ret, s': State)
    requires Inv(c, s) && CallStep(s, t, op, r, s')
    ensures Inv(c, s') && HostStep(Abs(c, s), t, op, r, Abs(c, s'))
  {
    var pc := s.pcs[t];
    assert PcOk(c, s, pc);
    var next := if Parks(op) then Waiting(pc.ptr) else Idle;
    var o :| HostStep(s.heap[pc.ptr], t, op, r, o) && s' == At(s.(heap := s.heap[pc.ptr := o]), t, next);
    CallMoves(c, s, t, op, r, o, next);
    assert Abs(c, s') == o;
  }

  lemma InitStepOk(c: Config, s: State, e: Event, s': State)
    requires e.Inited? && Inv(c, s) && StoreStep(c, s, e, s')
    ensures Inv(c, s') && EagerStep(c, s.header, Abs(c, s), e, Abs(c, s'))
  {
    OthersStay(c, s, e.t);
    assert PcOk(c, s, s.pcs[e.t]);
    WordStep(c, s, e.t, Idle);
  }

  /** The store itself does not look: over a word in use it would orphan the
      object there, which is then live, nobody's and not published. */
  lemma InitOverUsed(c: Config, s: State, t: Thread)
    requires Inv(c, s) && PcOf(s, t).InitStore?
    ensures var s' := Stored(s, t);
            NoLeak(s'.word, s'.heap.Keys, s'.pcs) <==> !Initialized(c, s.word)
  {
    assert PcOk(c, s, s.pcs[t]);
    var own := s.pcs[t].own;
    var s' := Stored(s, t);
    if Initialized(c, s.word) {
      forall u | u in s'.pcs && Owns(s'.pcs[u])
        ensures Owned(s'.pcs[u]) != s.word
      {
        assert PcOk(c, s, s.pcs[u]);
      }
      assert s.word in s'.heap.Keys && !HeldBy(s'.pcs, s.word);
    } else {
      ReservedWord(c, s);
      NoLeakStep(s.word, s.heap.Keys, own, s.heap.Keys, s.pcs, t, Idle);
    }
  }

  lemma ReservedWord(c: Config, s: State)
    requires PtrsOk(c, s) && !Initialized(c, s.word)
    ensures s.word !in s.heap
  {
  }

  lemma ZeroStep(c: Config, s: State, t: Thread)
    requires Inv(c, s) && PcOf(s, t).DestroyStore?
    ensures Inv(c, At(s.(word := 0), t, DestroyFree(s.pcs[t].v)))
    ensures !InUse(Abs(c, s))
  {
    var pc := s.pcs[t];
    var s' := At(s.(word := 0), t, DestroyFree(pc.v));
    OthersStay(c, s, t);
    assert PcOk(c, s, pc);
    ZeroUninitialized(c);
    forall u | u in s.pcs && u != t
      ensures PcOk(c, s', s.pcs[u])
    {
      OutStays(c, s, s', s.pcs[u]);
    }
    StepKeepsInv(c, s, s', t, DestroyFree(pc.v));
  }

  lemma DestroyStepOk(c: Config, s: State, e: Event, s': State)
    requires e.Destroyed? && Inv(c, s) && StoreStep(c, s, e, s')
    ensures Inv(c, s') && EagerStep(c, s.header, Abs(c, s), e, Abs(c, s'))
  {
    ZeroStep(c, s, e.t);
    ZeroUninitialized(c);
  }

  /** The store and the free do not look at what the host's destroy said: a thread
      that still has the pointer then calls the host on a dead object. */
  lemma DestroyUnderUse(c: Config, s: State, t: Thread, u: Thread, op: Op, r: Ret, s': State)
    requires t != u && PcOf(s, t).DestroyStore?
    requires PcOf(s, u) == Ready(op, s.pcs[t].v) || (PcOf(s, u) == Waiting(s.pcs[t].v) && Unparks(op))
    ensures var v := s.pcs[t].v;
            var zeroed := At(s.(word := 0), t, DestroyFree(v));
            var gone := At(Freed(zeroed, v), t, Idle);
            && StoreStep(c, s, Destroyed(t), zeroed) && LifeStep(c, zeroed, t, 0, false, gone)
            && (CallStep(gone, u, op, r, s') ==> s'.fault)
  {
    var v := s.pcs[t].v;
    var zeroed := At(s.(word := 0), t, DestroyFree(v));
    var gone := At(Freed(zeroed, v), t, Idle);
    assert PcOf(gone, u) == PcOf(s, u) && v !in gone.heap;
  }

  /** A thread outside every call does not notice the store. */
  lemma OutStays(c: Config, s: State, s': State, pc: Pc)
    requires PtrsOk(c, s) && PcOk(c, s, pc) && Out(pc) && s'.word == 0 && s'.heap == s.heap
    ensures PcOk(c, s', pc)
  {
    ZeroUninitialized(c);
  }

  lemma ZeroUninitialized(c: Config)
    ensures !Initialized(c, 0)
  {
  }

  lemma TauStepOk(c: Config, s: State, t: Thread, s': State)
    requires Inv(c, s) && Step(c, s, Tau(t), s')
    ensures Inv(c, s') && Abs(c, s') == Abs(c, s)
  {
    if addr :| LazyStep(c, s, t, addr, s') {
      LazyStepOk(c, s, t, addr, s');
    } else {
      var addr, refused :| LifeStep(c, s, t, addr, refused, s');
      LifeStepOk(c, s, t, addr, refused, s');
    }
  }

  lemma HeaderStays(c: Config, s: State, e: Event, s': State)
    requires Step(c, s, e, s')
    ensures s'.header == s.header
  {
  }

  lemma StepOk(c: Config, s: State, e: Event, s': State)
    requires Inv(c, s) && Step(c, s, e, s')
    ensures Inv(c, s') && s'.header == s.header
    ensures EagerStep(c, s.header, Abs(c, s), e, Abs(c, s'))
  {
    HeaderStays(c, s, e, s');
    match e
    case Tau(t) => TauStepOk(c, s, t, s');
    case HostCall(t, op, r) => CallStepOk(c, s, t, op, r, s');
    case Inited(_, _) => InitStepOk(c, s, e, s');
    case Destroyed(_) => DestroyStepOk(c, s, e, s');
    case _ => BeginStepOk(c, s, e, s');
  }

  // ---- Progress -------------------------------------------------------------

  /** How many steps of its own a thread needs at most to leave to_host. */
  function Distance(pc: Pc): nat {
    match pc
    case Load(_) => 6
    case ReadKind(_, _) => 5
    case Allocate(_, _, _) => 4
    case Publish(_, _, _) => 3
    case Discard(_, _, _) => 2
    case Adopt(_, _) => 1
    case _ => 0
  }

  /** Inside to_host a thread always has a step, whatever the others have done. */
  lemma LazyEnabled(c: Config, s: State, t: Thread, addr: Word) returns (s': State)
    requires Distance(PcOf(s, t)) > 0 && Malloc(c, s, addr)
    ensures LazyStep(c, s, t, addr, s')
    ensures PcOf(s, t).Allocate? && SlotAligned(c) ==> PcOf(s', t).Publish?
  {
    match PcOf(s, t)
    case Load(op) =>
      s' := At(s, t, if Initialized(c, s.word) then Ready(op, s.word)
                     else if c.sort.MutexSort? then ReadKind(op, s.word) else Allocate(op, s.word, 0));
    case ReadKind(op, expected) => s' := At(s, t, Allocate(op, expected, FirstWord(c, s)));
    case Allocate(op, expected, init) =>
      s' := if !SlotAligned(c) then At(s, t, Failed)
            else At(Allocated(s, addr, NewObj(c, KindOf(init))), t, Publish(op, expected, addr));
    case Publish(op, expected, own) =>
      s' := if s.word == expected then At(s.(word := own), t, Ready(op, own))
            else At(s, t, Discard(op, s.word, own));
    case Discard(op, seen, own) => s' := At(Freed(s, own), t, Adopt(op, seen));
    case Adopt(op, seen) => s' := At(s, t, if Initialized(c, seen) then Ready(op, seen) else Failed);
  }

  /** Every such step brings it closer to the call or to an error. */
  lemma LazyCloser(c: Config, s: State, t: Thread, addr: Word, s': State)
    requires LazyStep(c, s, t, addr, s')
    ensures Distance(PcOf(s', t)) < Distance(PcOf(s, t))
    ensures Distance(PcOf(s', t)) > 0 || PcOf(s', t).Ready? || PcOf(s', t).Refused? || PcOf(s', t).Failed?
  {
  }

  /** So has a thread in an explicit init, and in a destroy once woken waiters
      have left. */
  lemma LifeEnabled(c: Config, s: State, t: Thread, addr: Word) returns (e: Event, s': State)
    requires Malloc(c, s, addr) && (PcOf(s, t).InitStore? ==> !Initialized(c, s.word))
    requires PcOf(s, t).InitAllocate? || PcOf(s, t).InitStore? || PcOf(s, t).InitFree? || Destroying(PcOf(s, t))
    requires PcOf(s, t).DestroyHost? ==> forall u :: u in s.pcs && u != t ==> Out(s.pcs[u])
    ensures e.t == t && Step(c, s, e, s') && PcOf(s', t) != PcOf(s, t)
  {
    e := Tau(t);
    match PcOf(s, t)
    case InitAllocate(attr) =>
      s' := At(Allocated(s, addr, NewObj(c, attr)), t, InitStore(attr, addr));
      assert LifeStep(c, s, t, addr, false, s');
    case InitFree(own) =>
      s' := At(Freed(s, own), t, Idle);
      assert LifeStep(c, s, t, addr, false, s');
    case DestroyLoad =>
      s' := At(s, t, if Initialized(c, s.word) then DestroyHost(s.word) else Idle);
      assert LifeStep(c, s, t, addr, false, s');
    case DestroyHost(v) =>
      s' := At(s.(fault := s.fault || v !in s.heap), t, DestroyStore(v));
      assert LifeStep(c, s, t, addr, false, s');
    case DestroyFree(v) =>
      s' := At(Freed(s, v), t, Idle);
      assert LifeStep(c, s, t, addr, false, s');
    case InitStore(attr, own) =>
      e := Inited(t, attr);
      s' := Stored(s, t);
    case DestroyStore(v) =>
      e := Destroyed(t);
      s' := At(s.(word := 0), t, DestroyFree(v));
  }
}
