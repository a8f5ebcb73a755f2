/** A condition variable and the mutex its waiters hold, both lazily created: the
    host's wait queues the caller and lets go of the mutex in one step. */
module CondWait {
  import opened HostSync
  import opened LazyRuns
  import opened LazySync
  import opened Wrappers

  datatype Pair = Pair(mutex: State, cond: State)

  datatype Config2 = Config2(m: Config, k: Config) {
    predicate Sorted() {
      m.sort.MutexSort? && k.sort.CondSort?
    }
  }

  /** A step on one of the two objects, or the first half of a wait on both. */
  datatype Joint = OnMutex(e: Event) | OnCond(e: Event) | Waits(t: Thread)

  function Released(t: Thread): Event {
    HostCall(t, Release, Success)
  }

  function Queues(t: Thread): Event {
    HostCall(t, Wait, Success)
  }

  /** A waiter takes the mutex again only after it has left the queue. */
  ghost predicate JointStep(c: Config2, s: Pair, j: Joint, s': Pair) {
    match j
    case OnMutex(e) =>
      && Step(c.m, s.mutex, e, s'.mutex) && s'.cond == s.cond
      && !(e.HostCall? && e.op == Release)
      && (e.HostCall? && e.op == Retake ==> !PcOf(s.cond, e.t).Waiting?)
    case OnCond(e) =>
      Step(c.k, s.cond, e, s'.cond) && s'.mutex == s.mutex && !(e.HostCall? && e.op == Wait)
    case Waits(t) => Step(c.m, s.mutex, Released(t), s'.mutex) && Step(c.k, s.cond, Queues(t), s'.cond)
  }

  ghost predicate JointRun(c: Config2, ss: seq<Pair>, js: seq<Joint>) {
    && c.Sorted() && |ss| == |js| + 1 && Start(c.m, ss[0].mutex) && Start(c.k, ss[0].cond)
    && forall i :: 0 <= i < |js| ==> JointAt(c, ss, js, i)
  }

  ghost predicate JointAt(c: Config2, ss: seq<Pair>, js: seq<Joint>, i: nat)
    requires i < |js| < |ss|
  {
    JointStep(c, ss[i], js[i], ss[i + 1])
  }

  ghost predicate JointInv(c: Config2, s: Pair) {
    Inv(c.m, s.mutex) && Inv(c.k, s.cond)
  }

  lemma JointKeepsInv(c: Config2, s: Pair, j: Joint, s': Pair)
    requires JointInv(c, s) && JointStep(c, s, j, s')
    ensures JointInv(c, s')
  {
    match j
    case OnMutex(e) => StepOk(c.m, s.mutex, e, s'.mutex);
    case OnCond(e) => StepOk(c.k, s.cond, e, s'.cond);
    case Waits(t) =>
      StepOk(c.m, s.mutex, Released(t), s'.mutex);
      StepOk(c.k, s.cond, Queues(t), s'.cond);
  }

  lemma JointStarts(c: Config2, s: Pair)
    requires Start(c.m, s.mutex) && Start(c.k, s.cond)
    ensures JointInv(c, s)
  {
    StartInv(c.m, s.mutex);
    StartInv(c.k, s.cond);
  }

  lemma StepAt(c: Config2, ss: seq<Pair>, js: seq<Joint>, i: nat)
    requires JointRun(c, ss, js) && i < |js|
    ensures JointStep(c, ss[i], js[i], ss[i + 1])
  {
    assert JointAt(c, ss, js, i);
  }

  lemma JointInvNext(c: Config2, ss: seq<Pair>, js: seq<Joint>, i: nat, s': Pair)
    requires JointRun(c, ss, js) && i < |js| && JointInv(c, ss[i]) && s' == ss[i + 1]
    ensures JointInv(c, s')
  {
    StepAt(c, ss, js, i);
    JointKeepsInv(c, ss[i], js[i], s');
  }

  lemma {:induction false} JointRunInv(c: Config2, ss: seq<Pair>, js: seq<Joint>, i: nat)
    requires JointRun(c, ss, js) && i <= |js|
    ensures JointInv(c, ss[i])
  {
    if i == 0 {
      JointStarts(c, ss[0]);
    } else {
      JointRunInv(c, ss, js, i - 1);
      JointInvNext(c, ss, js, i - 1, ss[i]);
    }
  }

  // ---- Who holds the mutex --------------------------------------------------------

  function JointGain(j: Joint, t: Thread): int {
    match j
    case OnMutex(e) => Gain(e, t)
    case OnCond(_) => 0
    case Waits(u) => Gain(Released(u), t)
  }

  /** How often t holds the mutex, by the results its calls and waits returned. */
  function JointHolds(js: seq<Joint>, t: Thread): int {
    if js == [] then 0 else JointHolds(js[..|js| - 1], t) + JointGain(js[|js| - 1], t)
  }

  function Held(c: Config2, s: Pair, t: Thread): int {
    var o := Abs(c.m, s.mutex);
    if o.Mutex? then HeldCountOf(o, t) else 0
  }

  lemma EventGain(c: Config, s: State, e: Event, s': State, t: Thread)
    requires c.sort.MutexSort? && Inv(c, s) && Step(c, s, e, s')
    ensures Abs(c, s).Mutex? && Abs(c, s').Mutex?
    ensures HeldCountOf(Abs(c, s'), t) == HeldCountOf(Abs(c, s), t) + Gain(e, t)
  {
    AbsSort(c, s);
    StepOk(c, s, e, s');
    GainStep(c, s.header, Abs(c, s), e, Abs(c, s'), t);
  }

  lemma HeldStep(c: Config2, s: Pair, j: Joint, s': Pair, t: Thread)
    requires c.Sorted() && JointInv(c, s) && JointStep(c, s, j, s')
    ensures Held(c, s', t) == Held(c, s, t) + JointGain(j, t)
  {
    match j
    case OnMutex(e) => EventGain(c.m, s.mutex, e, s'.mutex, t);
    case OnCond(e) =>
    case Waits(u) => EventGain(c.m, s.mutex, Released(u), s'.mutex, t);
  }

  lemma {:induction false} HeldIsHolds(c: Config2, ss: seq<Pair>, js: seq<Joint>, i: nat, t: Thread)
    requires JointRun(c, ss, js) && i <= |js|
    ensures JointHolds(js[..i], t) == Held(c, ss[i], t)
  {
    if i == 0 {
      StartsFree(c.m, ss[0].mutex, t);
    } else {
      HeldIsHolds(c, ss, js, i - 1, t);
      JointRunInv(c, ss, js, i - 1);
      StepAt(c, ss, js, i - 1);
      HeldStep(c, ss[i - 1], js[i - 1], ss[i], t);
      assert js[..i][..i - 1] == js[..i - 1];
    }
  }

  /** With waiters coming and going, at most one thread holds the mutex. */
  lemma JointExclusion(c: Config2, ss: seq<Pair>, js: seq<Joint>, i: nat, t: Thread, u: Thread)
    requires JointRun(c, ss, js) && i <= |js| && t != u
    ensures JointHolds(js[..i], t) > 0 ==> JointHolds(js[..i], u) == 0
  {
    HeldIsHolds(c, ss, js, i, t);
    HeldIsHolds(c, ss, js, i, u);
  }

  // ---- No lost wakeup -------------------------------------------------------------

  predicate Wakes(e: Event) {
    e.HostCall? && (e.op == Signal || e.op == Broadcast)
  }

  /** Takes t off the queue, perhaps. */
  predicate MayRelease(j: Joint, t: Thread) {
    j.OnCond? && (Wakes(j.e) || j.e == HostCall(t, Resume, Success))
  }

  lemma CondStep(o: HostObj, e: Event, o': HostObj, c: Config, header: Word, t: Thread)
    requires o.Cond? && o'.Cond? && EagerStep(c, header, o, e, o') && t in o.waiters
    requires !Wakes(e) && e != HostCall(t, Resume, Success)
    ensures t in o'.waiters
  {
  }

  lemma EventQueue(c: Config, s: State, e: Event, s': State, t: Thread)
    requires c.sort.CondSort? && Inv(c, s) && Step(c, s, e, s')
    ensures t in Queued(s) && !Wakes(e) && e != HostCall(t, Resume, Success) ==> t in Queued(s')
    ensures e == Queues(t) ==> t in Queued(s')
  {
    StepOk(c, s, e, s');
    QueuedIsPublished(c, s);
    QueuedIsPublished(c, s');
    if t in Queued(s) && !Wakes(e) && e != HostCall(t, Resume, Success) {
      CondStep(Abs(c, s), e, Abs(c, s'), c, s.header, t);
    }
  }

  lemma QueueStep(c: Config2, s: Pair, j: Joint, s': Pair, t: Thread)
    requires c.Sorted() && JointInv(c, s) && JointStep(c, s, j, s')
    ensures t in Queued(s.cond) && !MayRelease(j, t) ==> t in Queued(s'.cond)
    ensures j == Waits(t) ==> t in Queued(s'.cond)
  {
    match j
    case OnMutex(_) =>
    case OnCond(e) => EventQueue(c.k, s.cond, e, s'.cond, t);
    case Waits(u) => EventQueue(c.k, s.cond, Queues(u), s'.cond, t);
  }

  lemma QueueAt(c: Config2, ss: seq<Pair>, js: seq<Joint>, i: nat, t: Thread)
    requires JointRun(c, ss, js) && i < |js|
    ensures t in Queued(ss[i].cond) && !MayRelease(js[i], t) ==> t in Queued(ss[i + 1].cond)
    ensures js[i] == Waits(t) ==> t in Queued(ss[i + 1].cond)
  {
    JointRunInv(c, ss, js, i);
    StepAt(c, ss, js, i);
    QueueStep(c, ss[i], js[i], ss[i + 1], t);
  }

  lemma {:induction false} StaysQueued(c: Config2, ss: seq<Pair>, js: seq<Joint>, i: nat, x: nat, t: Thread)
    requires JointRun(c, ss, js) && i < x <= |js| && js[i] == Waits(t)
    requires forall y :: i < y < x ==> !MayRelease(js[y], t)
    ensures t in Queued(ss[x].cond)
  {
    QueueAt(c, ss, js, x - 1, t);
    if x > i + 1 {
      StaysQueued(c, ss, js, i, x - 1, t);
    }
  }

  /** A thread looks at its condition with the mutex held, and waits; another gets
      the mutex at any time after that look.  Then the first was queued before,
      and whatever signal or broadcast comes first finds it there. */
  lemma NoLostWakeup(c: Config2, ss: seq<Pair>, js: seq<Joint>, look: nat, i: nat, t: Thread,
                     j: nat, u: Thread, x: nat)
    requires JointRun(c, ss, js) && look <= i < |js| && js[i] == Waits(t) && t != u
    requires forall y :: look <= y <= i ==> JointHolds(js[..y], t) > 0
    requires look <= j <= |js| && JointHolds(js[..j], u) > 0
    requires j <= x <= |js| && forall y :: i < y < x ==> !MayRelease(js[y], t)
    ensures i < j && t in Queued(ss[x].cond)
  {
    if j <= i {
      JointExclusion(c, ss, js, j, t, u);
      assert false;
    }
    StaysQueued(c, ss, js, i, x, t);
  }

  // ---- A wait comes back ------------------------------------------------------------

  /** The host object of a mutex system behind the pointer of a thread. */
  lemma MutexAt(c: Config, s: State, t: Thread) returns (p: Word)
    requires c.sort.MutexSort? && Inv(c, s) && (PcOf(s, t).Ready? || PcOf(s, t).Waiting?)
    ensures p == PcOf(s, t).ptr && p in s.heap && s.heap[p] == Abs(c, s) && s.heap[p].Mutex? && WellFormed(s.heap[p])
  {
    p := PcOf(s, t).ptr;
    ReadySeesAbs(c, s, t);
    AbsSort(c, s);
  }

  lemma CondAt(c: Config, s: State, t: Thread) returns (p: Word)
    requires c.sort.CondSort? && Inv(c, s) && (PcOf(s, t).Ready? || PcOf(s, t).Waiting?)
    ensures p == PcOf(s, t).ptr && p in s.heap && s.heap[p].Cond? && s.heap[p].waiters == Queued(s)
  {
    p := PcOf(s, t).ptr;
    ReadySeesAbs(c, s, t);
    QueuedIsPublished(c, s);
  }

  lemma CanRelease(c: Config, s: State, t: Thread) returns (s': State)
    requires c.sort.MutexSort? && Inv(c, s) && PcOf(s, t).Ready? && PcOf(s, t).op == Release
    requires Abs(c, s).Mutex? && HeldCountOf(Abs(c, s), t) == 1
    ensures Step(c, s, Released(t), s') && PcOf(s', t).Waiting?
  {
    var p := MutexAt(c, s, t);
    var o := s.heap[p].(owner := None, count := 0);
    CallEnabled(c, s, t, Release, p, o);
    s' := At(s.(heap := s.heap[p := o]), t, Waiting(p));
  }

  lemma CanQueue(c: Config, s: State, t: Thread) returns (s': State)
    requires c.sort.CondSort? && Inv(c, s) && PcOf(s, t).Ready? && PcOf(s, t).op == Wait && t !in Queued(s)
    ensures Step(c, s, Queues(t), s') && PcOf(s', t).Waiting?
  {
    var p := CondAt(c, s, t);
    var o := s.heap[p].(waiters := s.heap[p].waiters + {t});
    CallEnabled(c, s, t, Wait, p, o);
    s' := At(s.(heap := s.heap[p := o]), t, Waiting(p));
  }

  /** Whoever holds the mutex once and has both pointers can wait. */
  lemma CanWait(c: Config2, s: Pair, t: Thread) returns (s': Pair)
    requires c.Sorted() && JointInv(c, s) && Held(c, s, t) == 1 && t !in Queued(s.cond)
    requires PcOf(s.mutex, t).Ready? && PcOf(s.mutex, t).op == Release
    requires PcOf(s.cond, t).Ready? && PcOf(s.cond, t).op == Wait
    ensures JointStep(c, s, Waits(t), s')
    ensures PcOf(s'.mutex, t).Waiting? && PcOf(s'.cond, t).Waiting? && Held(c, s', t) == 0
  {
    var mutex := CanRelease(c.m, s.mutex, t);
    var cond := CanQueue(c.k, s.cond, t);
    s' := Pair(mutex, cond);
    HeldStep(c, s, Waits(t), s', t);
  }

  /** A waiter can always leave the queue, woken or not. */
  lemma CanLeave(c: Config2, s: Pair, t: Thread) returns (s': Pair)
    requires c.Sorted() && JointInv(c, s) && PcOf(s.cond, t).Waiting?
    ensures JointStep(c, s, OnCond(HostCall(t, Resume, Success)), s')
    ensures PcOf(s'.cond, t) == Idle && s'.mutex == s.mutex
  {
    var p := CondAt(c.k, s.cond, t);
    var o := s.cond.heap[p].(waiters := s.cond.heap[p].waiters - {t});
    CallEnabled(c.k, s.cond, t, Resume, p, o);
    s' := Pair(s.mutex, At(s.cond.(heap := s.cond.heap[p := o]), t, Idle));
  }

  /** A signal can always be given, and can take any waiter off the queue. */
  lemma CanSignal(c: Config2, s: Pair, t: Thread, w: Thread) returns (s': Pair)
    requires c.Sorted() && JointInv(c, s) && PcOf(s.cond, t).Ready? && PcOf(s.cond, t).op == Signal
    requires Queued(s.cond) != {} ==> w in Queued(s.cond)
    ensures JointStep(c, s, OnCond(HostCall(t, Signal, Success)), s')
    ensures PcOf(s'.cond, t) == Idle && s'.mutex == s.mutex
  {
    var p := CondAt(c.k, s.cond, t);
    var o := s.cond.heap[p].(waiters := s.cond.heap[p].waiters - {w});
    assert s.cond.heap[p].waiters == {} ==> o == s.cond.heap[p];
    CallEnabled(c.k, s.cond, t, Signal, p, o);
    s' := Pair(s.mutex, At(s.cond.(heap := s.cond.heap[p := o]), t, Idle));
  }

  lemma CanBroadcast(c: Config2, s: Pair, t: Thread) returns (s': Pair)
    requires c.Sorted() && JointInv(c, s) && PcOf(s.cond, t).Ready? && PcOf(s.cond, t).op == Broadcast
    ensures JointStep(c, s, OnCond(HostCall(t, Broadcast, Success)), s')
    ensures PcOf(s'.cond, t) == Idle && s'.mutex == s.mutex
  {
    var p := CondAt(c.k, s.cond, t);
    CallEnabled(c.k, s.cond, t, Broadcast, p, Cond({}));
    s' := Pair(s.mutex, At(s.cond.(heap := s.cond.heap[p := Cond({})]), t, Idle));
  }

  lemma OwnerHolds(c: Config2, s: Pair, u: Thread)
    requires Abs(c.m, s.mutex).Mutex? && WellFormed(Abs(c.m, s.mutex)) && Abs(c.m, s.mutex).owner == Some(u)
    ensures Held(c, s, u) > 0
  {
  }

  /** Then, when nobody holds the mutex, it can take it again. */
  lemma CanRetake(c: Config2, s: Pair, t: Thread) returns (s': Pair)
    requires c.Sorted() && JointInv(c, s) && PcOf(s.mutex, t).Waiting? && !PcOf(s.cond, t).Waiting?
    requires forall u :: Held(c, s, u) == 0
    ensures JointStep(c, s, OnMutex(HostCall(t, Retake, Success)), s') && Held(c, s', t) == 1
  {
    var p := MutexAt(c.m, s.mutex, t);
    var o := s.mutex.heap[p];
    if o.owner.Some? {
      OwnerHolds(c, s, o.owner.value);
      assert false;
    }
    CallEnabled(c.m, s.mutex, t, Retake, p, o.(owner := Some(t), count := 1));
    s' := Pair(At(s.mutex.(heap := s.mutex.heap[p := o.(owner := Some(t), count := 1)]), t, Idle), s.cond);
    HeldStep(c, s, OnMutex(HostCall(t, Retake, Success)), s', t);
  }
}
