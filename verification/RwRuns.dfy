/** Read-write locks used by many threads: who holds one, by the results of the
    calls, and that a writer is alone. */
module RwRuns {
  import opened HostSync
  import opened LazyRuns
  import opened LazySync
  import opened Wrappers

  /** What a returned call changes in how often t holds the lock. */
  function RwGain(e: Event, t: Thread): int {
    if !e.HostCall? || e.t != t || e.r != Success then 0
    else if e.op == ReleaseRw then -1 else 1
  }

  /** How often t holds the lock, by the results its calls returned. */
  function RwHolds(es: seq<Event>, t: Thread): int {
    if es == [] then 0 else RwHolds(es[..|es| - 1], t) + RwGain(es[|es| - 1], t)
  }

  function RwCountOf(o: HostObj, t: Thread): int
    requires o.Rwlock?
  {
    o.readers[t] + if o.writer == Some(t) then 1 else 0
  }

  predicate WriterAlone(o: HostObj) {
    o.Rwlock? && (o.writer.Some? ==> o.readers == multiset{})
  }

  lemma RwGainStep(c: Config, header: Word, o: HostObj, e: Event, o': HostObj, t: Thread)
    requires c.sort.RwlockSort? && WriterAlone(o) && EagerStep(c, header, o, e, o')
    ensures WriterAlone(o')
    ensures RwCountOf(o', t) == RwCountOf(o, t) + RwGain(e, t)
  {
    if e.HostCall? {
      RwCallGain(o, e.t, e.op, e.r, o', t);
    }
  }

  lemma RwCallGain(o: HostObj, u: Thread, op: Op, r: Ret, o': HostObj, t: Thread)
    requires WriterAlone(o) && HostStep(o, u, op, r, o')
    ensures WriterAlone(o') && r == Success
    ensures RwCountOf(o', t) == RwCountOf(o, t) + if t != u then 0 else if op == ReleaseRw then -1 else 1
  {
    match op
    case ReadLock =>
    case WriteLock =>
    case ReleaseRw =>
  }

  lemma {:induction false} RunRwHolds(c: Config, ss: seq<State>, es: seq<Event>, i: nat, t: Thread)
    requires IsRun(c, ss, es) && i <= |es| && c.sort.RwlockSort?
    ensures WriterAlone(Abs(c, ss[i]))
    ensures RwHolds(es[..i], t) == RwCountOf(Abs(c, ss[i]), t)
  {
    if i == 0 {
      StartInv(c, ss[0]);
    } else {
      RunRwHolds(c, ss, es, i - 1, t);
      RunStep(c, ss, es, i - 1);
      RwGainStep(c, ss[0].header, Abs(c, ss[i - 1]), es[i - 1], Abs(c, ss[i]), t);
      assert es[..i][..i - 1] == es[..i - 1];
    }
  }

  // ---- A writer is alone ------------------------------------------------------

  predicate Writes(e: Event, t: Thread) {
    e == HostCall(t, WriteLock, Success)
  }

  predicate Releases(e: Event, t: Thread) {
    e.HostCall? && e.t == t && e.op == ReleaseRw
  }

  lemma WriterStep(c: Config, header: Word, o: HostObj, e: Event, o': HostObj, t: Thread)
    requires c.sort.RwlockSort? && WriterAlone(o) && EagerStep(c, header, o, e, o')
    ensures Writes(e, t) ==> o'.Rwlock? && o'.writer == Some(t)
    ensures o.writer == Some(t) && !Releases(e, t) ==> o'.Rwlock? && o'.writer == Some(t)
  {
  }

  lemma {:induction false} StaysWriter(c: Config, ss: seq<State>, es: seq<Event>, j: nat, i: nat, t: Thread)
    requires IsRun(c, ss, es) && j < i <= |es| && c.sort.RwlockSort?
    requires Writes(es[j], t) && forall k :: j < k < i ==> !Releases(es[k], t)
    ensures Abs(c, ss[i]).Rwlock? && Abs(c, ss[i]).writer == Some(t)
  {
    RunRwHolds(c, ss, es, i - 1, t);
    RunStep(c, ss, es, i - 1);
    if j < i - 1 {
      StaysWriter(c, ss, es, j, i - 1, t);
    }
    WriterStep(c, ss[0].header, Abs(c, ss[i - 1]), es[i - 1], Abs(c, ss[i]), t);
  }

  /** From a write lock to its holder's next release, whoever raced on the first
      use, that thread holds the lock once and no other holds it at all, neither to
      read nor to write. */
  lemma WriterExclusion(c: Config, ss: seq<State>, es: seq<Event>, j: nat, i: nat, t: Thread, u: Thread)
    requires IsRun(c, ss, es) && j < i <= |es| && c.sort.RwlockSort?
    requires Writes(es[j], t) && forall k :: j < k < i ==> !Releases(es[k], t)
    ensures RwHolds(es[..i], u) == if u == t then 1 else 0
    ensures RwHolds(es[..j], u) == 0
  {
    StaysWriter(c, ss, es, j, i, t);
    RunRwHolds(c, ss, es, i, u);
    RunRwHolds(c, ss, es, j, u);
    RunStep(c, ss, es, j);
    WriterFinds(c, ss[0].header, Abs(c, ss[j]), es[j], Abs(c, ss[j + 1]), t);
  }

  lemma WriterFinds(c: Config, header: Word, o: HostObj, e: Event, o': HostObj, t: Thread)
    requires EagerStep(c, header, o, e, o') && Writes(e, t)
    ensures o.Rwlock? && o.writer.None? && o.readers == multiset{}
  {
  }

  // ---- When a lock can be had ---------------------------------------------------

  /** The host object behind the pointer of a thread. */
  lemma RwlockAt(c: Config, s: State, t: Thread) returns (p: Word)
    requires c.sort.RwlockSort? && Inv(c, s) && PcOf(s, t).Ready?
    ensures p == PcOf(s, t).ptr && p in s.heap && s.heap[p] == Abs(c, s) && s.heap[p].Rwlock?
  {
    p := PcOf(s, t).ptr;
    ReadySeesAbs(c, s, t);
    AbsSort(c, s);
  }

  lemma HolderCounts(o: HostObj, u: Thread)
    requires o.Rwlock?
    ensures RwCountOf(o, u) >= o.readers[u]
    ensures o.writer == Some(u) ==> RwCountOf(o, u) > o.readers[u]
    ensures u in o.readers ==> RwCountOf(o, u) > 0
  {
  }

  /** To read it is enough that nobody writes. */
  lemma CanRead(c: Config, s: State, t: Thread) returns (s': State)
    requires c.sort.RwlockSort? && Inv(c, s) && PcOf(s, t).Ready? && PcOf(s, t).op == ReadLock
    requires Abs(c, s).Rwlock? && forall u :: RwCountOf(Abs(c, s), u) == Abs(c, s).readers[u]
    ensures Step(c, s, HostCall(t, ReadLock, Success), s') && PcOf(s', t) == Idle
  {
    var p := RwlockAt(c, s, t);
    var o := s.heap[p];
    if o.writer.Some? {
      HolderCounts(o, o.writer.value);
      assert false;
    }
    var o' := o.(readers := o.readers + multiset{t});
    CallEnabled(c, s, t, ReadLock, p, o');
    s' := At(s.(heap := s.heap[p := o']), t, Idle);
  }

  /** To write nobody may hold it. */
  lemma CanWrite(c: Config, s: State, t: Thread) returns (s': State)
    requires c.sort.RwlockSort? && Inv(c, s) && PcOf(s, t).Ready? && PcOf(s, t).op == WriteLock
    requires Abs(c, s).Rwlock? && forall u :: RwCountOf(Abs(c, s), u) == 0
    ensures Step(c, s, HostCall(t, WriteLock, Success), s') && PcOf(s', t) == Idle
  {
    var p := RwlockAt(c, s, t);
    var o := s.heap[p];
    if o.writer.Some? {
      HolderCounts(o, o.writer.value);
      assert false;
    }
    if u :| u in o.readers {
      HolderCounts(o, u);
      assert false;
    }
    var o' := o.(writer := Some(t));
    CallEnabled(c, s, t, WriteLock, p, o');
    s' := At(s.(heap := s.heap[p := o']), t, Idle);
  }

  /** Whoever holds it can release it. */
  lemma CanRelease(c: Config, s: State, t: Thread) returns (s': State)
    requires c.sort.RwlockSort? && Inv(c, s) && PcOf(s, t).Ready? && PcOf(s, t).op == ReleaseRw
    requires Abs(c, s).Rwlock? && RwCountOf(Abs(c, s), t) > 0
    ensures Step(c, s, HostCall(t, ReleaseRw, Success), s') && PcOf(s', t) == Idle
  {
    var p := RwlockAt(c, s, t);
    var o := s.heap[p];
    var o' := if o.writer == Some(t) then o.(writer := None) else o.(readers := o.readers - multiset{t});
    CallEnabled(c, s, t, ReleaseRw, p, o');
    s' := At(s.(heap := s.heap[p := o']), t, Idle);
  }
}
