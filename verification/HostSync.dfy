/** What the host's synchronisation objects promise.  One object is a value; one
    call on it is a step from a value to the next one. */
module HostSync {
  import opened Wrappers

  type Thread = nat

  datatype Kind = Normal | Recursive | ErrorCheck

  datatype HostObj =
    | Mutex(kind: Kind, owner: Option<Thread>, count: nat)
    | Cond(waiters: set<Thread>)
    | Rwlock(writer: Option<Thread>, readers: multiset<Thread>)

  /** A wait has two halves on each of its objects: Wait queues the caller on the
      condition variable while Release lets go of the mutex; Resume lets it go on,
      whether it was signalled, timed out or woke spuriously, and Retake locks the
      mutex again. */
  datatype Op =
    | Lock | TryLock | Unlock | Release | Retake
    | Wait | Resume | Signal | Broadcast
    | ReadLock | WriteLock | ReleaseRw

  datatype Ret = Success | Busy | Deadlock | NotOwner

  predicate InUse(o: HostObj) {
    match o
    case Mutex(_, owner, count) => owner.Some? || count != 0
    case Cond(waiters) => waiters != {}
    case Rwlock(writer, readers) => writer.Some? || readers != multiset{}
  }

  /** Every owned mutex is held at least once, and a free one not at all. */
  predicate WellFormed(o: HostObj) {
    o.Mutex? ==> (o.owner.Some? <==> o.count > 0)
  }

  predicate Accepts(o: HostObj, op: Op) {
    match op
    case Lock | TryLock | Unlock | Release | Retake => o.Mutex?
    case Wait | Resume | Signal | Broadcast => o.Cond?
    case ReadLock | WriteLock | ReleaseRw => o.Rwlock?
  }

  /** Call op by thread t may finish with r and turn o into o'.  A call that
      blocks has no step.  Unlocking a normal mutex one does not own, and waiting
      with a mutex not held exactly once, are outside the contract and have no
      step either. */
  predicate HostStep(o: HostObj, t: Thread, op: Op, r: Ret, o': HostObj) {
    Accepts(o, op) &&
    match op
    case Lock =>
      if o.owner == None then r == Success && o' == o.(owner := Some(t), count := 1)
      else o.owner == Some(t) && o.kind != Normal &&
           if o.kind == Recursive then r == Success && o' == o.(count := o.count + 1)
           else r == Deadlock && o' == o
    case TryLock =>
      if o.owner == None then r == Success && o' == o.(owner := Some(t), count := 1)
      else if o.owner == Some(t) && o.kind == Recursive then r == Success && o' == o.(count := o.count + 1)
      else r == Busy && o' == o
    case Unlock =>
      if o.owner == Some(t) then
        r == Success && o.count > 0 &&
        o' == if o.count == 1 then o.(owner := None, count := 0) else o.(count := o.count - 1)
      else o.kind != Normal && r == NotOwner && o' == o
    case Release => r == Success && o.owner == Some(t) && o.count == 1 && o' == o.(owner := None, count := 0)
    case Retake => r == Success && o.owner == None && o' == o.(owner := Some(t), count := 1)
    case Wait => r == Success && t !in o.waiters && o' == o.(waiters := o.waiters + {t})
    case Resume => r == Success && o' == o.(waiters := o.waiters - {t})
    case Signal =>
      r == Success && o'.Cond? &&
      if o.waiters == {} then o' == o
      else exists w :: w in o.waiters && o'.waiters == o.waiters - {w}
    case Broadcast => r == Success && o' == Cond({})
    case ReadLock => o.writer == None && r == Success && o' == o.(readers := o.readers + multiset{t})
    case WriteLock =>
      o.writer == None && o.readers == multiset{} && r == Success && o' == o.(writer := Some(t))
    case ReleaseRw =>
      r == Success &&
      if o.writer == Some(t) then o' == o.(writer := None)
      else t in o.readers && o' == o.(readers := o.readers - multiset{t})
  }

  /** The first half of a wait leaves the caller inside, for the second half. */
  predicate Parks(op: Op) {
    op == Wait || op == Release
  }

  predicate Unparks(op: Op) {
    op == Resume || op == Retake
  }

  lemma StepKeepsShape(o: HostObj, t: Thread, op: Op, r: Ret, o': HostObj)
    requires HostStep(o, t, op, r, o')
    ensures o.Mutex? ==> o'.Mutex? && o'.kind == o.kind
    ensures o.Cond? ==> o'.Cond?
    ensures o.Rwlock? ==> o'.Rwlock?
    ensures WellFormed(o) ==> WellFormed(o')
  {
  }

  /** Thread t holds o or waits on it. */
  predicate Occupies(o: HostObj, t: Thread) {
    match o
    case Mutex(_, owner, _) => owner == Some(t)
    case Cond(waiters) => t in waiters
    case Rwlock(writer, readers) => writer == Some(t) || t in readers
  }

  /** An object is in use exactly when some thread holds it or waits on it. */
  lemma InUseExact(o: HostObj)
    requires WellFormed(o)
    ensures InUse(o) <==> exists t :: Occupies(o, t)
  {
    if InUse(o) {
      match o
      case Mutex(_, owner, _) => assert Occupies(o, owner.value);
      case Cond(waiters) =>
        var t :| t in waiters;
        assert Occupies(o, t);
      case Rwlock(writer, readers) =>
        if writer.Some? {
          assert Occupies(o, writer.value);
        } else {
          var t :| t in readers;
          assert Occupies(o, t);
        }
    }
  }

  /** A try succeeds exactly where a lock would, and tells what it finds busy
      instead of waiting or reporting a deadlock. */
  lemma TryIsLock(o: HostObj, t: Thread, o': HostObj)
    requires o.Mutex? && WellFormed(o)
    ensures HostStep(o, t, TryLock, Success, o') <==> HostStep(o, t, Lock, Success, o')
    ensures HostStep(o, t, TryLock, Busy, o) <==> forall q :: !HostStep(o, t, Lock, Success, q)
  {
    var q := if o.owner == None then o.(owner := Some(t), count := 1) else o.(count := o.count + 1);
    assert HostStep(o, t, TryLock, Success, q) ==> HostStep(o, t, Lock, Success, q);
  }

  /** An unlock takes back what a lock did, and only an owner's does anything. */
  lemma UnlockTakesBack(o: HostObj, t: Thread, o': HostObj)
    requires o.Mutex? && WellFormed(o)
    ensures HostStep(o, t, Lock, Success, o') ==> HostStep(o', t, Unlock, Success, o)
    ensures HostStep(o, t, Unlock, NotOwner, o') ==> o' == o && o.owner != Some(t)
    ensures o.kind != Normal && o.owner != Some(t) ==> HostStep(o, t, Unlock, NotOwner, o)
  {
  }
}
