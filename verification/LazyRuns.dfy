/** What holds of every run of the lazily created synchronisation objects. */
module LazyRuns {
  import opened Bits
  import opened HostSync
  import opened Wrappers
  import opened LazySync

  /** ss[i] is the state before event es[i]. */
  ghost predicate IsRun(c: Config, ss: seq<State>, es: seq<Event>) {
    && |ss| == |es| + 1 && Start(c, ss[0])
    && forall i :: 0 <= i < |es| ==> StepAt(c, ss, es, i)
  }

  ghost predicate StepAt(c: Config, ss: seq<State>, es: seq<Event>, i: nat)
    requires i < |es| < |ss|
  {
    Step(c, ss[i], es[i], ss[i + 1])
  }

  lemma InvNext(c: Config, ss: seq<State>, es: seq<Event>, i: nat, s': State)
    requires IsRun(c, ss, es) && i < |es| && Inv(c, ss[i]) && s' == ss[i + 1]
    ensures Inv(c, s') && s'.header == ss[i].header
  {
    assert StepAt(c, ss, es, i);
    StepOk(c, ss[i], es[i], s');
  }

  lemma {:induction false} RunInv(c: Config, ss: seq<State>, es: seq<Event>, i: nat)
    requires IsRun(c, ss, es) && i <= |es|
    ensures Inv(c, ss[i]) && ss[i].header == ss[0].header
  {
    if i == 0 {
      StartInv(c, ss[0]);
    } else {
      RunInv(c, ss, es, i - 1);
      InvNext(c, ss, es, i - 1, ss[i]);
    }
  }

  /** No run finds the word unaligned or loses a race to nobody, calls the host on a
      dead object or frees one twice; what to_host returns is live and is the
      published object, and what a thread has to store or free is live and its own. */
  lemma RunIsSafe(c: Config, ss: seq<State>, es: seq<Event>, i: nat, t: Thread)
    requires IsRun(c, ss, es) && i <= |es|
    ensures !ss[i].fault && PcOf(ss[i], t) != Failed
    ensures PcOf(ss[i], t).Ready? ==>
              PcOf(ss[i], t).ptr == ss[i].word && ss[i].word in ss[i].heap
    ensures Owns(PcOf(ss[i], t)) ==>
              var own := Owned(PcOf(ss[i], t));
              && own in ss[i].heap && own != ss[i].word
              && forall u :: u != t && Owns(PcOf(ss[i], u)) ==> Owned(PcOf(ss[i], u)) != own
  {
    RunInv(c, ss, es, i);
    assert t in ss[i].pcs ==> PcOk(c, ss[i], ss[i].pcs[t]);
  }

  // ---- Refinement -----------------------------------------------------------

  ghost predicate EagerRun(c: Config, header: Word, os: seq<HostObj>, es: seq<Event>) {
    && |os| == |es| + 1
    && forall i :: 0 <= i < |es| ==> EagerStep(c, header, os[i], es[i], os[i + 1])
  }

  lemma RunStep(c: Config, ss: seq<State>, es: seq<Event>, i: nat)
    requires IsRun(c, ss, es) && i < |es|
    ensures EagerStep(c, ss[0].header, Abs(c, ss[i]), es[i], Abs(c, ss[i + 1]))
  {
    RunInv(c, ss, es, i);
    assert StepAt(c, ss, es, i);
    StepOk(c, ss[i], es[i], ss[i + 1]);
  }

  lemma ReadySeesAbs(c: Config, s: State, t: Thread)
    requires Inv(c, s) && (PcOf(s, t).Ready? || PcOf(s, t).Waiting?)
    ensures PcOf(s, t).ptr in s.heap && s.heap[PcOf(s, t).ptr] == Abs(c, s)
  {
    assert PcOk(c, s, s.pcs[t]);
  }

  lemma ReadyAt(c: Config, ss: seq<State>, es: seq<Event>, i: nat, t: Thread)
    requires IsRun(c, ss, es) && i <= |es| && PcOf(ss[i], t).Ready?
    ensures PcOf(ss[i], t).ptr in ss[i].heap && ss[i].heap[PcOf(ss[i], t).ptr] == Abs(c, ss[i])
  {
    RunInv(c, ss, es, i);
    ReadySeesAbs(c, ss[i], t);
  }

  ghost predicate Encoded(c: Config, s: State, o: HostObj) {
    if Initialized(c, s.word) then exists attr :: o == NewObj(c, attr) else o == StaticObj(c, s)
  }

  lemma RunStarts(c: Config, ss: seq<State>, es: seq<Event>)
    requires IsRun(c, ss, es)
    ensures Encoded(c, ss[0], Abs(c, ss[0]))
  {
    StartInv(c, ss[0]);
  }

  /** With the same host calls and the same results, every run is a run of one
      host object that was there from the start: the one the static initialiser
      encodes, or the one an explicit init has made. */
  lemma RunRefines(c: Config, ss: seq<State>, es: seq<Event>) returns (os: seq<HostObj>)
    requires IsRun(c, ss, es)
    ensures EagerRun(c, ss[0].header, os, es) && Encoded(c, ss[0], os[0])
    ensures forall i, t :: 0 <= i <= |es| && PcOf(ss[i], t).Ready? ==>
              PcOf(ss[i], t).ptr in ss[i].heap && ss[i].heap[PcOf(ss[i], t).ptr] == os[i]
  {
    os := seq(|ss|, i requires 0 <= i < |ss| => Abs(c, ss[i]));
    RunStarts(c, ss, es);
    forall i | 0 <= i < |es|
      ensures EagerStep(c, ss[0].header, os[i], es[i], os[i + 1])
    {
      RunStep(c, ss, es, i);
    }
    forall i, t | 0 <= i <= |es| && PcOf(ss[i], t).Ready?
      ensures PcOf(ss[i], t).ptr in ss[i].heap && ss[i].heap[PcOf(ss[i], t).ptr] == os[i]
    {
      ReadyAt(c, ss, es, i, t);
    }
  }

  // ---- One host object, of one kind ------------------------------------------

  /** The payload word is stable from its first pointer to the next destroy. */
  lemma {:induction false} WordStable(c: Config, ss: seq<State>, es: seq<Event>, i: nat, j: nat)
    requires IsRun(c, ss, es) && i <= j <= |es|
    requires Initialized(c, ss[i].word)
    requires forall k :: i <= k < j ==> !es[k].Destroyed?
    ensures ss[j].word == ss[i].word
  {
    if i < j {
      WordStable(c, ss, es, i, j - 1);
      WordNext(c, ss, es, j - 1, ss[j]);
    }
  }

  lemma WordNext(c: Config, ss: seq<State>, es: seq<Event>, i: nat, s': State)
    requires IsRun(c, ss, es) && i < |es| && s' == ss[i + 1]
    requires Initialized(c, ss[i].word) && !es[i].Destroyed?
    ensures s'.word == ss[i].word
  {
    RunInv(c, ss, es, i);
    assert StepAt(c, ss, es, i);
    PointerStays(c, ss[i], es[i], s');
  }

  lemma LazyKeepsPointer(c: Config, s: State, t: Thread, addr: Word, s': State)
    requires t in s.pcs && PcOk(c, s, s.pcs[t]) && LazyStep(c, s, t, addr, s') && Initialized(c, s.word)
    ensures s'.word == s.word
  {
    assert s.pcs[t].Publish? ==> s.word != s.pcs[t].expected;
  }

  lemma PointerStays(c: Config, s: State, e: Event, s': State)
    requires PcsOk(c, s) && Step(c, s, e, s') && Initialized(c, s.word) && !e.Destroyed?
    ensures s'.word == s.word
  {
    if e.Tau? {
      if addr :| LazyStep(c, s, e.t, addr, s') {
        LazyKeepsPointer(c, s, e.t, addr, s');
      }
    }
  }

  /** Between two destroys all threads that finish to_host get one object. */
  lemma OneHostObject(c: Config, ss: seq<State>, es: seq<Event>, i: nat, t: Thread, j: nat, u: Thread)
    requires IsRun(c, ss, es) && i <= j <= |es|
    requires PcOf(ss[i], t).Ready? && PcOf(ss[j], u).Ready?
    requires forall k :: i <= k < j ==> !es[k].Destroyed?
    ensures PcOf(ss[i], t).ptr == PcOf(ss[j], u).ptr
  {
    RunIsSafe(c, ss, es, i, t);
    RunIsSafe(c, ss, es, j, u);
    RunInv(c, ss, es, i);
    WordStable(c, ss, es, i, j);
  }

  /** The kind after one event: an init sets it, and a destroy brings back the
      static kind only where the header survives. */
  function KindNext(c: Config, header: Word, kind: Kind, e: Event): Kind {
    if e.Inited? then e.attr
    else if e.Destroyed? then if c.layout.Lp64? then KindOf(header) else Normal
    else kind
  }

  function KindAfter(c: Config, header: Word, first: Kind, es: seq<Event>): Kind {
    if es == [] then first
    else KindNext(c, header, KindAfter(c, header, first, es[..|es| - 1]), es[|es| - 1])
  }

  /** The kind of the initial word, or the one an explicit init has chosen. */
  function FirstKind(c: Config, s: State): Kind {
    if Initialized(c, s.word) && s.word in s.heap && s.heap[s.word].Mutex? then s.heap[s.word].kind
    else KindOf(FirstWord(c, s))
  }

  lemma KindStep(c: Config, header: Word, o: HostObj, e: Event, o': HostObj)
    requires c.sort.MutexSort? && o.Mutex? && EagerStep(c, header, o, e, o')
    ensures o'.Mutex? && o'.kind == KindNext(c, header, o.kind, e)
  {
    if e.HostCall? {
      StepKeepsShape(o, e.t, e.op, e.r, o');
    }
  }

  lemma AbsSort(c: Config, s: State)
    requires Inv(c, s)
    ensures OfSort(c, Abs(c, s)) && WellFormed(Abs(c, s))
  {
  }

  lemma RunSort(c: Config, ss: seq<State>, es: seq<Event>, i: nat)
    requires IsRun(c, ss, es) && i <= |es|
    ensures OfSort(c, Abs(c, ss[i])) && WellFormed(Abs(c, ss[i]))
  {
    RunInv(c, ss, es, i);
    AbsSort(c, ss[i]);
  }

  lemma {:induction false} RunKind(c: Config, ss: seq<State>, es: seq<Event>, i: nat)
    requires IsRun(c, ss, es) && i <= |es| && c.sort.MutexSort?
    ensures Abs(c, ss[i]).Mutex?
    ensures Abs(c, ss[i]).kind == KindAfter(c, ss[0].header, FirstKind(c, ss[0]), es[..i])
  {
    RunSort(c, ss, es, i);
    if i > 0 {
      RunKind(c, ss, es, i - 1);
      RunStep(c, ss, es, i - 1);
      KindStep(c, ss[0].header, Abs(c, ss[i - 1]), es[i - 1], Abs(c, ss[i]));
      assert es[..i][..i - 1] == es[..i - 1];
    }
  }

  /** However late a racing thread reads data[0], the mutex everyone gets has
      the kind of the initial word, or of the init before the run; without init or
      destroy that never changes. */
  lemma ReadyKind(c: Config, ss: seq<State>, es: seq<Event>, i: nat, t: Thread)
    requires IsRun(c, ss, es) && i <= |es| && c.sort.MutexSort?
    requires PcOf(ss[i], t).Ready?
    ensures PcOf(ss[i], t).ptr in ss[i].heap
    ensures ss[i].heap[PcOf(ss[i], t).ptr].Mutex?
    ensures ss[i].heap[PcOf(ss[i], t).ptr].kind ==
            KindAfter(c, ss[0].header, FirstKind(c, ss[0]), es[..i])
  {
    RunIsSafe(c, ss, es, i, t);
    RunInv(c, ss, es, i);
    RunKind(c, ss, es, i);
    assert PcOk(c, ss[i], ss[i].pcs[t]);
  }

  /** The kind a static initialiser stands for, by its number. */
  predicate KindFits(kind: Kind, init: Word) {
    (kind.ErrorCheck? <==> init == 0x8000) && (kind.Recursive? <==> init == 0x4000)
  }

  predicate Harmless(es: seq<Event>) {
    forall i :: 0 <= i < |es| ==> !es[i].Inited? && !es[i].Destroyed?
  }

  lemma {:induction false} HarmlessKeepsKind(c: Config, header: Word, first: Kind, es: seq<Event>)
    requires Harmless(es)
    ensures KindAfter(c, header, first, es) == first
  {
    if es != [] {
      HarmlessKeepsKind(c, header, first, es[..|es| - 1]);
    }
  }

  lemma {:induction false} KindSinceEvent(c: Config, header: Word, first: Kind, es: seq<Event>, k: nat)
    requires k < |es| && (es[k].Inited? || es[k].Destroyed?) && Harmless(es[k + 1..])
    ensures es[k].Inited? ==> KindAfter(c, header, first, es) == es[k].attr
    ensures es[k].Destroyed? && c.layout.Ilp32? ==> KindAfter(c, header, first, es) == Normal
    ensures es[k].Destroyed? && c.layout.Lp64? ==> KindFits(KindAfter(c, header, first, es), header)
  {
    var some := es[..|es| - 1];
    if k < |some| {
      assert some[k + 1..] == es[k + 1..][..|es| - k - 2];
      assert es[k + 1..][|es| - k - 2] == es[|es| - 1];
      KindSinceEvent(c, header, first, some, k);
    }
  }

  /** With neither an init nor a destroy, in either layout, whoever gets the mutex
      gets an error-checking one for 0x8000, a recursive one for 0x4000, and a
      normal one for any other initial word. */
  lemma StaticKind(c: Config, ss: seq<State>, es: seq<Event>, i: nat, t: Thread)
    requires IsRun(c, ss, es) && i <= |es| && c.sort.MutexSort? && Harmless(es[..i])
    requires !Initialized(c, ss[0].word) && PcOf(ss[i], t).Ready?
    ensures PcOf(ss[i], t).ptr in ss[i].heap && ss[i].heap[PcOf(ss[i], t).ptr].Mutex?
    ensures KindFits(ss[i].heap[PcOf(ss[i], t).ptr].kind,
                     if c.layout.Ilp32? then ss[0].word else ss[0].header)
  {
    ReadyKind(c, ss, es, i, t);
    HarmlessKeepsKind(c, ss[0].header, FirstKind(c, ss[0]), es[..i]);
  }

  /** After the last init or destroy: the kind asked for, or a normal mutex on
      ILP32 and on LP64 the one of the header. */
  lemma KindSince(c: Config, ss: seq<State>, es: seq<Event>, k: nat, i: nat, t: Thread)
    requires IsRun(c, ss, es) && k < i <= |es| && c.sort.MutexSort? && PcOf(ss[i], t).Ready?
    requires (es[k].Inited? || es[k].Destroyed?) && Harmless(es[k + 1..i])
    ensures PcOf(ss[i], t).ptr in ss[i].heap && ss[i].heap[PcOf(ss[i], t).ptr].Mutex?
    ensures var kind := ss[i].heap[PcOf(ss[i], t).ptr].kind;
            && (es[k].Inited? ==> kind == es[k].attr)
            && (es[k].Destroyed? && c.layout.Ilp32? ==> kind == Normal)
            && (es[k].Destroyed? && c.layout.Lp64? ==> KindFits(kind, ss[0].header))
  {
    ReadyKind(c, ss, es, i, t);
    assert es[..i][k + 1..] == es[k + 1..i];
    KindSinceEvent(c, ss[0].header, FirstKind(c, ss[0]), es[..i], k);
  }

  /** A thread that built a mutex of another kind than the guest's, because it
      read data[0] too late, cannot publish it: the word has become a pointer. */
  lemma WrongKindLoses(c: Config, ss: seq<State>, es: seq<Event>, i: nat, t: Thread)
    requires IsRun(c, ss, es) && i <= |es| && c.sort.MutexSort?
    requires PcOf(ss[i], t).Publish? && PcOf(ss[i], t).own in ss[i].heap
    requires ss[i].heap[PcOf(ss[i], t).own] !=
             NewObj(c, KindAfter(c, ss[0].header, FirstKind(c, ss[0]), es[..i]))
    ensures ss[i].word != PcOf(ss[i], t).expected && Initialized(c, ss[i].word)
  {
    RunInv(c, ss, es, i);
    RunKind(c, ss, es, i);
    assert PcOk(c, ss[i], ss[i].pcs[t]);
  }

  // ---- Wait-freedom ---------------------------------------------------------

  lemma LazyLeaves(c: Config, s: State, u: Thread, addr: Word, s': State, t: Thread)
    requires LazyStep(c, s, u, addr, s') && u != t
    ensures PcOf(s', t) == PcOf(s, t)
  {
  }

  lemma LifeLeaves(c: Config, s: State, u: Thread, addr: Word, refused: bool, s': State, t: Thread)
    requires LifeStep(c, s, u, addr, refused, s') && u != t
    ensures PcOf(s', t) == PcOf(s, t)
  {
  }

  lemma CallLeaves(s: State, u: Thread, op: Op, r: Ret, s': State, t: Thread)
    requires CallStep(s, u, op, r, s') && u != t
    ensures PcOf(s', t) == PcOf(s, t)
  {
  }

  /** Another thread's step does not move t. */
  lemma OthersLeave(c: Config, s: State, e: Event, s': State, t: Thread)
    requires Step(c, s, e, s') && e.t != t
    ensures PcOf(s', t) == PcOf(s, t)
  {
    match e
    case Tau(u) =>
      if addr :| LazyStep(c, s, u, addr, s') {
        LazyLeaves(c, s, u, addr, s', t);
      } else {
        var addr, refused :| LifeStep(c, s, u, addr, refused, s');
        LifeLeaves(c, s, u, addr, refused, s', t);
      }
    case HostCall(u, op, r) => CallLeaves(s, u, op, r, s', t);
    case _ =>
  }

  lemma OwnStep(c: Config, s: State, e: Event, s': State)
    requires Step(c, s, e, s') && Distance(PcOf(s, e.t)) > 0
    ensures Distance(PcOf(s', e.t)) < Distance(PcOf(s, e.t))
  {
    if e.Tau? {
      if addr :| LazyStep(c, s, e.t, addr, s') {
        LazyCloser(c, s, e.t, addr, s');
      }
    }
  }

  /** The steps of t among es[i..j]. */
  function StepsOf(es: seq<Event>, i: nat, j: nat, t: Thread): nat
    requires i <= j <= |es|
  {
    if i == j then 0 else StepsOf(es, i, j - 1, t) + if es[j - 1].t == t then 1 else 0
  }

  /** to_host is wait-free: however the threads interleave, a thread is through it
      after at most six steps of its own. */
  lemma {:induction false} WaitFree(c: Config, ss: seq<State>, es: seq<Event>, i: nat, j: nat, t: Thread)
    requires IsRun(c, ss, es) && i <= j <= |es|
    requires forall k :: i <= k < j ==> Distance(PcOf(ss[k], t)) > 0
    ensures StepsOf(es, i, j, t) + Distance(PcOf(ss[j], t)) <= Distance(PcOf(ss[i], t)) <= 6
  {
    if i < j {
      WaitFree(c, ss, es, i, j - 1, t);
      CloserAt(c, ss, es, j - 1, t, ss[j]);
    }
  }

  lemma CloserAt(c: Config, ss: seq<State>, es: seq<Event>, k: nat, t: Thread, s': State)
    requires IsRun(c, ss, es) && k < |es| && s' == ss[k + 1] && Distance(PcOf(ss[k], t)) > 0
    ensures Distance(PcOf(s', t)) + (if es[k].t == t then 1 else 0) <= Distance(PcOf(ss[k], t))
  {
    assert StepAt(c, ss, es, k);
    if es[k].t == t {
      OwnStep(c, ss[k], es[k], s');
    } else {
      OthersLeave(c, ss[k], es[k], s', t);
    }
  }

  // ---- Allocation conservation ----------------------------------------------

  function Holders(s: State): set<Thread> {
    set t | t in s.pcs && Owns(s.pcs[t])
  }

  function HeldObjects(s: State, ts: set<Thread>): set<Word>
    requires ts <= Holders(s)
  {
    set t | t in ts :: Owned(s.pcs[t])
  }

  lemma {:induction false} HeldCount(s: State, ts: set<Thread>)
    requires DistinctOwned(s.pcs) && ts <= Holders(s)
    ensures |HeldObjects(s, ts)| == |ts|
  {
    if t :| t in ts {
      var rest := ts - {t};
      HeldCount(s, rest);
      assert HeldObjects(s, ts) == HeldObjects(s, rest) + {Owned(s.pcs[t])};
      assert Owned(s.pcs[t]) !in HeldObjects(s, rest);
    }
  }

  lemma LiveObjects(c: Config, s: State)
    requires PtrsOk(c, s) && PcsOk(c, s) && NoLeak(s.word, s.heap.Keys, s.pcs)
    ensures s.word !in HeldObjects(s, Holders(s))
    ensures s.heap.Keys == HeldObjects(s, Holders(s)) + (if Initialized(c, s.word) then {s.word} else {})
  {
    var held := HeldObjects(s, Holders(s));
    forall t | t in Holders(s)
      ensures Owned(s.pcs[t]) in s.heap && Owned(s.pcs[t]) != s.word
    {
      assert PcOk(c, s, s.pcs[t]);
    }
    forall a | a in s.heap.Keys
      ensures a == s.word || a in held
    {
      if a != s.word {
        var t :| t in s.pcs && Owns(s.pcs[t]) && Owned(s.pcs[t]) == a;
        assert t in Holders(s);
      }
    }
  }

  /** Allocated minus freed is the published object plus one object for each
      thread in the middle of an init or a destroy, or ended by a refused lazy
      init, in every reachable state. */
  lemma RunConserves(c: Config, ss: seq<State>, es: seq<Event>, i: nat)
    requires IsRun(c, ss, es) && i <= |es|
    ensures ss[i].allocs ==
            ss[i].frees + (if Initialized(c, ss[i].word) then 1 else 0) + |Holders(ss[i])|
  {
    RunInv(c, ss, es, i);
    HeldCount(ss[i], Holders(ss[i]));
    LiveObjects(c, ss[i]);
  }

  // ---- Mutual exclusion -----------------------------------------------------

  /** What a returned call, or half of a wait, changes in how often t holds the
      mutex. */
  function Gain(e: Event, t: Thread): int {
    if !e.HostCall? || e.t != t || e.r != Success then 0
    else if e.op == Unlock || e.op == Release then -1 else 1
  }

  /** How often t holds the mutex, by the results its calls returned. */
  function Holds(es: seq<Event>, t: Thread): int {
    if es == [] then 0 else Holds(es[..|es| - 1], t) + Gain(es[|es| - 1], t)
  }

  function HeldCountOf(o: HostObj, t: Thread): int
    requires o.Mutex?
  {
    if o.owner == Some(t) then o.count else 0
  }

  lemma GainStep(c: Config, header: Word, o: HostObj, e: Event, o': HostObj, t: Thread)
    requires c.sort.MutexSort? && o.Mutex? && WellFormed(o) && EagerStep(c, header, o, e, o')
    ensures o'.Mutex? && WellFormed(o')
    ensures HeldCountOf(o', t) == HeldCountOf(o, t) + Gain(e, t)
  {
  }

  lemma StartsFree(c: Config, s: State, t: Thread)
    requires Start(c, s) && c.sort.MutexSort?
    ensures Abs(c, s).Mutex? && HeldCountOf(Abs(c, s), t) == 0
  {
    StartInv(c, s);
  }

  lemma HoldsStep(c: Config, ss: seq<State>, es: seq<Event>, i: nat, t: Thread)
    requires IsRun(c, ss, es) && i < |es| && c.sort.MutexSort?
    ensures Abs(c, ss[i]).Mutex? && Abs(c, ss[i + 1]).Mutex?
    ensures HeldCountOf(Abs(c, ss[i + 1]), t) == HeldCountOf(Abs(c, ss[i]), t) + Gain(es[i], t)
  {
    RunSort(c, ss, es, i);
    RunStep(c, ss, es, i);
    GainStep(c, ss[0].header, Abs(c, ss[i]), es[i], Abs(c, ss[i + 1]), t);
  }

  lemma HoldsMore(es: seq<Event>, i: nat, t: Thread)
    requires 0 < i <= |es|
    ensures Holds(es[..i], t) == Holds(es[..i - 1], t) + Gain(es[i - 1], t)
  {
    assert es[..i][..i - 1] == es[..i - 1];
  }

  lemma {:induction false} RunHolds(c: Config, ss: seq<State>, es: seq<Event>, i: nat, t: Thread)
    requires IsRun(c, ss, es) && i <= |es| && c.sort.MutexSort?
    ensures Abs(c, ss[i]).Mutex?
    ensures Holds(es[..i], t) == HeldCountOf(Abs(c, ss[i]), t)
  {
    if i == 0 {
      StartsFree(c, ss[0], t);
    } else {
      RunHolds(c, ss, es, i - 1, t);
      HoldsStep(c, ss, es, i - 1, t);
      HoldsMore(es, i, t);
    }
  }

  /** In every run, whoever raced on the first use and whoever waits on a
      condition with it, at most one thread at a time holds the guest mutex. */
  lemma MutualExclusion(c: Config, ss: seq<State>, es: seq<Event>, i: nat, t: Thread, u: Thread)
    requires IsRun(c, ss, es) && i <= |es| && c.sort.MutexSort? && t != u
    ensures Holds(es[..i], t) >= 0
    ensures Holds(es[..i], t) > 0 ==> Holds(es[..i], u) == 0
  {
    RunHolds(c, ss, es, i, t);
    RunHolds(c, ss, es, i, u);
  }

  // ---- No lost wakeup -------------------------------------------------------

  /** Every thread queued on any live host condition variable. */
  function Queued(s: State): set<Thread> {
    set a, t | a in s.heap && s.heap[a].Cond? && t in s.heap[a].waiters :: t
  }

  /** Waiters and signallers meet on one host object: nobody queues elsewhere. */
  lemma QueuedIsPublished(c: Config, s: State)
    requires Inv(c, s) && c.sort.CondSort?
    ensures Abs(c, s).Cond? && Queued(s) == Abs(c, s).waiters
  {
    AbsSort(c, s);
    forall a | a in s.heap && a != s.word
      ensures !InUse(s.heap[a])
    {
      var t :| t in s.pcs && Owns(s.pcs[t]) && Owned(s.pcs[t]) == a;
      assert PcOk(c, s, s.pcs[t]);
    }
  }

  lemma RunQueue(c: Config, ss: seq<State>, es: seq<Event>, i: nat)
    requires IsRun(c, ss, es) && i <= |es| && c.sort.CondSort?
    ensures Abs(c, ss[i]).Cond? && Queued(ss[i]) == Abs(c, ss[i]).waiters
  {
    RunInv(c, ss, es, i);
    QueuedIsPublished(c, ss[i]);
  }

  /** A signal takes exactly one thread off the queue if any thread is queued
      anywhere, and a broadcast takes them all. */
  lemma SignalWakesSomeone(c: Config, ss: seq<State>, es: seq<Event>, i: nat)
    requires IsRun(c, ss, es) && i < |es| && c.sort.CondSort?
    requires es[i].HostCall?
    ensures es[i].op == Signal && Queued(ss[i]) != {} ==>
              exists w :: w in Queued(ss[i]) && Queued(ss[i + 1]) == Queued(ss[i]) - {w}
    ensures es[i].op == Signal && Queued(ss[i]) == {} ==> Queued(ss[i + 1]) == {}
    ensures es[i].op == Broadcast ==> Queued(ss[i + 1]) == {}
    ensures es[i].op == Wait ==> Queued(ss[i + 1]) == Queued(ss[i]) + {es[i].t}
    ensures es[i].op == Resume ==> Queued(ss[i + 1]) == Queued(ss[i]) - {es[i].t}
    ensures es[i].r == Success
  {
    RunQueue(c, ss, es, i);
    RunQueue(c, ss, es, i + 1);
    RunStep(c, ss, es, i);
    WakesOne(Abs(c, ss[i]), es[i].t, es[i].op, es[i].r, Abs(c, ss[i + 1]));
  }

  lemma WakesOne(o: HostObj, t: Thread, op: Op, r: Ret, o': HostObj)
    requires o.Cond? && o'.Cond? && HostStep(o, t, op, r, o')
    ensures op == Signal && o.waiters != {} ==> exists w :: w in o.waiters && o'.waiters == o.waiters - {w}
    ensures op == Signal && o.waiters == {} ==> o'.waiters == {}
    ensures op == Broadcast ==> o'.waiters == {}
    ensures op == Wait ==> o'.waiters == o.waiters + {t}
    ensures op == Resume ==> o'.waiters == o.waiters - {t}
    ensures r == Success
  {
  }

  // ---- The static initialisers on ILP32 ---------------------------------------

  lemma {:induction false} AndTrailingOnes(x: nat, k: nat, q: nat)
    ensures BitAnd(x, OnesBelow(q, k)) == 0 <==> Aligned(x, k) && BitAnd(Shift(x, k), q) == 0
  {
    AndHalf(x, OnesBelow(q, k));
    if k > 0 {
      AndTrailingOnes(x / 2, k - 1, q);
    }
  }

  /** q followed by k one bits. */
  function OnesBelow(q: nat, k: nat): nat {
    if k == 0 then q else 2 * OnesBelow(q, k - 1) + 1
  }

  function Shift(x: nat, k: nat): nat {
    if k == 0 then x else Shift(x / 2, k - 1)
  }

  lemma MaskShape() returns (k: nat)
    ensures OnesBelow(0x3FFFC, k) == INIT_MUTEX_MASK
    ensures Pow2(k) == 0x4000
  {
    k := 14;
    assert Pow2(14) == 0x4000;
    assert Pow2(7) == 0x80;
    assert OnesBelow(0x3FFFC, 4) == 0x3F_FFCF;
    OnesBelowSum(0x3FFFC, 4, 10);
    assert OnesBelow(0x3F_FFCF, 5) == 0x7FF_F9FF;
    OnesBelowSum(0x3F_FFCF, 5, 5);
    assert OnesBelow(0x7FF_F9FF, 5) == 0xFFFF_3FFF;
  }

  lemma {:induction false} OnesBelowSum(q: nat, j: nat, k: nat)
    ensures OnesBelow(q, j + k) == OnesBelow(OnesBelow(q, j), k)
  {
    if k > 0 {
      OnesBelowSum(q, j, k - 1);
    }
  }

  lemma HighBits(y: nat, m: nat, mask: nat, n: nat)
    requires m == Pow2(n) - 1 && mask == 4 * m && y < 4 * Pow2(n)
    ensures BitAnd(y, mask) == 0 <==> y < 4
  {
    AndHalf(y, 4 * m);
    assert 4 * m / 2 == 2 * m && 2 * m / 2 == m;
    AndHalf(y / 2, 2 * m);
    AndOnes(y / 2 / 2, n);
  }

  lemma SixteenOnes() returns (n: nat)
    ensures Pow2(n) == 0x1_0000
  {
    n := 16;
    assert Pow2(8) == 0x100;
    assert Pow2(16) == 0x1_0000;
  }

  function Unshift(y: nat, k: nat): nat {
    if k == 0 then y else 2 * Unshift(y, k - 1)
  }

  lemma {:induction false} AlignedIsUnshift(x: nat, k: nat, b: nat)
    ensures Aligned(x, k) <==> x == Unshift(Shift(x, k), k)
    ensures x < Unshift(b, k) ==> Shift(x, k) < b
  {
    if k > 0 {
      AlignedIsUnshift(x / 2, k - 1, b);
    }
  }

  lemma {:induction false} UnshiftValue(y: nat, k: nat)
    ensures Unshift(y, k) == Pow2(k) * y
    ensures Shift(Unshift(y, k), k) == y
  {
    if k > 0 {
      UnshiftValue(y, k - 1);
      assert Pow2(k) * y == 2 * (Pow2(k - 1) * y);
    }
  }

  lemma KindBits(w: Word, mask: nat, k: nat, p: nat, d: nat) returns (y: nat)
    requires mask == OnesBelow(0x3FFFC, k) && p == Pow2(k) && w < p * 0x4_0000
    ensures BitAnd(w, mask) == 0 <==> w == p * y && y < 4
    ensures w == p * d ==> y == d
  {
    y := Shift(w, k);
    AndTrailingOnes(w, k, 0x3FFFC);
    UnshiftValue(0x4_0000, k);
    UnshiftValue(y, k);
    UnshiftValue(d, k);
    AlignedIsUnshift(w, k, 0x4_0000);
    var n := SixteenOnes();
    HighBits(y, 0xFFFF, 0x3FFFC, n);
  }

  /** Where the whole word is a pointer, only 0 is uninitialised. */
  lemma ZeroWord(c: Config, w: Word)
    requires !(c.layout.Ilp32? && c.sort.MutexSort?)
    ensures !Initialized(c, w) <==> w == 0
  {
  }

  /** Of the 32-bit words the mask takes exactly the four with at most the two
      kind bits set for static initialisers. */
  lemma StaticWords(c: Config, w: Word)
    requires c.layout.Ilp32? && c.sort.MutexSort? && w < 0x1_0000_0000
    ensures !Initialized(c, w) <==> w in {0, RECURSIVE_INIT, ERRORCHECK_INIT, 0xC000}
  {
    var k := MaskShape();
    var y := KindBits(w, INIT_MUTEX_MASK, k, 0x4000, w / 0x4000);
    FourWords(w, y);
  }

  lemma FourWords(w: Word, y: nat)
    requires w == 0x4000 * (w / 0x4000) ==> y == w / 0x4000
    ensures w == 0x4000 * y && y < 4 <==> w in {0, 0x4000, 0x8000, 0xC000}
  {
  }
}
