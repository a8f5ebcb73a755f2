/** The first setjmp calls of any number of threads, racing for the one cookie:
    the test, the draw and store, and the final read are separate steps. */
module CookieRace {
  import opened SetJmp

  type Call = nat

  /** A call is before its test, has seen 0 and will store, is about to read the
      cookie into its buffer, or has returned with that word. */
  datatype Pc = Testing(flag: Word) | Storing(flag: Word) | Reading(flag: Word) | Saved(word: Word)

  /** An abort ends the process. */
  datatype State = State(cookie: Word, pcs: map<Call, Pc>, aborted: bool)

  /** A call comes in, or makes its next step; draw is what arc4random gives. */
  datatype Event = Arrive(k: Call, flag: Word) | Move(k: Call, draw: Word)

  const START: State := State(0, map[], false)

  function At(s: State, k: Call, pc: Pc): State {
    s.(pcs := s.pcs[k := pc])
  }

  /** An event that cannot happen changes nothing. */
  function Next(s: State, e: Event): State {
    if s.aborted then s
    else match e
      case Arrive(k, flag) => if k in s.pcs then s else At(s, k, Testing(flag))
      case Move(k, draw) =>
        if k !in s.pcs then s
        else match s.pcs[k]
          case Testing(flag) => At(s, k, if s.cookie == 0 then Storing(flag) else Reading(flag))
          case Storing(flag) => At(s.(cookie := ClearFlag(draw)), k, Reading(flag))
          case Reading(flag) =>
            if flag > 1 then s.(aborted := true) else At(s, k, Saved(OrFlag(s.cookie, flag)))
          case Saved(_) => s
  }

  function After(s: State, es: seq<Event>): State {
    if es == [] then s else Next(After(s, es[..|es| - 1]), es[|es| - 1])
  }

  lemma AfterMore(s: State, es: seq<Event>, e: Event)
    ensures After(s, es + [e]) == Next(After(s, es), e)
  {
    assert (es + [e])[..|es|] == es;
  }

  lemma AfterOne(s: State, e: Event)
    ensures After(s, [e]) == Next(s, e)
  {
    AfterMore(s, [], e);
    assert [] + [e] == [e];
  }

  lemma {:induction false} CookieIsEven(es: seq<Event>)
    ensures After(START, es).cookie % 2 == 0
  {
    if es != [] {
      CookieIsEven(es[..|es| - 1]);
    }
  }

  /** Call k came in with this flag. */
  ghost predicate CameWith(es: seq<Event>, k: Call, flag: Word) {
    Arrive(k, flag) in es
  }

  /** Every flag inside is one that came in, every saved word carries one of 0 and
      1 that did, and nothing aborts unless another came in. */
  lemma {:induction false} FlagsCameIn(es: seq<Event>, k: Call)
    ensures var s := After(START, es);
            && (s.aborted ==> exists j, flag :: CameWith(es, j, flag) && flag > 1)
            && (k in s.pcs ==> match s.pcs[k]
                               case Testing(flag) => CameWith(es, k, flag)
                               case Storing(flag) => CameWith(es, k, flag)
                               case Reading(flag) => CameWith(es, k, flag)
                               case Saved(word) => CameWith(es, k, word % 2))
  {
    if es != [] {
      var some, e := es[..|es| - 1], es[|es| - 1];
      FlagsCameIn(some, k);
      CookieIsEven(some);
      assert e in es && forall a :: a in some ==> a in es;
      assert forall j, flag :: CameWith(some, j, flag) ==> CameWith(es, j, flag);
      if e.Move? {
        FlagsCameIn(some, e.k);
      } else {
        assert CameWith(es, e.k, e.flag);
      }
    }
  }

  // ---- When the cookie stays ------------------------------------------------------

  /** A call that saw 0 puts another cookie in place. */
  predicate StoresOther(s: State, e: Event) {
    && !s.aborted && e.Move? && e.k in s.pcs && s.pcs[e.k].Storing? && ClearFlag(e.draw) != s.cookie
  }

  lemma OnlyStoresChange(s: State, e: Event)
    ensures Next(s, e).cookie == s.cookie <==> !StoresOther(s, e)
  {
  }

  ghost predicate StaysThrough(s: State, es: seq<Event>) {
    forall j :: 0 <= j <= |es| ==> After(s, es[..j]).cookie == s.cookie
  }

  ghost predicate NobodyStores(s: State, es: seq<Event>) {
    forall j :: 0 <= j < |es| ==> !StoresOther(After(s, es[..j]), es[j])
  }

  lemma StepOf(s: State, es: seq<Event>, j: nat)
    requires j < |es|
    ensures After(s, es[..j + 1]).cookie == After(s, es[..j]).cookie <==> !StoresOther(After(s, es[..j]), es[j])
  {
    assert es[..j] + [es[j]] == es[..j + 1];
    AfterMore(s, es[..j], es[j]);
    OnlyStoresChange(After(s, es[..j]), es[j]);
  }

  lemma {:induction false} StaysUntil(s: State, es: seq<Event>, j: nat)
    requires NobodyStores(s, es) && j <= |es|
    ensures After(s, es[..j]).cookie == s.cookie
  {
    if j > 0 {
      StaysUntil(s, es, j - 1);
      StepOf(s, es, j - 1);
    }
  }

  /** In any run from s the cookie stays exactly when no call that saw 0 stores
      another one. */
  lemma StaysExact(s: State, es: seq<Event>)
    ensures StaysThrough(s, es) <==> NobodyStores(s, es)
  {
    if NobodyStores(s, es) {
      forall j | 0 <= j <= |es|
        ensures After(s, es[..j]).cookie == s.cookie
      {
        StaysUntil(s, es, j);
      }
    } else {
      var j :| 0 <= j < |es| && StoresOther(After(s, es[..j]), es[j]);
      StepOf(s, es, j);
    }
  }

  /** No call is between its test and its store, and there is a cookie. */
  predicate Settled(s: State) {
    s.aborted || (s.cookie != 0 && forall k :: k in s.pcs ==> !s.pcs[k].Storing?)
  }

  lemma {:induction false} SettledStays(s: State, es: seq<Event>)
    requires Settled(s)
    ensures Settled(After(s, es)) && After(s, es).cookie == s.cookie
  {
    if es != [] {
      SettledStays(s, es[..|es| - 1]);
    }
  }

  lemma {:induction false} FreshCall(ks: set<Call>) returns (k: Call)
    ensures forall j :: j in ks ==> j < k
  {
    if j :| j in ks {
      var rest := ks - {j};
      var m := FreshCall(rest);
      assert forall i :: i in ks ==> i == j || i in rest;
      k := if m > j then m else j + 1;
    } else {
      k := 0;
    }
  }

  lemma Unsettled(s: State) returns (es: seq<Event>)
    requires !Settled(s)
    ensures After(s, es).cookie != s.cookie
  {
    if k :| k in s.pcs && s.pcs[k].Storing? {
      var e := Move(k, if s.cookie == 2 then 4 else 2);
      es := [e];
      AfterOne(s, e);
    } else {
      var k := FreshCall(s.pcs.Keys);
      assert k !in s.pcs.Keys;
      var a, b, c := Arrive(k, 0), Move(k, 0), Move(k, 2);
      es := [a] + [b] + [c];
      AfterOne(s, a);
      AfterMore(s, [a], b);
      AfterMore(s, [a] + [b], c);
    }
  }

  /** The cookie can never change again exactly when there is one and nobody who
      saw 0 is yet to store. */
  lemma SettledExact(s: State)
    ensures Settled(s) <==> forall es :: After(s, es).cookie == s.cookie
  {
    if Settled(s) {
      forall es
        ensures After(s, es).cookie == s.cookie
      {
        SettledStays(s, es);
      }
    } else {
      var es := Unsettled(s);
    }
  }

  // ---- What it means for a saved buffer -------------------------------------------

  /** The word a call saves passes every check until the end of a run exactly
      when nobody stores another cookie in it, and in every run exactly when the
      cookie is settled as it is saved. */
  lemma SavedPassesExact(es: seq<Event>, k: Call, later: seq<Event>)
    requires var s := After(START, es);
             !s.aborted && k in s.pcs && s.pcs[k].Reading? && s.pcs[k].flag <= 1
    ensures var s := Next(After(START, es), Move(k, 0));
            && k in s.pcs && s.pcs[k].Saved? && s.pcs[k].word % 2 == After(START, es).pcs[k].flag
            && ((forall j :: 0 <= j <= |later| ==> Passes(After(s, later[..j]).cookie, s.pcs[k].word))
                <==> NobodyStores(s, later))
            && ((forall more :: Passes(After(s, more).cookie, s.pcs[k].word)) <==> Settled(s))
  {
    CookieIsEven(es);
    var s := Next(After(START, es), Move(k, 0));
    assert ClearFlag(s.pcs[k].word) == s.cookie;
    StaysExact(s, later);
    SettledExact(s);
  }

  /** Two first calls see 0; the second one's store makes the buffer the first
      one saved fail, although its cookie was not 0. */
  lemma RaceBreaks()
    ensures var s := After(START, RACE);
            && 1 in s.pcs && s.pcs[1] == Saved(8) && s.cookie == 8
            && !Passes(After(s, [Move(2, 16)]).cookie, 8)
  {
    var a, b, c, d, e, f := Arrive(1, 0), Arrive(2, 0), Move(1, 0), Move(2, 0), Move(1, 8), Move(1, 0);
    AfterOne(START, a);
    AfterMore(START, [a], b);
    AfterMore(START, [a] + [b], c);
    AfterMore(START, [a] + [b] + [c], d);
    AfterMore(START, [a] + [b] + [c] + [d], e);
    AfterMore(START, [a] + [b] + [c] + [d] + [e], f);
    AfterOne(After(START, RACE), Move(2, 16));
  }

  const RACE: seq<Event> := [Arrive(1, 0)] + [Arrive(2, 0)] + [Move(1, 0)] + [Move(2, 0)] + [Move(1, 8)] + [Move(1, 0)]

  // ---- One thread -----------------------------------------------------------------

  /** Without another call inside, a call draws once and aborts on any flag but 0
      and 1; else it reads what it drew, and after it the cookie is settled unless
      it is 0. */
  lemma AloneIsAtomic(s: State, k: Call, flag: Word, draw: Word)
    requires !s.aborted && k !in s.pcs
    requires forall j :: j in s.pcs ==> s.pcs[j].Saved?
    ensures var cookie := Drawn(s.cookie, draw);
            var s' := After(s, [Arrive(k, flag)] + [Move(k, draw)] + [Move(k, draw)] + [Move(k, draw)]);
            && s'.cookie == cookie && (s'.aborted <==> flag > 1)
            && (flag <= 1 ==> s' == At(s.(cookie := cookie), k, Saved(OrFlag(cookie, flag)))
                              && (Settled(s') <==> cookie != 0))
  {
    var a, m := Arrive(k, flag), Move(k, draw);
    AfterOne(s, a);
    AfterMore(s, [a], m);
    AfterMore(s, [a] + [m], m);
    AfterMore(s, [a] + [m] + [m], m);
    var word := OrFlag(Drawn(s.cookie, draw), flag);
    assert s.pcs[k := Testing(flag)][k := Reading(flag)][k := Saved(word)] == s.pcs[k := Saved(word)];
  }
}
