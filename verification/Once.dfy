/** pthread_once over any number of concurrent calls on one control word. */
module Once {

  type Call = nat

  /** A call is before its compare-exchange, inside the routine with work left,
      between the routine and the store, comparing what it saw, spinning, or
      back. */
  datatype Pc =
    | Called
    | Running(work: nat)
    | Storing
    | Checking(seen: int)
    | Spinning
    | Returned

  /** started and finished count how often the routine began and ended. */
  datatype State = State(control: int, pcs: map<Call, Pc>, started: nat, finished: nat)

  function At(s: State, k: Call, pc: Pc): State {
    s.(pcs := s.pcs[k := pc])
  }

  /** One step of call k; work is how long the routine would run. */
  predicate StepOf(s: State, k: Call, work: nat, s': State) {
    k in s.pcs &&
    match s.pcs[k]
    case Called =>
      if s.control == 0 then s' == At(s.(control := 1, started := s.started + 1), k, Running(work))
      else s' == At(s, k, Checking(s.control))
    case Running(left) =>
      if left > 0 then s' == At(s, k, Running(left - 1))
      else s' == At(s.(finished := s.finished + 1), k, Storing)
    case Storing => s' == At(s.(control := 2), k, Returned)
    case Checking(seen) => s' == At(s, k, if seen == 2 then Returned else Spinning)
    case Spinning => s' == At(s, k, if s.control == 1 then Spinning else Returned)
    case Returned => false
  }

  /** A new call comes in. */
  predicate Arrives(s: State, k: Call, s': State) {
    k !in s.pcs && s' == At(s, k, Called)
  }

  ghost predicate Step(s: State, k: Call, s': State) {
    Arrives(s, k, s') || exists work :: StepOf(s, k, work, s')
  }

  predicate Start(s: State) {
    s == State(0, map[], 0, 0)
  }

  predicate Inside(pc: Pc) {
    pc.Running? || pc.Storing?
  }

  predicate PcOk(s: State, pc: Pc) {
    match pc
    case Called => true
    case Running(_) => s.control == 1 && s.started == 1 && s.finished == 0
    case Storing => s.control == 1 && s.finished == 1
    case Checking(seen) => 1 <= seen <= s.control
    case Spinning => s.control >= 1
    case Returned => s.control == 2
  }

  ghost predicate Inv(s: State) {
    && 0 <= s.control <= 2
    && s.started == (if s.control == 0 then 0 else 1)
    && s.finished <= s.started && (s.control == 2 ==> s.finished == 1)
    && (forall k :: k in s.pcs ==> PcOk(s, s.pcs[k]))
    && (forall j, k :: j in s.pcs && k in s.pcs && j != k && Inside(s.pcs[j]) ==> !Inside(s.pcs[k]))
    && (s.control == 1 ==> exists k :: k in s.pcs && Inside(s.pcs[k]))
  }

  /** Who is inside after a step, and what the other calls still know. */
  lemma StepFacts(s: State, k: Call, work: nat, s': State)
    requires Inv(s) && StepOf(s, k, work, s')
    ensures forall j :: j in s.pcs && j != k ==> PcOk(s', s.pcs[j])
    ensures PcOk(s', s'.pcs[k])
    ensures Inside(s'.pcs[k]) && !Inside(s.pcs[k]) ==> s.control == 0
  {
    assert PcOk(s, s.pcs[k]);
    forall j | j in s.pcs && j != k
      ensures PcOk(s', s.pcs[j])
    {
      assert PcOk(s, s.pcs[j]);
    }
  }

  lemma StepOfKeepsInv(s: State, k: Call, work: nat, s': State)
    requires Inv(s) && StepOf(s, k, work, s')
    ensures Inv(s')
    ensures s'.control == s.control || s'.control == s.control + 1
    ensures s'.started - s.started == (if s.control == 0 && s'.control == 1 then 1 else 0)
  {
    StepFacts(s, k, work, s');
    if s.control == 0 {
      forall j | j in s.pcs
        ensures !Inside(s.pcs[j])
      {
        assert PcOk(s, s.pcs[j]);
      }
    }
    assert PcOk(s, s.pcs[k]);
    if s'.control == 1 && !Inside(s'.pcs[k]) {
      var j :| j in s.pcs && Inside(s.pcs[j]);
      assert j in s'.pcs && s'.pcs[j] == s.pcs[j];
    }
    assert k in s'.pcs;
  }

  lemma StepKeepsInv(s: State, k: Call, s': State)
    requires Inv(s) && Step(s, k, s')
    ensures Inv(s')
    ensures s'.control == s.control || s'.control == s.control + 1
    ensures s'.started - s.started == (if s.control == 0 && s'.control == 1 then 1 else 0)
  {
    if Arrives(s, k, s') {
      if s.control == 1 {
        var j :| j in s.pcs && Inside(s.pcs[j]);
        assert j in s'.pcs && s'.pcs[j] == s.pcs[j];
      }
    } else {
      var work :| StepOf(s, k, work, s');
      StepOfKeepsInv(s, k, work, s');
    }
  }

  // ---- Runs -----------------------------------------------------------------

  /** ss[i] steps to ss[i + 1] by call ks[i]. */
  ghost predicate IsRun(ss: seq<State>, ks: seq<Call>) {
    && |ss| == |ks| + 1 && Start(ss[0])
    && forall i :: 0 <= i < |ks| ==> Step(ss[i], ks[i], ss[i + 1])
  }

  lemma {:induction false} RunInv(ss: seq<State>, ks: seq<Call>, i: nat)
    requires IsRun(ss, ks) && i <= |ks|
    ensures Inv(ss[i])
  {
    if i > 0 {
      RunInv(ss, ks, i - 1);
      StepKeepsInv(ss[i - 1], ks[i - 1], ss[i]);
    }
  }

  lemma {:induction false} ControlClimbs(ss: seq<State>, ks: seq<Call>, i: nat, j: nat)
    requires IsRun(ss, ks) && i <= j <= |ks|
    ensures 0 <= ss[i].control <= ss[j].control <= 2
  {
    RunInv(ss, ks, j);
    if i < j {
      ControlClimbs(ss, ks, i, j - 1);
      RunInv(ss, ks, j - 1);
      StepKeepsInv(ss[j - 1], ks[j - 1], ss[j]);
    }
  }

  /** The routine starts at most once, and whoever returns does so after it
      finished. */
  lemma OnceOnly(ss: seq<State>, ks: seq<Call>, i: nat, k: Call)
    requires IsRun(ss, ks) && i <= |ks|
    ensures ss[i].started <= 1
    ensures k in ss[i].pcs && ss[i].pcs[k].Returned? ==>
              ss[i].started == 1 && ss[i].finished == 1 && ss[i].control == 2
  {
    RunInv(ss, ks, i);
    assert k in ss[i].pcs ==> PcOk(ss[i], ss[i].pcs[k]);
  }

  // ---- Progress -------------------------------------------------------------

  /** How far a call is from returning; bound is the longest the routine runs. */
  function Rank(pc: Pc, bound: nat): nat {
    match pc
    case Called => bound + 4
    case Running(left) => left + 2
    case Storing => 1
    case Checking(_) => 2
    case Spinning => 1
    case Returned => 0
  }

  function Total(pcs: map<Call, Pc>, ks: set<Call>, bound: nat): nat
    requires ks <= pcs.Keys
  {
    if ks == {} then 0
    else
      var k := Least(ks);
      Rank(pcs[k], bound) + Total(pcs, ks - {k}, bound)
  }

  predicate LowerBound(k: Call, ks: set<Call>) {
    forall j :: j in ks ==> k <= j
  }

  function Least(ks: set<Call>): (k: Call)
    requires ks != {}
    ensures k in ks && LowerBound(k, ks)
  {
    HasLeast(ks);
    var k :| k in ks && LowerBound(k, ks);
    k
  }

  lemma {:induction false} HasLeast(ks: set<Call>)
    requires ks != {}
    ensures exists k :: k in ks && LowerBound(k, ks)
  {
    var k :| k in ks;
    var rest := ks - {k};
    assert forall j :: j in ks ==> j == k || j in rest;
    if rest == {} {
      assert LowerBound(k, ks);
    } else {
      HasLeast(rest);
      var m :| m in rest && LowerBound(m, rest);
      assert LowerBound(if k < m then k else m, ks);
    }
  }

  lemma {:induction false} TotalMoves(pcs: map<Call, Pc>, ks: set<Call>, k: Call, pc: Pc, bound: nat)
    requires ks <= pcs.Keys && k in pcs
    ensures ks <= pcs[k := pc].Keys
    ensures Total(pcs[k := pc], ks, bound) ==
            Total(pcs, ks, bound) + if k in ks then Rank(pc, bound) - Rank(pcs[k], bound) else 0
  {
    if ks != {} {
      TotalMoves(pcs, ks - {Least(ks)}, k, pc, bound);
    }
  }

  function Measure(s: State, bound: nat): nat {
    Total(s.pcs, s.pcs.Keys, bound)
  }

  /** A step of a call brings everyone closer, except a spin that still reads 1,
      which changes nothing. */
  lemma StepDecreases(s: State, k: Call, work: nat, bound: nat, s': State)
    requires Inv(s) && StepOf(s, k, work, s') && work <= bound
    ensures s' == s || Measure(s', bound) < Measure(s, bound)
    ensures s' == s <==> s.pcs[k].Spinning? && s.control == 1
  {
    var pc := s'.pcs[k];
    assert s'.pcs == s.pcs[k := pc];
    TotalMoves(s.pcs, s.pcs.Keys, k, pc, bound);
    assert s'.pcs.Keys == s.pcs.Keys;
  }

  /** Some call that is not back can always take such a step, so under fair
      scheduling all calls return once no more arrive. */
  lemma NeverStuck(s: State, k: Call, work: nat) returns (j: Call, s': State)
    requires Inv(s) && k in s.pcs && !s.pcs[k].Returned?
    ensures StepOf(s, j, work, s') && s' != s
  {
    j := k;
    if s.pcs[k].Spinning? && s.control == 1 {
      j :| j in s.pcs && Inside(s.pcs[j]);
    }
    match s.pcs[j]
    case Called =>
      s' := if s.control == 0 then At(s.(control := 1, started := s.started + 1), j, Running(work))
            else At(s, j, Checking(s.control));
    case Running(left) =>
      s' := if left > 0 then At(s, j, Running(left - 1)) else At(s.(finished := s.finished + 1), j, Storing);
    case Storing => s' := At(s.(control := 2), j, Returned);
    case Checking(seen) => s' := At(s, j, if seen == 2 then Returned else Spinning);
    case Spinning => s' := At(s, j, Returned);
    assert s'.pcs[j] != s.pcs[j];
  }

  ghost predicate BoundedStep(s: State, k: Call, bound: nat, s': State) {
    exists work: nat :: work <= bound && StepOf(s, k, work, s')
  }

  lemma RunMore(ss: seq<State>, ks: seq<Call>, k: Call, s: State)
    requires IsRun(ss, ks) && Step(ss[|ks|], k, s)
    ensures IsRun(ss + [s], ks + [k])
  {
  }

  /** Every run can be finished: some continuation of it brings all calls that came
      in back. */
  lemma {:induction false} AllReturn(ss: seq<State>, ks: seq<Call>) returns (ts: seq<State>, js: seq<Call>)
    requires IsRun(ss, ks)
    ensures IsRun(ss + ts, ks + js)
    ensures var end := (ss + ts)[|ks + js|];
            && end.pcs.Keys == ss[|ks|].pcs.Keys
            && forall k :: k in end.pcs ==> end.pcs[k].Returned?
    decreases Measure(ss[|ks|], 0)
  {
    RunInv(ss, ks, |ks|);
    var s := ss[|ks|];
    if k :| k in s.pcs && !s.pcs[k].Returned? {
      var j, s' := NeverStuck(s, k, 0);
      StepDecreases(s, j, 0, 0, s');
      RunMore(ss, ks, j, s');
      ts, js := AllReturn(ss + [s'], ks + [j]);
      assert ss + [s'] + ts == ss + ([s'] + ts) && ks + [j] + js == ks + ([j] + js);
      ts, js := [s'] + ts, [j] + js;
    } else {
      ts, js := [], [];
      assert ss + ts == ss && ks + js == ks;
    }
  }

  /** So a single call comes in, runs the routine and returns. */
  lemma OneReturns(k: Call) returns (ss: seq<State>, ks: seq<Call>)
    ensures IsRun(ss, ks)
    ensures k in ss[|ks|].pcs && ss[|ks|].pcs[k].Returned? && ss[|ks|].finished == 1
  {
    var s := State(0, map[], 0, 0);
    var ts, js := AllReturn([s, At(s, k, Called)], [k]);
    ss, ks := [s, At(s, k, Called)] + ts, [k] + js;
    assert ss[|ks|].pcs.Keys == {k};
    OnceOnly(ss, ks, |ks|, k);
  }

  /** The steps that changed something. */
  function Effective(ss: seq<State>): nat {
    if |ss| <= 1 then 0
    else Effective(ss[..|ss| - 1]) + if ss[|ss| - 1] == ss[|ss| - 2] then 0 else 1
  }

  predicate Moved(ss: seq<State>, i: int) {
    1 <= i < |ss| && ss[i] != ss[i - 1]
  }

  function Changed(ss: seq<State>): set<int> {
    set i | 1 <= i < |ss| && Moved(ss, i)
  }

  lemma {:induction false} EffectiveCounts(ss: seq<State>)
    ensures Effective(ss) == |Changed(ss)|
  {
    if |ss| > 1 {
      var n := |ss| - 1;
      EffectiveCounts(ss[..n]);
      assert forall i :: Moved(ss[..n], i) <==> Moved(ss, i) && i != n;
      assert Changed(ss[..n]) == Changed(ss) - {n};
    }
  }

  /** However the calls interleave, at most Measure many steps do anything. */
  lemma {:induction false} BoundedWork(ss: seq<State>, ks: seq<Call>, bound: nat)
    requires |ss| == |ks| + 1 && Inv(ss[0])
    requires forall i :: 0 <= i < |ks| ==> BoundedStep(ss[i], ks[i], bound, ss[i + 1])
    ensures Inv(ss[|ks|])
    ensures Effective(ss) + Measure(ss[|ks|], bound) <= Measure(ss[0], bound)
  {
    var n := |ks|;
    if n > 0 {
      BoundedWork(ss[..n], ks[..n - 1], bound);
      var work: nat :| work <= bound && StepOf(ss[n - 1], ks[n - 1], work, ss[n]);
      StepOfKeepsInv(ss[n - 1], ks[n - 1], work, ss[n]);
      StepDecreases(ss[n - 1], ks[n - 1], work, bound, ss[n]);
      assert ss[..|ss| - 1] == ss[..n];
    }
  }
}
