/** The guest's errno beside the host's, in builds where the numbers differ. */
module ErrnoMirror {
  import opened Wrappers
  import opened ErrnoTable

  const EINVAL_CODE: int := 22

  /** A host: whether it is Linux, and the number of each constant. */
  datatype Numbering = Numbering(linux: bool, number: Name -> int) {

    /** Whether err is the number of a constant the host has. */
    predicate Numbers(name: Name, err: int) {
      CodeOf(name, linux).Some? && number(name) == err
    }

    /** Two labels of one switch have two numbers, or it does not compile. */
    ghost predicate Distinct() {
      forall a, b :: Numbers(a, number(b)) && CodeOf(b, linux).Some? ==> a == b
    }

    ghost predicate IsNumber(err: int) {
      exists name :: Numbers(name, err)
    }

    /** The label with the number err. */
    function Label(err: int): (found: Option<Name>)
      requires Distinct()
      ensures found.Some? ==> Numbers(found.value, err)
      ensures found.None? ==> !IsNumber(err)
    {
      if exists b: BaseName :: Numbers(Base(b), err) then
        var b: BaseName :| Numbers(Base(b), err);
        Some(Base(b))
      else if exists s: SystemName :: Numbers(System(s), err) then
        var s: SystemName :| Numbers(System(s), err);
        Some(System(s))
      else if exists s: StreamName :: Numbers(Stream(s), err) then
        var s: StreamName :| Numbers(Stream(s), err);
        Some(Stream(s))
      else if exists w: NetworkName :: Numbers(Network(w), err) then
        var w: NetworkName :| Numbers(Network(w), err);
        Some(Network(w))
      else if exists l: LateName :: Numbers(Late(l), err) then
        var l: LateName :| Numbers(Late(l), err);
        Some(Late(l))
      else None
    }

    predicate Tabled(code: int) {
      NameOf(code, linux).Some?
    }

    function ToHost(err: int): int {
      match NameOf(err, linux)
      case Some(name) => number(name)
      case None => err
    }

    function FromHost(err: int): int
      requires Distinct()
    {
      match Label(err)
      case Some(name) => CodeOf(name, linux).value
      case None => err
    }

    /** What there and back makes of a guest value. */
    function Kept(v: int): int
      requires Distinct()
    {
      FromHost(ToHost(v))
    }
  }

  /** The two translations undo each other on the tabled codes and on the
      numbers of the host's constants. */
  lemma MutualInverse(n: Numbering, code: int, name: Name)
    requires n.Distinct()
    ensures n.Tabled(code) ==> n.FromHost(n.ToHost(code)) == code
    ensures CodeOf(name, n.linux).Some? ==> n.ToHost(n.FromHost(n.number(name))) == n.number(name)
  {
    if n.Tabled(code) {
      var a := NameOf(code, n.linux).value;
      TablesAgree(a, code, n.linux);
      assert n.Numbers(a, n.ToHost(code));
    }
    if CodeOf(name, n.linux).Some? {
      TablesAgree(name, CodeOf(name, n.linux).value, n.linux);
      assert n.Numbers(name, n.number(name));
    }
  }

  /** There and back keeps a guest value exactly when it is a tabled code or no
      number of a constant. */
  lemma RoundTripExact(n: Numbering, v: int)
    requires n.Distinct()
    ensures n.Kept(v) == v <==> n.Tabled(v) || !n.IsNumber(v)
    ensures !n.Tabled(v) ==> n.ToHost(v) == v
    ensures !n.IsNumber(v) ==> n.FromHost(v) == v
  {
    if n.Tabled(v) {
      MutualInverse(n, v, Base(EPERM));
    } else if n.IsNumber(v) {
      var name :| n.Numbers(name, v);
      TablesAgree(name, v, n.linux);
    }
  }

  // ---- Two cells ------------------------------------------------------------

  datatype Cells = Cells(host: int, guest: int)

  /** What a host function does to the host's errno; a throw may follow. */
  datatype Call = Leaves | Sets(e: int)

  /** Wrapped calls go through the helper; an update-only call is one of the
      open functions, which copy errno out but not in; a bare call, like fopen or
      poll carried out by select, does neither. */
  datatype Action =
    | Store(v: int)
    | SetErrno(v: int)
    | Wrapped(call: Call, throws: bool)
    | UpdateOnly(call: Call)
    | Bare(call: Call)

  function Called(host: int, call: Call): int {
    if call.Sets? then call.e else host
  }

  function Next(n: Numbering, c: Cells, a: Action): Cells
    requires n.Distinct()
  {
    match a
    case Store(v) => c.(guest := v)
    case SetErrno(v) => Cells(n.ToHost(v), v)
    case Wrapped(call, throws) =>
      var host := if throws then n.number(Base(EINVAL)) else Called(n.ToHost(c.guest), call);
      Cells(host, n.FromHost(host))
    case UpdateOnly(call) =>
      var host := Called(c.host, call);
      Cells(host, n.FromHost(host))
    case Bare(call) => c.(host := Called(c.host, call))
  }

  class Errno {
    const n: Numbering
    var host: int
    var guest: int

    constructor (n: Numbering)
      ensures this.n == n && host == 0 && guest == 0
    {
      this.n := n;
      host, guest := 0, 0;
    }

    function Now(): Cells
      reads this
    {
      Cells(host, guest)
    }

    method UpdateErrno()
      requires n.Distinct()
      modifies this
      ensures Now() == Cells(old(host), n.FromHost(old(host)))
    {
      guest := n.FromHost(host);
    }

    method SyncErrno()
      modifies this
      ensures Now() == Cells(n.ToHost(old(guest)), old(guest))
    {
      host := n.ToHost(guest);
    }

    /** The wrapper: sync, call, turn an exception into EINVAL and -1, and
        update on the way out. */
    method Wrapper(call: Call, throws: bool, result: int) returns (r: int)
      requires n.Distinct()
      modifies this
      ensures Now() == Next(n, old(Now()), Wrapped(call, throws))
      ensures r == if throws then -1 else result
    {
      SyncErrno();
      host := Called(host, call);
      r := result;
      if throws {
        host := n.number(Base(EINVAL));
        r := -1;
      }
      UpdateErrno();
    }
  }

  // ---- Runs -----------------------------------------------------------------

  function Run(n: Numbering, c: Cells, actions: seq<Action>): Cells
    requires n.Distinct()
  {
    if actions == [] then c
    else Next(n, Run(n, c, actions[..|actions| - 1]), actions[|actions| - 1])
  }

  lemma RunMore(n: Numbering, c: Cells, actions: seq<Action>, a: Action)
    requires n.Distinct()
    ensures Run(n, c, actions + [a]) == Next(n, Run(n, c, actions), a)
  {
    assert (actions + [a])[..|actions|] == actions;
  }

  /** The one errno of the guest, what it was right after the last action that
      reports it, and what the host holds back for the next open. */
  datatype Seen = Seen(errno: int, reported: int, held: int)

  /** Stores are the guest's own, and bare calls report nothing. */
  predicate Reports(a: Action) {
    !a.Store? && !a.Bare?
  }

  function SeenNext(n: Numbering, s: Seen, a: Action): Seen
    requires n.Distinct()
  {
    match a
    case Store(v) => s.(errno := v)
    case SetErrno(v) => Seen(v, v, n.Kept(v))
    case Wrapped(call, throws) =>
      var e := if throws then EINVAL_CODE else if call.Sets? then n.FromHost(call.e) else n.Kept(s.errno);
      Seen(e, e, e)
    case UpdateOnly(call) =>
      var e := if call.Sets? then n.FromHost(call.e) else s.held;
      Seen(e, e, e)
    case Bare(call) => if call.Sets? then s.(held := n.FromHost(call.e)) else s
  }

  function SeenRun(n: Numbering, s: Seen, actions: seq<Action>): Seen
    requires n.Distinct()
  {
    if actions == [] then s
    else SeenNext(n, SeenRun(n, s, actions[..|actions| - 1]), actions[|actions| - 1])
  }

  function Start(n: Numbering, c: Cells): Seen
    requires n.Distinct()
  {
    Seen(c.guest, c.guest, n.FromHost(c.host))
  }

  lemma EinvalCode(n: Numbering)
    requires n.Distinct()
    ensures n.FromHost(n.number(Base(EINVAL))) == EINVAL_CODE
  {
    assert n.Numbers(Base(EINVAL), n.number(Base(EINVAL)));
  }

  /** Whatever the guest stores and calls, and whatever was in the host's cell,
      the guest's cell is the one errno, and the host's stands for what is held
      back; after a wrapped call or an open the two cells agree. */
  lemma {:induction false} RunsAsOneErrno(n: Numbering, c: Cells, actions: seq<Action>)
    requires n.Distinct()
    ensures var end, seen := Run(n, c, actions), SeenRun(n, Start(n, c), actions);
            && end.guest == seen.errno && n.FromHost(end.host) == seen.held
            && (actions != [] && (actions[|actions| - 1].Wrapped? || actions[|actions| - 1].UpdateOnly?)
                ==> end.guest == n.FromHost(end.host))
  {
    EinvalCode(n);
    if actions != [] {
      RunsAsOneErrno(n, c, actions[..|actions| - 1]);
    }
  }

  /** What was reported is what errno was after the last action that reports, and
      it is held unless a bare call has set errno since, or that action was a
      set_errno of a value that translation changes. */
  lemma {:induction false} ReportedAt(n: Numbering, s: Seen, actions: seq<Action>, k: nat)
    requires n.Distinct() && k < |actions| && Reports(actions[k])
    requires forall i :: k < i < |actions| ==> !Reports(actions[i])
    ensures var end := SeenRun(n, s, actions);
            && end.reported == SeenRun(n, s, actions[..k + 1]).errno
            && ((forall i :: k < i < |actions| && actions[i].Bare? ==> actions[i].call.Leaves?)
                && (actions[k].SetErrno? ==> n.Kept(actions[k].v) == actions[k].v)
                ==> end.held == end.reported)
  {
    if k == |actions| - 1 {
      assert actions[..k + 1] == actions;
    } else {
      var some := actions[..|actions| - 1];
      ReportedAt(n, s, some, k);
      assert some[..k + 1] == actions[..k + 1];
    }
  }

  // ---- Calls that only copy errno out -----------------------------------------

  /** After any run, a successful open keeps the guest's errno exactly when that
      is what the host holds back. */
  lemma OpenKeepsExact(n: Numbering, c: Cells, actions: seq<Action>)
    requires n.Distinct()
    ensures var seen := SeenRun(n, Start(n, c), actions);
            Run(n, c, actions + [UpdateOnly(Leaves)]).guest == Run(n, c, actions).guest
            <==> seen.errno == seen.held
  {
    var more := actions + [UpdateOnly(Leaves)];
    assert more[..|more| - 1] == actions;
    RunsAsOneErrno(n, c, actions);
    RunsAsOneErrno(n, c, more);
  }

  /** While no bare call has set errno since it was last reported, that is exactly
      when errno still is what was reported. */
  lemma OpenKeepsReported(n: Numbering, c: Cells, actions: seq<Action>, k: nat)
    requires n.Distinct() && k < |actions| && Reports(actions[k])
    requires actions[k].SetErrno? ==> n.Kept(actions[k].v) == actions[k].v
    requires forall i :: k < i < |actions| ==> !Reports(actions[i]) && (actions[i].Bare? ==> actions[i].call.Leaves?)
    ensures Run(n, c, actions + [UpdateOnly(Leaves)]).guest == Run(n, c, actions).guest
            <==> Run(n, c, actions).guest == Run(n, c, actions[..k + 1]).guest
  {
    OpenKeepsExact(n, c, actions);
    ReportedAt(n, Start(n, c), actions, k);
    RunsAsOneErrno(n, c, actions);
    RunsAsOneErrno(n, c, actions[..k + 1]);
  }

  /** A failing fopen says nothing to the guest; the next successful open does. */
  lemma BareErrorSurfaces(n: Numbering, c: Cells, name: Name)
    requires n.Distinct() && CodeOf(name, n.linux).Some?
    ensures Run(n, c, [Bare(Sets(n.number(name)))]).guest == c.guest
    ensures Run(n, c, [Bare(Sets(n.number(name))), UpdateOnly(Leaves)]).guest == CodeOf(name, n.linux).value
  {
    var a, b := Bare(Sets(n.number(name))), UpdateOnly(Leaves);
    RunMore(n, c, [], a);
    RunMore(n, c, [a], b);
    assert [] + [a] == [a] && [a] + [b] == [a, b];
    assert n.Numbers(name, n.number(name));
  }

  /** An error, a guest that clears errno, and a successful open: the old error
      is back. */
  lemma StaleErrno(n: Numbering, c: Cells, name: Name)
    requires n.Distinct() && CodeOf(name, n.linux).Some?
    ensures var stale := Run(n, c, [Wrapped(Sets(n.number(name)), false), Store(0), UpdateOnly(Leaves)]).guest;
            stale == CodeOf(name, n.linux).value && stale != 0
  {
    var a, b, d := Wrapped(Sets(n.number(name)), false), Store(0), UpdateOnly(Leaves);
    RunMore(n, c, [], a);
    RunMore(n, c, [a], b);
    RunMore(n, c, [a, b], d);
    assert [] + [a] == [a] && [a] + [b] == [a, b] && [a, b] + [d] == [a, b, d];
    assert n.Numbers(name, n.number(name));
    NoZeroCode(name, n.linux);
  }
}
