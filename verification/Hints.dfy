/** getaddrinfo: the guest's hints become a host list for the time of the call,
    and the host's answer becomes a guest list. */
module Hints {
  import opened Heap
  import opened Sockaddr
  import opened Wrappers
  import opened AddrInfo

  datatype Hint = Hint(flags: set<Flag>, family: int, socktype: int, protocol: int, addr: Option<HostSockaddr>)

  datatype HintList = NoHints | HintList(hint: Hint, next: HintList)

  // ---- Translating one hint ---------------------------------------------------

  function ToHostFamily(f: int): nat {
    if f in {0, 1, 2, 10, 16} then f else 0
  }

  /** Only the low two bits count, and 0 stands for any type. */
  function ToHostSocktype(s: int): Option<nat> {
    if s == 0 then Some(0) else if s % 4 == 0 then None else Some(s % 4)
  }

  function ToHostProtocol(p: int): Option<nat> {
    if p in {0, 6, 17, 41} then Some(p) else None
  }

  /** The host record of a hint, unless a field has no host form. */
  function Translated(g: Hint): Option<Info> {
    if ToHostSocktype(g.socktype).None? || ToHostProtocol(g.protocol).None? || GuestLen(g.addr).None? then None
    else Some(Info(FromHostFlags(g.flags), ToHostFamily(g.family), ToHostSocktype(g.socktype).value,
                   ToHostProtocol(g.protocol).value, g.addr, None))
  }

  predicate AllTranslate(list: HintList) {
    list.NoHints? || (Translated(list.hint).Some? && AllTranslate(list.next))
  }

  /** The records of the hints before the first that has no host form. */
  function Leading(list: HintList): seq<Info> {
    if list.NoHints? || Translated(list.hint).None? then []
    else [Translated(list.hint).value] + Leading(list.next)
  }

  lemma {:induction false} LeadingUnnamed(list: HintList, i: nat)
    requires i < |Leading(list)|
    ensures Leading(list)[i].canonname.None?
  {
    if i > 0 {
      LeadingUnnamed(list.next, i - 1);
    }
  }

  /** Every hint has a host form exactly when no socket type but 0 is a multiple
      of 4, the protocols are among four, and every address is of UNIX or IP. */
  predicate HasHostForm(g: Hint) {
    && (g.socktype == 0 || g.socktype % 4 != 0)
    && g.protocol in {0, 6, 17, 41}
    && (g.addr.Some? ==> g.addr.value.Unix? || g.addr.value.Inet? || g.addr.value.Inet6?)
  }

  predicate AllHaveHostForm(list: HintList) {
    list.NoHints? || (HasHostForm(list.hint) && AllHaveHostForm(list.next))
  }

  lemma {:induction false} TranslateExact(list: HintList)
    ensures AllTranslate(list) <==> AllHaveHostForm(list)
  {
    if list.HintList? {
      TranslateExact(list.next);
    }
  }

  /** Two hints a guest may well pass: SCTP streams, and a socket type of 4. */
  lemma HintsWithoutHostForm()
    ensures !AllTranslate(HintList(Hint({}, 2, 1, 132, None), NoHints))
    ensures !AllTranslate(HintList(Hint({}, 2, 4, 0, None), NoHints))
  {
  }

  /** The host node is the copy of a hint; 2 low bits make its socket type. */
  ghost predicate CopiesHint(n: Node, g: Hint)
    reads n, n.addr
  {
    && (forall f :: f in n.flags <==> f in g.flags && (f.Passive? || f.CanonName? || f.NumericHost?))
    && (if g.family in {1, 2, 10, 16} then n.family == g.family else n.family == 0)
    && 0 <= n.socktype <= 3 && (n.socktype == 0 <==> g.socktype == 0) && (g.socktype - n.socktype) % 4 == 0
    && n.protocol == g.protocol && CarriesAddr(n, g.addr) && n.canonname == null
  }

  function HintsOf(list: HintList): seq<Hint> {
    if list.NoHints? then [] else [list.hint] + HintsOf(list.next)
  }

  /** ns are the copies of the first hints, which all have a host form. */
  ghost predicate CopiesHints(ns: seq<Node>, gs: seq<Hint>)
    reads ns, set n | n in ns && n.addr != null :: n.addr
  {
    |ns| <= |gs| && forall k {:trigger gs[k]} :: 0 <= k < |ns| ==> HasHostForm(gs[k]) && CopiesHint(ns[k], gs[k])
  }

  lemma {:induction false} LeadingAt(list: HintList, k: nat)
    ensures |Leading(list)| <= |HintsOf(list)|
    ensures k < |Leading(list)| ==> Translated(HintsOf(list)[k]) == Some(Leading(list)[k])
    ensures |Leading(list)| < |HintsOf(list)| ==> !HasHostForm(HintsOf(list)[|Leading(list)|])
    ensures AllTranslate(list) <==> |Leading(list)| == |HintsOf(list)|
  {
    if list.HintList? && Translated(list.hint).Some? {
      LeadingAt(list.next, if k > 0 then k - 1 else 0);
    }
  }

  lemma ShowsIsHint(n: Node, g: Hint)
    requires Translated(g).Some? && n.Shows(Translated(g).value)
    ensures HasHostForm(g) && CopiesHint(n, g)
  {
    if g.addr.Some? {
      BionicLenIs(g.addr.value, n.addrlen);
      ReadsExact(n.addr[..], g.addr.value);
    }
  }

  lemma ShownIsHints(ns: seq<Node>, list: HintList)
    requires Shown(ns, Leading(list))
    ensures CopiesHints(ns, HintsOf(list))
  {
    LeadingAt(list, 0);
    forall k | 0 <= k < |ns|
      ensures HasHostForm(HintsOf(list)[k]) && CopiesHint(ns[k], HintsOf(list)[k])
    {
      LeadingAt(list, k);
      assert ns[k].Shows(Leading(list)[k]);
      ShowsIsHint(ns[k], HintsOf(list)[k]);
    }
  }

  // ---- The host list ------------------------------------------------------------

  /** Fills a node field by field; an error leaves no buffer behind. */
  method FillHost(h: Allocator, g: Hint, out: Node, ghost before: set<object>) returns (ok: bool)
    requires out.addr == null && out.canonname == null && out !in before && h.live == before + {out}
    modifies h, out
    ensures out.next == old(out.next) && out.canonname == null
    ensures ok == Translated(g).Some?
    ensures ok ==> out.Shows(Translated(g).value) && (out.addr != null <==> g.addr.Some?)
    ensures !ok ==> out.addr == null
    ensures out.Owned() !! before && h.live == before + out.Owned()
  {
    out.flags := FromHostFlags(g.flags);
    out.family := ToHostFamily(g.family);
    var socktype := ToHostSocktype(g.socktype);
    if socktype.None? {
      return false;
    }
    out.socktype := socktype.value;
    var protocol := ToHostProtocol(g.protocol);
    if protocol.None? {
      return false;
    }
    out.protocol := protocol.value;
    var len := GuestLen(g.addr);
    if len.None? {
      return false;
    }
    out.addrlen := len.value;
    ok := true;
    if out.addrlen != 0 {
      out.addr, ok := NewAddr(h, g.addr.value, out.addrlen);
    }
  }

  /** The nodes up to a hint that failed: all but the last were filled. */
  ghost predicate Abandoned(ns: seq<Node>, gs: seq<Info>)
    reads ns, set n | n in ns && n.addr != null :: n.addr
  {
    |ns| == |gs| + 1 && Shown(ns[..|gs|], gs) && ns[|gs|].Owned() == {ns[|gs|]}
  }

  /** The nodes left behind: copies of the hints before the first without a host
      form, and the bare node of that one. */
  ghost predicate LeftBehind(ns: seq<Node>, gs: seq<Hint>)
    reads ns, set n | n in ns && n.addr != null :: n.addr
  {
    && 0 < |ns| <= |gs| && CopiesHints(ns[..|ns| - 1], gs) && !HasHostForm(gs[|ns| - 1])
    && ns[|ns| - 1].Owned() == {ns[|ns| - 1]}
  }

  lemma AbandonedIsLeft(ns: seq<Node>, list: HintList)
    requires Abandoned(ns, Leading(list)) && !AllTranslate(list)
    ensures LeftBehind(ns, HintsOf(list))
  {
    ShownIsHints(ns[..|ns| - 1], list);
    LeadingAt(list, 0);
  }

  /** Nothing catches an error here, so the nodes made by then stay allocated. */
  method ToHostAlloc(h: Allocator, list: HintList) returns (out: Node?, ok: bool, ghost ns: seq<Node>)
    modifies h
    ensures ok == AllTranslate(list)
    ensures ok ==> CopiesHints(ns, HintsOf(list)) && |ns| == |HintsOf(list)|
    ensures !ok ==> LeftBehind(ns, HintsOf(list))
    ensures ok ==> Chain(out, ns) && Shown(ns, Leading(list))
    ensures !ok ==> Abandoned(ns, Leading(list))
    ensures Footprint(ns) !! old(h.live) && h.live == old(h.live) + Footprint(ns)
    decreases list, 1
  {
    if list.NoHints? {
      ShownIsHints([], list);
      return null, true, [];
    }
    ghost var before := h.live;
    out := new Node();
    h.Track(out);
    ok := FillHost(h, list.hint, out, before);
    if ok {
      ok, ns := ToHostNext(h, list, out, Translated(list.hint).value, before);
    } else {
      ns := [out];
    }
    if ok {
      ShownIsHints(ns, list);
      LeadingAt(list, 0);
    } else {
      AbandonedIsLeft(ns, list);
    }
  }

  /** out has just been filled; the rest of the list goes behind it. */
  method ToHostNext(h: Allocator, list: HintList, out: Node, ghost g: Info, ghost before: set<object>)
    returns (ok: bool, ghost ns: seq<Node>)
    requires list.HintList? && Translated(list.hint) == Some(g) && out.Shows(g)
    requires out.Owned() !! before && h.live == before + out.Owned()
    modifies h, out
    ensures ok == AllTranslate(list)
    ensures ok ==> Chain(out, ns) && Shown(ns, Leading(list))
    ensures !ok ==> Abandoned(ns, Leading(list))
    ensures Footprint(ns) !! before && h.live == before + Footprint(ns)
    decreases list, 0
  {
    var next: Node?;
    ghost var tail: seq<Node>;
    next, ok, tail := ToHostAlloc(h, list.next);
    ns := [out] + tail;
    if ok {
      Link(out, next, g, tail, Leading(list.next));
    } else {
      AbandonedCons(out, g, tail, Leading(list.next));
    }
  }

  lemma AbandonedCons(n: Node, g: Info, ns: seq<Node>, gs: seq<Info>)
    requires n.Shows(g) && Abandoned(ns, gs)
    ensures Abandoned([n] + ns, [g] + gs)
    ensures Footprint([n] + ns) == n.Owned() + Footprint(ns)
  {
    ShownCons(n, g, ns[..|gs|], gs);
    assert ([n] + ns)[..|gs| + 1] == [n] + ns[..|gs|];
    assert ([n] + ns)[1..] == ns;
  }

  method FreeHostNode(h: Allocator, list: Node) returns (next: Node?)
    requires list.Owned() <= h.live && list.canonname == null
    modifies h
    ensures next == list.next && h.live == old(h.live) - list.Owned()
  {
    if list.addr != null {
      h.Free(list.addr);
    }
    next := list.next;
    h.Free(list);
  }

  /** The same loop as for a guest list, but names are not the list's own. */
  method FreeHostList(h: Allocator, head: Node?, ghost ns: seq<Node>)
    requires Chain(head, ns) && Footprint(ns) <= h.live
    requires forall i :: 0 <= i < |ns| ==> ns[i].canonname == null
    modifies h
    ensures h.live == old(h.live) - Footprint(ns)
  {
    var list := head;
    ghost var left := ns;
    while list != null
      invariant Chain(list, left) && Footprint(left) <= h.live
      invariant forall i :: 0 <= i < |left| ==> left[i].canonname == null
      invariant h.live - Footprint(left) == old(h.live) - Footprint(ns)
      decreases |left|
    {
      Uncons(list, left);
      list := FreeHostNode(h, list);
      left := left[1..];
    }
    assert left == [];
  }

  // ---- The whole call -------------------------------------------------------------

  datatype Outcome = Threw | Failed(ret: int) | Resolved(list: Node?)

  /** ret and hosts are the host's answer to the translated hints.  When every
      hint has a host form, the call frees all it allocates but the answer; when
      one has not, the nodes ns of the hints up to it are never freed. */
  method GetAddrInfo(h: Allocator, hints: HintList, ret: int, hosts: HostList)
    returns (outcome: Outcome, ghost ns: seq<Node>)
    modifies h
    ensures outcome.Threw? <==> !AllHaveHostForm(hints)
    ensures outcome.Threw? ==> LeftBehind(ns, HintsOf(hints)) && Footprint(ns) != {}
    ensures outcome.Failed? ==> outcome.ret == ret != 0 && ns == []
    ensures outcome.Resolved? ==> ret == 0 && Chain(outcome.list, ns) && CopiesOf(ns, TellableOf(hosts))
    ensures Footprint(ns) !! old(h.live) && h.live == old(h.live) + Footprint(ns)
  {
    ghost var before := h.live;
    var hhints: Node?, ok: bool;
    hhints, ok, ns := ToHostAlloc(h, hints);
    TranslateExact(hints);
    if !ok {
      return Threw, ns;
    }
    Unnamed(hints, ns);
    FreeHostList(h, hhints, ns);
    assert h.live == before;
    if ret != 0 {
      return Failed(ret), [];
    }
    var list: Node?;
    list, ns := FromHostAlloc(h, hosts);
    outcome := Resolved(list);
  }

  lemma Unnamed(hints: HintList, ns: seq<Node>)
    requires Shown(ns, Leading(hints))
    ensures forall i :: 0 <= i < |ns| ==> ns[i].canonname == null
  {
    forall i | 0 <= i < |ns|
      ensures ns[i].canonname == null
    {
      LeadingUnnamed(hints, i);
      assert ns[i].Shows(Leading(hints)[i]);
    }
  }
}
