/** Translating the host's list of resolved addresses into a guest list, with
    entries that do not translate left out, and freeing the guest list. */
module AddrInfo {
  import opened Heap
  import opened Sockaddr
  import opened Wrappers

  datatype Flag = Passive | CanonName | NumericHost | OtherFlag(bit: nat)
  datatype HostFamily = FUnspec | FUnix | FInet | FInet6 | FNetlink | FOther(n: nat)
  datatype HostSocktype = Stream | Dgram | Raw | OtherSocktype(n: nat)
  datatype HostProtocol = Ip | Tcp | Udp | Ipv6 | OtherProtocol(n: nat)

  datatype HostInfo = HostInfo(flags: set<Flag>, family: HostFamily, socktype: HostSocktype,
                               protocol: HostProtocol, addr: Option<HostSockaddr>, canonname: Option<string>)

  datatype HostList = End | Entry(info: HostInfo, next: HostList)

  // ---- Translating one entry ------------------------------------------------

  function FromHostFlags(flags: set<Flag>): set<Flag> {
    flags * {Passive, CanonName, NumericHost}
  }

  function FromHostFamily(f: HostFamily): nat {
    match f
    case FUnspec => 0
    case FUnix => 1
    case FInet => 2
    case FInet6 => 10
    case FNetlink => 16
    case FOther(_) => 0
  }

  /** Other socket types are a runtime error. */
  function FromHostSocktype(s: HostSocktype): Option<nat> {
    match s
    case Stream => Some(1)
    case Dgram => Some(2)
    case Raw => Some(3)
    case OtherSocktype(_) => None
  }

  /** Other protocols are a runtime error. */
  function FromHostProtocol(p: HostProtocol): Option<nat> {
    match p
    case Ip => Some(0)
    case Tcp => Some(6)
    case Udp => Some(17)
    case Ipv6 => Some(41)
    case OtherProtocol(_) => None
  }

  /** No address has length 0; an address that the other side has no form for is a
      runtime error. */
  function GuestLen(addr: Option<HostSockaddr>): Option<nat> {
    if addr.None? then Some(0) else BionicLen(addr.value)
  }

  datatype Info = Info(flags: set<Flag>, family: nat, socktype: nat, protocol: nat,
                                 addr: Option<HostSockaddr>, canonname: Option<string>)

  /** The entries that translate, in order. */
  function Convertible(hs: HostList): seq<Info> {
    match hs
    case End => []
    case Entry(i, next) =>
      (if FromHostSocktype(i.socktype).None? || FromHostProtocol(i.protocol).None? || GuestLen(i.addr).None? then []
       else [Info(FromHostFlags(i.flags), FromHostFamily(i.family), FromHostSocktype(i.socktype).value,
                       FromHostProtocol(i.protocol).value, i.addr, i.canonname)])
      + Convertible(next)
  }

  // ---- The guest list -------------------------------------------------------

  class Node {
    var flags: set<Flag>
    var family: nat
    var socktype: nat
    var protocol: nat
    var addrlen: nat
    var canonname: CString?
    var addr: array?<Byte>
    var next: Node?

    constructor ()
      ensures Owned() == {this} && addr == null && canonname == null
    {
      flags, family, socktype, protocol, addrlen := {}, 0, 0, 0, 0;
      canonname, addr, next := null, null, null;
    }

    /** The node and the buffers only it points to. */
    ghost function Owned(): set<object>
      reads this
    {
      {this as object} + (if addr == null then {} else {addr as object})
      + (if canonname == null then {} else {canonname as object})
    }

    /** The node says what g says. */
    ghost predicate Shows(g: Info)
      reads this, addr
    {
      && flags == g.flags && family == g.family && socktype == g.socktype && protocol == g.protocol
      && (if g.canonname.None? then canonname == null
          else canonname != null && canonname.text == g.canonname.value)
      && (if g.addr.None? then addr == null && addrlen == 0
          else addr != null && addr.Length == addrlen && Reads(addr[..], g.addr.value) &&
               Some(addrlen) == BionicLen(g.addr.value))
    }
  }

  /** The node is the guest's copy of a host entry. */
  ghost predicate Copies(n: Node, i: HostInfo)
    reads n, n.addr
  {
    && (forall f :: f in n.flags <==> f in i.flags && (f.Passive? || f.CanonName? || f.NumericHost?))
    && n.family == (match i.family
                    case FUnix => 1 case FInet => 2 case FInet6 => 10 case FNetlink => 16 case _ => 0)
    && (n.socktype == 1 <==> i.socktype.Stream?) && (n.socktype == 2 <==> i.socktype.Dgram?)
    && (n.socktype == 3 <==> i.socktype.Raw?)
    && (n.protocol == 0 <==> i.protocol.Ip?) && (n.protocol == 6 <==> i.protocol.Tcp?)
    && (n.protocol == 17 <==> i.protocol.Udp?) && (n.protocol == 41 <==> i.protocol.Ipv6?)
    && CarriesAddr(n, i.addr)
    && (i.canonname.None? <==> n.canonname == null)
    && (i.canonname.Some? ==> n.canonname != null && n.canonname.text == i.canonname.value)
  }

  ghost predicate CarriesAddr(n: Node, addr: Option<HostSockaddr>)
    reads n, n.addr
  {
    && (addr.None? ==> n.addr == null && n.addrlen == 0)
    && (addr.Some? ==> n.addr != null && n.addr.Length == n.addrlen && GuestSize(addr.value, n.addrlen)
                       && GuestForm(n.addr[..], addr.value))
  }

  /** The entries the guest can be told of. */
  predicate Tellable(i: HostInfo) {
    && (i.socktype.Stream? || i.socktype.Dgram? || i.socktype.Raw?)
    && (i.protocol.Ip? || i.protocol.Tcp? || i.protocol.Udp? || i.protocol.Ipv6?)
    && (i.addr.Some? ==> i.addr.value.Unix? || i.addr.value.Inet? || i.addr.value.Inet6?)
  }

  function TellableOf(hs: HostList): seq<HostInfo> {
    if hs.End? then [] else (if Tellable(hs.info) then [hs.info] else []) + TellableOf(hs.next)
  }

  /** One node for one entry, in order. */
  ghost predicate CopiesOf(ns: seq<Node>, es: seq<HostInfo>)
    reads ns, set n | n in ns && n.addr != null :: n.addr
  {
    |ns| == |es| && forall k {:trigger es[k]} :: 0 <= k < |es| ==> Copies(ns[k], es[k])
  }

  lemma {:induction false} ConvertibleAt(hs: HostList, k: nat)
    ensures |Convertible(hs)| == |TellableOf(hs)|
    ensures k < |TellableOf(hs)| ==> Convertible(Entry(TellableOf(hs)[k], End)) == [Convertible(hs)[k]]
  {
    if hs.Entry? {
      if Tellable(hs.info) {
        ConvertibleAt(hs.next, if k > 0 then k - 1 else 0);
      } else {
        ConvertibleAt(hs.next, k);
      }
    }
  }

  lemma ShowsIsCopy(n: Node, i: HostInfo, g: Info)
    requires n.Shows(g) && Convertible(Entry(i, End)) == [g]
    ensures Copies(n, i)
  {
    var gs := Convertible(Entry(i, End));
    assert Convertible(End) == [] && |gs| == 1 && gs[0] == g;
    assert g.addr == i.addr && g.canonname == i.canonname && g.flags == FromHostFlags(i.flags);
    if i.addr.Some? {
      BionicLenIs(i.addr.value, n.addrlen);
      ReadsExact(n.addr[..], i.addr.value);
    }
  }

  lemma ShownIsCopies(ns: seq<Node>, hs: HostList)
    requires Shown(ns, Convertible(hs))
    ensures CopiesOf(ns, TellableOf(hs))
  {
    ConvertibleAt(hs, 0);
    forall k | 0 <= k < |ns|
      ensures Copies(ns[k], TellableOf(hs)[k])
    {
      ConvertibleAt(hs, k);
      assert ns[k].Shows(Convertible(hs)[k]);
      ShowsIsCopy(ns[k], TellableOf(hs)[k], Convertible(hs)[k]);
    }
  }

  ghost function NodeAt(ns: seq<Node>, i: nat): Node? {
    if i < |ns| then ns[i] else null
  }

  /** ns are the nodes of the list, each with buffers of its own. */
  ghost predicate Chain(head: Node?, ns: seq<Node>)
    reads ns
  {
    && head == NodeAt(ns, 0)
    && (forall i {:trigger ns[i].next} :: 0 <= i < |ns| ==> ns[i].next == NodeAt(ns, i + 1))
    && (forall i, j {:trigger ns[i].Owned(), ns[j].Owned()} ::
          0 <= i < j < |ns| ==> ns[i].Owned() !! ns[j].Owned())
  }

  ghost predicate Shown(ns: seq<Node>, gs: seq<Info>)
    reads ns, set n | n in ns && n.addr != null :: n.addr
  {
    |ns| == |gs| && forall i {:trigger ns[i].Shows(gs[i])} :: 0 <= i < |ns| ==> ns[i].Shows(gs[i])
  }

  ghost function Footprint(ns: seq<Node>): set<object>
    reads ns
  {
    if ns == [] then {} else ns[0].Owned() + Footprint(ns[1..])
  }

  /** malloc and the conversion into the new buffer. */
  method NewAddr(h: Allocator, a: HostSockaddr, len: nat) returns (buf: array<Byte>, ok: bool)
    requires BionicLen(a) == Some(len)
    modifies h
    ensures ok && fresh(buf) && buf.Length == len && Reads(buf[..], a)
    ensures h.live == old(h.live) + {buf}
  {
    buf := new Byte[len];
    h.Track(buf);
    ghost var before := buf[..];
    ok := FromHost(a, buf);
    HostRoundTrip(a, before, buf[..]);
  }

  /** Fills a node field by field.  Whatever fails does so before the address
      buffer exists, so a failed conversion leaves nothing allocated. */
  method Fill(h: Allocator, i: HostInfo, out: Node, ghost before: set<object>) returns (ok: bool)
    requires out.addr == null && out.canonname == null && out !in before && h.live == before + {out}
    modifies h, out
    ensures out.next == old(out.next)
    ensures ok == (Convertible(Entry(i, End)) != [])
    ensures ok ==> out.Shows(Convertible(Entry(i, End))[0])
    ensures !ok ==> out.Owned() == {out}
    ensures out.Owned() !! before && h.live == before + out.Owned()
  {
    out.flags := FromHostFlags(i.flags);
    out.family := FromHostFamily(i.family);
    var socktype := FromHostSocktype(i.socktype);
    if socktype.None? {
      return false;
    }
    out.socktype := socktype.value;
    var protocol := FromHostProtocol(i.protocol);
    if protocol.None? {
      return false;
    }
    out.protocol := protocol.value;
    var len := GuestLen(i.addr);
    if len.None? {
      return false;
    }
    out.addrlen := len.value;
    out.addr := null;
    ok := true;
    if out.addrlen != 0 {
      out.addr, ok := NewAddr(h, i.addr.value, out.addrlen);
    }
    if ok && i.canonname.Some? {
      out.canonname := NewName(h, i.canonname.value);
    }
  }

  /** Putting a node in front of a list it does not touch. */
  lemma Cons(n: Node, rest: Node?, ns: seq<Node>)
    requires Chain(rest, ns) && n.next == rest
    requires n.Owned() !! Footprint(ns)
    ensures Chain(n, [n] + ns)
    ensures Footprint([n] + ns) == n.Owned() + Footprint(ns)
  {
    var ms := [n] + ns;
    assert ms[1..] == ns;
    forall i | 0 <= i < |ns|
      ensures ns[i].Owned() <= Footprint(ns)
    {
      InFootprint(ns, i);
    }
    assert forall i :: 0 < i < |ms| ==> ms[i] == ns[i - 1];
  }

  lemma {:induction false} InFootprint(ns: seq<Node>, i: nat)
    requires i < |ns|
    ensures ns[i].Owned() <= Footprint(ns)
  {
    if i > 0 {
      InFootprint(ns[1..], i - 1);
    }
  }

  lemma ShownCons(n: Node, g: Info, ns: seq<Node>, gs: seq<Info>)
    requires n.Shows(g) && Shown(ns, gs)
    ensures Shown([n] + ns, [g] + gs)
  {
    var ms, hs := [n] + ns, [g] + gs;
    forall i | 0 <= i < |ms|
      ensures ms[i].Shows(hs[i])
    {
      if i > 0 {
        assert ns[i - 1].Shows(gs[i - 1]);
      }
    }
  }

  lemma NodesInFootprint(ns: seq<Node>)
    ensures forall n :: n in ns ==> n in Footprint(ns)
  {
    forall n | n in ns
      ensures n in Footprint(ns)
    {
      var i :| 0 <= i < |ns| && ns[i] == n;
      InFootprint(ns, i);
    }
  }

  /** The rest of the list goes behind out, which has just been filled. */
  method Link(out: Node, next: Node?, ghost g: Info, ghost tail: seq<Node>, ghost gs: seq<Info>)
    requires Chain(next, tail) && Shown(tail, gs) && out.Shows(g) && out.Owned() !! Footprint(tail)
    modifies out`next
    ensures Chain(out, [out] + tail) && Shown([out] + tail, [g] + gs)
    ensures out.Owned() == old(out.Owned())
    ensures Footprint([out] + tail) == old(out.Owned() + Footprint(tail))
  {
    ghost var owned := Footprint(tail);
    NodesInFootprint(tail);
    out.next := next;
    assert Chain(next, tail) && Footprint(tail) == owned;
    Cons(out, next, tail);
    ShownCons(out, g, tail, gs);
  }

  /** No conversion error escapes: the list has one node for each entry the guest
      can be told of, in order, and the heap has grown by exactly that list. */
  method FromHostAlloc(h: Allocator, list: HostList) returns (out: Node?, ghost ns: seq<Node>)
    modifies h
    ensures Chain(out, ns) && Shown(ns, Convertible(list)) && CopiesOf(ns, TellableOf(list))
    ensures Footprint(ns) !! old(h.live) && h.live == old(h.live) + Footprint(ns)
    decreases list, 1
  {
    if list.End? {
      return null, [];
    }
    ghost var before := h.live;
    out := new Node();
    h.Track(out);
    var ok := Fill(h, list.info, out, before);
    if ok {
      ns := FromHostNext(h, list, out, Convertible(Entry(list.info, End))[0], before);
    } else {
      h.Free(out);
      assert h.live == before;
      out, ns := FromHostAlloc(h, list.next);
    }
    ShownIsCopies(ns, list);
  }

  /** out has just been filled; the rest of the list goes behind it. */
  method FromHostNext(h: Allocator, list: HostList, out: Node, ghost g: Info, ghost before: set<object>)
    returns (ghost ns: seq<Node>)
    requires list.Entry? && out.Shows(g) && out.Owned() !! before && h.live == before + out.Owned()
    modifies h, out
    ensures Chain(out, ns) && Shown(ns, [g] + Convertible(list.next))
    ensures Footprint(ns) !! before && h.live == before + Footprint(ns)
    decreases list, 0
  {
    var next, tail := FromHostAlloc(h, list.next);
    Link(out, next, g, tail, Convertible(list.next));
    ns := [out] + tail;
  }

  /** Frees one node with its buffers; next is read before the node goes. */
  method FreeNode(h: Allocator, list: Node) returns (next: Node?)
    requires list.Owned() <= h.live
    modifies h
    ensures next == list.next && h.live == old(h.live) - list.Owned()
  {
    if list.addr != null {
      h.Free(list.addr);
    }
    if list.canonname != null {
      h.Free(list.canonname);
    }
    next := list.next;
    h.Free(list);
  }

  /** Frees each buffer and each node of the list once, and nothing else. */
  method FreeBionicList(h: Allocator, head: Node?, ghost ns: seq<Node>)
    requires Chain(head, ns) && Footprint(ns) <= h.live
    modifies h
    ensures h.live == old(h.live) - Footprint(ns)
  {
    var list := head;
    ghost var left := ns;
    while list != null
      invariant Chain(list, left) && Footprint(left) <= h.live
      invariant h.live - Footprint(left) == old(h.live) - Footprint(ns)
      decreases |left|
    {
      Uncons(list, left);
      list := FreeNode(h, list);
      left := left[1..];
    }
    assert left == [];
  }

  lemma Uncons(n: Node, ns: seq<Node>)
    requires Chain(n, ns)
    ensures ns != [] && ns[0] == n && Chain(n.next, ns[1..])
    ensures n.Owned() !! Footprint(ns[1..])
    ensures Footprint(ns) == n.Owned() + Footprint(ns[1..])
  {
    var rest := ns[1..];
    assert forall i :: 0 <= i < |rest| ==> rest[i] == ns[i + 1];
    forall i | 0 <= i < |rest|
      ensures rest[i].Owned() !! n.Owned()
    {
      assert ns[0].Owned() !! ns[i + 1].Owned();
    }
    Apart(n.Owned(), rest);
  }

  lemma {:induction false} Apart(s: set<object>, ns: seq<Node>)
    requires forall i :: 0 <= i < |ns| ==> s !! ns[i].Owned()
    ensures s !! Footprint(ns)
  {
    if ns != [] {
      assert forall i :: 0 <= i < |ns| - 1 ==> ns[1..][i] == ns[i + 1];
      Apart(s, ns[1..]);
    }
  }
}
