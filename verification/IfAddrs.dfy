/** The list of network interfaces: the host entries with an IPv4 or IPv6
    address, copied with a tail pointer, and the loop that frees the copy. */
module IfAddrs {
  import opened Heap
  import opened Sockaddr
  import opened Wrappers

  /** An interface flag is named by its bit in the guest's flag word. */
  type Flag = nat

  datatype HostIf = HostIf(addr: Option<HostSockaddr>, netmask: Option<HostSockaddr>,
                           name: Option<string>, flags: set<Flag>)

  datatype HostList = End | Entry(info: HostIf, next: HostList)

  datatype GuestIf = GuestIf(addr: HostSockaddr, netmask: Option<HostSockaddr>,
                             name: Option<string>, flags: set<Flag>)

  predicate IsIp(a: Option<HostSockaddr>) {
    a.Some? && (a.value.Inet? || a.value.Inet6?)
  }

  /** The entries with an IP address, in order; other netmasks are dropped, and
      so are flags the host does not define. */
  function IpEntries(hs: HostList, defined: set<Flag>): seq<GuestIf> {
    match hs
    case End => []
    case Entry(i, next) =>
      (if IsIp(i.addr)
       then [GuestIf(i.addr.value, if IsIp(i.netmask) then i.netmask else None, i.name, i.flags * defined)]
       else [])
      + IpEntries(next, defined)
  }

  /** A filled address buffer; nobody writes to it again. */
  class Buffer {
    const bytes: seq<Byte>

    constructor (bytes: seq<Byte>)
      ensures this.bytes == bytes
    {
      this.bytes := bytes;
    }
  }

  /** Everything but the link is set once, before the node is linked. */
  class Node {
    var next: Node?
    const name: CString?
    const flags: set<Flag>
    const addr: Buffer?
    const netmask: Buffer?

    constructor (name: CString?, flags: set<Flag>, addr: Buffer?, netmask: Buffer?)
      ensures this.name == name && this.flags == flags && this.addr == addr && this.netmask == netmask
      ensures next == null
    {
      this.name, this.flags, this.addr, this.netmask := name, flags, addr, netmask;
      next := null;
    }

    /** The node and the buffers only it points to. */
    ghost function Owned(): set<object> {
      {this as object} + Buf(addr) + Buf(netmask) + if name == null then {} else {name as object}
    }

    ghost predicate Shows(g: GuestIf) {
      && flags == g.flags && NameShows(name, g.name)
      && BufShows(addr, Some(g.addr)) && BufShows(netmask, g.netmask)
      && (addr != null ==> addr != netmask)
    }
  }

  /** The node is the guest's copy of a host entry. */
  ghost predicate Copies(n: Node, i: HostIf, defined: set<Flag>) {
    && i.addr.Some? && Holds(n.addr, i.addr.value)
    && (forall f :: f in n.flags <==> f in i.flags && f in defined)
    && (i.netmask.None? || !OfIp(i.netmask.value) ==> n.netmask == null)
    && (i.netmask.Some? && OfIp(i.netmask.value) ==> Holds(n.netmask, i.netmask.value))
    && (i.name.None? <==> n.name == null) && (i.name.Some? ==> n.name != null && n.name.text == i.name.value)
    && (n.addr != null ==> n.addr != n.netmask)
  }

  ghost predicate Holds(buf: Buffer?, a: HostSockaddr) {
    buf != null && GuestSize(a, |buf.bytes|) && GuestForm(buf.bytes, a)
  }

  /** IPv4 or IPv6. */
  predicate OfIp(a: HostSockaddr) {
    match a
    case Inet(_, _) => true
    case Inet6(_, _, _, _) => true
    case _ => false
  }

  /** The host's entries that have an IP address. */
  function WithIp(hs: HostList): seq<HostIf> {
    if hs.End? then []
    else (if hs.info.addr.Some? && OfIp(hs.info.addr.value) then [hs.info] else []) + WithIp(hs.next)
  }

  /** One node for one entry, in order. */
  ghost predicate CopiesOf(ns: seq<Node>, es: seq<HostIf>, defined: set<Flag>) {
    |ns| == |es| && forall k {:trigger es[k]} :: 0 <= k < |es| ==> Copies(ns[k], es[k], defined)
  }

  lemma {:induction false} EntriesAt(hs: HostList, defined: set<Flag>, k: nat)
    ensures |IpEntries(hs, defined)| == |WithIp(hs)|
    ensures k < |WithIp(hs)| ==> IpEntries(Entry(WithIp(hs)[k], End), defined) == [IpEntries(hs, defined)[k]]
  {
    if hs.Entry? {
      if hs.info.addr.Some? && OfIp(hs.info.addr.value) {
        EntriesAt(hs.next, defined, if k > 0 then k - 1 else 0);
      } else {
        EntriesAt(hs.next, defined, k);
      }
    }
  }

  lemma ShownBuffer(buf: Buffer?, a: HostSockaddr)
    requires BufShows(buf, Some(a)) && OfIp(a)
    ensures Holds(buf, a)
  {
    BionicLenIs(a, |buf.bytes|);
    ReadsExact(buf.bytes, a);
  }

  lemma ShowsIsCopy(n: Node, i: HostIf, g: GuestIf, defined: set<Flag>)
    requires n.Shows(g) && IpEntries(Entry(i, End), defined) == [g]
    ensures Copies(n, i, defined)
  {
    var gs := IpEntries(Entry(i, End), defined);
    assert IpEntries(End, defined) == [] && |gs| == 1 && gs[0] == g;
    assert Some(g.addr) == i.addr && g.name == i.name && g.flags == i.flags * defined;
    ShownBuffer(n.addr, g.addr);
    if g.netmask.Some? {
      ShownBuffer(n.netmask, g.netmask.value);
    }
  }

  lemma ShownIsCopies(ns: seq<Node>, hs: HostList, defined: set<Flag>)
    requires Shown(ns, IpEntries(hs, defined))
    ensures CopiesOf(ns, WithIp(hs), defined)
  {
    EntriesAt(hs, defined, 0);
    forall k | 0 <= k < |ns|
      ensures Copies(ns[k], WithIp(hs)[k], defined)
    {
      EntriesAt(hs, defined, k);
      assert ns[k].Shows(IpEntries(hs, defined)[k]);
      ShowsIsCopy(ns[k], WithIp(hs)[k], IpEntries(hs, defined)[k], defined);
    }
  }

  ghost function Buf(buf: Buffer?): set<object> {
    if buf == null then {} else {buf}
  }

  predicate NameShows(name: CString?, text: Option<string>) {
    if text.None? then name == null else name != null && name.text == text.value
  }

  predicate BufShows(buf: Buffer?, a: Option<HostSockaddr>) {
    if a.None? then buf == null
    else buf != null && |buf.bytes| == AddrLen(a.value) && Reads(buf.bytes, a.value)
  }

  function AddrLen(a: HostSockaddr): nat {
    if BionicLen(a).Some? then BionicLen(a).value else 0
  }

  ghost function NodeAt(ns: seq<Node>, i: nat): Node? {
    if i < |ns| then ns[i] else null
  }

  /** ns are the nodes of the list under head, in order and without a cycle. */
  ghost predicate Chain(head: Node?, ns: seq<Node>)
    reads ns
  {
    && head == NodeAt(ns, 0)
    && (forall i {:trigger ns[i].next} :: 0 <= i < |ns| ==> ns[i].next == NodeAt(ns, i + 1))
  }

  /** No two nodes share anything they own. */
  ghost predicate Apart(ns: seq<Node>) {
    ns == [] || (ns[0].Owned() !! Footprint(ns[1..]) && Apart(ns[1..]))
  }

  ghost function Footprint(ns: seq<Node>): set<object> {
    if ns == [] then {} else ns[0].Owned() + Footprint(ns[1..])
  }

  lemma {:induction false} FootprintSnoc(ns: seq<Node>, n: Node)
    ensures Footprint(ns + [n]) == Footprint(ns) + n.Owned()
  {
    if ns != [] {
      FootprintSnoc(ns[1..], n);
      assert (ns + [n])[1..] == ns[1..] + [n];
    }
  }

  lemma {:induction false} InFootprint(ns: seq<Node>, i: nat)
    requires i < |ns|
    ensures ns[i].Owned() <= Footprint(ns)
  {
    if i > 0 {
      InFootprint(ns[1..], i - 1);
    }
  }

  lemma {:induction false} ApartSnoc(ns: seq<Node>, n: Node)
    requires Apart(ns) && n.Owned() !! Footprint(ns)
    ensures Apart(ns + [n])
  {
    if ns != [] {
      ApartSnoc(ns[1..], n);
      FootprintSnoc(ns[1..], n);
      assert (ns + [n])[1..] == ns[1..] + [n];
    }
  }

  lemma {:induction false} ApartDistinct(ns: seq<Node>, i: nat, j: nat)
    requires Apart(ns) && i < j < |ns|
    ensures ns[i].Owned() !! ns[j].Owned()
  {
    if i == 0 {
      InFootprint(ns[1..], j - 1);
    } else {
      ApartDistinct(ns[1..], i - 1, j - 1);
    }
  }

  /** No buffer for no address, else a new one with the guest form. */
  method NewAddr(h: Allocator, a: Option<HostSockaddr>) returns (buf: Buffer?)
    requires a.Some? ==> IsIp(a)
    modifies h
    ensures fresh(Buf(buf)) && BufShows(buf, a) && h.live == old(h.live) + Buf(buf)
  {
    buf := null;
    if a.Some? {
      var bytes := new Byte[BionicLen(a.value).value];
      ghost var before := bytes[..];
      var ok := FromHost(a.value, bytes);
      HostRoundTrip(a.value, before, bytes[..]);
      buf := new Buffer(bytes[..]);
      h.Track(buf);
    }
  }

  method DupName(h: Allocator, text: Option<string>) returns (name: CString?)
    modifies h
    ensures NameShows(name, text) && (name != null ==> fresh(name))
    ensures h.live == old(h.live) + if name == null then {} else {name as object}
  {
    name := null;
    if text.Some? {
      name := NewName(h, text.value);
    }
  }

  /** A copy of one entry. */
  method NewNode(h: Allocator, i: HostIf, defined: set<Flag>) returns (n: Node)
    requires IsIp(i.addr)
    modifies h
    ensures fresh(n) && n.Owned() !! old(h.live) && n.next == null
    ensures n.Shows(IpEntries(Entry(i, End), defined)[0])
    ensures h.live == old(h.live) + n.Owned()
  {
    var addr := NewAddr(h, i.addr);
    var netmask := NewAddr(h, if IsIp(i.netmask) then i.netmask else None);
    var name := DupName(h, i.name);
    n := new Node(name, i.flags * defined, addr, netmask);
    h.Track(n);
  }

  ghost function Last(ns: seq<Node>): Node? {
    if ns == [] then null else ns[|ns| - 1]
  }

  lemma LastDistinct(ns: seq<Node>, n: Node)
    requires Apart(ns + [n])
    ensures forall i :: 0 <= i < |ns| ==> ns[i] != n
    ensures forall i :: 0 <= i < |ns| - 1 ==> ns[i] != Last(ns)
  {
    var ms := ns + [n];
    forall i | 0 <= i < |ns|
      ensures ns[i] != n
    {
      assert ms[i] == ns[i] && ms[|ns|] == n;
      ApartDistinct(ms, i, |ns|);
    }
    forall i | 0 <= i < |ns| - 1
      ensures ns[i] != Last(ns)
    {
      assert ms[i] == ns[i] && ms[|ns| - 1] == ns[|ns| - 1];
      ApartDistinct(ms, i, |ns| - 1);
    }
  }

  /** The new node becomes the first, or goes behind the last one. */
  method Append(head: Node?, pc: Node?, n: Node, ghost ns: seq<Node>) returns (result: Node?)
    requires Chain(head, ns) && Apart(ns + [n]) && pc == Last(ns) && n.next == null
    modifies (if pc == null then {} else {pc})`next
    ensures Chain(result, ns + [n])
  {
    LastDistinct(ns, n);
    result := head;
    if pc == null {
      result := n;
    } else {
      pc.next := n;
    }
  }

  lemma TakeEntry(gs: seq<GuestIf>, c: HostList, defined: set<Flag>) returns (hs: seq<GuestIf>)
    requires c.Entry?
    ensures IsIp(c.info.addr) ==> hs == gs + [IpEntries(Entry(c.info, End), defined)[0]]
    ensures !IsIp(c.info.addr) ==> hs == gs
    ensures gs + IpEntries(c, defined) == hs + IpEntries(c.next, defined)
  {
    hs := if IsIp(c.info.addr) then gs + [IpEntries(Entry(c.info, End), defined)[0]] else gs;
  }

  ghost predicate Shown(ns: seq<Node>, gs: seq<GuestIf>) {
    |ns| == |gs| && forall i :: 0 <= i < |ns| ==> ns[i].Shows(gs[i])
  }

  lemma ShownSnoc(ns: seq<Node>, gs: seq<GuestIf>, n: Node, g: GuestIf)
    requires Shown(ns, gs) && n.Shows(g)
    ensures Shown(ns + [n], gs + [g])
  {
  }

  /** The copy so far: its nodes, what they say, and that they are all that was
      allocated since the heap was before. */
  ghost predicate Copied(head: Node?, pc: Node?, ns: seq<Node>, gs: seq<GuestIf>, before: set<object>, live: set<object>)
    reads ns
  {
    && Chain(head, ns) && Apart(ns) && pc == Last(ns) && Shown(ns, gs)
    && Footprint(ns) !! before && live == before + Footprint(ns)
  }

  /** One round of the loop: a copy of the entry goes behind pc. */
  method CopyEntry(h: Allocator, i: HostIf, defined: set<Flag>, head: Node?, pc: Node?,
                   ghost ns: seq<Node>, ghost gs: seq<GuestIf>, ghost before: set<object>)
    returns (result: Node?, n: Node, ghost ms: seq<Node>)
    requires IsIp(i.addr) && Copied(head, pc, ns, gs, before, h.live)
    modifies h, (if pc == null then {} else {pc})`next
    ensures Copied(result, n, ms, gs + [IpEntries(Entry(i, End), defined)[0]], before, h.live)
    ensures fresh(n)
  {
    n := NewNode(h, i, defined);
    ApartSnoc(ns, n);
    FootprintSnoc(ns, n);
    result := Append(head, pc, n, ns);
    assert n.Shows(IpEntries(Entry(i, End), defined)[0]);
    ShownSnoc(ns, gs, n, IpEntries(Entry(i, End), defined)[0]);
    ms := ns + [n];
  }

  /** The host's answer is its return value and, on success, its list.  The
      result is written only then. */
  method GetIfAddrs(h: Allocator, ret: int, hosts: HostList, defined: set<Flag>, previous: Node?)
    returns (result: Node?, ghost ns: seq<Node>)
    modifies h
    ensures ret != 0 ==> result == previous && h.live == old(h.live)
    ensures ret == 0 ==> Chain(result, ns) && Apart(ns) && CopiesOf(ns, WithIp(hosts), defined)
    ensures ret == 0 ==> Footprint(ns) !! old(h.live) && h.live == old(h.live) + Footprint(ns)
  {
    ns := [];
    if ret != 0 {
      return previous, [];
    }
    result := null;
    var pc: Node? := null;
    var c := hosts;
    ghost var gs := [];
    while c.Entry?
      invariant Copied(result, pc, ns, gs, old(h.live), h.live)
      invariant pc != null ==> fresh(pc)
      invariant IpEntries(hosts, defined) == gs + IpEntries(c, defined)
      decreases c
    {
      ghost var hs := TakeEntry(gs, c, defined);
      if IsIp(c.info.addr) {
        result, pc, ns := CopyEntry(h, c.info, defined, result, pc, ns, gs, old(h.live));
      }
      gs := hs;
      c := c.next;
    }
    assert gs + [] == gs;
    ShownIsCopies(ns, hosts, defined);
  }

  /** Frees one node with its buffers; next is read before the node goes. */
  method FreeNode(h: Allocator, c: Node) returns (n: Node?)
    requires c.Owned() <= h.live && (c.addr != null ==> c.addr != c.netmask)
    modifies h
    ensures n == c.next && h.live == old(h.live) - c.Owned()
  {
    if c.addr != null {
      h.Free(c.addr);
    }
    if c.netmask != null {
      h.Free(c.netmask);
    }
    if c.name != null {
      h.Free(c.name);
    }
    n := c.next;
    h.Free(c);
  }

  lemma Uncons(c: Node, ns: seq<Node>)
    requires Chain(c, ns) && Apart(ns)
    ensures ns != [] && ns[0] == c && Chain(c.next, ns[1..]) && Apart(ns[1..])
    ensures Footprint(ns) == c.Owned() + Footprint(ns[1..]) && c.Owned() !! Footprint(ns[1..])
  {
    var rest := ns[1..];
    assert forall i :: 0 <= i < |rest| ==> rest[i] == ns[i + 1];
  }

  /** Frees every node and buffer of the list once, and nothing else. */
  method FreeIfAddrs(h: Allocator, head: Node?, ghost ns: seq<Node>)
    requires Chain(head, ns) && Apart(ns) && Footprint(ns) <= h.live
    requires forall i :: 0 <= i < |ns| && ns[i].addr != null ==> ns[i].addr != ns[i].netmask
    modifies h
    ensures h.live == old(h.live) - Footprint(ns)
  {
    var c := head;
    ghost var left := ns;
    while c != null
      invariant Chain(c, left) && Apart(left) && Footprint(left) <= h.live
      invariant forall i :: 0 <= i < |left| && left[i].addr != null ==> left[i].addr != left[i].netmask
      invariant h.live - Footprint(left) == old(h.live) - Footprint(ns)
      decreases |left|
    {
      Uncons(c, left);
      c := FreeNode(h, c);
      left := left[1..];
    }
    assert left == [];
  }
}
