/** Socket addresses on the two sides.  A host address is a value; a guest
    address is the bytes of its structure. */
module Sockaddr {
  import opened Wrappers

  type Byte = b: int | 0 <= b < 256
  type Bytes2 = s: seq<Byte> | |s| == 2 witness [0, 0]
  type Bytes4 = s: seq<Byte> | |s| == 4 witness [0, 0, 0, 0]
  type Bytes16 = s: seq<Byte> | |s| == 16 witness seq(16, _ => 0)
  type Path = s: seq<Byte> | |s| == 108 witness seq(108, _ => 0)

  datatype HostSockaddr =
    | Unspec
    | Unix(path: Path)
    | Inet(port: Bytes2, addr: Bytes4)
    | Inet6(port6: Bytes2, flowInfo: Bytes4, addr6: Bytes16, scope: Bytes4)
    | OtherFamily(family: nat)

  // ---- The layout of the guest structures -------------------------------------

  const UN_SIZE: nat := 110
  const IN_SIZE: nat := 16
  const IN6_SIZE: nat := 28

  const AF_UNSPEC: nat := 0
  const AF_UNIX: nat := 1
  const AF_INET: nat := 2
  const AF_INET6: nat := 10

  function Family(buf: seq<Byte>): nat
    requires |buf| >= 2
  {
    (buf[0] as int) + 256 * (buf[1] as int)
  }

  /** The size of the guest form; other families have none. */
  function BionicLen(a: HostSockaddr): Option<nat> {
    match a
    case Unix(_) => Some(UN_SIZE)
    case Inet(_, _) => Some(IN_SIZE)
    case Inet6(_, _, _, _) => Some(IN6_SIZE)
    case _ => None
  }

  /** What a read of the guest bytes makes of them on the host. */
  function ToHost(buf: seq<Byte>): Option<HostSockaddr>
    requires |buf| >= 2
    requires Family(buf) == AF_UNIX ==> |buf| >= UN_SIZE
    requires Family(buf) == AF_INET ==> |buf| >= IN_SIZE
    requires Family(buf) == AF_INET6 ==> |buf| >= IN6_SIZE
  {
    if Family(buf) == AF_UNSPEC then Some(Unspec)
    else if Family(buf) == AF_UNIX then Some(Unix(buf[2..110]))
    else if Family(buf) == AF_INET then Some(Inet(buf[2..4], buf[4..8]))
    else if Family(buf) == AF_INET6 then Some(Inet6(buf[2..4], buf[4..8], buf[8..24], buf[24..28]))
    else None
  }

  function FamilyOf(a: HostSockaddr): nat {
    match a
    case Unspec => AF_UNSPEC
    case Unix(_) => AF_UNIX
    case Inet(_, _) => AF_INET
    case Inet6(_, _, _, _) => AF_INET6
    case OtherFamily(f) => f
  }

  /** Bytes that a reader takes for a. */
  predicate Reads(buf: seq<Byte>, a: HostSockaddr) {
    BionicLen(a).Some? && |buf| >= BionicLen(a).value && Family(buf) == FamilyOf(a) && ToHost(buf) == Some(a)
  }

  /** The guest structure byte by byte, as its declaration lays it out. */
  ghost predicate GuestForm(buf: seq<Byte>, a: HostSockaddr) {
    match a
    case Unix(path) => |buf| >= 110 && buf[0] == 1 && buf[1] == 0 && buf[2..110] == path
    case Inet(port, addr) =>
      |buf| >= 16 && buf[0] == 2 && buf[1] == 0 && buf[2..4] == port && buf[4..8] == addr
    case Inet6(port, flow, addr, scope) =>
      && |buf| >= 28 && buf[0] == 10 && buf[1] == 0 && buf[2..4] == port
      && buf[4..8] == flow && buf[8..24] == addr && buf[24..28] == scope
    case _ => false
  }

  /** The size of the guest structure. */
  predicate GuestSize(a: HostSockaddr, len: nat) {
    match a
    case Unix(_) => len == 110
    case Inet(_, _) => len == 16
    case Inet6(_, _, _, _) => len == 28
    case _ => false
  }

  lemma BionicLenIs(a: HostSockaddr, len: nat)
    ensures BionicLen(a) == Some(len) <==> GuestSize(a, len)
  {
  }

  /** A reader takes bytes for a exactly when they are its structure. */
  lemma ReadsExact(buf: seq<Byte>, a: HostSockaddr)
    ensures Reads(buf, a) <==> GuestForm(buf, a)
  {
  }

  // ---- Writing a host address into guest memory ---------------------------------

  method Copy(out: array<Byte>, off: nat, bytes: seq<Byte>)
    requires off + |bytes| <= out.Length
    modifies out
    ensures forall k :: 0 <= k < out.Length ==>
              out[k] == if off <= k < off + |bytes| then bytes[k - off] else old(out[k])
  {
    for i := 0 to |bytes|
      invariant forall k :: 0 <= k < out.Length ==>
                  out[k] == if off <= k < off + i then bytes[k - off] else old(out[k])
    {
      out[off + i] := bytes[i];
    }
  }

  /** The byte of the guest form of a at offset k, where the conversion writes
      one; the padding of an IPv4 address is never written. */
  function GuestByte(a: HostSockaddr, k: nat): Option<Byte> {
    match a
    case Unspec => if k < 2 then Some(0) else None
    case Unix(path) =>
      if k == 0 then Some(1) else if k == 1 then Some(0) else if k < 110 then Some(path[k - 2]) else None
    case Inet(port, addr) =>
      if k == 0 then Some(2) else if k == 1 then Some(0)
      else if k < 4 then Some(port[k - 2]) else if k < 8 then Some(addr[k - 4]) else None
    case Inet6(port, flow, addr, scope) =>
      if k == 0 then Some(10) else if k == 1 then Some(0)
      else if k < 4 then Some(port[k - 2]) else if k < 8 then Some(flow[k - 4])
      else if k < 24 then Some(addr[k - 8]) else if k < 28 then Some(scope[k - 24]) else None
    case OtherFamily(_) => None
  }

  /** Whether after holds the guest form of a, and before wherever the
      conversion does not write. */
  predicate Overwritten(a: HostSockaddr, before: seq<Byte>, after: seq<Byte>) {
    && |after| == |before|
    && forall k :: 0 <= k < |after| ==>
         after[k] == (if GuestByte(a, k).Some? then GuestByte(a, k).value else before[k])
  }

  /** Converts field by field; an unknown family is an error and writes nothing. */
  method FromHost(a: HostSockaddr, out: array<Byte>) returns (ok: bool)
    requires out.Length >= (if BionicLen(a).Some? then BionicLen(a).value else 2)
    modifies out
    ensures ok == !a.OtherFamily?
    ensures Overwritten(a, old(out[..]), out[..])
  {
    ok := true;
    match a
    case Unspec =>
      Copy(out, 0, [0, 0]);
    case Unix(path) =>
      Copy(out, 0, [1, 0]);
      Copy(out, 2, path);
    case Inet(port, addr) =>
      Copy(out, 0, [2, 0]);
      Copy(out, 2, port);
      Copy(out, 4, addr);
    case Inet6(port, flow, addr, scope) =>
      Copy(out, 0, [10, 0]);
      Copy(out, 2, port);
      Copy(out, 4, flow);
      Copy(out, 8, addr);
      Copy(out, 24, scope);
    case OtherFamily(_) =>
      ok := false;
  }

  /** Every write lies below the length announced for the family. */
  lemma WritesBelowLen(a: HostSockaddr, before: seq<Byte>, after: seq<Byte>, k: nat)
    requires Overwritten(a, before, after) && BionicLen(a).Some?
    requires BionicLen(a).value <= k < |after|
    ensures after[k] == before[k]
  {
  }

  /** Whatever was in the buffer, reading it back gives the host address. */
  lemma HostRoundTrip(a: HostSockaddr, before: seq<Byte>, after: seq<Byte>)
    requires Overwritten(a, before, after) && BionicLen(a).Some?
    requires |after| >= BionicLen(a).value
    ensures Reads(after, a)
  {
    match a
    case Unix(path) =>
      assert after[2..110] == path;
    case Inet(port, addr) =>
      assert after[2..4] == port && after[4..8] == addr;
    case Inet6(port, flow, addr, scope) =>
      assert after[2..4] == port && after[4..8] == flow && after[8..24] == addr && after[24..28] == scope;
  }

  /** Guest to host and back keeps every address byte; only the padding of an
      IPv4 address comes from the buffer written to. */
  lemma GuestRoundTrip(buf: seq<Byte>, before: seq<Byte>, after: seq<Byte>, k: nat)
    requires |buf| >= 2 && Family(buf) in {AF_UNIX, AF_INET, AF_INET6}
    requires Family(buf) == AF_UNIX ==> |buf| >= UN_SIZE
    requires Family(buf) == AF_INET ==> |buf| >= IN_SIZE
    requires Family(buf) == AF_INET6 ==> |buf| >= IN6_SIZE
    ensures ToHost(buf).Some? && BionicLen(ToHost(buf).value).Some?
    ensures Overwritten(ToHost(buf).value, before, after) && k < BionicLen(ToHost(buf).value).value <= |after| ==>
              after[k] == if Family(buf) == AF_INET && k >= 8 then before[k] else buf[k]
  {
  }

  // ---- Handing an address to the caller -------------------------------------------

  /** Writes the address and its length unless the caller's room is too small or
      the family has no guest form; then nothing is written. */
  method Apply(haddr: HostSockaddr, out: array<Byte>, addrlen: nat) returns (len: Option<nat>)
    requires addrlen <= out.Length
    modifies out
    ensures len == (if BionicLen(haddr).Some? && BionicLen(haddr).value <= addrlen then BionicLen(haddr) else None)
    ensures forall k :: addrlen <= k < out.Length ==> out[k] == old(out[k])
    ensures len.None? ==> out[..] == old(out[..])
    ensures len.Some? ==> Overwritten(haddr, old(out[..]), out[..]) && GuestForm(out[..], haddr)
    ensures len.Some? <==> exists size: nat :: GuestSize(haddr, size) && size <= addrlen
    ensures len.Some? ==> GuestSize(haddr, len.value)
  {
    forall size: nat
      ensures BionicLen(haddr) == Some(size) <==> GuestSize(haddr, size)
    {
      BionicLenIs(haddr, size);
    }
    len := BionicLen(haddr);
    if len.None? || len.value > addrlen {
      return None;
    }
    var ok := FromHost(haddr, out);
    HostRoundTrip(haddr, old(out[..]), out[..]);
    ReadsExact(out[..], haddr);
  }
}
