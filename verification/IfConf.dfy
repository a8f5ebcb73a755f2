/** The interface configuration request: the host's records are compacted in
    place into the caller's array, IPv4 addresses only. */
module IfConf {
  import opened Heap
  import opened Sockaddr
  import opened Wrappers

  /** A record; its name is the text before the NUL, its address what the bytes
      read as. */
  datatype Req = Req(name: string, addr: HostSockaddr)

  const NAME_SIZE: nat := 16

  /** A name as a record of 16 characters with a final NUL holds it. */
  function Cut(name: string): (cut: string)
    ensures cut <= name && |cut| < NAME_SIZE && (cut == name || |cut| == NAME_SIZE - 1)
  {
    if |name| < NAME_SIZE then name else name[..NAME_SIZE - 1]
  }

  /** The IPv4 records, in order. */
  function Kept(hs: seq<Req>): seq<Req> {
    if hs == [] then []
    else Kept(hs[..|hs| - 1]) + (var h := hs[|hs| - 1]; if h.addr.Inet? then [h.(name := Cut(h.name))] else [])
  }

  /** Every IPv4 record goes behind those before it, and nothing else does. */
  lemma {:induction false} KeptAt(hs: seq<Req>, i: nat)
    requires i < |hs|
    ensures Kept(hs[..i]) <= Kept(hs)
    ensures |Kept(hs[..i])| < |Kept(hs)| || !hs[i].addr.Inet?
    ensures hs[i].addr.Inet? ==> Kept(hs)[|Kept(hs[..i])|] == hs[i].(name := Cut(hs[i].name))
    ensures Kept(hs[..i + 1]) <= Kept(hs)
    ensures |Kept(hs[..i + 1])| == |Kept(hs[..i])| + if hs[i].addr.Inet? then 1 else 0
  {
    var n := |hs| - 1;
    assert hs[..i + 1][..i] == hs[..i];
    if i < n {
      KeptAt(hs[..n], i);
      assert hs[..n][..i] == hs[..i] && hs[..n][..i + 1] == hs[..i + 1];
    } else {
      assert hs[..i + 1] == hs;
    }
  }

  /** The slot behind the kept ones: a record that was not kept, and that none
      kept follows, leaves its name there. */
  function Leftover(before: Req, hs: seq<Req>): Req {
    if hs == [] || hs[|hs| - 1].addr.Inet? then before else before.(name := Cut(hs[|hs| - 1].name))
  }

  /** Of room slots, those before cnt hold the first IPv4 records, the next one
      what is left over, and the others are as they were. */
  ghost predicate Compacted(req: seq<Req>, before: seq<Req>, hs: seq<Req>, cnt: nat, room: nat) {
    && |req| == |before| && cnt <= |req| && cnt <= |Kept(hs)|
    && req[..cnt] == Kept(hs)[..cnt]
    && (forall i :: cnt < i < |req| ==> req[i] == before[i])
    && (cnt < |req| ==> req[cnt] == if cnt < room then Leftover(before[cnt], hs) else before[cnt])
  }

  /** The host's records before they are copied. */
  class HostBuffer {
    constructor () {
    }
  }

  /** ret and hosts are the host's answer, len the room in bytes, and size the
      size of a record.  The new length covers the records kept, as many as
      there is room for.  After a failure nothing has changed, and the buffer
      made for the host's records is never freed. */
  method GetConf(h: Allocator, req: array<Req>, len: nat, size: nat, ret: int, hosts: seq<Req>)
    returns (newLen: nat, ghost hibuf: HostBuffer)
    requires size > 0 && len / size <= req.Length
    modifies req, h
    ensures fresh(hibuf) && h.live == old(h.live) + if ret < 0 then {hibuf} else {}
    ensures ret < 0 ==> newLen == len && req[..] == old(req[..])
    ensures ret >= 0 ==>
              var cnt := Min(len / size, |Kept(hosts)|);
              newLen == cnt * size && Compacted(req[..], old(req[..]), hosts, cnt, len / size)
  {
    var maxcnt := len / size;
    var buffer := new HostBuffer();
    hibuf := buffer;
    h.Track(buffer);
    if ret < 0 {
      return len, buffer;
    }
    var cnt := CopyRecords(req, maxcnt, hosts);
    newLen := cnt * size;
    h.Free(buffer);
    assert h.live == old(h.live);
  }

  method CopyRecords(req: array<Req>, maxcnt: nat, hosts: seq<Req>) returns (cnt: nat)
    requires maxcnt <= req.Length
    modifies req
    ensures cnt == Min(maxcnt, |Kept(hosts)|) && Compacted(req[..], old(req[..]), hosts, cnt, maxcnt)
  {
    cnt := 0;
    var cur: nat := 0;
    assert hosts[..0] == [];
    while cur < |hosts| && cnt < maxcnt
      invariant cur <= |hosts| && cnt <= maxcnt && cnt == |Kept(hosts[..cur])|
      invariant Compacted(req[..], old(req[..]), hosts[..cur], cnt, maxcnt)
    {
      ghost var was := req[..];
      CopyRecord(req, cnt, hosts[cur]);
      TakeRecord(was, old(req[..]), req[..], hosts, cur, maxcnt);
      if hosts[cur].addr.Inet? {
        cnt := cnt + 1;
      }
      cur := cur + 1;
    }
    Finish(req[..], old(req[..]), hosts, cur, maxcnt);
  }

  /** The name always, the address only of an IPv4 record. */
  method CopyRecord(req: array<Req>, cnt: nat, r: Req)
    requires cnt < req.Length
    modifies req
    ensures req[..] == old(req[..])[cnt := if r.addr.Inet? then r.(name := Cut(r.name))
                                           else old(req[cnt]).(name := Cut(r.name))]
  {
    req[cnt] := req[cnt].(name := Cut(r.name));
    if r.addr.Inet? {
      req[cnt] := req[cnt].(addr := r.addr);
    }
  }

  /** One round of the loop. */
  lemma TakeRecord(was: seq<Req>, before: seq<Req>, after: seq<Req>, hs: seq<Req>, cur: nat, room: nat)
    requires cur < |hs|
    requires var cnt := |Kept(hs[..cur])|;
             var r := hs[cur];
             && cnt < |was| && cnt < room && Compacted(was, before, hs[..cur], cnt, room)
             && after == if r.addr.Inet? then was[cnt := r.(name := Cut(r.name))]
                         else was[cnt := was[cnt].(name := Cut(r.name))]
    ensures |Kept(hs[..cur + 1])| == |Kept(hs[..cur])| + if hs[cur].addr.Inet? then 1 else 0
    ensures Compacted(after, before, hs[..cur + 1], |Kept(hs[..cur + 1])|, room)
  {
    var cnt, r := |Kept(hs[..cur])|, hs[cur];
    var more := hs[..cur + 1];
    assert more[..cur] == hs[..cur] && more[cur] == r;
    if r.addr.Inet? {
      assert after[..cnt + 1] == was[..cnt] + [after[cnt]];
    } else {
      assert after[..cnt] == was[..cnt];
    }
  }

  lemma KeptPrefix(hs: seq<Req>, cur: nat)
    requires cur <= |hs|
    ensures Kept(hs[..cur]) <= Kept(hs)
  {
    if cur < |hs| {
      KeptAt(hs, cur);
    } else {
      assert hs[..cur] == hs;
    }
  }

  /** When the loop stops early, the rest of the records changes nothing. */
  lemma Finish(req: seq<Req>, before: seq<Req>, hs: seq<Req>, cur: nat, maxcnt: nat)
    requires cur <= |hs| && Compacted(req, before, hs[..cur], |Kept(hs[..cur])|, maxcnt)
    requires |Kept(hs[..cur])| <= maxcnt && (cur == |hs| || |Kept(hs[..cur])| == maxcnt)
    ensures |Kept(hs[..cur])| == Min(maxcnt, |Kept(hs)|)
    ensures Compacted(req, before, hs, |Kept(hs[..cur])|, maxcnt)
  {
    KeptPrefix(hs, cur);
    var some, all := Kept(hs[..cur]), Kept(hs);
    assert all[..|some|] == some;
    if cur == |hs| {
      assert hs[..cur] == hs;
    }
  }
}
