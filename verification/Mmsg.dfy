/** Sending and receiving many messages with one call each.  The host's answers
    are functions of the message number, so every pattern of them is covered. */
module Mmsg {
  import opened Sockaddr
  import opened Wrappers

  const INT_MAX: nat := 0x7FFF_FFFF
  const UINT_RANGE: nat := 0x1_0000_0000

  /** An unsigned count returned as int: the int that agrees with it modulo
      2^32. */
  function AsInt(n: nat): (r: int)
    requires n < UINT_RANGE
    ensures -0x8000_0000 <= r <= 0x7FFF_FFFF && (r == n || r + 0x1_0000_0000 == n)
  {
    if n <= INT_MAX then n else n - UINT_RANGE
  }

  /** The return value when k of vlen messages went through. */
  function Reported(k: nat, vlen: nat): int
    requires k <= vlen < UINT_RANGE
  {
    if k == 0 && vlen > 0 then -1 else AsInt(k)
  }

  /** The return value tells how many messages went through, and -1 that none
      did, exactly while their number is an int. */
  lemma ReportedExact(k: nat, vlen: nat)
    requires k <= vlen < UINT_RANGE
    ensures Reported(k, vlen) == (if k == 0 && vlen > 0 then -1 else k) <==> k <= INT_MAX
    ensures vlen <= INT_MAX ==> (Reported(k, vlen) == -1 <==> k == 0 && vlen > 0)
  {
  }

  // ---- Sending --------------------------------------------------------------

  datatype Outgoing = Outgoing(message: int, len: nat)

  /** Messages before k went out, and the first that failed, if any, is k. */
  predicate SentUpTo(sent: nat -> int, k: nat, vlen: nat) {
    && k <= vlen && (forall i :: 0 <= i < k ==> sent(i) >= 0)
    && (k < vlen ==> sent(k) < 0)
  }

  /** sent(i) is what the host's sendmsg returns for message i. */
  method SendMmsg(v: array<Outgoing>, vlen: nat, sent: nat -> int) returns (ret: int, ghost k: nat)
    requires vlen <= v.Length && vlen < UINT_RANGE
    modifies v
    ensures SentUpTo(sent, k, vlen) && ret == Reported(k, vlen)
    ensures forall i :: 0 <= i < v.Length ==>
              v[i] == if i < k then old(v[i]).(len := sent(i) % UINT_RANGE) else old(v[i])
  {
    var i := 0;
    while i < vlen
      invariant i <= vlen && forall j :: 0 <= j < i ==> sent(j) >= 0
      invariant forall j :: 0 <= j < v.Length ==>
                  v[j] == if j < i then old(v[j]).(len := sent(j) % UINT_RANGE) else old(v[j])
    {
      var r := sent(i);
      if r < 0 {
        return if i == 0 then -1 else AsInt(i), i;
      }
      v[i] := v[i].(len := r % UINT_RANGE);
      i := i + 1;
    }
    return AsInt(vlen), vlen;
  }

  // ---- Receiving ------------------------------------------------------------

  /** A guest slot; with a name buffer, namelen is its room and then its use. */
  datatype Slot = Slot(named: bool, from: Option<HostSockaddr>, namelen: nat, flags: int, controllen: nat, len: nat)

  datatype Received = Failure | Message(from: HostSockaddr, flags: int, len: nat)

  /** What the host does before and at message i. */
  datatype Host = Host(expired: nat -> bool, poll: nat -> int, recv: nat -> Received)

  datatype Flag = DontWait | Peek | Unsupported

  datatype Result = Returned(n: int) | Threw

  /** The slot after a message; an address that does not fit or has no guest
      form is an error. */
  function Filled(s: Slot, m: Received): Option<Slot> {
    if m.Failure? then None
    else var t := s.(flags := m.flags, controllen := 0, len := m.len % UINT_RANGE);
    if !s.named then Some(t)
    else if BionicLen(m.from).None? || BionicLen(m.from).value > s.namelen then None
    else Some(t.(from := Some(m.from), namelen := BionicLen(m.from).value))
  }

  /** The wait before message i gives up: only after the first, and only with a
      timeout and blocking. */
  predicate GivesUp(h: Host, i: nat, waits: bool) {
    i > 0 && waits && (h.expired(i) || h.poll(i) <= 0)
  }

  predicate Arrives(h: Host, slots: seq<Slot>, i: nat, waits: bool) {
    i < |slots| && !GivesUp(h, i, waits) && Filled(slots[i], h.recv(i)).Some?
  }

  /** Slots before k were filled in order; k is where it stopped. */
  predicate FilledUpTo(h: Host, slots: seq<Slot>, k: nat, vlen: nat, waits: bool) {
    && k <= vlen && (forall i :: 0 <= i < k ==> Arrives(h, slots, i, waits))
    && (k < vlen ==> !Arrives(h, slots, k, waits))
  }

  /** What the caller finds in a slot, field by field. */
  ghost predicate Delivered(before: Slot, m: Received, after: Slot) {
    && m.Message?
    && after.len == m.len % 0x1_0000_0000 && after.flags == m.flags && after.controllen == 0
    && after.named == before.named
    && if !before.named then after.from == before.from && after.namelen == before.namelen
       else after.from == Some(m.from) && after.namelen <= before.namelen
            && match m.from
               case Unix(_) => after.namelen == 110
               case Inet(_, _) => after.namelen == 16
               case Inet6(_, _, _, _) => after.namelen == 28
               case _ => false
  }

  /** A message whose sender's address does not go into the slot. */
  predicate Unreportable(s: Slot, m: Received) {
    && m.Message? && s.named
    && match m.from
       case Unix(_) => s.namelen < 110
       case Inet(_, _) => s.namelen < 16
       case Inet6(_, _, _, _) => s.namelen < 28
       case _ => true
  }

  lemma FilledMeans(s: Slot, m: Received)
    ensures Filled(s, m).Some? ==> Delivered(s, m, Filled(s, m).value)
    ensures Filled(s, m).None? <==> m.Failure? || Unreportable(s, m)
  {
  }

  /** A wait that ended before message i: only after the first, with a timeout and
      blocking, when the deadline has passed or nothing has come. */
  predicate TimedOut(h: Host, i: nat, timeout: bool, flags: set<Flag>) {
    i > 0 && timeout && DontWait !in flags && (h.expired(i) || h.poll(i) <= 0)
  }

  lemma StoppedAt(h: Host, slots: seq<Slot>, k: nat, vlen: nat, timeout: bool, flags: set<Flag>)
    requires FilledUpTo(h, slots, k, vlen, timeout && DontWait !in flags) && vlen <= |slots|
    ensures forall i :: 0 <= i < k ==>
              !TimedOut(h, i, timeout, flags) && Filled(slots[i], h.recv(i)).Some? &&
              Delivered(slots[i], h.recv(i), Filled(slots[i], h.recv(i)).value)
    ensures k < vlen ==> TimedOut(h, k, timeout, flags) || h.recv(k).Failure? || Unreportable(slots[k], h.recv(k))
  {
    forall i | 0 <= i < k
      ensures !TimedOut(h, i, timeout, flags) && Filled(slots[i], h.recv(i)).Some?
      ensures Delivered(slots[i], h.recv(i), Filled(slots[i], h.recv(i)).value)
    {
      assert Arrives(h, slots, i, timeout && DontWait !in flags);
      FilledMeans(slots[i], h.recv(i));
    }
    if k < vlen {
      FilledMeans(slots[k], h.recv(k));
    }
  }

  method Receive(v: array<Slot>, vlen: nat, flags: set<Flag>, timeout: bool, h: Host)
    returns (result: Result, ghost k: nat)
    requires vlen <= v.Length && vlen < UINT_RANGE
    modifies v
    ensures Unsupported in flags ==> result == Threw && v[..] == old(v[..])
    ensures Unsupported !in flags ==>
              var waits := timeout && DontWait !in flags;
              && FilledUpTo(h, old(v[..]), k, vlen, waits)
              && (forall i :: 0 <= i < k ==> Some(v[i]) == Filled(old(v[i]), h.recv(i)))
              && (forall i :: k <= i < v.Length ==> v[i] == old(v[i]))
              && result == (if k < vlen && !GivesUp(h, k, waits) && h.recv(k).Message? then Threw
                            else Returned(Reported(k, vlen)))
  {
    k := 0;
    if Unsupported in flags {
      return Threw, 0;
    }
    var i := 0;
    ghost var slots, waits := v[..], timeout && DontWait !in flags;
    while i < vlen
      invariant k == i <= vlen
      invariant forall j :: 0 <= j < i ==> Arrives(h, slots, j, waits)
      invariant forall j :: 0 <= j < i ==> Some(v[j]) == Filled(slots[j], h.recv(j))
      invariant forall j :: i <= j < v.Length ==> v[j] == slots[j]
    {
      if i > 0 && timeout && DontWait !in flags {
        if h.expired(i) {
          return Returned(AsInt(i)), i;
        }
        var p := h.poll(i);
        if p < 0 {
          return Returned(if i == 0 then -1 else AsInt(i)), i;
        }
        if p == 0 {
          return Returned(AsInt(i)), i;
        }
      }
      var m := h.recv(i);
      if m.Failure? {
        return Returned(if i == 0 then -1 else AsInt(i)), i;
      }
      var filled := Filled(v[i], m);
      if filled.None? {
        return Threw, i;
      }
      v[i] := filled.value;
      i := i + 1;
      k := i;
    }
    return Returned(AsInt(vlen)), vlen;
  }

  /** The loop as the caller sees it: which slots are filled, with what, and why
      it stopped. */
  method RecvMmsg(v: array<Slot>, vlen: nat, flags: set<Flag>, timeout: bool, h: Host)
    returns (result: Result, ghost k: nat)
    requires vlen <= v.Length && vlen < UINT_RANGE
    modifies v
    ensures Unsupported in flags ==> result == Threw && v[..] == old(v[..])
    ensures Unsupported !in flags ==>
              && k <= vlen
              && (forall i :: 0 <= i < k ==> !TimedOut(h, i, timeout, flags) && Delivered(old(v[i]), h.recv(i), v[i]))
              && (k < vlen ==> TimedOut(h, k, timeout, flags) || h.recv(k).Failure? ||
                               Unreportable(old(v[k]), h.recv(k)))
              && (result == Threw <==>
                    k < vlen && !TimedOut(h, k, timeout, flags) && Unreportable(old(v[k]), h.recv(k)))
    ensures Unsupported !in flags && result.Returned? ==> result.n == Reported(k, vlen)
    ensures Unsupported !in flags ==> forall i :: k <= i < v.Length ==> v[i] == old(v[i])
  {
    ghost var slots := v[..];
    result, k := Receive(v, vlen, flags, timeout, h);
    if Unsupported !in flags {
      StoppedAt(h, slots, k, vlen, timeout, flags);
    }
  }

  /** -1 comes back only when the host refused the very first message. */
  lemma MinusOneMeansNothing(h: Host, slots: seq<Slot>, k: nat, vlen: nat, waits: bool)
    requires FilledUpTo(h, slots, k, vlen, waits) && vlen <= INT_MAX && vlen <= |slots|
    requires k == vlen || GivesUp(h, k, waits) || h.recv(k).Failure?
    ensures Reported(k, vlen) == -1 <==> vlen > 0 && h.recv(0).Failure?
    ensures Reported(k, vlen) != -1 ==> Reported(k, vlen) == k
  {
    ReportedExact(k, vlen);
    if k > 0 {
      assert Arrives(h, slots, 0, waits);
    }
  }
}
