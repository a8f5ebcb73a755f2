/** poll carried out by select. */
module PollSelect {

  const FD_SETSIZE: nat := 1024

  datatype Bit = In | Pri | Out | Err | Hup

  datatype PollFd = PollFd(fd: int, events: set<Bit>, revents: set<Bit>)

  datatype Timeval = Timeval(sec: int, usec: int)

  /** What went into select and what came back. */
  datatype Selected = Selected(nfds: int, r: set<int>, w: set<int>, e: set<int>, t: Timeval,
                               ret: int, rOut: set<int>, wOut: set<int>, eOut: set<int>)

  /** The host's promise: on success the sets shrink to what is ready and the
      result counts their members, on failure they stay. */
  ghost predicate SelectContract(s: Selected) {
    if s.ret >= 0 then
      s.rOut <= s.r && s.wOut <= s.w && s.eOut <= s.e && s.ret == |s.rOut| + |s.wOut| + |s.eOut|
    else s.rOut == s.r && s.wOut == s.w && s.eOut == s.e
  }

  /** Any select that keeps the promise. */
  method Select(nfds: int, r: set<int>, w: set<int>, e: set<int>, t: Timeval)
    returns (ret: int, rOut: set<int>, wOut: set<int>, eOut: set<int>)
    ensures SelectContract(Selected(nfds, r, w, e, t, ret, rOut, wOut, eOut))
  {
    ret, rOut, wOut, eOut := *, *, *, *;
    if ret < 0 {
      rOut, wOut, eOut := r, w, e;
    } else {
      rOut, wOut, eOut := rOut * r, wOut * w, eOut * e;
      ret := |rOut| + |wOut| + |eOut|;
    }
  }

  /** Division and remainder as C defines them for signed operands. */
  function Quot(a: int, b: int): int
    requires b > 0
  {
    if a >= 0 then a / b else -((-a) / b)
  }

  function Rem(a: int, b: int): int
    requires b > 0
  {
    a - b * Quot(a, b)
  }

  function Timeout(ms: int): Timeval {
    Timeval(Quot(ms, 1000), Rem(ms, 1000) * 1000)
  }

  /** The time value is the timeout to the microsecond, and one that select
      takes exactly when the timeout is not negative. */
  lemma TimeoutExact(ms: int)
    ensures Timeout(ms).sec * 1000000 + Timeout(ms).usec == ms * 1000
    ensures Timeout(ms).sec >= 0 && 0 <= Timeout(ms).usec < 1000000 <==> ms >= 0
    ensures ms < 0 ==> Timeout(ms).sec <= 0 && -1000000 < Timeout(ms).usec <= 0
  {
  }

  predicate InRange(fds: seq<PollFd>) {
    forall i :: 0 <= i < |fds| ==> 0 <= fds[i].fd < FD_SETSIZE
  }

  function Reads(p: PollFd): bool {
    In in p.events || Pri in p.events
  }

  function Ready(fd: int, s: Selected): set<Bit> {
    (if fd in s.rOut then {In} else {}) + (if fd in s.wOut then {Out} else {}) + (if fd in s.eOut then {Err} else {})
  }

  /** What an entry is to report: input, output and error by the three sets, and
      nothing else about it changes. */
  predicate Shows(p: PollFd, after: PollFd, s: Selected) {
    && after.fd == p.fd && after.events == p.events
    && (In in after.revents <==> p.fd in s.rOut)
    && (Out in after.revents <==> p.fd in s.wOut)
    && (Err in after.revents <==> p.fd in s.eOut)
    && Pri !in after.revents && Hup !in after.revents
  }

  /** The sets built from the first n entries. */
  predicate Built(fds: seq<PollFd>, n: nat, maxfd: int, r: set<int>, w: set<int>, e: set<int>) {
    && n <= |fds|
    && r == (set i | 0 <= i < n && Reads(fds[i]) :: fds[i].fd)
    && w == (set i | 0 <= i < n && Out in fds[i].events :: fds[i].fd)
    && e == (set i | 0 <= i < n :: fds[i].fd)
    && maxfd >= 0 && (forall i :: 0 <= i < n ==> fds[i].fd <= maxfd)
    && (maxfd == 0 || exists i :: 0 <= i < n && fds[i].fd == maxfd)
  }

  /** The loop before select.  A descriptor that no set can hold makes the macro
      write past the set. */
  method BuildSets(fds: array<PollFd>) returns (overrun: bool, maxfd: int, r: set<int>, w: set<int>, e: set<int>)
    ensures overrun <==> !InRange(fds[..])
    ensures !overrun ==> Built(fds[..], fds.Length, maxfd, r, w, e)
  {
    overrun, maxfd, r, w, e := false, 0, {}, {}, {};
    for i := 0 to fds.Length
      invariant !overrun && forall k :: 0 <= k < i ==> 0 <= fds[k].fd < FD_SETSIZE
      invariant Built(fds[..], i, maxfd, r, w, e)
    {
      BuiltStep(fds[..], i, maxfd, r, w, e);
      if !(0 <= fds[i].fd < FD_SETSIZE) {
        return true, maxfd, r, w, e;
      }
      if fds[i].fd > maxfd {
        maxfd := fds[i].fd;
      }
      if In in fds[i].events || Pri in fds[i].events {
        r := r + {fds[i].fd};
      }
      if Out in fds[i].events {
        w := w + {fds[i].fd};
      }
      e := e + {fds[i].fd};
    }
  }

  /** The loop after select. */
  method Report(fds: array<PollFd>, r: set<int>, w: set<int>, e: set<int>, ghost s: Selected)
    requires s.rOut == r && s.wOut == w && s.eOut == e
    modifies fds
    ensures forall i :: 0 <= i < fds.Length ==>
              fds[i] == old(fds[i]).(revents := Ready(old(fds[i]).fd, s))
  {
    for i := 0 to fds.Length
      invariant forall k :: 0 <= k < fds.Length ==>
                  fds[k] == if k < i then old(fds[k]).(revents := Ready(old(fds[k]).fd, s)) else old(fds[k])
    {
      var p := fds[i].(revents := {});
      if p.fd in r {
        p := p.(revents := p.revents + {In});
      }
      if p.fd in w {
        p := p.(revents := p.revents + {Out});
      }
      if p.fd in e {
        p := p.(revents := p.revents + {Err});
      }
      assert p.revents == Ready(p.fd, s);
      fds[i] := p;
    }
  }

  /** Each entry reports the result sets, asks stay as they are, and select was
      asked for just what they want, up to the largest descriptor; a negative
      descriptor, which poll is to ignore, and one beyond the sets overrun them. */
  method PollViaSelect(fds: array<PollFd>, timeout: int) returns (overrun: bool, ret: int, ghost s: Selected)
    modifies fds
    ensures overrun <==> !InRange(old(fds[..]))
    ensures overrun ==> fds[..] == old(fds[..])
    ensures !overrun ==> s.ret == ret && s.t == Timeout(timeout) && SelectContract(s)
    ensures !overrun ==> Built(old(fds[..]), fds.Length, s.nfds - 1, s.r, s.w, s.e)
    ensures !overrun && ret >= 0 ==> Answers(old(fds[..]), s)
    ensures !overrun ==> fds[..] == Reported(old(fds[..]), s) && AllShow(old(fds[..]), fds[..], s)
  {
    var t := Timeval(Quot(timeout, 1000), Rem(timeout, 1000) * 1000);
    var maxfd, rset, wset, eset;
    overrun, maxfd, rset, wset, eset := BuildSets(fds);
    if overrun {
      return true, 0, Selected(0, {}, {}, {}, t, 0, {}, {}, {});
    }
    var r, w, e;
    ret, r, w, e := Select(maxfd + 1, rset, wset, eset, t);
    s := Selected(maxfd + 1, rset, wset, eset, t, ret, r, w, e);
    Report(fds, r, w, e, s);
    assert fds[..] == Reported(old(fds[..]), s);
    ReportedBits(old(fds[..]), s);
  }

  /** Each entry shows its bits. */
  predicate AllShow(before: seq<PollFd>, after: seq<PollFd>, s: Selected) {
    |before| == |after| && forall i :: 0 <= i < |before| ==> Shows(before[i], after[i], s)
  }

  lemma ReportedBits(fds: seq<PollFd>, s: Selected)
    ensures AllShow(fds, Reported(fds, s), s)
  {
    forall i | 0 <= i < |fds|
      ensures Shows(fds[i], Reported(fds, s)[i], s)
    {
    }
  }

  lemma BuiltStep(fds: seq<PollFd>, n: nat, maxfd: int, r: set<int>, w: set<int>, e: set<int>)
    requires n < |fds| && Built(fds, n, maxfd, r, w, e)
    ensures var p := fds[n];
            Built(fds, n + 1, if p.fd > maxfd then p.fd else maxfd,
                  if Reads(p) then r + {p.fd} else r, if Out in p.events then w + {p.fd} else w, e + {p.fd})
  {
    assert fds[n].fd == fds[n].fd;
  }

  // ---- What the return value counts -------------------------------------------

  predicate Distinct(fds: seq<PollFd>) {
    forall i, j :: 0 <= i < j < |fds| ==> fds[i].fd != fds[j].fd
  }

  function CountIn(fds: seq<PollFd>, x: set<int>): nat {
    if fds == [] then 0 else (if fds[0].fd in x then 1 else 0) + CountIn(fds[1..], x)
  }

  function Fds(fds: seq<PollFd>): set<int> {
    if fds == [] then {} else {fds[0].fd} + Fds(fds[1..])
  }

  lemma {:induction false} InFds(fds: seq<PollFd>, i: nat)
    requires i < |fds|
    ensures fds[i].fd in Fds(fds)
  {
    if i > 0 {
      InFds(fds[1..], i - 1);
    }
  }

  lemma {:induction false} CountIsSize(fds: seq<PollFd>, x: set<int>)
    requires Distinct(fds) && x <= Fds(fds)
    ensures CountIn(fds, x) == |x|
  {
    if fds != [] {
      CountIsSize(fds[1..], x - {fds[0].fd});
      CountWithout(fds[1..], x, fds[0].fd);
    }
  }

  lemma {:induction false} CountWithout(fds: seq<PollFd>, x: set<int>, d: int)
    requires forall i :: 0 <= i < |fds| ==> fds[i].fd != d
    ensures CountIn(fds, x - {d}) == CountIn(fds, x)
  {
    if fds != [] {
      CountWithout(fds[1..], x, d);
    }
  }

  function TotalBits(fds: seq<PollFd>): nat {
    if fds == [] then 0 else |fds[0].revents| + TotalBits(fds[1..])
  }

  /** What poll is meant to return: the entries with something to report. */
  function ReadyEntries(fds: seq<PollFd>): nat {
    if fds == [] then 0 else (if fds[0].revents != {} then 1 else 0) + ReadyEntries(fds[1..])
  }

  lemma {:induction false} BitsAreCounts(fds: seq<PollFd>, s: Selected)
    requires forall i :: 0 <= i < |fds| ==> fds[i].revents == Ready(fds[i].fd, s)
    ensures TotalBits(fds) == CountIn(fds, s.rOut) + CountIn(fds, s.wOut) + CountIn(fds, s.eOut)
  {
    if fds != [] {
      BitsAreCounts(fds[1..], s);
      ReadySize(fds[0].fd, s);
    }
  }

  lemma ReadySize(fd: int, s: Selected)
    ensures |Ready(fd, s)| == (if fd in s.rOut then 1 else 0) + (if fd in s.wOut then 1 else 0)
                              + (if fd in s.eOut then 1 else 0)
  {
    var a, b, c := if fd in s.rOut then {In} else {}, if fd in s.wOut then {Out} else {}, if fd in s.eOut then {Err} else {};
    assert |a + b| == |a| + |b| && |a + b + c| == |a + b| + |c|;
  }

  lemma {:induction false} EntriesAtMostBits(fds: seq<PollFd>)
    ensures ReadyEntries(fds) <= TotalBits(fds)
    ensures ReadyEntries(fds) == TotalBits(fds) <==> forall i :: 0 <= i < |fds| ==> |fds[i].revents| <= 1
  {
    if fds != [] {
      EntriesAtMostBits(fds[1..]);
      assert fds[0].revents != {} ==> |fds[0].revents| >= 1;
      assert forall i :: 1 <= i < |fds| ==> fds[i] == fds[1..][i - 1];
    }
  }

  /** A successful answer of select to what fds ask for. */
  ghost predicate Answers(fds: seq<PollFd>, s: Selected) {
    SelectContract(s) && s.ret >= 0 && Built(fds, |fds|, s.nfds - 1, s.r, s.w, s.e)
  }

  /** The entries after the call. */
  function Reported(fds: seq<PollFd>, s: Selected): seq<PollFd> {
    seq(|fds|, i requires 0 <= i < |fds| => fds[i].(revents := Ready(fds[i].fd, s)))
  }

  /** On success the result counts the reported bits, which is the number of
      ready entries exactly when no entry reports two. */
  lemma ReturnValue(fds: seq<PollFd>, s: Selected)
    requires Distinct(fds) && Answers(fds, s)
    ensures s.ret == TotalBits(Reported(fds, s))
    ensures s.ret == ReadyEntries(Reported(fds, s)) <==> forall i :: 0 <= i < |fds| ==> |Ready(fds[i].fd, s)| <= 1
  {
    var after := Reported(fds, s);
    forall i | 0 <= i < |fds|
      ensures fds[i].fd in Fds(after)
    {
      InFds(after, i);
    }
    CountIsSize(after, s.rOut);
    CountIsSize(after, s.wOut);
    CountIsSize(after, s.eOut);
    BitsAreCounts(after, s);
    EntriesAtMostBits(after);
    assert forall i :: 0 <= i < |fds| ==> after[i].revents == Ready(fds[i].fd, s);
  }

  // ---- Requests for which it counts entries ----------------------------------------

  /** An entry that can report more than an error. */
  predicate AsksForData(p: PollFd) {
    Reads(p) || Out in p.events
  }

  lemma {:induction false} HasBuilt(fds: seq<PollFd>, n: nat) returns (maxfd: int, r: set<int>, w: set<int>, e: set<int>)
    requires n <= |fds|
    ensures Built(fds, n, maxfd, r, w, e)
  {
    if n == 0 {
      maxfd, r, w, e := 0, {}, {}, {};
    } else {
      maxfd, r, w, e := HasBuilt(fds, n - 1);
      BuiltStep(fds, n - 1, maxfd, r, w, e);
      var p := fds[n - 1];
      maxfd := if p.fd > maxfd then p.fd else maxfd;
      r, w, e := if Reads(p) then r + {p.fd} else r, if Out in p.events then w + {p.fd} else w, e + {p.fd};
    }
  }

  lemma InSets(fds: seq<PollFd>, i: nat, maxfd: int, r: set<int>, w: set<int>, e: set<int>)
    requires i < |fds| && Built(fds, |fds|, maxfd, r, w, e)
    ensures fds[i].fd in e && (Reads(fds[i]) ==> fds[i].fd in r) && (Out in fds[i].events ==> fds[i].fd in w)
  {
  }

  /** Select may answer that a descriptor is ready and in an exceptional state:
      then one entry counts twice. */
  lemma CountsTwice(fds: seq<PollFd>, i: nat, t: Timeval) returns (s: Selected)
    requires Distinct(fds) && i < |fds| && AsksForData(fds[i])
    ensures Answers(fds, s) && s.t == t && s.ret == 2
    ensures s.ret != ReadyEntries(Reported(fds, s))
  {
    var maxfd, r, w, e := HasBuilt(fds, |fds|);
    InSets(fds, i, maxfd, r, w, e);
    var d := fds[i].fd;
    s := Selected(maxfd + 1, r, w, e, t, 2,
                  if Reads(fds[i]) then {d} else {}, if Reads(fds[i]) then {} else {d}, {d});
    ReadySize(d, s);
    ReturnValue(fds, s);
  }

  lemma CountsOnce(fds: seq<PollFd>, s: Selected)
    requires Distinct(fds) && Answers(fds, s)
    requires forall i :: 0 <= i < |fds| ==> !AsksForData(fds[i])
    ensures s.ret == ReadyEntries(Reported(fds, s))
  {
    ReturnValue(fds, s);
    forall i | 0 <= i < |fds|
      ensures |Ready(fds[i].fd, s)| <= 1
    {
      assert fds[i].fd !in s.r && fds[i].fd !in s.w;
      ReadySize(fds[i].fd, s);
    }
  }

  lemma {:induction false} AtLeastOne(fds: seq<PollFd>, i: nat)
    requires i < |fds| && fds[i].revents != {}
    ensures ReadyEntries(fds) >= 1
  {
    if i > 0 {
      AtLeastOne(fds[1..], i - 1);
    }
  }

  lemma {:induction false} AtLeastTwo(fds: seq<PollFd>, i: nat, j: nat)
    requires i < j < |fds| && fds[i].revents != {} && fds[j].revents != {}
    ensures ReadyEntries(fds) >= 2
  {
    if i == 0 {
      AtLeastOne(fds[1..], j - 1);
    } else {
      AtLeastTwo(fds[1..], i - 1, j - 1);
    }
  }

  /** Two entries on one descriptor count once when it is in an exceptional
      state. */
  lemma SharedCountsOnce(fds: seq<PollFd>, i: nat, j: nat, t: Timeval) returns (s: Selected)
    requires i < j < |fds| && fds[i].fd == fds[j].fd
    ensures Answers(fds, s) && s.t == t && s.ret == 1
    ensures s.ret != ReadyEntries(Reported(fds, s))
  {
    var maxfd, r, w, e := HasBuilt(fds, |fds|);
    InSets(fds, i, maxfd, r, w, e);
    s := Selected(maxfd + 1, r, w, e, t, 1, {}, {}, {fds[i].fd});
    assert Err in Ready(fds[i].fd, s);
    AtLeastTwo(Reported(fds, s), i, j);
  }

  /** The result is the number of ready entries for every answer of select
      exactly when no two entries share a descriptor and none asks for data. */
  lemma CountsEntriesExact(fds: seq<PollFd>)
    ensures (forall s :: Answers(fds, s) ==> s.ret == ReadyEntries(Reported(fds, s)))
            <==> Distinct(fds) && forall i :: 0 <= i < |fds| ==> !AsksForData(fds[i])
  {
    if !Distinct(fds) {
      var i, j :| 0 <= i < j < |fds| && fds[i].fd == fds[j].fd;
      var s := SharedCountsOnce(fds, i, j, Timeval(0, 0));
      assert Answers(fds, s);
    } else if i :| 0 <= i < |fds| && AsksForData(fds[i]) {
      var s := CountsTwice(fds, i, Timeval(0, 0));
      assert Answers(fds, s);
    } else {
      forall s | Answers(fds, s)
        ensures s.ret == ReadyEntries(Reported(fds, s))
      {
        CountsOnce(fds, s);
      }
    }
  }
}
