/** setjmp and longjmp for 32-bit x86, with mangled registers, a checksum over
    them and a cookie; here one thread at a time asks for the cookie. */
module SetJmp {
  import opened Bits

  /** Machine words; exclusive or keeps 32-bit words below 2^32. */
  type Word = nat

  /** The last even word up to w. */
  function ClearFlag(w: Word): (c: Word)
    ensures c % 2 == 0 && c <= w <= c + 1
  {
    w - w % 2
  }

  /** w or-ed with a flag of 0 or 1. */
  function OrFlag(w: Word, flag: Word): (r: Word)
    ensures w % 2 == 0 && flag <= 1 ==> r == w + flag
  {
    if flag == 1 then ClearFlag(w) + 1 else w
  }

  /** The stack pointer after one word is taken off, modulo 2^32. */
  function Popped(esp: Word): (r: Word)
    ensures esp < 0x1_0000_0000 ==> r == (esp + 4) % 0x1_0000_0000
  {
    if esp + 4 < 0x1_0000_0000 then esp + 4 else esp + 4 - 0x1_0000_0000
  }

  // ---- The cookie -----------------------------------------------------------

  function Drawn(cookie: Word, random: Word): Word {
    if cookie == 0 then ClearFlag(random) else cookie
  }

  predicate Passes(cookie: Word, word: Word) {
    cookie == ClearFlag(word)
  }

  class Cookie {
    var value: Word

    predicate Valid()
      reads this
    {
      value % 2 == 0
    }

    constructor ()
      ensures Valid() && value == 0
    {
      value := 0;
    }

    /** The first use draws the cookie; random is what arc4random would give.
        Any flag but 0 and 1 aborts. */
    method Get(sigflag: Word, random: Word) returns (word: Word, aborted: bool)
      requires Valid()
      modifies this
      ensures Valid() && value == Drawn(old(value), random)
      ensures aborted == (sigflag > 1)
      ensures !aborted ==> word == value + sigflag && Passes(value, word)
    {
      if value == 0 {
        value := ClearFlag(random);
      }
      aborted := ClearFlag(sigflag) != 0;
      word := OrFlag(value, sigflag);
    }

    method Check(word: Word) returns (flag: Word, aborted: bool)
      ensures aborted == !Passes(value, word) && flag == word % 2
    {
      aborted := value != ClearFlag(word);
      flag := word % 2;
    }
  }

  /** The cookie after setjmp calls that would draw the given numbers. */
  function CookieAfter(cookie: Word, draws: seq<Word>): Word
    decreases |draws|
  {
    if draws == [] then cookie else CookieAfter(Drawn(cookie, draws[0]), draws[1..])
  }

  lemma {:induction false} CookieRun(cookie: Word, draws: seq<Word>)
    requires cookie % 2 == 0
    ensures CookieAfter(cookie, draws) % 2 == 0
    ensures cookie != 0 ==> CookieAfter(cookie, draws) == cookie
    decreases |draws|
  {
    if draws != [] {
      CookieRun(Drawn(cookie, draws[0]), draws[1..]);
    }
  }

  /** A word saved by one setjmp passes the check after any further setjmps
      exactly when its cookie is not 0 or the cookie still is. */
  lemma SavedWordPasses(before: seq<Word>, flag: Word, later: seq<Word>)
    requires flag <= 1
    ensures var cookie := CookieAfter(0, before);
            var word := OrFlag(cookie, flag);
            && (Passes(CookieAfter(cookie, later), word) <==> cookie != 0 || CookieAfter(cookie, later) == 0)
            && word % 2 == flag
  {
    CookieRun(0, before);
    CookieRun(CookieAfter(0, before), later);
  }

  /** Only a last draw of 0 or 1 can leave the cookie 0. */
  lemma {:induction false} CookieIsZero(draws: seq<Word>)
    ensures CookieAfter(0, draws) == 0 <==> forall i :: 0 <= i < |draws| ==> draws[i] < 2
    decreases |draws|
  {
    if draws != [] {
      if draws[0] < 2 {
        CookieIsZero(draws[1..]);
        assert forall i :: 1 <= i < |draws| ==> draws[i] == draws[1..][i - 1];
      } else {
        CookieRun(Drawn(0, draws[0]), draws[1..]);
      }
    }
  }

  /** After a first draw of 1, the second setjmp spoils the buffer of the first. */
  lemma ZeroCookieBreaks()
    ensures var cookie := CookieAfter(0, [1]);
            !Passes(CookieAfter(cookie, [2]), OrFlag(cookie, 0))
  {
    assert CookieAfter(0, [1]) == CookieAfter(Drawn(0, 1), []);
    assert CookieAfter(0, [2]) == CookieAfter(Drawn(0, 2), []);
  }

  // ---- The buffer -----------------------------------------------------------

  /** Words 0 to 5 the mangled registers, 6 the signal mask, 8 cookie and
      flag, 9 the checksum. */
  type JmpBuf = b: seq<Word> | |b| == 10 witness [0, 0, 0, 0, 0, 0, 0, 0, 0, 0]

  /** The return address and the registers a callee must keep. */
  datatype Regs = Regs(ret: Word, ebx: Word, esp: Word, ebp: Word, esi: Word, edi: Word)

  /** What the host takes the number 2 for that both calls give sigprocmask. */
  datatype Two = SetMask | Unblock

  /** The mask after sigprocmask with 2 and a mask; without one it only asks. */
  function NewMask(two: Two, now: Word, given: Word): Word {
    if two.SetMask? then given else AndNot(now, given)
  }

  /** A saved mask comes back, whatever the mask is by then, exactly on a host
      where 2 sets it. */
  lemma MaskComesBackExact(two: Two)
    ensures (forall now, saved :: NewMask(two, now, saved) == saved) <==> two.SetMask?
  {
    if two.Unblock? {
      AndNotSelf(1, 0);
      assert NewMask(two, 1, 0) != 0;
    }
  }

  /** Where it unblocks, the signals of the saved mask end up unblocked and no
      other changes; so the mask comes back exactly when both masks are empty. */
  lemma UnblockExact(now: Word, saved: Word, signal: nat)
    ensures Bit(NewMask(Unblock, now, saved), signal) <==> Bit(now, signal) && !Bit(saved, signal)
    ensures NewMask(Unblock, now, saved) == saved <==> now == 0 && saved == 0
  {
    AndNotBit(now, saved, signal);
    AndNotSelf(now, saved);
  }

  /** A signal blocked at the setjmp and at the jump is let through after it. */
  lemma BlockedSignalLetThrough()
    ensures NewMask(Unblock, 1, 1) == 0
  {
  }

  /** The exclusive or of the first n words. */
  function Sum(b: seq<Word>, n: nat): Word
    requires n <= |b|
  {
    if n == 0 then 0 else BitXor(Sum(b, n - 1), b[n - 1])
  }

  predicate SumOk(b: JmpBuf) {
    Sum(b, 6) == b[9]
  }

  /** An untouched buffer of a setjmp that saved r and mask under word. */
  predicate SavedIn(b: JmpBuf, r: Regs, word: Word, mask: Word) {
    var c := ClearFlag(word);
    && b[8] == word && SumOk(b)
    && b[0] == BitXor(r.ret, c) && b[1] == BitXor(r.ebx, c) && b[2] == BitXor(r.esp, c)
    && b[3] == BitXor(r.ebp, c) && b[4] == BitXor(r.esi, c) && b[5] == BitXor(r.edi, c)
    && (word % 2 == 1 ==> b[6] == mask)
  }

  /** The exclusive or of what changed in the first n words. */
  function Changes(a: seq<Word>, b: seq<Word>, n: nat): Word
    requires n <= |a| && n <= |b|
  {
    if n == 0 then 0 else BitXor(Changes(a, b, n - 1), BitXor(a[n - 1], b[n - 1]))
  }

  lemma {:induction false} ChangesAreSums(a: seq<Word>, b: seq<Word>, n: nat)
    requires n <= |a| && n <= |b|
    ensures Changes(a, b, n) == BitXor(Sum(a, n), Sum(b, n))
  {
    if n > 0 {
      ChangesAreSums(a, b, n - 1);
      XorSwap(Sum(a, n - 1), Sum(b, n - 1), a[n - 1], b[n - 1]);
    }
  }

  /** The checksum takes a changed buffer exactly when the changes to its
      registers cancel. */
  lemma ChecksumExact(a: JmpBuf, b: JmpBuf)
    requires SumOk(a) && b[9] == a[9]
    ensures SumOk(b) <==> Changes(a, b, 6) == 0
  {
    ChangesAreSums(a, b, 6);
    XorEqual(Sum(a, 6), Sum(b, 6));
  }

  lemma {:induction false} OneChange(a: seq<Word>, i: nat, w: Word, n: nat)
    requires i < |a| && n <= |a|
    ensures Changes(a, a[i := w], n) == if i < n then BitXor(a[i], w) else 0
  {
    if n > 0 {
      OneChange(a, i, w, n - 1);
      XorZero(a[n - 1]);
      XorZero(BitXor(a[i], w));
    }
  }

  /** So it never takes a change to just one register word. */
  lemma OneRegisterChanged(a: JmpBuf, i: nat, w: Word)
    requires SumOk(a) && i < 6 && w != a[i]
    ensures !SumOk(a[i := w])
  {
    ChecksumExact(a, a[i := w]);
    OneChange(a, i, w, 6);
    XorEqual(a[i], w);
  }

  // ---- The machine ----------------------------------------------------------

  class Machine {
    var eax: Word
    var ebx: Word
    var ecx: Word
    var edx: Word
    var esp: Word
    var ebp: Word
    var esi: Word
    var edi: Word
    var eip: Word
    var stack: map<Word, Word>
    var mask: Word
    const two: Two

    constructor (two: Two) {
      eax, ebx, ecx, edx, esp, ebp, esi, edi, eip := 0, 0, 0, 0, 0, 0, 0, 0, 0;
      stack := map[];
      mask := 0;
      this.two := two;
    }

    function Top(): Word
      reads this
    {
      if esp in stack then stack[esp] else 0
    }

    /** The registers a function finds when it is called. */
    function Caller(): Regs
      reads this
    {
      Regs(Top(), ebx, esp, ebp, esi, edi)
    }

    /** Anything the program does to the machine between the two calls. */
    method Clobber()
      modifies this
    {
      eax, ebx, ecx, edx, esp, ebp, esi, edi, eip := *, *, *, *, *, *, *, *, *;
      stack := *;
      mask := *;
    }

    method Return()
      modifies this`eip, this`esp
      ensures eip == old(Top()) && esp == Popped(old(esp))
    {
      eip := Top();
      esp := Popped(esp);
    }

    method Mangle(key: Word)
      modifies this`edx, this`ebx, this`esp, this`ebp, this`esi, this`edi
      ensures edx == BitXor(old(edx), key)
      ensures ebx == BitXor(old(ebx), key) && esp == BitXor(old(esp), key) && ebp == BitXor(old(ebp), key)
      ensures esi == BitXor(old(esi), key) && edi == BitXor(old(edi), key)
    {
      edx := BitXor(edx, key);
      ebx := BitXor(ebx, key);
      esp := BitXor(esp, key);
      ebp := BitXor(ebp, key);
      esi := BitXor(esi, key);
      edi := BitXor(edi, key);
    }

    method CalculateChecksum(buf: array<Word>)
      requires buf.Length == 10
      modifies this`eax
      ensures eax == Sum(buf[..], 6)
    {
      eax := 0;
      for i := 0 to 6
        invariant eax == Sum(buf[..], i)
      {
        eax := BitXor(eax, buf[i]);
      }
    }

    /** Stores the mangled registers and takes the mangling off again. */
    method SaveRegisters(buf: array<Word>, key: Word)
      requires buf.Length == 10
      modifies this`edx, this`ebx, this`esp, this`ebp, this`esi, this`edi, buf
      ensures ebx == old(ebx) && esp == old(esp) && ebp == old(ebp) && esi == old(esi) && edi == old(edi)
      ensures buf[0] == BitXor(old(edx), key)
      ensures buf[1] == BitXor(ebx, key) && buf[2] == BitXor(esp, key) && buf[3] == BitXor(ebp, key)
      ensures buf[4] == BitXor(esi, key) && buf[5] == BitXor(edi, key)
      ensures forall i :: 6 <= i < 10 ==> buf[i] == old(buf[i])
    {
      XorCancel(ebx, key);
      XorCancel(esp, key);
      XorCancel(ebp, key);
      XorCancel(esi, key);
      XorCancel(edi, key);
      Mangle(key);
      buf[0] := edx;
      buf[1] := ebx;
      buf[2] := esp;
      buf[3] := ebp;
      buf[4] := esi;
      buf[5] := edi;
      Mangle(key);
    }

    /** Fills the core of a buffer whose cookie word and mask are in place. */
    method SaveAndSum(buf: array<Word>)
      requires buf.Length == 10
      modifies this`eax, this`edx, this`ebx, this`esp, this`ebp, this`esi, this`edi, buf
      ensures Caller() == old(Caller())
      ensures SavedIn(buf[..], Caller(), old(buf[8]), old(buf[6]))
    {
      eax := ClearFlag(buf[8]);
      edx := Top();
      SaveRegisters(buf, eax);
      CalculateChecksum(buf);
      SameSum(buf[..], buf[..][9 := eax], 6);
      buf[9] := eax;
    }

    /** Saves the caller's registers and returns 0 to it. */
    method SigSetjmp(buf: array<Word>, save: Word, cookie: Cookie, random: Word) returns (aborted: bool)
      requires buf.Length == 10 && cookie.Valid()
      modifies this, buf, cookie
      ensures cookie.Valid() && cookie.value == Drawn(old(cookie.value), random)
      ensures aborted == (save > 1)
      ensures !aborted ==> SavedIn(buf[..], old(Caller()), OrFlag(cookie.value, save), old(mask))
      ensures !aborted ==> eax == 0 && eip == old(Top()) && esp == Popped(old(esp))
      ensures !aborted ==> ebx == old(ebx) && ebp == old(ebp) && esi == old(esi) && edi == old(edi)
      ensures mask == old(mask) && stack == old(stack)
    {
      eax, aborted := cookie.Get(save, random);
      if aborted {
        return;
      }
      buf[8] := eax;
      if eax % 2 != 0 {
        buf[6] := mask;
      }
      SaveAndSum(buf);
      eax := 0;
      Return();
    }

    /** Each register is the key mangled with its word. */
    method RestoreRegisters(buf: array<Word>)
      requires buf.Length == 10
      modifies this`ecx, this`ebx, this`esp, this`ebp, this`esi, this`edi
      ensures forall r, m {:trigger SavedIn(buf[..], r, buf[8], m)} :: SavedIn(buf[..], r, buf[8], m) ==>
                ecx == r.ret && ebx == r.ebx && esp == r.esp && ebp == r.ebp && esi == r.esi && edi == r.edi
    {
      var key := ClearFlag(buf[8]);
      ecx := key;
      ebx, esp, ebp, esi, edi := ecx, ecx, ecx, ecx, ecx;
      ecx := BitXor(ecx, buf[0]);
      ebx := BitXor(ebx, buf[1]);
      esp := BitXor(esp, buf[2]);
      ebp := BitXor(ebp, buf[3]);
      esi := BitXor(esi, buf[4]);
      edi := BitXor(edi, buf[5]);
      forall r, m | SavedIn(buf[..], r, buf[8], m)
        ensures ecx == r.ret && ebx == r.ebx && esp == r.esp && ebp == r.ebp && esi == r.esi && edi == r.edi
      {
        Unmangle(r.ret, key);
        Unmangle(r.ebx, key);
        Unmangle(r.esp, key);
        Unmangle(r.ebp, key);
        Unmangle(r.esi, key);
        Unmangle(r.edi, key);
      }
    }

    /** The second half of a jump: registers, cookie, value and return address. */
    method Resume(buf: array<Word>, val: Word, cookie: Cookie) returns (aborted: bool)
      requires buf.Length == 10
      modifies this`eax, this`ebx, this`ecx, this`esp, this`ebp, this`esi, this`edi, this`eip, this`stack
      ensures aborted == !Passes(cookie.value, buf[8])
      ensures forall r, m {:trigger SavedIn(buf[..], r, buf[8], m)} :: !aborted && SavedIn(buf[..], r, buf[8], m) ==>
                Resumes(r) && stack == old(stack)[r.esp := r.ret]
      ensures !aborted ==> eax == if val == 0 then 1 else val
    {
      eax := val;
      RestoreRegisters(buf);
      var flag;
      flag, aborted := cookie.Check(buf[8]);
      if aborted {
        return;
      }
      if eax == 0 {
        eax := eax + 1;
      }
      stack := stack[esp := ecx];
      Return();
    }

    /** Checks the buffer, hands its mask to the host, restores the registers in
        it and returns to where its setjmp returned, with a value that is never
        0. */
    method SigLongjmp(buf: array<Word>, val: Word, cookie: Cookie) returns (aborted: bool)
      requires buf.Length == 10
      modifies this
      ensures aborted == (!SumOk(buf[..]) || !Passes(cookie.value, buf[8]))
      ensures !aborted ==> mask == if buf[8] % 2 == 1 then NewMask(two, old(mask), buf[6]) else old(mask)
      ensures forall r, m {:trigger SavedIn(buf[..], r, buf[8], m)} :: !aborted && SavedIn(buf[..], r, buf[8], m) ==>
                && Resumes(r) && (buf[8] % 2 == 1 ==> m == buf[6]) && stack == old(stack)[r.esp := r.ret]
      ensures !aborted ==> eax == if val == 0 then 1 else val
    {
      CalculateChecksum(buf);
      XorEqual(eax, buf[9]);
      eax := BitXor(eax, buf[9]);
      if eax != 0 {
        return true;
      }
      eax := buf[8];
      if eax % 2 != 0 {
        mask := NewMask(two, mask, buf[6]);
      }
      aborted := Resume(buf, val, cookie);
    }

    /** Control is back where r was the caller, its return address popped. */
    predicate Resumes(r: Regs)
      reads this
    {
      && eip == r.ret && esp == Popped(r.esp)
      && ebx == r.ebx && ebp == r.ebp && esi == r.esi && edi == r.edi
    }
  }

  lemma Unmangle(x: Word, key: Word)
    ensures BitXor(key, BitXor(x, key)) == x
  {
    XorCancel(x, key);
    XorSymmetric(key, BitXor(x, key));
  }

  lemma {:induction false} SameSum(a: seq<Word>, b: seq<Word>, n: nat)
    requires n <= |a| && n <= |b| && forall i :: 0 <= i < n ==> a[i] == b[i]
    ensures Sum(a, n) == Sum(b, n)
  {
    if n > 0 {
      SameSum(a, b, n - 1);
    }
  }

  /** Whatever the program does before it jumps, further setjmps included; draws
      are what they would draw. */
  method RunOn(m: Machine, other: array<Word>, cookie: Cookie, draws: seq<Word>)
    requires other.Length == 10 && cookie.Valid()
    modifies m, other, cookie
    ensures cookie.Valid() && cookie.value == CookieAfter(old(cookie.value), draws)
  {
    for i := 0 to |draws|
      invariant cookie.Valid() && CookieAfter(cookie.value, draws[i..]) == CookieAfter(old(cookie.value), draws)
    {
      assert draws[i..][1..] == draws[i + 1..];
      m.Clobber();
      var aborted := m.SigSetjmp(other, 0, cookie, draws[i]);
    }
    m.Clobber();
  }

  lemma StillPasses(cookie: Word, word: Word, draws: seq<Word>)
    requires cookie % 2 == 0 && Passes(cookie, word)
    ensures Passes(CookieAfter(cookie, draws), word) <==> cookie != 0 || CookieAfter(cookie, draws) == 0
  {
    CookieRun(cookie, draws);
  }

  /** A jump to an untouched buffer restores exactly what its setjmp saved,
      whatever ran in between; it aborts exactly when the cookie was 0 and a
      further setjmp has drawn one.  What happens to now, the mask by then, is
      the host's reading of the call. */
  method SetThenJump(m: Machine, buf: array<Word>, save: Word, cookie: Cookie, random: Word,
                     other: array<Word>, draws: seq<Word>, val: Word)
    returns (aborted: bool, ghost saved: Regs, ghost mask: Word, ghost now: Word)
    requires buf.Length == 10 && other.Length == 10 && other != buf && cookie.Valid() && save <= 1
    modifies m, buf, other, cookie
    ensures saved == old(m.Caller()) && mask == old(m.mask)
    ensures var drawn := Drawn(old(cookie.value), random);
            aborted <==> drawn == 0 && CookieAfter(drawn, draws) != 0
    ensures !aborted ==> m.Resumes(saved) && m.mask == if save == 1 then NewMask(m.two, now, mask) else now
    ensures !aborted ==> m.eax == if val == 0 then 1 else val
  {
    saved, mask := m.Caller(), m.mask;
    aborted := m.SigSetjmp(buf, save, cookie, random);
    ghost var b := buf[..];
    StillPasses(cookie.value, b[8], draws);
    RunOn(m, other, cookie, draws);
    now := m.mask;
    assert buf[..] == b;
    assert SavedIn(buf[..], saved, buf[8], mask);
    aborted := m.SigLongjmp(buf, val, cookie);
  }

  /** With words of n bits nothing stored has more. */
  lemma SavedFits(b: JmpBuf, r: Regs, word: Word, mask: Word, n: nat)
    requires SavedIn(b, r, word, mask) && word < Pow2(n)
    requires r.ret < Pow2(n) && r.ebx < Pow2(n) && r.esp < Pow2(n)
    requires r.ebp < Pow2(n) && r.esi < Pow2(n) && r.edi < Pow2(n)
    ensures forall i :: 0 <= i < 6 ==> b[i] < Pow2(n)
    ensures b[8] < Pow2(n) && b[9] < Pow2(n)
  {
    var key := ClearFlag(word);
    MangledFits(r.ret, key, n, b[0]);
    MangledFits(r.ebx, key, n, b[1]);
    MangledFits(r.esp, key, n, b[2]);
    MangledFits(r.ebp, key, n, b[3]);
    MangledFits(r.esi, key, n, b[4]);
    MangledFits(r.edi, key, n, b[5]);
    SumFits(b, 6, n);
  }

  lemma MangledFits(x: Word, key: Word, n: nat, stored: Word)
    requires x < Pow2(n) && key < Pow2(n) && stored == BitXor(x, key)
    ensures stored < Pow2(n)
  {
    XorBelow(x, key, n);
  }

  lemma {:induction false} SumFits(b: seq<Word>, k: nat, n: nat)
    requires k <= |b| && forall i :: 0 <= i < k ==> b[i] < Pow2(n)
    ensures Sum(b, k) < Pow2(n)
  {
    if k > 0 {
      SumFits(b, k - 1, n);
      XorBelow(Sum(b, k - 1), b[k - 1], n);
    }
  }
}
