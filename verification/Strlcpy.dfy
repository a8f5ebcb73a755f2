/** strlcpy on two separate buffers. */
module Strlcpy {
  import opened Wrappers

  const NUL: char := '\0'

  /** The number of characters before the first NUL. */
  function StrLen(s: seq<char>): nat
    requires NUL in s
  {
    if s[0] == NUL then 0 else 1 + StrLen(s[1..])
  }

  lemma {:induction false} StrLenIsFirst(s: seq<char>, k: nat)
    requires k < |s| && s[k] == NUL && forall i :: 0 <= i < k ==> s[i] != NUL
    ensures StrLen(s) == k
  {
    if k > 0 {
      StrLenIsFirst(s[1..], k - 1);
    }
  }

  /** Returns the length of src; writes as much of it as fits in siz - 1
      characters and a NUL, or nothing if siz is 0. */
  method StrlCpy(dst: array<char>, src: array<char>, siz: nat) returns (len: nat)
    requires dst != src && siz <= dst.Length && NUL in src[..]
    modifies dst
    ensures len == StrLen(src[..]) < src.Length
    ensures siz == 0 ==> dst[..] == old(dst[..])
    ensures siz > 0 ==>
              var copied := Min(len, siz - 1);
              && (forall i :: 0 <= i < copied ==> dst[i] == src[i] && src[i] != NUL) && dst[copied] == NUL
              && (forall i :: copied < i < dst.Length ==> dst[i] == old(dst[i]))
  {
    ghost var end: nat :| end < src.Length && src[end] == NUL;
    var d, s, n: int := 0, 0, siz;
    var done := false;
    if n != 0 {
      n := n - 1;
      while n != 0 && !done
        invariant 0 <= n && n == siz - 1 - (if done then d - 1 else d) && d == s
        invariant if done then 1 <= s <= src.Length && src[s - 1] == NUL && n > 0 else s <= end
        invariant forall i :: 0 <= i < (if done then s - 1 else s) ==> src[i] != NUL && dst[i] == src[i]
        invariant done ==> dst[s - 1] == NUL
        invariant forall i :: d <= i < dst.Length ==> dst[i] == old(dst[i])
        decreases n, !done
      {
        dst[d] := src[s];
        d, s := d + 1, s + 1;
        if dst[d - 1] == NUL {
          done := true;
        } else {
          n := n - 1;
        }
      }
    }
    if n == 0 {
      if siz != 0 {
        dst[d] := NUL;
      }
      while src[s] != NUL
        invariant s <= end && forall i :: 0 <= i < s ==> src[i] != NUL
        decreases end - s
      {
        s := s + 1;
      }
      s := s + 1;
    }
    StrLenIsFirst(src[..], s - 1);
    return s - 1;
  }
}
