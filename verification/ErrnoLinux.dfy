/** Linux's own errno numbers, which are the guest's: there both translations change
    nothing. */
module ErrnoLinux {
  import opened ErrnoMirror
  import opened ErrnoTable
  import opened Wrappers

  // ---- The numbers, from asm-generic/errno-base.h and asm-generic/errno.h -------------

  /** From 1 on. */
  const BASE: seq<BaseName> := [
    EPERM, ENOENT, ESRCH, EINTR, EIO, ENXIO, E2BIG, ENOEXEC, EBADF, ECHILD, EAGAIN, ENOMEM, EACCES,
    EFAULT, ENOTBLK, EBUSY, EEXIST, EXDEV, ENODEV, ENOTDIR, EISDIR, EINVAL, ENFILE, EMFILE, ENOTTY,
    ETXTBSY, EFBIG, ENOSPC, ESPIPE, EROFS, EMLINK, EPIPE, EDOM, ERANGE
  ]

  /** From 35 on. */
  const SYSTEM: seq<SystemName> := [
    EDEADLK, ENAMETOOLONG, ENOLCK, ENOSYS, ENOTEMPTY, ELOOP
  ]

  /** From 42 on. */
  const MESSAGE: seq<SystemName> := [
    ENOMSG, EIDRM, ECHRNG, EL2NSYNC, EL3HLT, EL3RST, ELNRNG, EUNATCH, ENOCSI, EL2HLT, EBADE, EBADR,
    EXFULL, ENOANO, EBADRQC, EBADSLT
  ]

  /** From 59 on. */
  const FONT: seq<SystemName> := [
    EBFONT
  ]

  /** From 60 on. */
  const STREAM: seq<StreamName> := [
    ENOSTR, ENODATA, ETIME, ENOSR, ENONET, ENOPKG, EREMOTE, ENOLINK, EADV, ESRMNT, ECOMM, EPROTO,
    EMULTIHOP, EDOTDOT, EBADMSG, EOVERFLOW, ENOTUNIQ, EBADFD, EREMCHG, ELIBACC, ELIBBAD, ELIBSCN,
    ELIBMAX, ELIBEXEC, EILSEQ, ERESTART, ESTRPIPE
  ]

  /** From 87 on. */
  const NETWORK: seq<NetworkName> := [
    EUSERS, ENOTSOCK, EDESTADDRREQ, EMSGSIZE, EPROTOTYPE, ENOPROTOOPT, EPROTONOSUPPORT,
    ESOCKTNOSUPPORT, EOPNOTSUPP, EPFNOSUPPORT, EAFNOSUPPORT, EADDRINUSE, EADDRNOTAVAIL, ENETDOWN,
    ENETUNREACH, ENETRESET, ECONNABORTED, ECONNRESET, ENOBUFS, EISCONN, ENOTCONN, ESHUTDOWN,
    ETOOMANYREFS, ETIMEDOUT, ECONNREFUSED, EHOSTDOWN, EHOSTUNREACH, EALREADY, EINPROGRESS, ESTALE
  ]

  /** From 117 on. */
  const LATE: seq<LateName> := [
    EUCLEAN, ENOTNAM, ENAVAIL, EISNAM, EREMOTEIO, EDQUOT, ENOMEDIUM, EMEDIUMTYPE, ECANCELED, ENOKEY,
    EKEYEXPIRED, EKEYREVOKED, EKEYREJECTED, EOWNERDEAD, ENOTRECOVERABLE
  ]

  lemma BaseListed(code: int)
    requires 1 <= code <= 34
    ensures BaseAt(code, true) == Some(BASE[code - 1])
  {
  }

  lemma SystemListed(code: int)
    requires 35 <= code <= 40
    ensures SystemAt(code, true) == Some(SYSTEM[code - 35])
  {
  }

  lemma MessageListed(code: int)
    requires 42 <= code <= 57
    ensures SystemAt(code, true) == Some(MESSAGE[code - 42])
  {
  }

  lemma FontListed(code: int)
    requires 59 <= code <= 59
    ensures SystemAt(code, true) == Some(FONT[code - 59])
  {
  }

  lemma StreamListed(code: int)
    requires 60 <= code <= 86
    ensures StreamAt(code, true) == Some(STREAM[code - 60])
  {
  }

  lemma NetworkListed(code: int)
    requires 87 <= code <= 116
    ensures NetworkAt(code, true) == Some(NETWORK[code - 87])
  {
  }

  lemma LateListed(code: int)
    requires 117 <= code <= 131
    ensures LateAt(code, true) == Some(LATE[code - 117])
  {
  }

  /** The host numbers its constants as Linux does. */
  ghost predicate LinuxNumbers(n: Numbering) {
    && n.linux
    && (forall k :: 0 <= k < |BASE| ==> n.number(Base(BASE[k])) == k + 1)
    && (forall k :: 0 <= k < |SYSTEM| ==> n.number(System(SYSTEM[k])) == k + 35)
    && (forall k :: 0 <= k < |MESSAGE| ==> n.number(System(MESSAGE[k])) == k + 42)
    && (forall k :: 0 <= k < |FONT| ==> n.number(System(FONT[k])) == k + 59)
    && (forall k :: 0 <= k < |STREAM| ==> n.number(Stream(STREAM[k])) == k + 60)
    && (forall k :: 0 <= k < |NETWORK| ==> n.number(Network(NETWORK[k])) == k + 87)
    && (forall k :: 0 <= k < |LATE| ==> n.number(Late(LATE[k])) == k + 117)
  }

  lemma SameNumber(n: Numbering, name: Name, code: int)
    requires LinuxNumbers(n) && NameOf(code, true) == Some(name)
    ensures n.number(name) == code
  {
    TablesAgree(name, code, true);
    match name
    case Base(x) => BaseNumber(n, x, code);
    case System(x) => SystemNumber(n, x, code);
    case Stream(x) => StreamNumber(n, x, code);
    case Network(x) => NetworkNumber(n, x, code);
    case Late(x) => LateNumber(n, x, code);
  }

  lemma BaseNumber(n: Numbering, x: BaseName, code: int)
    requires LinuxNumbers(n) && BaseAt(code, true) == Some(x)
    ensures n.number(Base(x)) == code
  {
    BaseAgrees(x, code, true);
    BaseListed(code);
  }

  lemma SystemNumber(n: Numbering, x: SystemName, code: int)
    requires LinuxNumbers(n) && SystemAt(code, true) == Some(x)
    ensures n.number(System(x)) == code
  {
    SystemAgrees(x, code, true);
    if code <= 40 {
      SystemListed(code);
    } else if 42 <= code <= 57 {
      MessageListed(code);
    } else if code == 59 {
      FontListed(code);
    }
  }

  lemma StreamNumber(n: Numbering, x: StreamName, code: int)
    requires LinuxNumbers(n) && StreamAt(code, true) == Some(x)
    ensures n.number(Stream(x)) == code
  {
    StreamAgrees(x, code, true);
    StreamListed(code);
  }

  lemma NetworkNumber(n: Numbering, x: NetworkName, code: int)
    requires LinuxNumbers(n) && NetworkAt(code, true) == Some(x)
    ensures n.number(Network(x)) == code
  {
    NetworkAgrees(x, code, true);
    NetworkListed(code);
  }

  lemma LateNumber(n: Numbering, x: LateName, code: int)
    requires LinuxNumbers(n) && LateAt(code, true) == Some(x)
    ensures n.number(Late(x)) == code
  {
    LateAgrees(x, code, true);
    LateListed(code);
  }

  /** On such a host a guest number and its host number are one, tabled or not. */
  lemma LinuxIdentity(n: Numbering, e: int)
    requires LinuxNumbers(n)
    ensures n.Distinct() && n.ToHost(e) == e && n.FromHost(e) == e
  {
    LinuxDistinct(n);
    if NameOf(e, true).Some? {
      SameNumber(n, NameOf(e, true).value, e);
    }
    if n.Label(e).Some? {
      var name := n.Label(e).value;
      var code := CodeOf(name, true).value;
      TablesAgree(name, code, true);
      SameNumber(n, name, code);
    }
  }

  /** Linux's own numbers tell all its constants apart. */
  lemma LinuxDistinct(n: Numbering)
    requires LinuxNumbers(n)
    ensures n.Distinct()
  {
    forall a, b | n.Numbers(a, n.number(b)) && CodeOf(b, true).Some?
      ensures a == b
    {
      NumberIsCode(n, a);
      NumberIsCode(n, b);
    }
  }

  lemma NumberIsCode(n: Numbering, name: Name)
    requires LinuxNumbers(n) && CodeOf(name, true).Some?
    ensures NameOf(n.number(name), true) == Some(name)
  {
    var code := CodeOf(name, true).value;
    TablesAgree(name, code, true);
    SameNumber(n, name, code);
  }

  /** There is such a host. */
  lemma LinuxExists() returns (n: Numbering)
    ensures LinuxNumbers(n)
  {
    n := Numbering(true, (name: Name) => if CodeOf(name, true).Some? then CodeOf(name, true).value else 0);
    forall k | 0 <= k < |BASE|
      ensures CodeOf(Base(BASE[k]), true) == Some(k + 1)
    {
      BaseListed(k + 1);
      BaseAgrees(BASE[k], k + 1, true);
    }
    forall k | 0 <= k < |SYSTEM|
      ensures CodeOf(System(SYSTEM[k]), true) == Some(k + 35)
    {
      SystemListed(k + 35);
      SystemAgrees(SYSTEM[k], k + 35, true);
    }
    forall k | 0 <= k < |MESSAGE|
      ensures CodeOf(System(MESSAGE[k]), true) == Some(k + 42)
    {
      MessageListed(k + 42);
      SystemAgrees(MESSAGE[k], k + 42, true);
    }
    forall k | 0 <= k < |FONT|
      ensures CodeOf(System(FONT[k]), true) == Some(k + 59)
    {
      FontListed(k + 59);
      SystemAgrees(FONT[k], k + 59, true);
    }
    forall k | 0 <= k < |STREAM|
      ensures CodeOf(Stream(STREAM[k]), true) == Some(k + 60)
    {
      StreamListed(k + 60);
      StreamAgrees(STREAM[k], k + 60, true);
    }
    forall k | 0 <= k < |NETWORK|
      ensures CodeOf(Network(NETWORK[k]), true) == Some(k + 87)
    {
      NetworkListed(k + 87);
      NetworkAgrees(NETWORK[k], k + 87, true);
    }
    forall k | 0 <= k < |LATE|
      ensures CodeOf(Late(LATE[k]), true) == Some(k + 117)
    {
      LateListed(k + 117);
      LateAgrees(LATE[k], k + 117, true);
    }
  }

  // ---- Other hosts --------------------------------------------------------------------

  /** The codes of constants that Linux alone is taken to have. */
  predicate LinuxOnly(code: int) {
    || 44 <= code <= 57 || code == 59
    || 64 <= code <= 65 || 68 <= code <= 70 || code == 73 || 76 <= code <= 83 || 85 <= code <= 86
    || 117 <= code <= 121 || 123 <= code <= 124 || 126 <= code <= 129
  }

  function Shared(code: int): Option<int> {
    if LinuxOnly(code) then None else Some(code)
  }

  lemma BaseElsewhere(x: BaseName)
    ensures BaseCode(x, true).Some? && BaseCode(x, false) == Shared(BaseCode(x, true).value)
  {
  }

  lemma SystemElsewhere(x: SystemName)
    ensures SystemCode(x, true).Some? && SystemCode(x, false) == Shared(SystemCode(x, true).value)
  {
  }

  lemma StreamElsewhere(x: StreamName)
    ensures StreamCode(x, true).Some? && StreamCode(x, false) == Shared(StreamCode(x, true).value)
  {
  }

  lemma NetworkElsewhere(x: NetworkName)
    ensures NetworkCode(x, true).Some? && NetworkCode(x, false) == Shared(NetworkCode(x, true).value)
  {
  }

  lemma LateElsewhere(x: LateName)
    ensures LateCode(x, true).Some? && LateCode(x, false) == Shared(LateCode(x, true).value)
  {
  }

  /** Every constant has a code, and elsewhere the same one or, for those, none. */
  lemma Elsewhere(name: Name)
    ensures CodeOf(name, true).Some?
    ensures CodeOf(name, false) == if LinuxOnly(CodeOf(name, true).value) then None else CodeOf(name, true)
  {
    match name
    case Base(x) => BaseElsewhere(x);
    case System(x) => SystemElsewhere(x);
    case Stream(x) => StreamElsewhere(x);
    case Network(x) => NetworkElsewhere(x);
    case Late(x) => LateElsewhere(x);
  }
}
