/** The two switches between guest codes and the host's errno constants, block by
    block of codes. */
module ErrnoTable {
  import opened Wrappers

  datatype BaseName =
    | EPERM | ENOENT | ESRCH | EINTR | EIO | ENXIO | E2BIG | ENOEXEC | EBADF | ECHILD | EAGAIN | ENOMEM
    | EACCES | EFAULT | ENOTBLK | EBUSY | EEXIST | EXDEV | ENODEV | ENOTDIR | EISDIR | EINVAL | ENFILE | EMFILE
    | ENOTTY | ETXTBSY | EFBIG | ENOSPC | ESPIPE | EROFS | EMLINK | EPIPE | EDOM | ERANGE

  datatype SystemName =
    | EDEADLK | ENAMETOOLONG | ENOLCK | ENOSYS | ENOTEMPTY | ELOOP | ENOMSG | EIDRM | ECHRNG | EL2NSYNC
    | EL3HLT | EL3RST | ELNRNG | EUNATCH | ENOCSI | EL2HLT | EBADE | EBADR | EXFULL | ENOANO | EBADRQC
    | EBADSLT | EBFONT

  datatype StreamName =
    | ENOSTR | ENODATA | ETIME | ENOSR | ENONET | ENOPKG | EREMOTE | ENOLINK | EADV | ESRMNT | ECOMM | EPROTO
    | EMULTIHOP | EDOTDOT | EBADMSG | EOVERFLOW | ENOTUNIQ | EBADFD | EREMCHG | ELIBACC | ELIBBAD | ELIBSCN
    | ELIBMAX | ELIBEXEC | EILSEQ | ERESTART | ESTRPIPE

  datatype NetworkName =
    | EUSERS | ENOTSOCK | EDESTADDRREQ | EMSGSIZE | EPROTOTYPE | ENOPROTOOPT | EPROTONOSUPPORT
    | ESOCKTNOSUPPORT | EOPNOTSUPP | EPFNOSUPPORT | EAFNOSUPPORT | EADDRINUSE | EADDRNOTAVAIL | ENETDOWN
    | ENETUNREACH | ENETRESET | ECONNABORTED | ECONNRESET | ENOBUFS | EISCONN | ENOTCONN | ESHUTDOWN
    | ETOOMANYREFS | ETIMEDOUT | ECONNREFUSED | EHOSTDOWN | EHOSTUNREACH | EALREADY | EINPROGRESS | ESTALE

  datatype LateName =
    | EUCLEAN | ENOTNAM | ENAVAIL | EISNAM | EREMOTEIO | EDQUOT | ENOMEDIUM | EMEDIUMTYPE | ECANCELED | ENOKEY
    | EKEYEXPIRED | EKEYREVOKED | EKEYREJECTED | EOWNERDEAD | ENOTRECOVERABLE

  /** The constants, whatever their numbers are on the host. */
  datatype Name = Base(base: BaseName) | System(system: SystemName) | Stream(stream: StreamName) | Network(network: NetworkName) | Late(late: LateName)

  /** Some labels stand in Linux builds only. */
  function OnLinux<T>(x: T, linux: bool): Option<T> {
    if linux then Some(x) else None
  }

  // ---- From the host ----------------------------------------------------------------

  function BaseCode(name: BaseName, linux: bool): Option<int> {
    match name
    case EPERM => Some(1)
    case ENOENT => Some(2)
    case ESRCH => Some(3)
    case EINTR => Some(4)
    case EIO => Some(5)
    case ENXIO => Some(6)
    case E2BIG => Some(7)
    case ENOEXEC => Some(8)
    case EBADF => Some(9)
    case ECHILD => Some(10)
    case EAGAIN => Some(11)
    case ENOMEM => Some(12)
    case EACCES => Some(13)
    case EFAULT => Some(14)
    case ENOTBLK => Some(15)
    case EBUSY => Some(16)
    case EEXIST => Some(17)
    case EXDEV => Some(18)
    case ENODEV => Some(19)
    case ENOTDIR => Some(20)
    case EISDIR => Some(21)
    case EINVAL => Some(22)
    case ENFILE => Some(23)
    case EMFILE => Some(24)
    case ENOTTY => Some(25)
    case ETXTBSY => Some(26)
    case EFBIG => Some(27)
    case ENOSPC => Some(28)
    case ESPIPE => Some(29)
    case EROFS => Some(30)
    case EMLINK => Some(31)
    case EPIPE => Some(32)
    case EDOM => Some(33)
    case ERANGE => Some(34)
  }

  function SystemCode(name: SystemName, linux: bool): Option<int> {
    match name
    case EDEADLK => Some(35)
    case ENAMETOOLONG => Some(36)
    case ENOLCK => Some(37)
    case ENOSYS => Some(38)
    case ENOTEMPTY => Some(39)
    case ELOOP => Some(40)
    case ENOMSG => Some(42)
    case EIDRM => Some(43)
    case ECHRNG => OnLinux(44, linux)
    case EL2NSYNC => OnLinux(45, linux)
    case EL3HLT => OnLinux(46, linux)
    case EL3RST => OnLinux(47, linux)
    case ELNRNG => OnLinux(48, linux)
    case EUNATCH => OnLinux(49, linux)
    case ENOCSI => OnLinux(50, linux)
    case EL2HLT => OnLinux(51, linux)
    case EBADE => OnLinux(52, linux)
    case EBADR => OnLinux(53, linux)
    case EXFULL => OnLinux(54, linux)
    case ENOANO => OnLinux(55, linux)
    case EBADRQC => OnLinux(56, linux)
    case EBADSLT => OnLinux(57, linux)
    case EBFONT => OnLinux(59, linux)
  }

  function StreamCode(name: StreamName, linux: bool): Option<int> {
    match name
    case ENOSTR => Some(60)
    case ENODATA => Some(61)
    case ETIME => Some(62)
    case ENOSR => Some(63)
    case ENONET => OnLinux(64, linux)
    case ENOPKG => OnLinux(65, linux)
    case EREMOTE => Some(66)
    case ENOLINK => Some(67)
    case EADV => OnLinux(68, linux)
    case ESRMNT => OnLinux(69, linux)
    case ECOMM => OnLinux(70, linux)
    case EPROTO => Some(71)
    case EMULTIHOP => Some(72)
    case EDOTDOT => OnLinux(73, linux)
    case EBADMSG => Some(74)
    case EOVERFLOW => Some(75)
    case ENOTUNIQ => OnLinux(76, linux)
    case EBADFD => OnLinux(77, linux)
    case EREMCHG => OnLinux(78, linux)
    case ELIBACC => OnLinux(79, linux)
    case ELIBBAD => OnLinux(80, linux)
    case ELIBSCN => OnLinux(81, linux)
    case ELIBMAX => OnLinux(82, linux)
    case ELIBEXEC => OnLinux(83, linux)
    case EILSEQ => Some(84)
    case ERESTART => OnLinux(85, linux)
    case ESTRPIPE => OnLinux(86, linux)
  }

  function NetworkCode(name: NetworkName, linux: bool): Option<int> {
    match name
    case EUSERS => Some(87)
    case ENOTSOCK => Some(88)
    case EDESTADDRREQ => Some(89)
    case EMSGSIZE => Some(90)
    case EPROTOTYPE => Some(91)
    case ENOPROTOOPT => Some(92)
    case EPROTONOSUPPORT => Some(93)
    case ESOCKTNOSUPPORT => Some(94)
    case EOPNOTSUPP => Some(95)
    case EPFNOSUPPORT => Some(96)
    case EAFNOSUPPORT => Some(97)
    case EADDRINUSE => Some(98)
    case EADDRNOTAVAIL => Some(99)
    case ENETDOWN => Some(100)
    case ENETUNREACH => Some(101)
    case ENETRESET => Some(102)
    case ECONNABORTED => Some(103)
    case ECONNRESET => Some(104)
    case ENOBUFS => Some(105)
    case EISCONN => Some(106)
    case ENOTCONN => Some(107)
    case ESHUTDOWN => Some(108)
    case ETOOMANYREFS => Some(109)
    case ETIMEDOUT => Some(110)
    case ECONNREFUSED => Some(111)
    case EHOSTDOWN => Some(112)
    case EHOSTUNREACH => Some(113)
    case EALREADY => Some(114)
    case EINPROGRESS => Some(115)
    case ESTALE => Some(116)
  }

  function LateCode(name: LateName, linux: bool): Option<int> {
    match name
    case EUCLEAN => OnLinux(117, linux)
    case ENOTNAM => OnLinux(118, linux)
    case ENAVAIL => OnLinux(119, linux)
    case EISNAM => OnLinux(120, linux)
    case EREMOTEIO => OnLinux(121, linux)
    case EDQUOT => Some(122)
    case ENOMEDIUM => OnLinux(123, linux)
    case EMEDIUMTYPE => OnLinux(124, linux)
    case ECANCELED => Some(125)
    case ENOKEY => OnLinux(126, linux)
    case EKEYEXPIRED => OnLinux(127, linux)
    case EKEYREVOKED => OnLinux(128, linux)
    case EKEYREJECTED => OnLinux(129, linux)
    case EOWNERDEAD => Some(130)
    case ENOTRECOVERABLE => Some(131)
  }

  /** The guest code of a constant. */
  function CodeOf(name: Name, linux: bool): Option<int> {
    match name
    case Base(n) => BaseCode(n, linux)
    case System(n) => SystemCode(n, linux)
    case Stream(n) => StreamCode(n, linux)
    case Network(n) => NetworkCode(n, linux)
    case Late(n) => LateCode(n, linux)
  }

  // ---- To the host ------------------------------------------------------------------

  function BaseAt(code: int, linux: bool): Option<BaseName> {
    match code
    case 1 => Some(EPERM)
    case 2 => Some(ENOENT)
    case 3 => Some(ESRCH)
    case 4 => Some(EINTR)
    case 5 => Some(EIO)
    case 6 => Some(ENXIO)
    case 7 => Some(E2BIG)
    case 8 => Some(ENOEXEC)
    case 9 => Some(EBADF)
    case 10 => Some(ECHILD)
    case 11 => Some(EAGAIN)
    case 12 => Some(ENOMEM)
    case 13 => Some(EACCES)
    case 14 => Some(EFAULT)
    case 15 => Some(ENOTBLK)
    case 16 => Some(EBUSY)
    case 17 => Some(EEXIST)
    case 18 => Some(EXDEV)
    case 19 => Some(ENODEV)
    case 20 => Some(ENOTDIR)
    case 21 => Some(EISDIR)
    case 22 => Some(EINVAL)
    case 23 => Some(ENFILE)
    case 24 => Some(EMFILE)
    case 25 => Some(ENOTTY)
    case 26 => Some(ETXTBSY)
    case 27 => Some(EFBIG)
    case 28 => Some(ENOSPC)
    case 29 => Some(ESPIPE)
    case 30 => Some(EROFS)
    case 31 => Some(EMLINK)
    case 32 => Some(EPIPE)
    case 33 => Some(EDOM)
    case 34 => Some(ERANGE)
    case _ => None
  }

  function SystemAt(code: int, linux: bool): Option<SystemName> {
    match code
    case 35 => Some(EDEADLK)
    case 36 => Some(ENAMETOOLONG)
    case 37 => Some(ENOLCK)
    case 38 => Some(ENOSYS)
    case 39 => Some(ENOTEMPTY)
    case 40 => Some(ELOOP)
    case 42 => Some(ENOMSG)
    case 43 => Some(EIDRM)
    case 44 => OnLinux(ECHRNG, linux)
    case 45 => OnLinux(EL2NSYNC, linux)
    case 46 => OnLinux(EL3HLT, linux)
    case 47 => OnLinux(EL3RST, linux)
    case 48 => OnLinux(ELNRNG, linux)
    case 49 => OnLinux(EUNATCH, linux)
    case 50 => OnLinux(ENOCSI, linux)
    case 51 => OnLinux(EL2HLT, linux)
    case 52 => OnLinux(EBADE, linux)
    case 53 => OnLinux(EBADR, linux)
    case 54 => OnLinux(EXFULL, linux)
    case 55 => OnLinux(ENOANO, linux)
    case 56 => OnLinux(EBADRQC, linux)
    case 57 => OnLinux(EBADSLT, linux)
    case 59 => OnLinux(EBFONT, linux)
    case _ => None
  }

  function StreamAt(code: int, linux: bool): Option<StreamName> {
    match code
    case 60 => Some(ENOSTR)
    case 61 => Some(ENODATA)
    case 62 => Some(ETIME)
    case 63 => Some(ENOSR)
    case 64 => OnLinux(ENONET, linux)
    case 65 => OnLinux(ENOPKG, linux)
    case 66 => Some(EREMOTE)
    case 67 => Some(ENOLINK)
    case 68 => OnLinux(EADV, linux)
    case 69 => OnLinux(ESRMNT, linux)
    case 70 => OnLinux(ECOMM, linux)
    case 71 => Some(EPROTO)
    case 72 => Some(EMULTIHOP)
    case 73 => OnLinux(EDOTDOT, linux)
    case 74 => Some(EBADMSG)
    case 75 => Some(EOVERFLOW)
    case 76 => OnLinux(ENOTUNIQ, linux)
    case 77 => OnLinux(EBADFD, linux)
    case 78 => OnLinux(EREMCHG, linux)
    case 79 => OnLinux(ELIBACC, linux)
    case 80 => OnLinux(ELIBBAD, linux)
    case 81 => OnLinux(ELIBSCN, linux)
    case 82 => OnLinux(ELIBMAX, linux)
    case 83 => OnLinux(ELIBEXEC, linux)
    case 84 => Some(EILSEQ)
    case 85 => OnLinux(ERESTART, linux)
    case 86 => OnLinux(ESTRPIPE, linux)
    case _ => None
  }

  function NetworkAt(code: int, linux: bool): Option<NetworkName> {
    match code
    case 87 => Some(EUSERS)
    case 88 => Some(ENOTSOCK)
    case 89 => Some(EDESTADDRREQ)
    case 90 => Some(EMSGSIZE)
    case 91 => Some(EPROTOTYPE)
    case 92 => Some(ENOPROTOOPT)
    case 93 => Some(EPROTONOSUPPORT)
    case 94 => Some(ESOCKTNOSUPPORT)
    case 95 => Some(EOPNOTSUPP)
    case 96 => Some(EPFNOSUPPORT)
    case 97 => Some(EAFNOSUPPORT)
    case 98 => Some(EADDRINUSE)
    case 99 => Some(EADDRNOTAVAIL)
    case 100 => Some(ENETDOWN)
    case 101 => Some(ENETUNREACH)
    case 102 => Some(ENETRESET)
    case 103 => Some(ECONNABORTED)
    case 104 => Some(ECONNRESET)
    case 105 => Some(ENOBUFS)
    case 106 => Some(EISCONN)
    case 107 => Some(ENOTCONN)
    case 108 => Some(ESHUTDOWN)
    case 109 => Some(ETOOMANYREFS)
    case 110 => Some(ETIMEDOUT)
    case 111 => Some(ECONNREFUSED)
    case 112 => Some(EHOSTDOWN)
    case 113 => Some(EHOSTUNREACH)
    case 114 => Some(EALREADY)
    case 115 => Some(EINPROGRESS)
    case 116 => Some(ESTALE)
    case _ => None
  }

  function LateAt(code: int, linux: bool): Option<LateName> {
    match code
    case 117 => OnLinux(EUCLEAN, linux)
    case 118 => OnLinux(ENOTNAM, linux)
    case 119 => OnLinux(ENAVAIL, linux)
    case 120 => OnLinux(EISNAM, linux)
    case 121 => OnLinux(EREMOTEIO, linux)
    case 122 => Some(EDQUOT)
    case 123 => OnLinux(ENOMEDIUM, linux)
    case 124 => OnLinux(EMEDIUMTYPE, linux)
    case 125 => Some(ECANCELED)
    case 126 => OnLinux(ENOKEY, linux)
    case 127 => OnLinux(EKEYEXPIRED, linux)
    case 128 => OnLinux(EKEYREVOKED, linux)
    case 129 => OnLinux(EKEYREJECTED, linux)
    case 130 => Some(EOWNERDEAD)
    case 131 => Some(ENOTRECOVERABLE)
    case _ => None
  }

  /** The constant of a guest code. */
  function NameOf(code: int, linux: bool): Option<Name> {
    if BaseAt(code, linux).Some? then Some(Base(BaseAt(code, linux).value))
    else if SystemAt(code, linux).Some? then Some(System(SystemAt(code, linux).value))
    else if StreamAt(code, linux).Some? then Some(Stream(StreamAt(code, linux).value))
    else if NetworkAt(code, linux).Some? then Some(Network(NetworkAt(code, linux).value))
    else if LateAt(code, linux).Some? then Some(Late(LateAt(code, linux).value))
    else None
  }

  // ---- Agreement --------------------------------------------------------------------

  lemma BaseAgrees(name: BaseName, code: int, linux: bool)
    ensures BaseCode(name, linux) == Some(code) <==> BaseAt(code, linux) == Some(name)
    ensures BaseAt(code, linux).Some? ==> 1 <= code <= 34
  {
  }

  lemma SystemAgrees(name: SystemName, code: int, linux: bool)
    ensures SystemCode(name, linux) == Some(code) <==> SystemAt(code, linux) == Some(name)
    ensures SystemAt(code, linux).Some? ==> 35 <= code <= 59
  {
  }

  lemma StreamAgrees(name: StreamName, code: int, linux: bool)
    ensures StreamCode(name, linux) == Some(code) <==> StreamAt(code, linux) == Some(name)
    ensures StreamAt(code, linux).Some? ==> 60 <= code <= 86
  {
  }

  lemma NetworkAgrees(name: NetworkName, code: int, linux: bool)
    ensures NetworkCode(name, linux) == Some(code) <==> NetworkAt(code, linux) == Some(name)
    ensures NetworkAt(code, linux).Some? ==> 87 <= code <= 116
  {
  }

  lemma LateAgrees(name: LateName, code: int, linux: bool)
    ensures LateCode(name, linux) == Some(code) <==> LateAt(code, linux) == Some(name)
    ensures LateAt(code, linux).Some? ==> 117 <= code <= 131
  {
  }

  /** The two switches list the same pairs. */
  lemma TablesAgree(name: Name, code: int, linux: bool)
    ensures CodeOf(name, linux) == Some(code) <==> NameOf(code, linux) == Some(name)
  {
    BaseAgrees(if name.Base? then name.base else EPERM, code, linux);
    SystemAgrees(if name.System? then name.system else EDEADLK, code, linux);
    StreamAgrees(if name.Stream? then name.stream else ENOSTR, code, linux);
    NetworkAgrees(if name.Network? then name.network else EUSERS, code, linux);
    LateAgrees(if name.Late? then name.late else EUCLEAN, code, linux);
  }

  lemma NoZeroCode(name: Name, linux: bool)
    ensures CodeOf(name, linux) != Some(0)
  {
    TablesAgree(name, 0, linux);
    assert NameOf(0, linux) == None;
  }
}
