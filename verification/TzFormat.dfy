/** The TZ value made from the current offset, and the rule a reader applies to
    it (section 8.3 of the POSIX.1-2017 Base Definitions). */
module TzFormat {

  /** Division and remainder truncate, but both are used on non-negative numbers
      only: seconds, then whole minutes, then whole hours are split off. */
  datatype Hms = Hms(h: nat, m: nat, s: nat)

  method Decompose(gmtoff: int) returns (r: Hms)
    ensures r == Split(gmtoff)
    ensures r.m < 60 && r.s < 60
    ensures r.h * 3600 + r.m * 60 + r.s == if gmtoff >= 0 then gmtoff else -gmtoff
  {
    var s := if gmtoff >= 0 then gmtoff else -gmtoff;
    var m := s / 60;
    s := s - m * 60;
    var h := m / 60;
    m := m - h * 60;
    r := Hms(h, m, s);
  }

  function Split(gmtoff: int): Hms {
    var a := if gmtoff >= 0 then gmtoff else -gmtoff;
    Hms(a / 3600, a / 60 % 60, a % 60)
  }

  lemma SplitAdds(gmtoff: int)
    ensures var r := Split(gmtoff);
            r.m < 60 && r.s < 60 && r.h * 3600 + r.m * 60 + r.s == if gmtoff >= 0 then gmtoff else -gmtoff
  {
  }

  // ---- Printing -------------------------------------------------------------

  predicate IsDigit(c: char) {
    '0' <= c <= '9'
  }

  function Digit(d: nat): char
    requires d < 10
  {
    '0' + d as char
  }

  function Decimal(n: nat): (s: string)
    ensures |s| > 0
  {
    if n < 10 then [Digit(n)] else Decimal(n / 10) + [Digit(n % 10)]
  }

  /** %02d for a number that is not negative. */
  function TwoDigits(n: nat): string {
    if n < 10 then "0" + Decimal(n) else Decimal(n)
  }

  function Take5(zone: string): string {
    if |zone| <= 5 then zone else zone[..5]
  }

  function TimeString(t: Hms): string {
    TwoDigits(t.h) + (":" + (TwoDigits(t.m) + (":" + TwoDigits(t.s))))
  }

  function OffsetString(gmtoff: int): string {
    (if gmtoff > 0 then "-" else "+") + TimeString(Split(gmtoff))
  }

  /** What sprintf puts into the buffer. */
  function TzString(zone: string, gmtoff: int): string {
    "<" + Take5(zone) + ">" + OffsetString(gmtoff)
  }

  // ---- Reading --------------------------------------------------------------

  function Value(s: string): nat
    requires forall i :: 0 <= i < |s| ==> IsDigit(s[i])
  {
    if s == "" then 0 else
    assert IsDigit(s[|s| - 1]);
    10 * Value(s[..|s| - 1]) + (s[|s| - 1] as int - '0' as int)
  }

  /** The digits at the front of s. */
  function Digits(s: string): nat {
    if s != "" && IsDigit(s[0]) then 1 + Digits(s[1..]) else 0
  }

  lemma {:induction false} DigitsAreDigits(s: string)
    ensures Digits(s) <= |s| && forall i :: 0 <= i < Digits(s) ==> IsDigit(s[i])
  {
    if s != "" && IsDigit(s[0]) {
      DigitsAreDigits(s[1..]);
    }
  }

  datatype Parsed = Bad | Good(value: int, rest: string)

  /** A number of one or more digits. */
  function Number(s: string): Parsed {
    DigitsAreDigits(s);
    if Digits(s) == 0 then Bad else Good(Value(s[..Digits(s)]), s[Digits(s)..])
  }

  /** A colon and a number below 60, or nothing. */
  function ColonNumber(s: string): Parsed {
    if s != "" && s[0] == ':' then
      var n := Number(s[1..]);
      if n.Good? && n.value >= 60 then Bad else n
    else Good(0, s)
  }

  /** hh[:mm[:ss]] in seconds, with at most most hours. */
  function Time(s: string, most: nat): Parsed {
    var h := Number(s);
    if h.Bad? || h.value > most then Bad
    else
      var m := ColonNumber(h.rest);
      if m.Bad? then Bad
      else
        var t := ColonNumber(m.rest);
        if t.Bad? then Bad else Good(h.value * 3600 + m.value * 60 + t.value, t.rest)
  }

  /** An optional sign and a time. */
  function Offset(s: string, most: nat): Parsed {
    if s != "" && (s[0] == '-' || s[0] == '+') then
      var t := Time(s[1..], most);
      if t.Good? && s[0] == '-' then Good(-t.value, t.rest) else t
    else Time(s, most)
  }

  /** The part of s before the first '>', or all of it. */
  function Name(s: string): (name: string)
    ensures name <= s && '>' !in name
    ensures name == s || s[|name|] == '>'
  {
    if s == "" || s[0] == '>' then "" else [s[0]] + Name(s[1..])
  }

  predicate NameChar(c: char) {
    IsDigit(c) || 'a' <= c <= 'z' || 'A' <= c <= 'Z' || c == '+' || c == '-'
  }

  /** What may stand in angle brackets. */
  predicate GoodName(name: string) {
    |name| >= 3 && forall i :: 0 <= i < |name| ==> NameChar(name[i])
  }

  datatype Zone = NoZone | Zone(name: string, offset: int)

  /** The most hours the standard allows. */
  const MOST_HOURS: nat := 24

  /** A name in angle brackets and its offset west of Greenwich, to the end, by a
      reader that takes at most most hours. */
  function ParseTz(s: string, most: nat): Zone {
    if s == "" || s[0] != '<' then NoZone
    else
      var name := Name(s[1..]);
      if name == s[1..] || !GoodName(name) then NoZone
      else
        var offset := Offset(s[|name| + 2..], most);
        if offset.Good? && offset.rest == "" then Zone(name, offset.value) else NoZone
  }

  // ---- Round trip -----------------------------------------------------------

  lemma DigitValue(d: nat)
    requires d < 10
    ensures IsDigit(Digit(d)) && Digit(d) as int - '0' as int == d
  {
  }

  lemma {:induction false} DecimalValue(n: nat)
    ensures forall i :: 0 <= i < |Decimal(n)| ==> IsDigit(Decimal(n)[i])
    ensures Value(Decimal(n)) == n
  {
    if n < 10 {
      DigitValue(n);
      assert [Digit(n)][..0] == "";
    } else {
      DecimalValue(n / 10);
      DigitValue(n % 10);
      assert Decimal(n)[..|Decimal(n)| - 1] == Decimal(n / 10);
    }
  }

  lemma {:induction false} ZeroInFront(s: string)
    requires s != "" && forall i :: 0 <= i < |s| ==> IsDigit(s[i])
    ensures forall i :: 0 <= i < |s| + 1 ==> IsDigit(("0" + s)[i])
    ensures Value("0" + s) == Value(s)
  {
    var k := |s| - 1;
    assert ("0" + s)[..|s|] == "0" + s[..k];
    if k == 0 {
      assert "0"[..0] == "" && s[..0] == "" && "0" + "" == "0";
    } else {
      ZeroInFront(s[..k]);
    }
  }

  lemma TwoDigitsValue(n: nat)
    ensures TwoDigits(n) != "" && forall i :: 0 <= i < |TwoDigits(n)| ==> IsDigit(TwoDigits(n)[i])
    ensures Value(TwoDigits(n)) == n
  {
    DecimalValue(n);
    if n < 10 {
      ZeroInFront(Decimal(n));
    }
  }

  lemma {:induction false} DigitsStop(s: string, rest: string)
    requires forall i :: 0 <= i < |s| ==> IsDigit(s[i])
    requires rest == "" || !IsDigit(rest[0])
    ensures Digits(s + rest) == |s|
  {
    if s == "" {
      assert s + rest == rest;
    } else {
      assert (s + rest)[1..] == s[1..] + rest;
      DigitsStop(s[1..], rest);
    }
  }

  lemma NumberReads(n: nat, rest: string)
    requires rest == "" || !IsDigit(rest[0])
    ensures Number(TwoDigits(n) + rest) == Good(n, rest)
  {
    var s := TwoDigits(n);
    TwoDigitsValue(n);
    DigitsStop(s, rest);
    assert (s + rest)[..|s|] == s && (s + rest)[|s|..] == rest;
  }

  lemma TimeReads(t: Hms, most: nat)
    requires t.m < 60 && t.s < 60
    ensures Time(TimeString(t), most) == if t.h > most then Bad else Good(t.h * 3600 + t.m * 60 + t.s, "")
  {
    var ss := TwoDigits(t.s);
    var ms := TwoDigits(t.m) + (":" + ss);
    NumberReads(t.h, ":" + ms);
    NumberReads(t.m, ":" + ss);
    NumberReads(t.s, "");
    assert ss + "" == ss && (":" + ms)[1..] == ms && (":" + ss)[1..] == ss;
  }

  lemma {:induction false} NameReads(name: string, rest: string)
    requires '>' !in name
    ensures Name(name + (">" + rest)) == name
  {
    var s := name + (">" + rest);
    if name != "" {
      assert s[1..] == name[1..] + (">" + rest);
      NameReads(name[1..], rest);
    }
  }

  lemma OffsetReads(gmtoff: int, most: nat)
    ensures Offset(OffsetString(gmtoff), most) == if Split(gmtoff).h > most then Bad else Good(-gmtoff, "")
  {
    var t := Split(gmtoff);
    SplitAdds(gmtoff);
    var time := TimeString(t);
    TimeReads(t, most);
    SignReads(gmtoff > 0, time, most);
  }

  lemma SignReads(west: bool, time: string, most: nat)
    ensures Offset((if west then "-" else "+") + time, most)
         == if west && Time(time, most).Good? then Time(time, most).(value := -Time(time, most).value)
            else Time(time, most)
  {
    var sign := if west then "-" else "+";
    assert (sign + time)[1..] == time;
  }

  lemma ZoneReads(name: string, rest: string, most: nat)
    requires '>' !in name
    ensures ParseTz("<" + name + ">" + rest, most)
         == if GoodName(name) && Offset(rest, most).Good? && Offset(rest, most).rest == ""
            then Zone(name, Offset(rest, most).value) else NoZone
  {
    var s := "<" + name + ">" + rest;
    assert s[1..] == name + (">" + rest);
    NameReads(name, rest);
    assert s[|name| + 2..] == rest;
  }

  // A '>' behind the name is never read.

  lemma NumberLeaves(s: string)
    requires '>' in s && Number(s).Good?
    ensures '>' in Number(s).rest
  {
    DigitsAreDigits(s);
    var i :| 0 <= i < |s| && s[i] == '>';
    assert Number(s).rest[i - Digits(s)] == '>';
  }

  lemma ColonLeaves(s: string)
    requires '>' in s && ColonNumber(s).Good?
    ensures '>' in ColonNumber(s).rest
  {
    if s[0] == ':' {
      assert '>' in s[1..];
      NumberLeaves(s[1..]);
    }
  }

  lemma TimeLeaves(s: string, most: nat)
    requires '>' in s && Time(s, most).Good?
    ensures '>' in Time(s, most).rest
  {
    NumberLeaves(s);
    ColonLeaves(Number(s).rest);
    ColonLeaves(ColonNumber(Number(s).rest).rest);
  }

  lemma OffsetLeaves(s: string, most: nat)
    requires '>' in s && Offset(s, most).Good?
    ensures '>' in Offset(s, most).rest
  {
    if s[0] == '-' || s[0] == '+' {
      assert '>' in s[1..];
      TimeLeaves(s[1..], most);
    } else {
      TimeLeaves(s, most);
    }
  }

  lemma {:induction false} NameStops(s: string, i: nat)
    requires i < |s| && s[i] == '>'
    ensures |Name(s)| <= i
  {
    if s[0] != '>' {
      NameStops(s[1..], i - 1);
    }
  }

  lemma TwoBrackets(s: string, i: nat, j: nat, most: nat)
    requires 0 < i < j < |s| && s[0] == '<' && s[i] == '>' && s[j] == '>'
    ensures ParseTz(s, most) == NoZone
  {
    var n := |Name(s[1..])|;
    assert s[1..][i - 1] == '>';
    NameStops(s[1..], i - 1);
    var rest := s[n + 2..];
    assert rest[j - n - 2] == '>';
    if Offset(rest, most).Good? {
      OffsetLeaves(rest, most);
    }
  }

  /** The printed value is read exactly when the first five letters of the zone
      make a name and there are not too many hours, and then as that name and
      exactly the negated offset. */
  lemma TzRoundTrip(zone: string, gmtoff: int, most: nat)
    ensures ParseTz(TzString(zone, gmtoff), most)
         == var name := if |zone| <= 5 then zone else zone[..5];
            var hours := (if gmtoff >= 0 then gmtoff else -gmtoff) / 3600;
            if GoodName(name) && hours <= most then Zone(name, -gmtoff) else NoZone
  {
    var name, offset := Take5(zone), OffsetString(gmtoff);
    OffsetReads(gmtoff, most);
    if '>' !in name {
      ZoneReads(name, offset, most);
    } else {
      var s := TzString(zone, gmtoff);
      var i :| 0 <= i < |name| && name[i] == '>';
      assert s == "<" + name + ">" + offset;
      assert s[i + 1] == '>' && s[|name| + 1] == '>';
      TwoBrackets(s, i + 1, |name| + 1, most);
      assert !NameChar(name[i]);
    }
  }

  /** By the standard's own bound that is so below 25 hours, and below a hundred
      for a reader that takes two digits. */
  lemma TzHours(zone: string, gmtoff: int)
    requires GoodName(Take5(zone))
    ensures ParseTz(TzString(zone, gmtoff), MOST_HOURS) == Zone(Take5(zone), -gmtoff) <==> -90000 < gmtoff < 90000
    ensures -360000 < gmtoff < 360000 ==> ParseTz(TzString(zone, gmtoff), 99) == Zone(Take5(zone), -gmtoff)
  {
    TzRoundTrip(zone, gmtoff, MOST_HOURS);
    TzRoundTrip(zone, gmtoff, 99);
  }

  // ---- Letter by letter -----------------------------------------------------

  /** Two digits from place i on show n. */
  predicate ShowsAt(s: string, i: nat, n: nat) {
    i + 1 < |s| && s[i] as int == '0' as int + n / 10 && s[i + 1] as int == '0' as int + n % 10
  }

  lemma TwoDigitsShow(n: nat)
    requires n < 100
    ensures |TwoDigits(n)| == 2 && ShowsAt(TwoDigits(n), 0, n)
  {
    if n >= 10 {
      assert Decimal(n / 10) == [Digit(n / 10)];
    }
  }

  /** Below a hundred hours the offset is a sign, a minus east of Greenwich, and
      hours, minutes and seconds of two digits each. */
  lemma TzShape(gmtoff: int)
    requires -360000 < gmtoff < 360000
    ensures var s, a := OffsetString(gmtoff), if gmtoff >= 0 then gmtoff else -gmtoff;
            && |s| == 9 && s[0] == (if gmtoff > 0 then '-' else '+') && s[3] == ':' && s[6] == ':'
            && ShowsAt(s, 1, a / 3600) && ShowsAt(s, 4, a / 60 % 60) && ShowsAt(s, 7, a % 60)
  {
    var t := Split(gmtoff);
    TwoDigitsShow(t.h);
    TwoDigitsShow(t.m);
    TwoDigitsShow(t.s);
  }

  // ---- Space ----------------------------------------------------------------

  const BUFFER: nat := 20

  lemma ShortDecimal(n: nat)
    ensures n < 100 ==> |TwoDigits(n)| == 2
    ensures n < 100000 <==> |TwoDigits(n)| <= 5
  {
    DecimalLength(n);
    if n >= 10 {
      DecimalLength(n / 10);
      if n >= 100 {
        DecimalLength(n / 100);
      }
    }
  }

  lemma DecimalLength(n: nat)
    ensures |Decimal(n)| == 1 <==> n < 10
    ensures n >= 10 ==> |Decimal(n)| == 1 + |Decimal(n / 10)|
  {
  }

  /** With fewer than a hundred hours the value and its NUL take at most 17 of
      the 20 bytes; with a zone name of five letters they fit exactly while the
      hours have at most five digits. */
  lemma TzFits(zone: string, gmtoff: int)
    ensures -360000 < gmtoff < 360000 ==> |TzString(zone, gmtoff)| + 1 <= 17
    ensures |zone| >= 5 ==>
              (|TzString(zone, gmtoff)| + 1 <= BUFFER <==> -360000000 < gmtoff < 360000000)
  {
    var t := Split(gmtoff);
    ShortDecimal(t.h);
    ShortDecimal(t.m);
    ShortDecimal(t.s);
  }
}
