/**
 The timestamps of hpe_users rows: Python's timezone-aware datetime, its isoformat and the inverse.
 Offsets are whole minutes.
 */
module IsoTimes {
  import opened Options

  datatype DateTime = DateTime(year: nat, month: nat, day: nat, hour: nat, minute: nat, second: nat, micro: nat,
                               offset: int)

  predicate IsLeap(year: nat) {
    year % 4 == 0 && (year % 100 != 0 || year % 400 == 0)
  }

  function DaysInMonth(year: nat, month: nat): nat {
    if month == 2 then if IsLeap(year) then 29 else 28
    else if month in {4, 6, 9, 11} then 30
    else 31
  }

  /** What the datetime constructor accepts. */
  predicate IsDateTime(t: DateTime) {
    && 1 <= t.year <= 9999 && 1 <= t.month <= 12 && 1 <= t.day <= DaysInMonth(t.year, t.month)
    && t.hour < 24 && t.minute < 60 && t.second < 60 && t.micro < 1_000_000
    && -1440 < t.offset < 1440
  }

  // ---- Subtraction of datetimes ----

  function DaysBeforeYear(year: nat): int {
    var y := year - 1;
    365 * y + y / 4 - y / 100 + y / 400
  }

  function DaysBeforeMonth(year: nat, month: nat): nat {
    if month <= 1 then 0 else DaysBeforeMonth(year, month - 1) + DaysInMonth(year, month - 1)
  }

  /** Microseconds, in UTC, on a scale that starts before year 1. */
  function Instant(t: DateTime): int {
    var days := DaysBeforeYear(t.year) + DaysBeforeMonth(t.year, t.month) + t.day;
    (((days * 24 + t.hour) * 60 + t.minute - t.offset) * 60 + t.second) * 1_000_000 + t.micro
  }

  const SECOND := 1_000_000

  // ---- Digits ----

  function Digits(n: nat, width: nat): (s: string)
    ensures |s| == width
  {
    if width == 0 then "" else Digits(n / 10, width - 1) + ['0' + (n % 10) as char]
  }

  function Number(s: string): Option<nat> {
    if s == "" then Some(0)
    else
      var c := s[|s| - 1];
      match Number(s[..|s| - 1])
      case None => None
      case Some(m) => if '0' <= c <= '9' then Some(10 * m + (c as nat - '0' as nat)) else None
  }

  function Pow10(width: nat): nat {
    if width == 0 then 1 else 10 * Pow10(width - 1)
  }

  lemma {:induction false} NumberOfDigits(n: nat, width: nat)
    requires n < Pow10(width)
    ensures Number(Digits(n, width)) == Some(n)
  {
    if width > 0 {
      NumberOfDigits(n / 10, width - 1);
      var s := Digits(n, width);
      assert s[..|s| - 1] == Digits(n / 10, width - 1);
    }
  }

  lemma TwoDigits(n: nat)
    requires n < 100
    ensures Number(Digits(n, 2)) == Some(n)
  {
    assert Pow10(1) == 10 && Pow10(2) == 100;
    NumberOfDigits(n, 2);
  }

  // ---- isoformat ----

  function IsoDate(t: DateTime): (s: string)
    ensures |s| == 10
  {
    Digits(t.year, 4) + "-" + Digits(t.month, 2) + "-" + Digits(t.day, 2)
  }

  function IsoClock(t: DateTime): (s: string)
    ensures |s| == 8
  {
    Digits(t.hour, 2) + ":" + Digits(t.minute, 2) + ":" + Digits(t.second, 2)
  }

  /** The fraction is left out when it is zero. */
  function IsoFraction(t: DateTime): (s: string)
    ensures |s| == if t.micro == 0 then 0 else 7
  {
    if t.micro == 0 then "" else "." + Digits(t.micro, 6)
  }

  function IsoOffset(t: DateTime): (s: string)
    ensures |s| == 6
  {
    var minutes: int := if t.offset < 0 then -t.offset else t.offset;
    [if t.offset < 0 then '-' else '+'] + Digits(minutes / 60, 2) + ":" + Digits(minutes % 60, 2)
  }

  function IsoFormat(t: DateTime): string {
    IsoDate(t) + "T" + IsoClock(t) + IsoFraction(t) + IsoOffset(t)
  }

  // ---- fromisoformat, on the strings of these two shapes ----

  function NumberAt(s: string, from: nat, width: nat): Option<nat>
    requires from + width <= |s|
  {
    Number(s[from..from + width])
  }

  predicate HasShape(s: string) {
    && (|s| == 25 || (|s| == 32 && s[19] == '.'))
    && s[4] == '-' && s[7] == '-' && s[10] == 'T' && s[13] == ':' && s[16] == ':'
    && s[|s| - 6] in "+-" && s[|s| - 3] == ':'
  }

  function FieldsOf(s: string): (fields: seq<Option<nat>>)
    requires HasShape(s)
    ensures |fields| == 9
  {
    [NumberAt(s, 0, 4), NumberAt(s, 5, 2), NumberAt(s, 8, 2),
     NumberAt(s, 11, 2), NumberAt(s, 14, 2), NumberAt(s, 17, 2),
     if |s| == 25 then Some(0) else NumberAt(s, 20, 6), NumberAt(s, |s| - 5, 2), NumberAt(s, |s| - 2, 2)]
  }

  function FromIsoFormat(s: string): Option<DateTime> {
    if !HasShape(s) then None
    else
      var f := FieldsOf(s);
      if None in f then None
      else
        assert forall k :: 0 <= k < 9 ==> f[k].Some?;
        var minutes: int := 60 * f[7].value + f[8].value;
        var t := DateTime(f[0].value, f[1].value, f[2].value, f[3].value, f[4].value, f[5].value, f[6].value,
                          if s[|s| - 6] == '-' then -minutes else minutes);
        if IsDateTime(t) && f[8].value < 60 then Some(t) else None
  }

  lemma ShapeOfIso(t: DateTime)
    ensures HasShape(IsoFormat(t))
    ensures |IsoFormat(t)| == 25 <==> t.micro == 0
  {
    var s := IsoFormat(t);
    assert s[..10] == IsoDate(t) && s[11..19] == IsoClock(t) && s[|s| - 6..] == IsoOffset(t);
    assert s[..10][4] == '-' && s[..10][7] == '-' && s[11..19][2] == ':' && s[11..19][5] == ':';
    assert s[|s| - 6..][0] in "+-" && s[|s| - 6..][3] == ':';
  }

  lemma DateOfIso(t: DateTime)
    requires IsDateTime(t)
    ensures HasShape(IsoFormat(t))
    ensures var s := IsoFormat(t);
            NumberAt(s, 0, 4) == Some(t.year) && NumberAt(s, 5, 2) == Some(t.month) && NumberAt(s, 8, 2) == Some(t.day)
  {
    var s := IsoFormat(t);
    ShapeOfIso(t);
    assert s[..10] == IsoDate(t);
    assert s[0..4] == s[..10][0..4] == Digits(t.year, 4);
    assert s[5..7] == s[..10][5..7] == Digits(t.month, 2);
    assert s[8..10] == s[..10][8..10] == Digits(t.day, 2);
    assert Pow10(1) == 10 && Pow10(2) == 100 && Pow10(3) == 1000 && Pow10(4) == 10000;
    NumberOfDigits(t.year, 4);
    TwoDigits(t.month);
    TwoDigits(t.day);
  }

  lemma ClockOfIso(t: DateTime)
    requires IsDateTime(t)
    ensures HasShape(IsoFormat(t))
    ensures var s := IsoFormat(t);
            && NumberAt(s, 11, 2) == Some(t.hour) && NumberAt(s, 14, 2) == Some(t.minute)
            && NumberAt(s, 17, 2) == Some(t.second)
  {
    var s := IsoFormat(t);
    ShapeOfIso(t);
    assert s[11..19] == IsoClock(t);
    assert s[11..13] == s[11..19][0..2] == Digits(t.hour, 2);
    assert s[14..16] == s[11..19][3..5] == Digits(t.minute, 2);
    assert s[17..19] == s[11..19][6..8] == Digits(t.second, 2);
    TwoDigits(t.hour);
    TwoDigits(t.minute);
    TwoDigits(t.second);
  }

  lemma FractionOfIso(t: DateTime)
    requires IsDateTime(t)
    ensures HasShape(IsoFormat(t))
    ensures var s := IsoFormat(t);
            (if |s| == 25 then Some(0) else NumberAt(s, 20, 6)) == Some(t.micro)
  {
    var s := IsoFormat(t);
    ShapeOfIso(t);
    if t.micro != 0 {
      assert s[19..26] == IsoFraction(t);
      assert s[20..26] == s[19..26][1..7] == Digits(t.micro, 6);
      assert Pow10(4) == 10000 && Pow10(6) == 1_000_000;
      NumberOfDigits(t.micro, 6);
    }
  }

  lemma OffsetOfIso(t: DateTime)
    requires IsDateTime(t)
    ensures HasShape(IsoFormat(t))
    ensures var s, minutes := IsoFormat(t), if t.offset < 0 then -t.offset else t.offset;
            && NumberAt(s, |s| - 5, 2) == Some(minutes / 60) && NumberAt(s, |s| - 2, 2) == Some(minutes % 60)
            && s[|s| - 6] == if t.offset < 0 then '-' else '+'
  {
    var s, minutes := IsoFormat(t), if t.offset < 0 then -t.offset else t.offset;
    ShapeOfIso(t);
    assert s[|s| - 6..] == IsoOffset(t);
    assert s[|s| - 6] == s[|s| - 6..][0];
    assert s[|s| - 5..|s| - 3] == s[|s| - 6..][1..3] == Digits(minutes / 60, 2);
    assert s[|s| - 2..|s|] == s[|s| - 6..][4..6] == Digits(minutes % 60, 2);
    TwoDigits(minutes / 60);
    TwoDigits(minutes % 60);
  }

  /** Every datetime comes back from its ISO form, with or without microseconds, at any offset. */
  lemma FromIsoInvertsIso(t: DateTime)
    requires IsDateTime(t)
    ensures FromIsoFormat(IsoFormat(t)) == Some(t)
  {
    DateOfIso(t);
    ClockOfIso(t);
    FractionOfIso(t);
    OffsetOfIso(t);
  }
}
