/** The two human-readable formats of `src/lib.rs`: an uptime in days, hours
    and minutes, and a byte count in the largest binary unit up to TB. */
module Units {
  import opened Base
  import opened Text

  // ---------------------------------------------------------------------
  // Uptime

  /** Whole days, the hours of the day and the minutes of the hour that
      `format_uptime` computes from a number of seconds. */
  function UptimeParts(seconds: nat): (p: (nat, nat, nat))
    ensures p.1 < 24 && p.2 < 60
    ensures 86400 * p.0 + 3600 * p.1 + 60 * p.2 <= seconds < 86400 * p.0 + 3600 * p.1 + 60 * p.2 + 60
  {
    var days := seconds / 86400;
    var hours := (seconds % 86400) / 3600;
    var minutes := (seconds % 3600) / 60;
    SecondsPastHour(seconds);
    (days, hours, minutes)
  }

  /** The seconds past the hour are the same counted from the day's start. */
  lemma SecondsPastHour(s: nat)
    ensures s % 3600 == (s % 86400) % 3600
  {
    var q, r := s / 86400, s % 86400;
    assert s == 86400 * q + r;
    var a, b := r / 3600, r % 3600;
    assert r == 3600 * a + b;
    assert s == 3600 * (24 * q + a) + b;
    ModOfHour(s, 24 * q + a, b);
  }

  lemma ModOfHour(x: int, q: int, r: int)
    requires 0 <= r < 3600 && x == 3600 * q + r
    ensures x % 3600 == r
  {
  }

  /** `format_uptime`: minutes only under an hour, hours and minutes under
      a day, else days, hours and minutes; seconds are dropped. */
  function FormatUptime(seconds: u64): string {
    var (d, h, m) := UptimeParts(seconds);
    if d == 0 && h == 0 then NatStr(m) + "m"
    else if d == 0 then NatStr(h) + ("h " + (NatStr(m) + "m"))
    else NatStr(d) + ("d " + (NatStr(h) + ("h " + (NatStr(m) + "m"))))
  }

  /** A number followed by `unit`, read off the front of `s`. */
  function ReadUnit(s: string, unit: string): Option<(nat, string)> {
    match ReadNat(s)
    case None => None
    case Some((n, rest)) => if StartsWith(rest, unit) then Some((n, rest[|unit|..])) else None
  }

  lemma ReadUnitOf(n: nat, unit: string, rest: string)
    requires unit != [] && !IsDigit(unit[0])
    ensures ReadUnit(NatStr(n) + (unit + rest), unit) == Some((n, rest))
  {
    ReadNatStr(n, unit + rest);
    assert (unit + rest)[..|unit|] == unit;
    assert (unit + rest)[|unit|..] == rest;
  }

  /** Reads days, hours and minutes back out of an uptime text. */
  function ParseUptime(r: string): Option<(nat, nat, nat)> {
    match ReadUnit(r, "m")
    case Some((m, tail)) => if tail == [] then Some((0, 0, m)) else None
    case None =>
      match ReadUnit(r, "h ")
      case Some((h, tail)) =>
        (match ReadUnit(tail, "m")
         case Some((m, t)) => if t == [] then Some((0, h, m)) else None
         case None => None)
      case None =>
        match ReadUnit(r, "d ")
        case None => None
        case Some((d, tail)) =>
          match ReadUnit(tail, "h ")
          case None => None
          case Some((h, tail2)) =>
            match ReadUnit(tail2, "m")
            case None => None
            case Some((m, t)) => if t == [] then Some((d, h, m)) else None
  }

  /** The text names the days, hours and minutes of the uptime. */
  lemma UptimeRoundTrip(seconds: u64)
    ensures ParseUptime(FormatUptime(seconds)) == Some(UptimeParts(seconds))
  {
    var (d, h, m) := UptimeParts(seconds);
    if d == 0 && h == 0 {
      ParseMinutes(m);
    } else if d == 0 {
      ParseHours(h, m);
    } else {
      ParseDays(d, h, m);
    }
  }

  lemma ParseMinutes(m: nat)
    ensures ParseUptime(NatStr(m) + "m") == Some((0, 0, m))
  {
    ReadUnitOf(m, "m", "");
    assert NatStr(m) + ("m" + "") == NatStr(m) + "m";
  }

  lemma ParseHours(h: nat, m: nat)
    ensures ParseUptime(NatStr(h) + ("h " + (NatStr(m) + "m"))) == Some((0, h, m))
  {
    var rest := NatStr(m) + "m";
    ReadNatStr(h, "h " + rest);
    ReadUnitOf(h, "h ", rest);
    ReadUnitOf(m, "m", "");
    assert NatStr(m) + ("m" + "") == rest;
  }

  lemma ParseDays(d: nat, h: nat, m: nat)
    ensures ParseUptime(NatStr(d) + ("d " + (NatStr(h) + ("h " + (NatStr(m) + "m"))))) == Some((d, h, m))
  {
    var rest := NatStr(m) + "m";
    var tail := NatStr(h) + ("h " + rest);
    ReadNatStr(d, "d " + tail);
    ReadUnitOf(d, "d ", tail);
    ReadUnitOf(h, "h ", rest);
    ReadUnitOf(m, "m", "");
    assert NatStr(m) + ("m" + "") == rest;
  }

  /** The parts are the uptime in whole minutes, split into days, hours
      and minutes. */
  lemma MinutesOfParts(seconds: nat)
    ensures var (d, h, m) := UptimeParts(seconds);
            seconds / 60 == 1440 * d + 60 * h + m
  {
  }

  lemma PartsUnique(d1: nat, h1: nat, m1: nat, d2: nat, h2: nat, m2: nat)
    requires h1 < 24 && m1 < 60 && h2 < 24 && m2 < 60
    requires 1440 * d1 + 60 * h1 + m1 == 1440 * d2 + 60 * h2 + m2
    ensures d1 == d2 && h1 == h2 && m1 == m2
  {
  }

  /** Two uptimes print the same exactly when they have the same number of
      whole minutes. */
  lemma FormatUptimeInjective(s: u64, t: u64)
    ensures FormatUptime(s) == FormatUptime(t) <==> s / 60 == t / 60
  {
    MinutesOfParts(s);
    MinutesOfParts(t);
    var (d1, h1, m1) := UptimeParts(s);
    var (d2, h2, m2) := UptimeParts(t);
    if FormatUptime(s) == FormatUptime(t) {
      UptimeRoundTrip(s);
      UptimeRoundTrip(t);
    }
    if s / 60 == t / 60 {
      PartsUnique(d1, h1, m1, d2, h2, m2);
    }
  }

  /** Under an hour only minutes are shown. */
  lemma UptimeUnderHour(seconds: u64)
    requires seconds < 3600
    ensures FormatUptime(seconds) == NatStr(seconds / 60) + "m"
  {
    var (d, h, m) := UptimeParts(seconds);
    assert d == 0 && h == 0;
    assert m == seconds / 60;
  }

  /** Under a day, hours and minutes. */
  lemma UptimeUnderDay(seconds: u64)
    requires 3600 <= seconds < 86400
    ensures FormatUptime(seconds) == NatStr(seconds / 3600) + "h " + NatStr(seconds % 3600 / 60) + "m"
  {
    var (d, h, m) := UptimeParts(seconds);
    assert d == 0 && h == seconds / 3600 && h > 0;
    assert NatStr(h) + ("h " + (NatStr(m) + "m")) == NatStr(h) + "h " + NatStr(m) + "m";
  }

  /** From a day on, the text starts with the whole days. */
  lemma UptimeDays(seconds: u64)
    requires 86400 <= seconds
    ensures StartsWith(FormatUptime(seconds), NatStr(seconds / 86400) + "d ")
  {
    var (d, h, m) := UptimeParts(seconds);
    var r := FormatUptime(seconds);
    var p := NatStr(d) + "d ";
    assert d > 0;
    assert r == p + (NatStr(h) + ("h " + (NatStr(m) + "m")));
    assert r[..|p|] == p;
  }

  lemma MinuteExamples()
    ensures FormatUptime(0) == "0m" && FormatUptime(30) == "0m" && FormatUptime(59) == "0m"
    ensures FormatUptime(60) == "1m" && FormatUptime(3599) == "59m"
  {
    UptimeUnderHour(0);
    UptimeUnderHour(30);
    UptimeUnderHour(59);
    UptimeUnderHour(60);
    UptimeUnderHour(3599);
    assert NatStr(59) == "59";
  }

  lemma HourExamples()
    ensures FormatUptime(3600) == "1h 0m" && FormatUptime(3660) == "1h 1m"
  {
    UptimeUnderDay(3600);
    UptimeUnderDay(3660);
  }

  /** From a day on, days, hours and minutes. */
  lemma UptimeFull(seconds: u64)
    requires 86400 <= seconds
    ensures FormatUptime(seconds)
            == NatStr(seconds / 86400) + "d " + NatStr(seconds % 86400 / 3600) + "h " + NatStr(seconds % 3600 / 60) + "m"
  {
    var (d, h, m) := UptimeParts(seconds);
    assert d > 0;
    assert NatStr(d) + ("d " + (NatStr(h) + ("h " + (NatStr(m) + "m"))))
           == NatStr(d) + "d " + NatStr(h) + "h " + NatStr(m) + "m";
  }

  lemma DayExamples()
    ensures FormatUptime(86400) == "1d 0h 0m" && FormatUptime(90061) == "1d 1h 1m"
    ensures FormatUptime(31536000) == "365d 0h 0m"
  {
    UptimeFull(86400);
    UptimeFull(90061);
    UptimeFull(31536000);
    assert NatStr(365) == "365";
  }

  // ---------------------------------------------------------------------
  // Byte counts

  const Units: seq<string> := ["B", "KB", "MB", "GB", "TB"]

  function Pow1024(k: nat): (p: nat)
    ensures p >= 1
  {
    if k == 0 then 1 else 1024 * Pow1024(k - 1)
  }

  lemma {:induction false} Pow1024Grows(i: nat, j: nat)
    requires i <= j
    ensures Pow1024(i) <= Pow1024(j)
    decreases j
  {
    if i < j {
      Pow1024Grows(i, j - 1);
    }
  }

  /** The unit `format_bytes` settles on: the largest unit, at most TB,
      that the count reaches. */
  function UnitIndex(bytes: nat): (k: nat)
    ensures k < |Units|
    ensures k > 0 ==> Pow1024(k) <= bytes
    ensures k < |Units| - 1 ==> bytes < Pow1024(k + 1)
  {
    if bytes < Pow1024(1) then 0
    else if bytes < Pow1024(2) then 1
    else if bytes < Pow1024(3) then 2
    else if bytes < Pow1024(4) then 3
    else 4
  }

  /** The conditions that define the unit pick exactly one. */
  lemma UnitIndexUnique(bytes: nat, k: nat)
    requires k < |Units|
    requires k > 0 ==> Pow1024(k) <= bytes
    requires k < |Units| - 1 ==> bytes < Pow1024(k + 1)
    ensures k == UnitIndex(bytes)
  {
    var u := UnitIndex(bytes);
    if k < u {
      Pow1024Grows(k + 1, u);
    } else if u < k {
      Pow1024Grows(u + 1, k);
    }
  }

  /** `format!("{:.1}")` of a non-negative value, by tenths: the nearest
      multiple of a tenth, ties to the even one. */
  function RoundTenths(v: real): (t: nat)
    requires v >= 0.0
    ensures t as real - 0.5 <= 10.0 * v <= t as real + 0.5
    ensures 10.0 * v == t as real + 0.5 || 10.0 * v == t as real - 0.5 ==> t % 2 == 0
  {
    var x := 10.0 * v;
    var f := x.Floor;
    if x - f as real > 0.5 || (x - f as real == 0.5 && f % 2 == 1) then f + 1 else f
  }

  function OneDecimal(v: real): string
    requires v >= 0.0
  {
    var t := RoundTenths(v);
    NatStr(t / 10) + ("." + [DigitChar(t % 10)])
  }

  /** Reads a number with one decimal back, in tenths. */
  function ReadTenths(s: string): Option<nat> {
    match ReadNat(s)
    case None => None
    case Some((n, rest)) =>
      if |rest| == 2 && rest[0] == '.' && IsDigit(rest[1]) then Some(10 * n + (rest[1] as int - '0' as int))
      else None
  }

  /** The decimal text denotes the value rounded to tenths. */
  lemma OneDecimalReads(v: real)
    requires v >= 0.0
    ensures ReadTenths(OneDecimal(v)) == Some(RoundTenths(v))
  {
    var t := RoundTenths(v);
    ReadNatStr(t / 10, "." + [DigitChar(t % 10)]);
  }

  /** What `format_bytes` prints, with the unit chosen by `UnitIndex`: the
      count itself in bytes, else the scaled value to one decimal. */
  function BytesText(bytes: u64): string {
    var k := UnitIndex(bytes);
    if k == 0 then NatStr(bytes) + " B"
    else OneDecimal(bytes as real / Pow1024(k) as real) + " " + Units[k]
  }

  /** `format_bytes`: divides by 1024 while the value reaches 1024 and a
      larger unit is left. */
  method FormatBytes(bytes: u64) returns (s: string)
    ensures s == BytesText(bytes)
  {
    if bytes == 0 {
      return "0 B";
    }
    var size: real := bytes as real;
    var unitIndex: nat := 0;
    while size >= 1024.0 && unitIndex < |Units| - 1
      invariant unitIndex < |Units|
      invariant size == bytes as real / Pow1024(unitIndex) as real
      invariant unitIndex > 0 ==> Pow1024(unitIndex) <= bytes
      decreases |Units| - unitIndex
    {
      ScaleStep(bytes, unitIndex, size);
      size := size / 1024.0;
      unitIndex := unitIndex + 1;
    }
    if unitIndex < |Units| - 1 {
      ScaleBelow(bytes, unitIndex, size);
    }
    UnitIndexUnique(bytes, unitIndex);
    if unitIndex == 0 {
      assert size.Floor == bytes;
      s := NatStr(size.Floor) + " " + Units[unitIndex];
    } else {
      s := OneDecimal(size) + " " + Units[unitIndex];
    }
  }

  lemma ScaleStep(bytes: nat, k: nat, size: real)
    requires size == bytes as real / Pow1024(k) as real && size >= 1024.0
    ensures size / 1024.0 == bytes as real / Pow1024(k + 1) as real
    ensures Pow1024(k + 1) <= bytes
  {
    var p := Pow1024(k) as real;
    assert bytes as real == size * p;
    assert bytes as real >= 1024.0 * p;
  }

  lemma ScaleBelow(bytes: nat, k: nat, size: real)
    requires size == bytes as real / Pow1024(k) as real && size < 1024.0
    ensures bytes < Pow1024(k + 1)
  {
    var p := Pow1024(k) as real;
    DivBelow(bytes as real, p, 1024.0);
    assert (1024 * Pow1024(k)) as real == 1024.0 * p;
    assert Pow1024(k + 1) == 1024 * Pow1024(k);
  }

  lemma DivBelow(x: real, p: real, c: real)
    requires p > 0.0 && x / p < c
    ensures x < c * p
  {
    assert x == (x / p) * p;
    MulBelow(x / p, c, p);
  }

  lemma MulBelow(a: real, b: real, p: real)
    requires a < b && p > 0.0
    ensures a * p < b * p
  {
    assert b * p - a * p == (b - a) * p;
  }

  /** Above the byte unit the printed value lies in [1, 1024), except in TB,
      which has no larger unit. */
  lemma ScaledValueRange(bytes: u64)
    requires UnitIndex(bytes) > 0
    ensures var k := UnitIndex(bytes);
            var v := bytes as real / Pow1024(k) as real;
            1.0 <= v && (k < |Units| - 1 ==> v < 1024.0)
  {
    var k := UnitIndex(bytes);
    var p := Pow1024(k) as real;
    var v := bytes as real / p;
    assert bytes as real == v * p;
  }

  /** A whole number of some unit prints with a zero decimal. */
  lemma WholeDecimal(n: nat)
    ensures OneDecimal(n as real) == NatStr(n) + ".0"
  {
    var t := RoundTenths(n as real);
    assert t == 10 * n;
    assert t / 10 == n && t % 10 == 0;
    assert NatStr(n) + ("." + [DigitChar(0)]) == NatStr(n) + ".0";
  }

  /** n units, for n from 1 to 1023 (or any n of TB), print as "n.0" and the unit. */
  lemma BytesOfWhole(n: nat, k: nat)
    requires 1 <= k < |Units| && 1 <= n && (n < 1024 || k == |Units| - 1)
    requires n * Pow1024(k) < 0x1_0000_0000_0000_0000
    ensures BytesText(n * Pow1024(k)) == NatStr(n) + ".0 " + Units[k]
  {
    var b := n * Pow1024(k);
    WholeUnitIndex(n, k);
    WholeValue(n, Pow1024(k));
    WholeDecimal(n);
    assert BytesText(b) == OneDecimal(n as real) + " " + Units[k];
    assert NatStr(n) + ".0" + " " + Units[k] == NatStr(n) + ".0 " + Units[k];
  }

  lemma WholeUnitIndex(n: nat, k: nat)
    requires 1 <= k < |Units| && 1 <= n && (n < 1024 || k == |Units| - 1)
    ensures UnitIndex(n * Pow1024(k)) == k
  {
    var p := Pow1024(k);
    MulBounds(n, p);
    assert Pow1024(k + 1) == 1024 * p;
    UnitIndexUnique(n * p, k);
  }

  lemma WholeValue(n: nat, p: nat)
    requires p >= 1
    ensures (n * p) as real / p as real == n as real
  {
    assert (n * p) as real == n as real * p as real;
  }

  lemma MulBounds(n: nat, p: nat)
    requires n >= 1 && p >= 1
    ensures p <= n * p
    ensures n < 1024 ==> n * p < 1024 * p
  {
    assert n * p - p == (n - 1) * p;
    assert 1024 * p - n * p == (1024 - n) * p;
  }

  lemma BytesExamples()
    ensures BytesText(0) == "0 B" && BytesText(512) == "512 B" && BytesText(1023) == "1023 B"
    ensures BytesText(1536) == "1.5 KB"
  {
    assert BytesText(0) == "0 B";
    assert BytesText(512) == "512 B" by { assert NatStr(512) == "512"; }
    assert BytesText(1023) == "1023 B" by { assert NatStr(1023) == "1023"; }
    assert BytesText(1536) == "1.5 KB" by {
      assert 1536 as real / 1024 as real == 1.5;
      assert RoundTenths(1.5) == 15;
    }
  }

  lemma KilobyteExamples()
    ensures BytesText(1024) == "1.0 KB" && BytesText(1047552) == "1023.0 KB"
  {
    assert Pow1024(1) == 1024;
    BytesOfWhole(1, 1);
    BytesOfWhole(1023, 1);
    assert NatStr(1023) == "1023";
  }

  lemma MegabyteExamples()
    ensures BytesText(1048576) == "1.0 MB"
  {
    WholeExample(1, 2, 1048576, "1.0 MB");
  }

  lemma GigabyteExamples()
    ensures BytesText(1073741824) == "1.0 GB"
  {
    WholeExample(1, 3, 1073741824, "1.0 GB");
  }

  lemma TwoGigabytesExample()
    ensures BytesText(2147483648) == "2.0 GB"
  {
    assert Pow1024(3) == 1073741824;
    WholeExample(2, 3, 2147483648, "2.0 GB");
  }

  lemma TerabyteExamples()
    ensures BytesText(1099511627776) == "1.0 TB"
  {
    WholeExample(1, 4, 1099511627776, "1.0 TB");
  }

  /** One instance of `BytesOfWhole`, with the count and the text given. */
  lemma WholeExample(n: nat, k: nat, b: u64, text: string)
    requires 1 <= k < |Units| && 1 <= n && (n < 1024 || k == |Units| - 1)
    requires b as int == n * Pow1024(k) && text == NatStr(n) + ".0 " + Units[k]
    ensures BytesText(b) == text
  {
    BytesOfWhole(n, k);
  }
}
