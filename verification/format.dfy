/** The scoreboard's display formatters: period labels, minutes of play,
    the game clock and the shot clock. Times are integer milliseconds. */
module Format {
  import opened Wrappers
  import opened Text

  /** The remaining time the shot clock display switches resolution at. */
  const ShotPrecisionMs := 8000
  /** The remaining time the game clock display switches resolution at. */
  const GamePrecisionMs := 60000

  function Max0(ms: int): nat {
    if ms < 0 then 0 else ms
  }

  // ---------------------------------------------------------------------
  // Period labels

  /** Regulation periods read "第n節"; period 4 + k reads "OTk". */
  function PeriodLabel(n: int): string {
    if n <= 4 then "第" + IntToString(n) + "節" else "OT" + IntToString(n - 4)
  }

  /** Distinct periods get distinct labels, so the label identifies the period. */
  lemma PeriodLabelInjective(a: int, b: int)
    requires a >= 1 && b >= 1
    requires PeriodLabel(a) == PeriodLabel(b)
    ensures a == b
  {
    var la, lb := PeriodLabel(a), PeriodLabel(b);
    assert la[0] == (if a <= 4 then '第' else 'O');
    assert lb[0] == (if b <= 4 then '第' else 'O');
    if a <= 4 && b <= 4 {
      assert la[1] == DigitChar(a) && lb[1] == DigitChar(b);
    } else if a > 4 && b > 4 {
      assert la[2..] == NatToString(a - 4);
      assert lb[2..] == NatToString(b - 4);
      NatToStringInjective(a - 4, b - 4);
    }
  }

  // ---------------------------------------------------------------------
  // Clock strings and their reading

  /** "m:ss" for a whole number of seconds. */
  function MinSec(secs: nat): string {
    NatToString(secs / 60) + ":" + Pad2(NatToString(secs % 60))
  }

  /** Minutes played, "m:ss", truncated to the second; negative input shows 0:00. */
  function FmtMin(ms: int): string {
    MinSec(Max0(ms) / 1000)
  }

  /** The game clock: "m:ss" from one minute up, "m:ss.hh" (hundredths,
      truncated) below one minute. */
  function FmtGame(ms: int): string {
    var t := Max0(ms);
    var s := t / 1000;
    if s >= 60 then MinSec(s)
    else MinSec(s) + "." + Pad2(NatToString((t % 1000) / 10))
  }

  /** The shot clock as written: above 8 s it shows `Math.ceil(s|0)`, and
      since `s|0` is already whole this is the TRUNCATED second count;
      at or below 8 s it shows `s.toFixed(2)`, modelled as rounding half up
      to the hundredth (exact whenever `ms` is a multiple of 10). */
  function FmtShot(ms: int): string {
    var t := Max0(ms);
    if t > ShotPrecisionMs then NatToString(t / 1000)
    else Fixed2((t + 5) / 10)
  }

  /** A count of hundredths written as "s.hh". */
  function Fixed2(hundredths: nat): string {
    NatToString(hundredths / 100) + "." + Pad2(NatToString(hundredths % 100))
  }

  /** The whole-second value the shot display's change detector and the
      export header use: Math.ceil(ms / 1000). */
  function ShotWholeSecond(ms: int): int {
    (ms + 999) / 1000
  }

  /** The shot display with the ceiling the change detector uses. */
  function FmtShotCeil(ms: int): string {
    var t := Max0(ms);
    if t > ShotPrecisionMs then NatToString(ShotWholeSecond(t))
    else Fixed2((t + 5) / 10)
  }

  /** Reads "m:ss" or "m:ss.hh" back as hundredths of a second. */
  function ParseClock(s: string): Option<int> {
    ParseClockParts(SplitOn(s, ':'))
  }

  /** The minutes before the colon and the seconds after it. */
  function ParseClockParts(parts: seq<string>): Option<int> {
    if |parts| != 2 || parts[0] == "" || !AllDigits(parts[0]) then None
    else
      match ParseSecondsPart(parts[1])
      case None => None
      case Some(x) => Some(DigitsValue(parts[0]) * 6000 + x)
  }

  /** Reads the "ss" or "ss.hh" after the colon as hundredths of a second. */
  function ParseSecondsPart(r: string): Option<int> {
    if |r| == 2 && AllDigits(r) then Some(DigitsValue(r) * 100)
    else if |r| == 5 && AllDigits(r[..2]) && r[2] == '.' && AllDigits(r[3..]) then
      Some(DigitsValue(r[..2]) * 100 + DigitsValue(r[3..]))
    else None
  }

  /** Reads "s" or "s.hh" back as hundredths of a second. */
  function ParseSeconds(s: string): Option<int> {
    ParseSecondsParts(SplitOn(s, '.'))
  }

  /** The whole seconds before the dot and the hundredths after it. */
  function ParseSecondsParts(parts: seq<string>): Option<int>
    requires |parts| >= 1
  {
    if parts[0] == "" || !AllDigits(parts[0]) then None
    else if |parts| == 1 then Some(DigitsValue(parts[0]) * 100)
    else if |parts| == 2 && |parts[1]| == 2 && AllDigits(parts[1]) then
      Some(DigitsValue(parts[0]) * 100 + DigitsValue(parts[1]))
    else None
  }

  /** A number below 100 padded to two places is two digits of that value. */
  lemma Pad2Digits(n: nat)
    requires n < 100
    ensures |Pad2(NatToString(n))| == 2
    ensures AllDigits(Pad2(NatToString(n)))
    ensures DigitsValue(Pad2(NatToString(n))) == n
  {
    var d := NatToString(n);
    NatToStringRoundTrip(n);
    if n >= 10 {
      assert NatToString(n / 10) == [DigitChar(n / 10)];
      assert |d| == 2;
    } else {
      var p := Pad2(d);
      assert p == "0" + d;
      assert p[..1] == "0";
    }
  }

  lemma MinSecShape(secs: nat)
    ensures var parts := SplitOn(MinSec(secs), ':');
      && |parts| == 2
      && parts[0] == NatToString(secs / 60)
      && parts[1] == Pad2(NatToString(secs % 60))
  {
    Pad2Digits(secs % 60);
    var a, b := NatToString(secs / 60), Pad2(NatToString(secs % 60));
    assert ':' !in a by { assert AllDigits(a); }
    assert ':' !in b by { assert AllDigits(b); }
    SplitTwo(a, b, ':');
  }

  /** Reading the minutes display gives back the whole seconds it shows. */
  lemma {:induction false} FmtMinRoundTrip(ms: int)
    ensures ParseClock(FmtMin(ms)) == Some((Max0(ms) / 1000) * 100)
  {
    var secs := Max0(ms) / 1000;
    MinSecShape(secs);
    Pad2Digits(secs % 60);
    NatToStringRoundTrip(secs / 60);
    var ss := Pad2(NatToString(secs % 60));
    assert ParseSecondsPart(ss) == Some(DigitsValue(ss) * 100);
    ClockOfParts(FmtMin(ms), NatToString(secs / 60), ss);
    assert secs == 60 * (secs / 60) + secs % 60;
  }

  /** From one minute up the game clock shows exactly the minutes display. */
  lemma FmtGameWholeMinutes(ms: int)
    requires ms >= GamePrecisionMs
    ensures FmtGame(ms) == FmtMin(ms)
  {
  }

  /** Reading the game clock back gives whole seconds from one minute up and
      hundredths below it: the display never claims more time than remains,
      and loses less than one second (resp. one hundredth). */
  lemma {:induction false} FmtGameRoundTrip(ms: int)
    ensures ParseClock(FmtGame(ms)) ==
      Some(if Max0(ms) >= GamePrecisionMs then (Max0(ms) / 1000) * 100 else Max0(ms) / 10)
  {
    if Max0(ms) >= GamePrecisionMs {
      FmtGameAboveMinute(ms);
    } else {
      FmtGameBelowMinute(ms);
    }
  }

  lemma FmtGameAboveMinute(ms: int)
    requires Max0(ms) >= GamePrecisionMs
    ensures ParseClock(FmtGame(ms)) == Some((Max0(ms) / 1000) * 100)
  {
    assert FmtGame(ms) == FmtMin(ms);
    FmtMinRoundTrip(ms);
  }

  lemma FmtGameBelowMinute(ms: int)
    requires Max0(ms) < GamePrecisionMs
    ensures ParseClock(FmtGame(ms)) == Some(Max0(ms) / 10)
  {
    var t := Max0(ms);
    var s := t / 1000;
    assert FmtGame(ms) == MinSec(s) + "." + Pad2(NatToString((t % 1000) / 10));
    SubMinuteRoundTrip(s, (t % 1000) / 10);
    Hundredths(t);
  }

  /** Below a minute, "0:ss.hh" reads back as ss seconds and hh hundredths. */
  lemma SubMinuteRoundTrip(s: nat, h: nat)
    requires s < 60 && h < 100
    ensures ParseClock(MinSec(s) + "." + Pad2(NatToString(h))) == Some(s * 100 + h)
  {
    var hh := Pad2(NatToString(h));
    SubMinuteParts(s, h);
    MinSecFraction(s, hh);
    ClockWithFraction(NatToString(s / 60), Pad2(NatToString(s % 60)) + "." + hh);
  }

  /** The pieces of "0:ss.hh": a minute digit of value 0, and a colon-free
      seconds part worth ss seconds and hh hundredths. */
  lemma SubMinuteParts(s: nat, h: nat)
    requires s < 60 && h < 100
    ensures var a := NatToString(s / 60);
      var r := Pad2(NatToString(s % 60)) + "." + Pad2(NatToString(h));
      && |a| >= 1 && AllDigits(a) && DigitsValue(a) == 0
      && ':' !in r && ParseSecondsPart(r) == Some(s * 100 + h)
  {
    assert s / 60 == 0 && s % 60 == s;
    NatToStringRoundTrip(0);
    SecondsWithFraction(s, h);
  }

  /** "ss.hh" from two numbers below 100 reads back as their hundredths. */
  lemma SecondsWithFraction(s: nat, h: nat)
    requires s < 100 && h < 100
    ensures var r := Pad2(NatToString(s)) + "." + Pad2(NatToString(h));
      ':' !in r && ParseSecondsPart(r) == Some(s * 100 + h)
  {
    Pad2Digits(s);
    Pad2Digits(h);
    FractionValue(Pad2(NatToString(s)), Pad2(NatToString(h)), s, h);
  }

  /** Two digit pairs of values s and h around a dot: no colon, worth
      s seconds and h hundredths. */
  lemma FractionValue(ss: string, hh: string, s: nat, h: nat)
    requires |ss| == 2 && AllDigits(ss) && DigitsValue(ss) == s
    requires |hh| == 2 && AllDigits(hh) && DigitsValue(hh) == h
    ensures ':' !in ss + "." + hh && ParseSecondsPart(ss + "." + hh) == Some(s * 100 + h)
  {
    var r := ss + "." + hh;
    assert r[..2] == ss && r[2] == '.' && r[3..] == hh;
    NoColonInFraction(ss, hh);
    FractionParts(r, ss, hh, s * 100 + h);
  }

  /** Five characters "ss.hh" read as ss seconds and hh hundredths. */
  lemma FractionParts(r: string, ss: string, hh: string, w: int)
    requires |r| == 5 && r[..2] == ss && r[2] == '.' && r[3..] == hh
    requires AllDigits(ss) && AllDigits(hh) && w == DigitsValue(ss) * 100 + DigitsValue(hh)
    ensures ParseSecondsPart(r) == Some(w)
  {
  }

  /** "m:ss" followed by ".hh" is "m", the colon, then "ss.hh". */
  lemma MinSecFraction(s: nat, hh: string)
    ensures MinSec(s) + "." + hh == NatToString(s / 60) + [':'] + (Pad2(NatToString(s % 60)) + "." + hh)
  {
  }

  /** Digit groups around a dot hold no colon. */
  lemma NoColonInFraction(ss: string, hh: string)
    requires AllDigits(ss) && AllDigits(hh)
    ensures ':' !in ss + "." + hh
  {
  }

  /** "m:ss.hh" made of digit groups reads back as its hundredths. */
  lemma ClockWithFraction(a: string, r: string)
    requires |a| >= 1 && AllDigits(a) && ':' !in r
    requires ParseSecondsPart(r).Some?
    ensures ParseClock(a + [':'] + r) == Some(DigitsValue(a) * 6000 + ParseSecondsPart(r).value)
  {
    assert ':' !in a by { assert AllDigits(a); }
    SplitTwo(a, r, ':');
    ClockOfParts(a + [':'] + r, a, r);
  }

  /** A clock string whose colon splits it into minute digits and a readable
      seconds part reads as minutes and seconds together. */
  lemma ClockOfParts(s: string, a: string, r: string)
    requires SplitOn(s, ':') == [a, r]
    requires |a| >= 1 && AllDigits(a) && ParseSecondsPart(r).Some?
    ensures ParseClock(s) == Some(DigitsValue(a) * 6000 + ParseSecondsPart(r).value)
  {
    PartsValue(a, r);
  }

  /** Minute digits and a readable seconds part give minutes and seconds together. */
  lemma PartsValue(a: string, r: string)
    requires |a| >= 1 && AllDigits(a) && ParseSecondsPart(r).Some?
    ensures ParseClockParts([a, r]) == Some(DigitsValue(a) * 6000 + ParseSecondsPart(r).value)
  {
    var parts := [a, r];
    assert |parts| == 2 && parts[0] == a && parts[1] == r && a != "";
  }

  /** Whole seconds and truncated hundredths make up the truncated hundredth count. */
  lemma Hundredths(t: nat)
    ensures t / 10 == 100 * (t / 1000) + (t % 1000) / 10
  {
    assert t == 1000 * (t / 1000) + t % 1000;
  }

  lemma Fixed2Shape(hundredths: nat)
    ensures ParseSeconds(Fixed2(hundredths)) == Some(hundredths)
  {
    var a := NatToString(hundredths / 100);
    var b := Pad2(NatToString(hundredths % 100));
    Pad2Digits(hundredths % 100);
    NatToStringRoundTrip(hundredths / 100);
    DivModHundred(hundredths);
    SecondsWithHundredths(a, b, hundredths / 100, hundredths % 100, hundredths);
  }

  /** "s.hh" reads back as s * 100 + hh hundredths. */
  lemma SecondsWithHundredths(a: string, b: string, s: int, h: int, w: int)
    requires |a| >= 1 && AllDigits(a) && DigitsValue(a) == s
    requires |b| == 2 && AllDigits(b) && DigitsValue(b) == h
    requires w == s * 100 + h
    ensures ParseSeconds(a + "." + b) == Some(w)
  {
    NoDot(a);
    NoDot(b);
    SplitTwo(a, b, '.');
    SecondsOfParts([a, b], w);
  }

  /** Digits contain no dot. */
  lemma NoDot(a: string)
    requires AllDigits(a)
    ensures '.' !in a
  {
    assert forall i :: 0 <= i < |a| ==> IsDigit(a[i]);
  }

  /** Digits and two digits read as the seconds times 100 plus the hundredths. */
  lemma SecondsOfParts(parts: seq<string>, w: int)
    requires |parts| == 2 && |parts[0]| >= 1 && AllDigits(parts[0])
    requires |parts[1]| == 2 && AllDigits(parts[1])
    requires w == DigitsValue(parts[0]) * 100 + DigitsValue(parts[1])
    ensures ParseSecondsParts(parts) == Some(w)
  {
  }

  /** A plain run of digits reads as that many whole seconds. */
  lemma WholeSeconds(d: string, w: int)
    requires |d| >= 1 && AllDigits(d) && w == DigitsValue(d) * 100
    ensures ParseSeconds(d) == Some(w)
  {
    NoDot(d);
    SplitOnNoSep(d, '.');
    WholeSecondsPart([d], w);
  }

  lemma WholeSecondsPart(parts: seq<string>, w: int)
    requires |parts| == 1 && |parts[0]| >= 1 && AllDigits(parts[0])
    requires w == DigitsValue(parts[0]) * 100
    ensures ParseSecondsParts(parts) == Some(w)
  {
  }

  lemma DivModHundred(n: nat)
    ensures (n / 100) * 100 + n % 100 == n
  {
  }


  /** Reading the shot clock back: whole (truncated) seconds above 8 s, the
      exact hundredths at or below 8 s for times that are multiples of 10 ms. */
  lemma {:induction false} FmtShotRoundTrip(ms: int)
    requires Max0(ms) > ShotPrecisionMs || Max0(ms) % 10 == 0
    ensures ParseSeconds(FmtShot(ms)) ==
      Some(if Max0(ms) > ShotPrecisionMs then (Max0(ms) / 1000) * 100 else Max0(ms) / 10)
  {
    var t := Max0(ms);
    if t > ShotPrecisionMs {
      NatToStringRoundTrip(t / 1000);
      WholeSeconds(NatToString(t / 1000), (t / 1000) * 100);
    } else {
      assert (t + 5) / 10 == t / 10;
      Fixed2Shape((t + 5) / 10);
    }
  }

  /** Above 8 s the shot display never shows more time than remains, and
      shows a whole second less than the ceiling the rest of the program uses
      whenever the time is not a whole number of seconds. */
  lemma FmtShotUnderstates(ms: int)
    requires ms > ShotPrecisionMs
    ensures ParseSeconds(FmtShot(ms)) == Some((ms / 1000) * 100)
    ensures (ms / 1000) * 1000 <= ms
    ensures ms % 1000 != 0 ==> ms / 1000 == ShotWholeSecond(ms) - 1
  {
    FmtShotRoundTrip(ms);
  }

  /** Concrete instance: with 8.5 s left the display reads "8" while the
      whole-second detector (and the export header) reads 9. */
  lemma FmtShotTruncationWitness()
    ensures FmtShot(8500) == "8"
    ensures ShotWholeSecond(8500) == 9
  {
    assert NatToString(8) == "8";
  }

  /** The ceiling display agrees with the whole-second detector above 8 s and
      never shows less time than remains. */
  lemma {:induction false} FmtShotCeilAgrees(ms: int)
    requires ms > ShotPrecisionMs
    ensures ParseSeconds(FmtShotCeil(ms)) == Some(ShotWholeSecond(ms) * 100)
    ensures ShotWholeSecond(ms) * 1000 >= ms
    ensures ShotWholeSecond(ms) * 1000 < ms + 1000
  {
    var w := ShotWholeSecond(ms);
    NatToStringRoundTrip(w);
    WholeSeconds(NatToString(w), w * 100);
  }

  /** With 7.8 s left the shot clock reads "7.80" (two-decimal precision). */
  lemma FmtShotScenario()
    ensures FmtShot(7800) == "7.80"
  {
    assert Max0(7800) == 7800 && (7800 + 5) / 10 == 780;
    assert FmtShot(7800) == Fixed2(780);
    SevenEighty();
  }

  /** 780 hundredths are written "7.80". */
  lemma SevenEighty()
    ensures Fixed2(780) == "7.80"
  {
    assert NatToString(7) == "7";
    assert NatToString(80) == "80" by { assert NatToString(8) == "8"; }
    assert Pad2("80") == "80";
    assert 780 / 100 == 7 && 780 % 100 == 80;
    assert Fixed2(780) == "7" + "." + "80";
    assert "7" + "." + "80" == "7.80";
  }
}
