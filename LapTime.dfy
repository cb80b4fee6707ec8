/**
 * `format_time` of the results and best-lap displays: a lap or qualifying
 * time rendered as minutes, zero padded to two digits, a colon, and the
 * seconds with three decimals in a field of width five. Durations are whole
 * milliseconds here (see README), so the rendering is exact and can be read
 * back.
 */
module LapTime {
  import opened Options
  import opened Decimal

  /** The marker shown for a time that is not set (NaT). */
  const NotSet: string := "N/A"


  /** `f"{int(minutes):02}"` for the whole minutes of `ms`. */
  function MinutesText(ms: nat): string
  {
    ZeroPad(NatToString(ms / 60000), 2)
  }

  /** `f"{seconds:05.3f}"` for the part of `ms` below one minute. */
  function SecondsText(msInMinute: nat): string
  {
    ZeroPad(NatToString(msInMinute / 1000) + "." + ZeroPad(NatToString(msInMinute % 1000), 3), 5)
  }

  /** The formatted time: the not-set marker for a missing time, else `MM:S.mmm` or `MM:SS.mmm`. */
  function FormatLapTime(t: Option<nat>): string
  {
    match t
    case None => NotSet
    case Some(ms) => MinutesText(ms) + ":" + SecondsText(ms % 60000)
  }

  /** Index of the first occurrence of `c` in `s`. */
  function IndexOf(s: string, c: char): (r: Option<nat>)
    ensures r.Some? ==> r.value < |s| && s[r.value] == c
  {
    if s == [] then None
    else if s[0] == c then Some(0)
    else match IndexOf(s[1..], c)
      case None => None
      case Some(i) => Some(i + 1)
  }

  /** Reads a seconds field `S..S.mmm` with whole seconds below 60 as milliseconds. */
  function ParseSeconds(s: string): Option<nat>
  {
    match IndexOf(s, '.')
    case None => None
    case Some(j) => SecondsAndMillis(s[..j], s[j + 1..])
  }

  /** The whole seconds (below 60) and the three millisecond digits on either side of the point. */
  function SecondsAndMillis(seconds: string, millis: string): Option<nat>
  {
    if AllDigits(seconds) && |seconds| > 0 && ValueOf(seconds) < 60 && AllDigits(millis) && |millis| == 3
    then Some(ValueOf(seconds) * 1000 + ValueOf(millis))
    else None
  }

  /**
   * Reads a formatted time back: Some(None) for the not-set marker,
   * Some(Some(ms)) for `M..M:S..S.mmm` with seconds below 60, None otherwise.
   */
  function ParseLapTime(s: string): Option<Option<nat>>
  {
    if s == NotSet then Some(None)
    else match IndexOf(s, ':')
      case None => None
      case Some(i) => MinutesAndSeconds(s[..i], s[i + 1..])
  }

  /** The minutes (at least two digits) and the seconds field on either side of the colon. */
  function MinutesAndSeconds(minutes: string, seconds: string): Option<Option<nat>>
  {
    if AllDigits(minutes) && |minutes| >= 2 then
      match ParseSeconds(seconds)
      case None => None
      case Some(x) => Some(Some(ValueOf(minutes) * 60000 + x))
    else None
  }

  /** A character outside a digit string is not in it. */
  lemma NotInDigits(s: string, c: char)
    requires AllDigits(s) && !IsDigit(c)
    ensures c !in s
  {
  }

  /** Splitting `a + [c] + b` at the first `c` gives back `a` and `b` when `a` has no `c`. */
  lemma SplitAtFirst(a: string, c: char, b: string)
    requires c !in a
    ensures IndexOf(a + [c] + b, c) == Some(|a|)
    ensures (a + [c] + b)[..|a|] == a && (a + [c] + b)[|a| + 1..] == b
  {
    var s := a + [c] + b;
    if a != [] {
      assert s[1..] == a[1..] + [c] + b;
      SplitAtFirst(a[1..], c, b);
    }
  }

  /** The seconds field of `x` ms into a minute: whole seconds, a point, three digits. */
  lemma SecondsTextFields(x: nat)
    requires x < 60000
    ensures var sec := NatToString(x / 1000);
      var frac := ZeroPad(NatToString(x % 1000), 3);
      && SecondsText(x) == sec + ['.'] + frac
      && ValueOf(sec) < 60
      && AllDigits(frac) && |frac| == 3 && ValueOf(sec) * 1000 + ValueOf(frac) == x
  {
    var sec := NatToString(x / 1000);
    var frac := ZeroPad(NatToString(x % 1000), 3);
    ZeroPadValue(NatToString(x % 1000), 3);
    // the width-5 field never pads: "S.mmm" already has five characters
    assert |sec + "." + frac| >= 5;
    assert x == (x / 1000) * 1000 + x % 1000;
  }

  lemma ThousandsUnique(n: int, q: int, r: int)
    requires n == q * 1000 + r && 0 <= r < 1000
    ensures n / 1000 == q && n % 1000 == r
  {
  }

  /** Minutes, seconds within the minute and milliseconds recompose the duration. */
  lemma SplitDuration(ms: nat)
    ensures ms % 60000 / 1000 < 60
    ensures ms % 60000 % 1000 == ms % 1000
    ensures (ms / 60000) * 60000 + (ms % 60000 / 1000) * 1000 + ms % 1000 == ms
  {
    var q, x := ms / 60000, ms % 60000;
    var a, b := x / 1000, x % 1000;
    assert ms == q * 60000 + x;
    assert x == a * 1000 + b;
    ThousandsUnique(ms, q * 60 + a, b);
  }

  /** The layout of a formatted time: a minutes field, a colon and the seconds field. */
  lemma FormatFields(ms: nat)
    ensures var m := MinutesText(ms);
      && FormatLapTime(Some(ms)) == m + [':'] + SecondsText(ms % 60000)
      && AllDigits(m) && |m| >= 2 && ValueOf(m) == ms / 60000
  {
    ZeroPadValue(NatToString(ms / 60000), 2);
  }

  /**
   * The seconds field is below 60 and has no leading zero: it is five
   * characters wide below ten seconds (`01:5.123`) and six from ten on.
   */
  lemma SecondsField(ms: nat)
    ensures ms % 60000 / 1000 < 60
    ensures |SecondsText(ms % 60000)| == 5 <==> ms % 60000 < 10 * 1000
    ensures |SecondsText(ms % 60000)| <= 6
  {
    SplitDuration(ms);
    SecondsTextFields(ms % 60000);
  }

  /** ParseSeconds on a string whose first point has been located. */
  lemma ParseSecondsAt(t: string, j: nat, sec: string, frac: string)
    requires IndexOf(t, '.') == Some(j) && t[..j] == sec && t[j + 1..] == frac
    ensures ParseSeconds(t) == SecondsAndMillis(sec, frac)
  {
  }

  /** A seconds field built from its parts reads back as the milliseconds it renders. */
  lemma ParseSecondsFields(t: string, sec: string, frac: string)
    requires t == sec + ['.'] + frac
    requires AllDigits(sec) && |sec| > 0 && ValueOf(sec) < 60
    requires AllDigits(frac) && |frac| == 3
    ensures ParseSeconds(t) == Some(ValueOf(sec) * 1000 + ValueOf(frac))
  {
    NotInDigits(sec, '.');
    SplitAtFirst(sec, '.', frac);
    ParseSecondsAt(t, |sec|, sec, frac);
  }

  /** ParseLapTime on a string whose first colon has been located. */
  lemma ParseLapTimeAt(s: string, i: nat, m: string, rest: string)
    requires s != NotSet && IndexOf(s, ':') == Some(i) && s[..i] == m && s[i + 1..] == rest
    ensures ParseLapTime(s) == MinutesAndSeconds(m, rest)
  {
  }

  lemma MinutesAndSecondsValue(m: string, rest: string, x: nat, total: nat)
    requires AllDigits(m) && |m| >= 2 && ParseSeconds(rest) == Some(x)
    requires total == ValueOf(m) * 60000 + x
    ensures MinutesAndSeconds(m, rest) == Some(Some(total))
  {
  }

  /** A formatted time built from its parts reads back as the duration it renders. */
  lemma ParseLapTimeFields(s: string, m: string, rest: string, x: nat, total: nat)
    requires s == m + [':'] + rest
    requires AllDigits(m) && |m| >= 2 && ParseSeconds(rest) == Some(x)
    requires total == ValueOf(m) * 60000 + x
    ensures ParseLapTime(s) == Some(Some(total))
  {
    assert s != NotSet by { assert |s| > 3; }
    NotInDigits(m, ':');
    SplitAtFirst(m, ':', rest);
    ParseLapTimeAt(s, |m|, m, rest);
    MinutesAndSecondsValue(m, rest, x, total);
  }

  lemma MinutesSplit(ms: nat, minutes: nat)
    requires minutes == ms / 60000
    ensures minutes * 60000 + ms % 60000 == ms
  {
  }

  /** The seconds field reads back as the milliseconds into the minute. */
  lemma SecondsRoundTrip(x: nat)
    requires x < 60000
    ensures ParseSeconds(SecondsText(x)) == Some(x)
  {
    SecondsTextFields(x);
    ParseSecondsFields(SecondsText(x), NatToString(x / 1000), ZeroPad(NatToString(x % 1000), 3));
  }

  /** A formatted duration reads back as that duration. */
  lemma DurationRoundTrip(ms: nat)
    ensures ParseLapTime(FormatLapTime(Some(ms))) == Some(Some(ms))
  {
    FormatFields(ms);
    SecondsRoundTrip(ms % 60000);
    MinutesSplit(ms, ValueOf(MinutesText(ms)));
    ParseLapTimeFields(FormatLapTime(Some(ms)), MinutesText(ms), SecondsText(ms % 60000), ms % 60000, ms);
  }

  /** Reading a formatted time back gives the original, missing or not. */
  lemma FormatRoundTrip(t: Option<nat>)
    ensures ParseLapTime(FormatLapTime(t)) == Some(t)
  {
    if t.Some? {
      DurationRoundTrip(t.value);
    }
  }

  /** Consequence of the round trip: different times never share a rendering. */
  lemma FormatInjective(t: Option<nat>, u: Option<nat>)
    requires FormatLapTime(t) == FormatLapTime(u)
    ensures t == u
  {
    FormatRoundTrip(t);
    FormatRoundTrip(u);
  }

  lemma DigitScenarios()
    ensures NatToString(1) == "1" && NatToString(5) == "5" && NatToString(23) == "23"
    ensures NatToString(123) == "123" && NatToString(456) == "456"
  {
    assert NatToString(2) == "2" && NatToString(12) == "12" && NatToString(45) == "45";
  }

  lemma MinutesScenario()
    ensures MinutesText(65123) == "01" && MinutesText(83456) == "01"
  {
    assert NatToString(1) == "1";
    assert ZeroPad("1", 2) == ZeroPad("01", 2) == "01";
  }

  lemma SecondsScenarios()
    ensures SecondsText(5123) == "5.123"
    ensures SecondsText(23456) == "23.456"
  {
    DigitScenarios();
    assert ZeroPad("123", 3) == "123" && ZeroPad("456", 3) == "456";
    assert NatToString(5123 / 1000) + "." + ZeroPad(NatToString(5123 % 1000), 3) == "5.123";
    assert NatToString(23456 / 1000) + "." + ZeroPad(NatToString(23456 % 1000), 3) == "23.456";
    assert ZeroPad("5.123", 5) == "5.123";
    assert ZeroPad("23.456", 5) == "23.456";
  }

  /** 1:05.123 is shown as `01:5.123` (no zero before single-digit seconds); 1:23.456 as `01:23.456`. */
  lemma FormatScenarios()
    ensures FormatLapTime(None) == "N/A"
    ensures FormatLapTime(Some(65123)) == "01:5.123"
    ensures FormatLapTime(Some(83456)) == "01:23.456"
  {
    MinutesScenario();
    SecondsScenarios();
    assert 65123 % 60000 == 5123 && 83456 % 60000 == 23456;
  }
}
