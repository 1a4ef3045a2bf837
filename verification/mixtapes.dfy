/**
 * The public mixtape list: how each mixtape's duration, release date,
 * description and cover are shown. Loading the list from the database is
 * not modelled; the locale date formatter is a parameter.
 */
module Mixtapes {
  import opened Wrappers
  import opened Text

  const FallbackCover := "https://images.unsplash.com/photo-1571330735066-03aaa9429d89?w=800&q=80"

  /** JavaScript's `a % b` for a positive divisor: the remainder takes the sign of `a`. */
  function JsRemainder(a: int, b: nat): (r: int)
    requires b > 0
    ensures a >= 0 ==> 0 <= r < b
    ensures a < 0 ==> -(b as int) < r <= 0
    ensures (a - r) % (b as int) == 0
  {
    if a >= 0 then
      DivMod(a, b);
      a % b
    else
      DivMod(-a, b);
      -((-a) % b)
  }

  /** `n` minus its remainder is a multiple of `b`. */
  lemma DivMod(n: int, b: nat)
    requires b > 0
    ensures n - n % b == (b as int) * (n / b)
    ensures (n - n % b) % (b as int) == 0
    ensures (n % b - n) % (b as int) == 0
  {
    var q := n / b;
    assert n - n % b == b * q;
    assert (b * q) % b == 0 by {
      MultipleMod(q, b);
    }
    assert (-(b * q)) % b == 0 by {
      MultipleMod(-q, b);
      assert -(b * q) == b * (-q);
    }
  }

  /** A multiple of `b` leaves no remainder. */
  lemma MultipleMod(q: int, b: nat)
    requires b > 0
    ensures (b * q) % b == 0
  {
    var n := b * q;
    var k := q - n / b;
    assert b * k == n % b;
    assert k > 0 ==> b * k == b * (k - 1) + b;
    assert k > 0 ==> b * (k - 1) >= 0;
    assert k < 0 ==> b * k == -(b * (-k));
    assert k < 0 ==> b * (-k) > 0;
  }

  /**
   * `formatDuration`: "0:00" for a missing or zero duration, otherwise the
   * floored minutes, unpadded, a colon, and the remainder of the seconds
   * padded on the left with '0' to two characters.
   */
  function FormatDuration(seconds: Option<int>): (r: string)
    ensures seconds.None? || seconds == Some(0) ==> r == "0:00"
  {
    if seconds.None? || seconds.value == 0 then "0:00"
    else
      var mins := seconds.value / 60;
      var secs := JsRemainder(seconds.value, 60);
      IntToString(mins) + ":" + PadStart(IntToString(secs), 2, '0')
  }

  /** The two-character seconds field of a non-negative remainder below 60 holds its value. */
  lemma TwoDigitSeconds(secs: nat)
    requires secs < 60
    ensures var p := PadStart(NatToString(secs), 2, '0');
      |p| == 2 && AllDigits(p) && DigitsValue(p) == secs
  {
    var p := PadStart(NatToString(secs), 2, '0');
    if secs < 10 {
      assert NatToString(secs) == [DigitChar(secs)];
      assert p == ['0', DigitChar(secs)];
      assert p[..1] == ['0'];
      assert p[..1][..0] == [];
      assert DigitsValue(p[..1]) == 0;
    } else {
      assert NatToString(secs) == [DigitChar(secs / 10), DigitChar(secs % 10)] by {
        assert NatToString(secs / 10) == [DigitChar(secs / 10)];
      }
      DigitsValueOfNatToString(secs);
    }
  }

  /** For any natural number of seconds, the text is the minutes, ':' and the padded remainder. */
  lemma DurationText(s: nat)
    ensures FormatDuration(Some(s)) == NatToString(s / 60) + ":" + PadStart(NatToString(s % 60), 2, '0')
  {
    if s == 0 {
      assert NatToString(0) == "0";
      assert PadStart("0", 2, '0') == "00";
    } else {
      assert JsRemainder(s, 60) == s % 60;
      assert IntToString(s / 60) == NatToString(s / 60);
      assert IntToString(s % 60) == NatToString(s % 60);
    }
  }

  /**
   * For every natural number of seconds the text is minutes, ':' and exactly
   * two digits of seconds below 60; the minutes are the unpadded floor of
   * s / 60, and 60 times the minutes plus the seconds gives s back.
   */
  lemma {:induction false} DurationParts(s: nat)
    ensures var r := FormatDuration(Some(s)); var k := |r| - 3;
      |r| >= 4 && r[k] == ':' &&
      r[..k] == NatToString(s / 60) &&
      AllDigits(r[k + 1..]) && DigitsValue(r[k + 1..]) < 60 &&
      60 * DigitsValue(r[..k]) + DigitsValue(r[k + 1..]) == s
  {
    var m := NatToString(s / 60);
    var p := PadStart(NatToString(s % 60), 2, '0');
    DurationText(s);
    TwoDigitSeconds(s % 60);
    DigitsValueOfNatToString(s / 60);
    AroundColon(m, p);
    assert 60 * (s / 60) + s % 60 == s;
  }

  /** In `m:pp`, the colon is third from the end, with `m` before it and `pp` after it. */
  lemma AroundColon(m: string, p: string)
    requires |m| >= 1 && |p| == 2
    ensures var r := m + ":" + p; var k := |r| - 3;
      |r| >= 4 && r[k] == ':' && r[..k] == m && r[k + 1..] == p
  {
    var r := m + ":" + p;
    assert r[..|r| - 3] == m;
    assert r[|r| - 2..] == p;
  }

  /** An hour is shown as sixty minutes: the minutes are not wrapped into hours. */
  lemma HourIsSixtyMinutes()
    ensures FormatDuration(Some(3600)) == "60:00"
  {
    DurationText(3600);
    assert 3600 / 60 == 60 && 3600 % 60 == 0;
    assert NatToString(60) == "60" by {
      assert NatToString(6) == "6";
      assert DigitChar(0) == '0';
    }
    assert NatToString(0) == "0";
    assert PadStart("0", 2, '0') == "00";
    assert "60" + ":" + "00" == "60:00";
  }

  /** `formatDate`: nothing to show for a missing or empty date, otherwise the locale rendering. */
  function FormatDate(date: Option<string>, localeDate: string -> string): (r: string)
    ensures !Truthy(date) ==> r == ""
    ensures Truthy(date) ==> r == localeDate(date.value)
  {
    if !Truthy(date) then "" else localeDate(date.value)
  }

  /** The card's description: the genre, else the vibe, else nothing. */
  function Description(genre: Option<string>, vibe: Option<string>): (r: string)
    ensures r == "" <==> !Truthy(genre) && !Truthy(vibe)
    ensures r != "" ==> (genre.Some? && r == genre.value) || (vibe.Some? && r == vibe.value)
    ensures Truthy(genre) ==> r == genre.value
  {
    OrElse(genre, OrElse(vibe, ""))
  }

  /** The card's image: the cover URL, or a fixed picture when there is none. */
  function Cover(coverUrl: Option<string>): (r: string)
    ensures r != ""
    ensures Truthy(coverUrl) ==> r == coverUrl.value
    ensures !Truthy(coverUrl) ==> r == FallbackCover
  {
    OrElse(coverUrl, FallbackCover)
  }
}
