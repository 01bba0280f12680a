/**
 * `formatDuration` of the video list card: seconds as `m:ss`, the minutes
 * unpadded and the seconds padded to two digits.
 */
module VideoCard {
  import opened Wrappers
  import opened JsString
  import VideoDetailCard

  /** `formatDuration(seconds)` for a whole, non-negative number of seconds. */
  function FormatDuration(seconds: nat): string {
    NatToString(seconds / 60) + ":" + PadStart(NatToString(seconds % 60), 2, '0')
  }

  /** Reads `m:ss` back: the digits before the first `:` are minutes, those after it seconds. */
  function ParseDuration(s: string): Option<nat> {
    match IndexOf(s, ":")
    case None => None
    case Some(c) =>
      if AllDigits(s[..c]) && AllDigits(s[c + 1..]) then Some(DigitsValue(s[..c]) * 60 + DigitsValue(s[c + 1..]))
      else None
  }

  /** The seconds field of a value below 60 has exactly two digits and keeps its value. */
  lemma SecondsField(s: nat)
    requires s < 60
    ensures var f := PadStart(NatToString(s), 2, '0');
      |f| == 2 && AllDigits(f) && DigitsValue(f) == s
  {
    var d := NatToString(s);
    DigitsValueOfNatToString(s);
    assert |d| <= 2 by {
      if s >= 10 {
        assert d == NatToString(s / 10) + [DigitChar(s % 10)];
      }
    }
    DigitsValueLeadingZeros(2 - |d|, d);
    assert PadStart(d, 2, '0') == seq(2 - |d|, _ => '0') + d;
  }

  /**
   * The shape of the text: minute digits, exactly one `:`, then exactly two
   * digits; the minutes read back as seconds / 60 and the two digits as a
   * value below 60, so minutes * 60 + seconds field is the input.
   */
  lemma FormatDurationShape(seconds: nat)
    ensures var r := FormatDuration(seconds);
      var c := |NatToString(seconds / 60)|;
      && r[c] == ':'
      && (forall k :: 0 <= k < |r| && k != c ==> r[k] != ':')
      && |r[c + 1..]| == 2 && AllDigits(r[..c]) && AllDigits(r[c + 1..])
      && DigitsValue(r[..c]) == seconds / 60
      && DigitsValue(r[c + 1..]) == seconds % 60 < 60
      && DigitsValue(r[..c]) * 60 + DigitsValue(r[c + 1..]) == seconds
  {
    var m := NatToString(seconds / 60);
    var f := PadStart(NatToString(seconds % 60), 2, '0');
    var r := FormatDuration(seconds);
    SecondsField(seconds % 60);
    DigitsValueOfNatToString(seconds / 60);
    assert r == m + ":" + f;
    assert r[..|m|] == m;
    assert r[|m| + 1..] == f;
    forall k | 0 <= k < |r| && k != |m|
      ensures r[k] != ':'
    {
      if k < |m| {
        assert r[k] == m[k];
        assert IsDigit(m[k]);
      } else {
        assert r[k] == f[k - |m| - 1];
        assert IsDigit(f[k - |m| - 1]);
      }
    }
  }

  /** Formatting then parsing gives the seconds back. */
  lemma ParseFormatDuration(seconds: nat)
    ensures ParseDuration(FormatDuration(seconds)) == Some(seconds)
  {
    var r := FormatDuration(seconds);
    var c := |NatToString(seconds / 60)|;
    FormatDurationShape(seconds);
    IndexOfChar(r, ':', c);
    assert ":" == [':'];
  }

  // ---------------- fractional durations ----------------

  /**
   * `formatDuration` as written, for any non-negative number of seconds:
   * the minutes are floor(x / 60) and the seconds field is
   * Math.round(x % 60), which for non-negative x is x - 60 * minutes.
   */
  function FormatSecondsAsWritten(x: real): string
    requires x >= 0.0
  {
    var minutes: nat := (x / 60.0).Floor;
    var rest := x - 60.0 * minutes as real;
    var secs: nat := VideoDetailCard.Round(rest);
    NatToString(minutes) + ":" + PadStart(NatToString(secs), 2, '0')
  }

  /** On whole seconds the code as written agrees with the whole-second model. */
  lemma AsWrittenAgreesOnWholeSeconds(seconds: nat)
    ensures FormatSecondsAsWritten(seconds as real) == FormatDuration(seconds)
  {
    var x := seconds as real;
    var q := seconds / 60;
    var m := seconds % 60;
    assert seconds == 60 * q + m;
    assert x == 60.0 * q as real + m as real;
    assert q as real <= x / 60.0 < q as real + 1.0;
    assert (x / 60.0).Floor == q;
    assert x - 60.0 * q as real == m as real;
    assert VideoDetailCard.Round(m as real) == m;
  }

  /**
   * A fractional duration just under a whole minute rounds its seconds field
   * up to 60: 59.6 seconds shows as `0:60` instead of `1:00`.
   */
  lemma FractionalMinuteShowsSixty()
    ensures FormatSecondsAsWritten(59.6) == "0:60"
  {
    assert (59.6 / 60.0).Floor == 0;
    assert VideoDetailCard.Round(59.6) == 60;
    assert NatToString(60) == "60" by {
      assert NatToString(6) == "6";
    }
    assert NatToString(0) == "0";
  }

  /**
   * The intended display: round the duration to whole seconds first, then
   * split it into minutes and seconds.
   */
  function FormatSeconds(x: real): string
    requires x >= 0.0
  {
    var total: nat := VideoDetailCard.Round(x);
    FormatDuration(total)
  }

  /**
   * Rounding first keeps the seconds field below 60, and the text reads back
   * as the duration rounded to the nearest second.
   */
  lemma FormatSecondsInRange(x: real)
    requires x >= 0.0
    ensures var r := FormatSeconds(x);
      var n := VideoDetailCard.Round(x);
      && n >= 0
      && ParseDuration(r) == Some(n)
      && (var c := |NatToString(n / 60)|; AllDigits(r[c + 1..]) && DigitsValue(r[c + 1..]) < 60)
  {
    var n := VideoDetailCard.Round(x);
    ParseFormatDuration(n);
    FormatDurationShape(n);
  }
}
