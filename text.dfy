/**
 * The two text helpers of the process table: fitting the command name to its column,
 * and formatting a process's accumulated CPU time as "h:mm:ss" or "m:ss".
 */
module Text {

  import opened Wrappers

  // ---------------------------------------------------------------------------
  // Fitting a string to a column
  // ---------------------------------------------------------------------------

  /**
   * What fitting `s` into a column of `width` characters yields. A string that is too
   * long keeps its first `width - 3` characters and ends in "..."; when `width < 3`
   * that count wraps around as an unsigned size, so the whole string is kept and
   * "..." is still appended. A string that fits is padded on the right with spaces.
   */
  predicate IsFitted(s: string, width: nat, out: string)
  {
    if |s| > width then
      out == (if width >= 3 then s[..width - 3] else s) + "..."
    else
      |out| == width && out[..|s|] == s && forall k :: |s| <= k < width ==> out[k] == ' '
  }

  /** Fits `s` to `width` columns: truncates with an ellipsis, or pads with spaces. */
  method PadOrTrim(s: string, width: nat) returns (out: string)
    ensures IsFitted(s, width, out)
    ensures width >= 3 ==> |out| == width
  {
    if |s| > width {
      // `width - 3` is an unsigned size: below 3 it wraps to a huge count, and a
      // substring that long is the whole string
      var keep := if width >= 3 then width - 3 else |s|;
      return s[..keep] + "...";
    }
    out := s;
    while |out| < width
      invariant |s| <= |out| <= width
      invariant out[..|s|] == s
      invariant forall k :: |s| <= k < |out| ==> out[k] == ' '
    {
      out := out + " ";
    }
  }

  /** There is only one fitted form of a string for a given width. */
  lemma FittedUnique(s: string, width: nat, o1: string, o2: string)
    requires IsFitted(s, width, o1) && IsFitted(s, width, o2)
    ensures o1 == o2
  {
    if |s| <= width {
      forall k | 0 <= k < width
        ensures o1[k] == o2[k]
      {
        if k < |s| {
          assert o1[k] == o1[..|s|][k] && o2[k] == o2[..|s|][k];
        }
      }
    }
  }

  /** Text already fitted to a column of at least three characters is left as it is. */
  lemma FittedIdempotent(s: string, width: nat, out: string)
    requires width >= 3 && IsFitted(s, width, out)
    ensures IsFitted(out, width, out)
  {
  }

  // ---------------------------------------------------------------------------
  // Decimal digits
  // ---------------------------------------------------------------------------

  predicate IsDigit(c: char) { '0' <= c <= '9' }

  predicate AllDigits(s: string) { forall k :: 0 <= k < |s| ==> IsDigit(s[k]) }

  function DigitChar(d: nat): (c: char)
    requires d < 10
    ensures IsDigit(c) && (c as int) - ('0' as int) == d
  {
    (('0' as int) + d) as char
  }

  /** The value of a string of decimal digits, most significant first. */
  function DigitsValue(s: string): nat
    requires AllDigits(s)
  {
    if s == [] then 0 else DigitsValue(s[..|s| - 1]) * 10 + ((s[|s| - 1] as int) - ('0' as int))
  }

  /** The decimal rendering of a natural number, as a stream insertion writes it. */
  function DecimalString(n: nat): (r: string)
    ensures |r| >= 1 && AllDigits(r)
  {
    if n < 10 then [DigitChar(n)] else DecimalString(n / 10) + [DigitChar(n % 10)]
  }

  /** Reading back the digits of a number gives the number. */
  lemma {:induction false} DecimalRoundTrip(n: nat)
    ensures DigitsValue(DecimalString(n)) == n
  {
    if n >= 10 {
      var r := DecimalString(n);
      assert r[..|r| - 1] == DecimalString(n / 10);
      DecimalRoundTrip(n / 10);
    }
  }

  /** A decimal numeral as a stream insertion writes one: digits, no leading zero. */
  predicate IsDecimal(t: string)
  {
    |t| >= 1 && AllDigits(t) && (|t| == 1 || t[0] != '0')
  }

  /** The rendering of a number has no leading zero. */
  lemma {:induction false} DecimalNoLeadingZero(n: nat)
    ensures IsDecimal(DecimalString(n))
  {
    if n >= 10 {
      var r, q := DecimalString(n), DecimalString(n / 10);
      assert r[0] == q[0];
      if |q| == 1 {
        assert q == [DigitChar(n / 10)];
      } else {
        DecimalNoLeadingZero(n / 10);
      }
    }
  }

  /** A minute or second field: zero-padded to two digits below ten. */
  function TwoDigits(n: nat): string
  {
    (if n < 10 then "0" else "") + DecimalString(n)
  }

  lemma TwoDigitsShape(n: nat)
    requires n < 60
    ensures var r := TwoDigits(n); |r| == 2 && AllDigits(r) && DigitsValue(r) == n
  {
    var r := TwoDigits(n);
    DecimalRoundTrip(n);
    if n < 10 {
      assert r[..1] == "0";
    } else {
      assert DecimalString(n) == DecimalString(n / 10) + [DigitChar(n % 10)];
    }
  }

  // ---------------------------------------------------------------------------
  // h:mm:ss
  // ---------------------------------------------------------------------------

  /** Formats a whole number of seconds as "h:mm:ss", or as "m:ss" below one hour. */
  function SecondsToHms(total: nat): (r: string)
    ensures |r| >= 4 && r[|r| - 3] == ':'
  {
    var h := total / 3600;
    var m := (total % 3600) / 60;
    var s := total % 60;
    TwoDigitsShape(s);
    if h > 0 then DecimalString(h) + ":" + TwoDigits(m) + ":" + TwoDigits(s)
    else DecimalString(m) + ":" + TwoDigits(s)
  }

  /** Splits off a trailing ":dd" field: the text before it and the field's value. */
  function LastField(t: string): Option<(string, nat)>
  {
    if |t| >= 3 && t[|t| - 3] == ':' && AllDigits(t[|t| - 2..])
    then Some((t[..|t| - 3], DigitsValue(t[|t| - 2..])))
    else None
  }

  /**
   * Reads "h:mm:ss" or "m:ss" back into a number of seconds; the decoding partner of
   * SecondsToHms.
   */
  function ParseHms(t: string): Option<nat>
  {
    match LastField(t)
    case None => None
    case Some((head, secs)) =>
      if |head| >= 1 && AllDigits(head) then Some(DigitsValue(head) * 60 + secs)
      else
        match LastField(head)
        case None => None
        case Some((hours, mins)) =>
          if |hours| >= 1 && AllDigits(hours) then Some(DigitsValue(hours) * 3600 + mins * 60 + secs)
          else None
  }

  lemma HmsArithmetic(total: nat)
    ensures total == (total / 3600) * 3600 + ((total % 3600) / 60) * 60 + total % 60
    ensures (total % 3600) / 60 < 60
  {
    var r := total % 3600;
    assert total == (total / 3600) * 3600 + r;
    assert r == (r / 60) * 60 + r % 60;
    assert total % 60 == r % 60 by {
      assert total == ((total / 3600) * 60) * 60 + r;
    }
  }

  /** A two-digit field after a colon is split off as it was appended. */
  lemma SplitField(head: string, ss: string)
    requires |ss| == 2 && AllDigits(ss)
    ensures LastField(head + ":" + ss) == Some((head, DigitsValue(ss)))
  {
    var t := head + ":" + ss;
    assert t[..|t| - 3] == head;
    assert t[|t| - 2..] == ss;
  }

  /** Reading a "m:ss" form: the minutes field times 60 plus the seconds field. */
  lemma ParseMinutesForm(mm: string, ss: string)
    requires |mm| >= 1 && AllDigits(mm) && |ss| == 2 && AllDigits(ss)
    ensures var t := mm + ":" + ss;
      ParseHms(t) == Some(DigitsValue(mm) * 60 + DigitsValue(ss)) && t[..|t| - 3] == mm
  {
    SplitField(mm, ss);
  }

  /** Reading a "h:mm:ss" form: hours times 3600, minutes times 60, plus seconds. */
  lemma ParseHoursForm(hh: string, mm: string, ss: string)
    requires |hh| >= 1 && AllDigits(hh) && |mm| == 2 && AllDigits(mm) && |ss| == 2 && AllDigits(ss)
    ensures var t := hh + ":" + mm + ":" + ss;
      ParseHms(t) == Some(DigitsValue(hh) * 3600 + DigitsValue(mm) * 60 + DigitsValue(ss))
      && ':' in t[..|t| - 3]
  {
    var head := hh + ":" + mm;
    var t := head + ":" + ss;
    SplitField(head, ss);
    SplitField(hh, mm);
    assert LastField(t) == Some((head, DigitsValue(ss)));
    assert head[|hh|] == ':';
    assert !AllDigits(head);
    assert ParseHms(t) == Some(DigitsValue(hh) * 3600 + DigitsValue(mm) * 60 + DigitsValue(ss));
    assert t[..|t| - 3] == head;
  }

  /** The round trip of a time of at least one hour, which carries an hours field. */
  lemma HoursRoundTrip(total: nat)
    requires total >= 3600
    ensures var r := SecondsToHms(total);
      ParseHms(r) == Some(total) && ':' in r[..|r| - 3]
  {
    var h := total / 3600;
    var m := (total % 3600) / 60;
    var s := total % 60;
    HmsArithmetic(total);
    TwoDigitsShape(s);
    TwoDigitsShape(m);
    DecimalRoundTrip(h);
    var hh, mm, ss := DecimalString(h), TwoDigits(m), TwoDigits(s);
    assert SecondsToHms(total) == hh + ":" + mm + ":" + ss;
    ParseHoursForm(hh, mm, ss);
    assert DigitsValue(hh) * 3600 + DigitsValue(mm) * 60 + DigitsValue(ss) == total;
  }

  /** The round trip of a time below one hour, which has no hours field. */
  lemma MinutesRoundTrip(total: nat)
    requires total < 3600
    ensures var r := SecondsToHms(total);
      ParseHms(r) == Some(total) && ':' !in r[..|r| - 3]
  {
    var m := (total % 3600) / 60;
    var s := total % 60;
    HmsArithmetic(total);
    assert total / 3600 == 0;
    TwoDigitsShape(s);
    DecimalRoundTrip(m);
    var mm, ss := DecimalString(m), TwoDigits(s);
    assert SecondsToHms(total) == mm + ":" + ss;
    ParseMinutesForm(mm, ss);
    assert DigitsValue(mm) * 60 + DigitsValue(ss) == total;
  }

  /**
   * The fields of a time of at least one hour: the seconds of the minute, the minutes
   * of the hour, and in front the hours in decimal.
   */
  lemma HoursFields(total: nat)
    requires total >= 3600
    ensures var r := SecondsToHms(total); var head := r[..|r| - 3];
      && LastField(r) == Some((head, total % 60))
      && LastField(head).Some?
      && LastField(head).value.1 == (total % 3600) / 60
      && IsDecimal(LastField(head).value.0)
      && DigitsValue(LastField(head).value.0) == total / 3600
  {
    var h := total / 3600;
    var m := (total % 3600) / 60;
    var s := total % 60;
    HmsArithmetic(total);
    TwoDigitsShape(s);
    TwoDigitsShape(m);
    DecimalRoundTrip(h);
    DecimalNoLeadingZero(h);
    var hh, mm, ss := DecimalString(h), TwoDigits(m), TwoDigits(s);
    var head := hh + ":" + mm;
    var r := head + ":" + ss;
    assert SecondsToHms(total) == r;
    SplitField(head, ss);
    SplitField(hh, mm);
    assert r[..|r| - 3] == head;
  }

  /**
   * The fields of a time below one hour: the seconds of the minute, and in front the
   * minutes in decimal.
   */
  lemma MinutesFields(total: nat)
    requires total < 3600
    ensures var r := SecondsToHms(total); var head := r[..|r| - 3];
      && LastField(r) == Some((head, total % 60))
      && IsDecimal(head) && DigitsValue(head) == total / 60
  {
    var m := (total % 3600) / 60;
    var s := total % 60;
    assert total / 3600 == 0 && total % 3600 == total;
    TwoDigitsShape(s);
    DecimalRoundTrip(m);
    DecimalNoLeadingZero(m);
    var mm, ss := DecimalString(m), TwoDigits(s);
    var r := mm + ":" + ss;
    assert SecondsToHms(total) == r;
    SplitField(mm, ss);
    assert r[..|r| - 3] == mm;
  }

  /**
   * The formatted time reads back as the same number of seconds, it carries an hours
   * field exactly when the time is at least one hour, and its last field is the seconds
   * of the minute.
   */
  lemma HmsRoundTrip(total: nat)
    ensures ParseHms(SecondsToHms(total)) == Some(total)
    ensures total >= 3600 <==> ':' in SecondsToHms(total)[..|SecondsToHms(total)| - 3]
    ensures var r := SecondsToHms(total); LastField(r) == Some((r[..|r| - 3], total % 60))
  {
    if total >= 3600 {
      HoursRoundTrip(total);
      HoursFields(total);
    } else {
      MinutesRoundTrip(total);
      MinutesFields(total);
    }
  }
}
