/** `fmtTime`: seconds shown as minutes and seconds, each padded to two
    digits with `padStart(2, "0")`. */
module Clock {
  import opened Prelude

  /** `LIMIT_SECONDS`: ten minutes per level. */
  const LIMIT_SECONDS: nat := 10 * 60

  predicate IsDigit(ch: char) {
    '0' <= ch <= '9'
  }

  function DigitChar(d: nat): (ch: char)
    requires d < 10
    ensures IsDigit(ch)
  {
    (48 + d) as char
  }

  /** `String(n)` for a non-negative integer: its decimal digits, most
      significant first, without leading zeros. */
  function DecimalString(n: nat): (s: string)
    ensures |s| >= 1
    ensures forall i :: 0 <= i < |s| ==> IsDigit(s[i])
    ensures n < 10 ==> |s| == 1
    ensures 10 <= n < 100 ==> |s| == 2
  {
    if n < 10 then [DigitChar(n)] else DecimalString(n / 10) + [DigitChar(n % 10)]
  }

  /** `padStart(2, "0")`. */
  function PadStart2(s: string): (t: string)
    ensures |t| == if |s| < 2 then 2 else |s|
  {
    if |s| < 2 then seq(2 - |s|, _ => '0') + s else s
  }

  /** `padStart` only prepends: the padded string ends in `s`, and every
      character in front of it is `'0'`. */
  lemma PadStart2Pads(s: string)
    ensures var t := PadStart2(s);
      && t[|t| - |s|..] == s
      && forall i :: 0 <= i < |t| - |s| ==> t[i] == '0'
  {
    var t := PadStart2(s);
    if |s| < 2 {
      assert t == seq(2 - |s|, _ => '0') + s;
    }
  }

  /** `fmtTime(secs)`: `MM:SS`. */
  function FmtTime(secs: nat): (t: string)
    ensures |t| >= 5 && t[|t| - 3] == ':'
  {
    PadStart2(DecimalString(secs / 60)) + ":" + PadStart2(DecimalString(secs % 60))
  }

  /** The value of a string of decimal digits. */
  function DigitsValue(s: string): (n: nat)
    requires forall i :: 0 <= i < |s| ==> IsDigit(s[i])
  {
    if s == [] then 0
    else
      var last := s[|s| - 1];
      assert IsDigit(last);
      10 * DigitsValue(s[..|s| - 1]) + (last as int - '0' as int)
  }

  /** Reading a `MM:SS` (or longer `M...M:SS`) display back into seconds;
      a seconds field of 60 or more is not a display `fmtTime` can show. */
  function ParseTime(t: string): (r: Option<nat>) {
    if |t| >= 4 && t[|t| - 3] == ':'
       && (forall i :: 0 <= i < |t| - 3 ==> IsDigit(t[i]))
       && IsDigit(t[|t| - 2]) && IsDigit(t[|t| - 1])
       && DigitsValue(t[|t| - 2..]) < 60
    then Some(60 * DigitsValue(t[..|t| - 3]) + DigitsValue(t[|t| - 2..]))
    else None
  }

  lemma {:induction false} DecimalStringValue(n: nat)
    ensures DigitsValue(DecimalString(n)) == n
  {
    var s := DecimalString(n);
    if n >= 10 {
      DecimalStringValue(n / 10);
      assert s[..|s| - 1] == DecimalString(n / 10);
    }
  }

  /** A leading zero does not change the value. */
  lemma {:induction false} LeadingZeroValue(s: string)
    requires forall i :: 0 <= i < |s| ==> IsDigit(s[i])
    ensures DigitsValue(['0'] + s) == DigitsValue(s)
  {
    if s != [] {
      var t := ['0'] + s;
      assert t[..|t| - 1] == ['0'] + s[..|s| - 1];
      LeadingZeroValue(s[..|s| - 1]);
    } else {
      assert (['0'] + s)[..0] == [];
    }
  }

  lemma PaddedValue(n: nat)
    ensures forall i :: 0 <= i < |PadStart2(DecimalString(n))| ==> IsDigit(PadStart2(DecimalString(n))[i])
    ensures DigitsValue(PadStart2(DecimalString(n))) == n
  {
    var s := DecimalString(n);
    DecimalStringValue(n);
    if |s| < 2 {
      assert PadStart2(s) == ['0'] + s;
      LeadingZeroValue(s);
    }
  }

  /** The display always ends in two digits of seconds after a colon, and
      reading it back gives the number of seconds formatted. */
  lemma FmtTimeRoundTrip(secs: nat)
    ensures ParseTime(FmtTime(secs)) == Some(secs)
    ensures var t := FmtTime(secs);
      && (forall i :: 0 <= i < |t| - 3 ==> IsDigit(t[i]))
      && IsDigit(t[|t| - 2]) && IsDigit(t[|t| - 1])
      && DigitsValue(t[..|t| - 3]) == secs / 60
      && DigitsValue(t[|t| - 2..]) == secs % 60
  {
    var mm := PadStart2(DecimalString(secs / 60));
    var ss := PadStart2(DecimalString(secs % 60));
    var t := FmtTime(secs);
    assert |ss| == 2;
    PaddedValue(secs / 60);
    PaddedValue(secs % 60);
    assert t == mm + ":" + ss;
    assert t[..|t| - 3] == mm;
    assert t[|t| - 2..] == ss;
    assert t[|t| - 3] == ':';
    forall i | 0 <= i < |t| - 3 ensures IsDigit(t[i]) {
      assert t[i] == mm[i];
    }
  }

  /** Below 100 minutes, and so for every time a level can show, the display
      is exactly five characters `MM:SS`. */
  lemma FmtTimeWidth(secs: nat)
    requires secs < 6000
    ensures |FmtTime(secs)| == 5 && FmtTime(secs)[2] == ':'
  {
  }
}
