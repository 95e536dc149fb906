/**
 * formatTime: seconds to "HH:MM:SS" (neetMockTest/script.js, lines 174-179).
 * Each field is the decimal string of a non-negative integer, left-padded with
 * '0' to at least two characters (String.prototype.padStart(2, '0')).
 */
module TimeFormat {

  predicate IsDigit(c: char) {
    '0' <= c <= '9'
  }

  predicate AllDigits(s: string) {
    forall i :: 0 <= i < |s| ==> IsDigit(s[i])
  }

  function DigitChar(d: nat): (c: char)
    requires d < 10
    ensures IsDigit(c) && c as int - '0' as int == d
  {
    (d + '0' as int) as char
  }

  function DigitValue(c: char): (d: nat)
    requires IsDigit(c)
    ensures d < 10
  {
    c as int - '0' as int
  }

  /** Number.prototype.toString() on a non-negative integer: shortest decimal form. */
  function NatToString(n: nat): (s: string)
    ensures |s| >= 1 && AllDigits(s)
    ensures |s| == 1 <==> n < 10
    ensures n >= 10 ==> s[0] != '0'
    decreases n
  {
    if n < 10 then [DigitChar(n)] else NatToString(n / 10) + [DigitChar(n % 10)]
  }

  /** padStart(2, '0'): prepend zeros until the string is at least two characters long. */
  function PadStart2(s: string): (r: string)
    ensures |r| == if |s| >= 2 then |s| else 2
    ensures r[|r| - |s|..] == s
    ensures forall i :: 0 <= i < |r| - |s| ==> r[i] == '0'
  {
    if |s| >= 2 then s else seq(2 - |s|, _ => '0') + s
  }

  /** The value a decimal digit string denotes (leading zeros allowed). */
  function ParseDecimal(s: string): nat
    requires AllDigits(s)
  {
    if |s| == 0 then 0 else 10 * ParseDecimal(s[..|s| - 1]) + DigitValue(s[|s| - 1])
  }

  /** formatTime: always at least two hour digits, two minute digits and two second digits, colon-separated. */
  function FormatTime(seconds: nat): (t: string)
    ensures WellFormedTime(t)
  {
    var h, m, s := seconds / 3600, (seconds % 3600) / 60, seconds % 60;
    SplitSeconds(seconds);
    ParsePadded(h);
    ParsePadded(m);
    ParsePadded(s);
    JoinFields(PadStart2(NatToString(h)), PadStart2(NatToString(m)), PadStart2(NatToString(s)));
    PadStart2(NatToString(h)) + ":" + PadStart2(NatToString(m)) + ":" + PadStart2(NatToString(s))
  }

  /** The hours, minutes and seconds texts of "H..H:MM:SS". */
  function HoursText(t: string): string requires |t| >= 6 { t[..|t| - 6] }
  function MinutesText(t: string): string requires |t| >= 6 { t[|t| - 5..|t| - 3] }
  function SecondsText(t: string): string requires |t| >= 6 { t[|t| - 2..] }

  /** t has the shape of formatTime's output: at least two hour digits, two minute and two second digits. */
  predicate WellFormedTime(t: string) {
    |t| >= 8 && t[|t| - 3] == ':' && t[|t| - 6] == ':'
    && AllDigits(HoursText(t)) && AllDigits(MinutesText(t)) && AllDigits(SecondsText(t))
  }

  /** Reads "H..H:MM:SS" back into seconds; Malformed when the text is not of that shape. */
  function ParseTime(t: string): ParseResult {
    if WellFormedTime(t)
    then Parsed(3600 * ParseDecimal(HoursText(t)) + 60 * ParseDecimal(MinutesText(t)) + ParseDecimal(SecondsText(t)))
    else Malformed
  }

  datatype ParseResult = Parsed(seconds: nat) | Malformed

  /** Where the pieces of a joined "a:b:c" sit. */
  lemma JoinFields(a: string, b: string, c: string)
    requires |b| == 2 && |c| == 2
    ensures var t := a + ":" + b + ":" + c;
      |t| == |a| + 6 && t[|t| - 3] == ':' && t[|t| - 6] == ':'
      && HoursText(t) == a && MinutesText(t) == b && SecondsText(t) == c
  {
    var t := a + ":" + b + ":" + c;
    assert t[..|t| - 6] == a;
    assert t[|t| - 5..|t| - 3] == b;
    assert t[|t| - 2..] == c;
  }

  /** The hours, minutes and seconds fields recombine to the whole. */
  lemma SplitSeconds(seconds: nat)
    ensures (seconds % 3600) / 60 < 60 && seconds % 60 < 60
    ensures 3600 * (seconds / 3600) + 60 * ((seconds % 3600) / 60) + seconds % 60 == seconds
  {
    var r := seconds % 3600;
    assert seconds == 3600 * (seconds / 3600) + r;
    assert r == 60 * (r / 60) + r % 60;
    assert r % 60 == seconds % 60 by {
      assert seconds == 60 * (60 * (seconds / 3600) + r / 60) + r % 60;
    }
  }

  lemma {:induction false} ParseNatToString(n: nat)
    ensures ParseDecimal(NatToString(n)) == n
    decreases n
  {
    if n >= 10 {
      var a := NatToString(n / 10);
      var s := a + [DigitChar(n % 10)];
      assert s[..|s| - 1] == a;
      ParseNatToString(n / 10);
    }
  }

  lemma {:induction false} ParseLeadingZero(s: string)
    requires AllDigits(s)
    ensures AllDigits(['0'] + s) && ParseDecimal(['0'] + s) == ParseDecimal(s)
    decreases |s|
  {
    var z := ['0'] + s;
    assert AllDigits(z);
    if |s| == 0 {
      assert z[..0] == [];
    } else {
      assert z[..|z| - 1] == ['0'] + s[..|s| - 1];
      ParseLeadingZero(s[..|s| - 1]);
    }
  }

  /** A padded field reads back as the number it was built from. */
  lemma ParsePadded(n: nat)
    ensures AllDigits(PadStart2(NatToString(n)))
    ensures ParseDecimal(PadStart2(NatToString(n))) == n
    ensures n < 100 ==> |PadStart2(NatToString(n))| == 2
  {
    var s := NatToString(n);
    ParseNatToString(n);
    if |s| < 2 {
      assert PadStart2(s) == ['0'] + s;
      ParseLeadingZero(s);
    } else if n < 100 {
      var q := n / 10;
      assert |NatToString(q)| == 1;
    }
  }

  /** The three fields of the formatted text, and what they mean. */
  lemma FormatTimeFields(seconds: nat)
    ensures WellFormedTime(FormatTime(seconds))
    ensures ParseDecimal(HoursText(FormatTime(seconds))) == seconds / 3600
    ensures ParseDecimal(MinutesText(FormatTime(seconds))) == (seconds % 3600) / 60 < 60
    ensures ParseDecimal(SecondsText(FormatTime(seconds))) == seconds % 60 < 60
    ensures |FormatTime(seconds)| == 8 <==> seconds < 360000
  {
    var h, m, s := seconds / 3600, (seconds % 3600) / 60, seconds % 60;
    SplitSeconds(seconds);
    ParsePadded(h);
    ParsePadded(m);
    ParsePadded(s);
    var ph, pm, ps := PadStart2(NatToString(h)), PadStart2(NatToString(m)), PadStart2(NatToString(s));
    JoinFields(ph, pm, ps);
    assert FormatTime(seconds) == ph + ":" + pm + ":" + ps;
    if h >= 100 {
      assert |NatToString(h)| >= 3 by {
        assert |NatToString(h / 10)| >= 2;
      }
    }
  }

  /** formatTime loses nothing: h * 3600 + m * 60 + s gives back the input. */
  lemma FormatTimeRoundTrip(seconds: nat)
    ensures ParseTime(FormatTime(seconds)) == Parsed(seconds)
  {
    FormatTimeFields(seconds);
    SplitSeconds(seconds);
  }

  /** Distinct durations are displayed differently. */
  lemma FormatTimeInjective(a: nat, b: nat)
    requires FormatTime(a) == FormatTime(b)
    ensures a == b
  {
    FormatTimeRoundTrip(a);
    FormatTimeRoundTrip(b);
  }
}
