/**
 * The clock shown beside the board. Most engines print elapsed seconds as
 * "MM:SS" (`Math.floor(s / 60)` and `s % 60`, each `padStart(2, '0')`); the
 * Buchka-Mykyta and Zhukov-Danylo engines print `min(s, 999)` padded to
 * three digits, and Hretskyi_Danylo_CS_31 does the same in its timer display.
 * Elapsed seconds are a non-negative whole count in every engine.
 */
module TimeFormat {

  predicate IsDigit(ch: char) {
    '0' <= ch <= '9'
  }

  predicate AllDigits(s: string) {
    forall i :: 0 <= i < |s| ==> IsDigit(s[i])
  }

  function Digit(d: nat): (ch: char)
    requires d < 10
    ensures IsDigit(ch) && ch as int - '0' as int == d
  {
    (('0' as int) + d) as char
  }

  /** `String(n)` for a whole number: its decimal digits, no sign, no leading zero. */
  function Decimal(n: nat): (s: string)
    ensures |s| >= 1 && AllDigits(s)
  {
    if n < 10 then [Digit(n)] else Decimal(n / 10) + [Digit(n % 10)]
  }

  /** The number a string of decimal digits denotes (leading zeros allowed). */
  function Value(s: string): nat
    requires AllDigits(s)
  {
    if s == [] then 0 else Value(s[..|s| - 1]) * 10 + (s[|s| - 1] as int - '0' as int)
  }

  /** `s.padStart(width, fill)`. */
  function PadStart(s: string, width: nat, fill: char): (t: string)
    ensures |t| == if |s| < width then width else |s|
    ensures t[|t| - |s|..] == s
    ensures forall i :: 0 <= i < |t| - |s| ==> t[i] == fill
  {
    if |s| >= width then s else seq(width - |s|, _ => fill) + s
  }

  function Pow10(k: nat): nat {
    if k == 0 then 1 else 10 * Pow10(k - 1)
  }

  /** Reading the digits of n back gives n. */
  lemma {:induction false} DecimalValue(n: nat)
    ensures Value(Decimal(n)) == n
  {
    if n >= 10 {
      var s := Decimal(n / 10) + [Digit(n % 10)];
      assert s[..|s| - 1] == Decimal(n / 10);
      DecimalValue(n / 10);
    }
  }

  /** A number below 10^k has at most k digits. */
  lemma {:induction false} DecimalShort(n: nat, k: nat)
    requires k >= 1 && n < Pow10(k)
    ensures |Decimal(n)| <= k
  {
    if n >= 10 {
      DecimalShort(n / 10, k - 1);
    }
  }

  /** Leading zeros do not change the number. */
  lemma {:induction false} ZerosValue(s: string, t: string)
    requires AllDigits(t) && |s| <= |t| && t[|t| - |s|..] == s
    requires forall i :: 0 <= i < |t| - |s| ==> t[i] == '0'
    ensures AllDigits(s) && Value(t) == Value(s)
    decreases |s|
  {
    assert forall i :: 0 <= i < |s| ==> s[i] == t[|t| - |s| + i];
    if s == [] {
      ZerosOnly(t);
    } else {
      var s', t' := s[..|s| - 1], t[..|t| - 1];
      assert t'[|t'| - |s'|..] == s';
      ZerosValue(s', t');
    }
  }

  lemma {:induction false} ZerosOnly(t: string)
    requires forall i :: 0 <= i < |t| ==> t[i] == '0'
    ensures AllDigits(t) && Value(t) == 0
  {
    if t != [] {
      ZerosOnly(t[..|t| - 1]);
    }
  }

  /** Zero-padding to a width keeps the digits' value. */
  lemma PadValue(n: nat, width: nat)
    ensures AllDigits(PadStart(Decimal(n), width, '0'))
    ensures Value(PadStart(Decimal(n), width, '0')) == n
  {
    var d := Decimal(n);
    var t := PadStart(d, width, '0');
    forall i | 0 <= i < |t| ensures IsDigit(t[i]) {
      if i >= |t| - |d| {
        assert t[i] == t[|t| - |d|..][i - (|t| - |d|)];
      }
    }
    ZerosValue(Decimal(n), t);
    DecimalValue(n);
  }

  /** `formatTime(seconds)`: minutes and seconds, each zero-padded to two digits, joined by ':'. */
  function FormatTime(seconds: nat): string {
    PadStart(Decimal(seconds / 60), 2, '0') + ":" + PadStart(Decimal(seconds % 60), 2, '0')
  }

  /** Reading "MM:SS" back: everything before the last three characters is minutes. */
  function ParseTime(t: string): nat
    requires |t| >= 3 && AllDigits(t[..|t| - 3]) && AllDigits(t[|t| - 2..])
  {
    Value(t[..|t| - 3]) * 60 + Value(t[|t| - 2..])
  }

  /** "MM" ++ ":" ++ "SS" splits back into its two parts. */
  lemma JoinSplit(m: string, s: string, t: string)
    requires |m| >= 2 && AllDigits(m) && |s| == 2 && AllDigits(s) && t == m + ":" + s
    ensures |t| == |m| + 3 && t[|t| - 3] == ':' && t[..|t| - 3] == m && t[|t| - 2..] == s
    ensures AllDigits(t[..|t| - 3]) && AllDigits(t[|t| - 2..]) && ParseTime(t) == Value(m) * 60 + Value(s)
  {
    assert t[..|t| - 3] == m;
    assert t[|t| - 2..] == s;
  }

  /** A number zero-padded to two digits: two digits at least, exactly two below 100. */
  lemma TwoDigits(n: nat)
    ensures |PadStart(Decimal(n), 2, '0')| >= 2
    ensures n < 100 ==> |PadStart(Decimal(n), 2, '0')| == 2
    ensures AllDigits(PadStart(Decimal(n), 2, '0')) && Value(PadStart(Decimal(n), 2, '0')) == n
  {
    assert Pow10(2) == 100;
    if n < 100 {
      DecimalShort(n, 2);
    }
    PadValue(n, 2);
  }

  /**
   * The clock always ends in ':' and two digits below 60, shows at least two
   * minute digits (exactly two below 100 minutes), and reads back as the
   * seconds it was given.
   */
  lemma FormatTimeRoundTrip(seconds: nat)
    ensures |FormatTime(seconds)| >= 5
    ensures FormatTime(seconds)[|FormatTime(seconds)| - 3] == ':'
    ensures seconds < 6000 ==> |FormatTime(seconds)| == 5
    ensures AllDigits(FormatTime(seconds)[..|FormatTime(seconds)| - 3])
    ensures AllDigits(FormatTime(seconds)[|FormatTime(seconds)| - 2..])
    ensures Value(FormatTime(seconds)[|FormatTime(seconds)| - 2..]) < 60
    ensures ParseTime(FormatTime(seconds)) == seconds
  {
    var mins, secs := seconds / 60, seconds % 60;
    MinutesSeconds(seconds);
    TwoDigits(mins);
    TwoDigits(secs);
    var m, s := PadStart(Decimal(mins), 2, '0'), PadStart(Decimal(secs), 2, '0');
    JoinSplit(m, s, FormatTime(seconds));
  }

  lemma MinutesSeconds(seconds: nat)
    ensures (seconds / 60) * 60 + seconds % 60 == seconds && seconds % 60 < 60
    ensures seconds < 6000 ==> seconds / 60 < 100
  {
  }

  /** The three-digit clock: `String(Math.min(s, 999)).padStart(3, '0')`. */
  function Clock3(seconds: nat): string {
    PadStart(Decimal(if seconds < 999 then seconds else 999), 3, '0')
  }

  /** It is always three digits and reads back as the seconds, stopping at 999. */
  lemma Clock3Value(seconds: nat)
    ensures |Clock3(seconds)| == 3 && AllDigits(Clock3(seconds))
    ensures Value(Clock3(seconds)) == if seconds < 999 then seconds else 999
  {
    var n := if seconds < 999 then seconds else 999;
    DecimalShort(n, 3);
    PadValue(n, 3);
  }
}
