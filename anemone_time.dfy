/** ms_to_anemone_time (src/utils.py): milliseconds to the "M:SS.FF" time stamps of the
    Anemone synchronisation files, computed on integers. */
module AnemoneTime {
  import opened Text
  import opened Wrappers

  /** The fraction of the minute, in hundredths of a second, rounded half up. It reaches
      6000 (written "60.00") for the last 5 ms of a minute. */
  function Centis(ms: int): (cs: nat)
    ensures cs <= 6000
    ensures cs * 10 <= ms % 60000 + 5 < cs * 10 + 10
  {
    (ms % 60000 + 5) / 10
  }

  /** Minutes (floor division, unpadded), a colon, then the seconds zero-padded to
      two digits with exactly two decimals. */
  function MsToAnemoneTime(ms: int): (r: string)
    ensures |r| >= 6
    ensures r[..|r| - 6] == IntToString(ms / 60000)
    ensures r[|r| - 6] == ':' && r[|r| - 3] == '.'
    ensures IsDigit(r[|r| - 5]) && IsDigit(r[|r| - 4]) && IsDigit(r[|r| - 2]) && IsDigit(r[|r| - 1])
  {
    var cs := Centis(ms);
    var tail := ":" + Pad2(cs / 100) + "." + Pad2(cs % 100);
    var r := IntToString(ms / 60000) + tail;
    assert r[..|r| - 6] == IntToString(ms / 60000);
    r
  }

  /** Reads a time stamp "M:SS.FF" with unsigned minutes back into milliseconds. */
  function ParseAnemoneTime(s: string): (r: Option<int>)
    ensures r.Some? ==> r.value >= 0
  {
    if |s| >= 7 && s[|s| - 6] == ':' && s[|s| - 3] == '.'
       && (forall i :: 0 <= i < |s| - 6 ==> IsDigit(s[i]))
       && IsDigit(s[|s| - 5]) && IsDigit(s[|s| - 4]) && IsDigit(s[|s| - 2]) && IsDigit(s[|s| - 1])
    then
      Some(ParseNat(s[..|s| - 6]) * 60000 + ParseNat(s[|s| - 5..|s| - 3]) * 1000 + ParseNat(s[|s| - 2..]) * 10)
    else None
  }

  lemma TailDigits(ms: int)
    ensures var r := MsToAnemoneTime(ms); var cs := Centis(ms);
      r[|r| - 5..|r| - 3] == Pad2(cs / 100) && r[|r| - 2..] == Pad2(cs % 100)
  {
  }

  /** Reading the time stamp of a non-negative duration gives it back rounded half up
      to a multiple of 10 ms. */
  lemma RoundTrip(ms: int)
    requires ms >= 0
    ensures ParseAnemoneTime(MsToAnemoneTime(ms)) == Some((ms + 5) / 10 * 10)
  {
    var r := MsToAnemoneTime(ms);
    var cs := Centis(ms);
    TailDigits(ms);
    ParseNatToString(ms / 60000);
    assert r[..|r| - 6] == NatToString(ms / 60000);
    ParseStamp(r);
    RoundedParts(ms);
  }

  /** A stamp of the written shape reads as its minutes, seconds and hundredths. */
  lemma ParseStamp(r: string)
    requires |r| >= 7 && r[|r| - 6] == ':' && r[|r| - 3] == '.'
    requires forall i :: 0 <= i < |r| - 6 ==> IsDigit(r[i])
    requires IsDigit(r[|r| - 5]) && IsDigit(r[|r| - 4]) && IsDigit(r[|r| - 2]) && IsDigit(r[|r| - 1])
    ensures ParseAnemoneTime(r)
         == Some(ParseNat(r[..|r| - 6]) * 60000 + ParseNat(r[|r| - 5..|r| - 3]) * 1000 + ParseNat(r[|r| - 2..]) * 10)
  {
  }

  /** The rounded duration is the minutes, the whole seconds and the hundredths. */
  lemma RoundedParts(ms: int)
    requires ms >= 0
    ensures (ms + 5) / 10 * 10 == ms / 60000 * 60000 + Centis(ms) / 100 * 1000 + Centis(ms) % 100 * 10
  {
    assert ms == ms / 60000 * 60000 + ms % 60000;
  }

  /** Division by a constant of a value whose quotient and remainder are known. */
  lemma DivModOf(x: int, n: int, q: int, r: int)
    requires n > 0 && x == n * q + r && 0 <= r < n
    ensures x / n == q && x % n == r
  {
    var q0, r0 := x / n, x % n;
    assert n * (q - q0) == r0 - r;
    if q > q0 {
      MulAtLeast(n, q - q0);
    } else if q < q0 {
      MulAtLeast(n, q0 - q);
    }
  }

  lemma MulAtLeast(n: int, d: int)
    requires n > 0 && d >= 1
    ensures n * d >= n
  {
  }

  lemma CentisOfHundredths(ms: int)
    requires ms >= 0 && ms % 10 == 0
    ensures Centis(ms) / 100 == ms % 60000 / 1000 && Centis(ms) % 100 == ms % 1000 / 10
  {
    var r := ms % 60000;
    var q := ms / 60000;
    var k := ms / 10;
    DivModOf(ms, 10, k, 0);
    var kr := k % 6000;
    DivModOf(ms, 60000, k / 6000, 10 * kr);
    DivModOf(r + 5, 10, kr, 5);
    var s, f := kr / 100, kr % 100;
    DivModOf(kr, 100, s, f);
    DivModOf(r, 1000, s, 10 * f);
    DivModOf(ms, 1000, 60 * (k / 6000) + s, 10 * f);
    DivModOf(10 * f, 10, f, 0);
  }

  /** A duration that is a whole number of hundredths is not moved by the rounding. */
  lemma HundredthsKept(ms: int)
    requires ms >= 0 && ms % 10 == 0
    ensures (ms + 5) / 10 * 10 == ms
  {
    DivModOf(ms, 10, ms / 10, 0);
    DivModOf(ms + 5, 10, ms / 10, 5);
  }

  /** A duration that is a whole number of hundredths is written exactly. */
  lemma ExactOnHundredths(ms: int)
    requires ms >= 0 && ms % 10 == 0
    ensures ParseAnemoneTime(MsToAnemoneTime(ms)) == Some(ms)
    ensures MsToAnemoneTime(ms)
         == NatToString(ms / 60000) + ":" + Pad2(ms % 60000 / 1000) + "." + Pad2(ms % 1000 / 10)
  {
    RoundTrip(ms);
    HundredthsKept(ms);
    CentisOfHundredths(ms);
  }

  /** Later times never get earlier stamps. */
  lemma Monotone(a: int, b: int)
    requires 0 <= a <= b
    ensures ParseAnemoneTime(MsToAnemoneTime(a)).Some? && ParseAnemoneTime(MsToAnemoneTime(b)).Some?
            && ParseAnemoneTime(MsToAnemoneTime(a)).value <= ParseAnemoneTime(MsToAnemoneTime(b)).value
  {
    RoundTrip(a);
    RoundTrip(b);
    DivTenMonotone(a + 5, b + 5);
  }

  lemma DivTenMonotone(x: int, y: int)
    requires x <= y
    ensures x / 10 * 10 <= y / 10 * 10
  {
  }

  /** In the last 5 ms of a minute the seconds are written "60.00" and the minute is
      not carried. */
  lemma MinuteEdge(ms: int)
    requires ms % 60000 >= 59995
    ensures MsToAnemoneTime(ms) == IntToString(ms / 60000) + ":60.00"
  {
    assert Centis(ms) == 6000;
    assert Pad2(60) == "60" && Pad2(0) == "00";
  }
}
