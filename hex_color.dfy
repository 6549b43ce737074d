/**
 * The integer part of `Color.init(hex:)` (RoofQuoter/ActivityListView.swift):
 * trim the string to its alphanumeric core, scan the leading hexadecimal
 * digits into a number, and split that number into alpha, red, green and
 * blue components according to the trimmed length.
 *
 * Characters are compared as ASCII: letters `a`-`z`, `A`-`Z` and digits
 * `0`-`9` are the alphanumerics, and the length of a string is its number of
 * characters. The conversion of the components to `Double` fractions of 255
 * is not part of this model.
 */
module HexColor {

  // ---------------------------------------------------------------------------
  // Trimming
  // ---------------------------------------------------------------------------

  predicate IsAlnum(c: char) {
    ('a' <= c <= 'z') || ('A' <= c <= 'Z') || ('0' <= c <= '9')
  }

  /** The first index at or after `i` that holds an alphanumeric, or `|s|`. */
  function FirstAlnum(s: string, i: nat): (k: nat)
    requires i <= |s|
    ensures i <= k <= |s|
    ensures forall j :: i <= j < k ==> !IsAlnum(s[j])
    ensures k < |s| ==> IsAlnum(s[k])
    decreases |s| - i
  {
    if i == |s| || IsAlnum(s[i]) then i else FirstAlnum(s, i + 1)
  }

  /** The end of the last alphanumeric in `s[lo..e]`, or `lo` when there is none. */
  function LastAlnumEnd(s: string, lo: nat, e: nat): (k: nat)
    requires lo <= e <= |s|
    ensures lo <= k <= e
    ensures forall j :: k <= j < e ==> !IsAlnum(s[j])
    ensures k > lo ==> IsAlnum(s[k - 1])
    decreases e
  {
    if e == lo || IsAlnum(s[e - 1]) then e else LastAlnumEnd(s, lo, e - 1)
  }

  /**
   * `s[lo..hi]` is what trimming keeps: everything outside it is not
   * alphanumeric, it starts and ends with an alphanumeric, and it is empty
   * only when `s` holds no alphanumeric at all.
   */
  predicate TrimmedAt(s: string, lo: nat, hi: nat) {
    && lo <= hi <= |s|
    && (forall i :: 0 <= i < lo ==> !IsAlnum(s[i]))
    && (forall i :: hi <= i < |s| ==> !IsAlnum(s[i]))
    && (lo < hi ==> IsAlnum(s[lo]) && IsAlnum(s[hi - 1]))
    && (lo == hi ==> forall i :: 0 <= i < |s| ==> !IsAlnum(s[i]))
  }

  /** Where trimming cuts. */
  function TrimBounds(s: string): (b: (nat, nat))
    ensures TrimmedAt(s, b.0, b.1)
  {
    var lo := FirstAlnum(s, 0);
    (lo, LastAlnumEnd(s, lo, |s|))
  }

  /**
   * `trimmingCharacters(in: CharacterSet.alphanumerics.inverted)`: the
   * non-alphanumerics are cut off both ends; inner characters are kept.
   */
  function Trim(s: string): (r: string)
    ensures |r| <= |s|
    ensures |r| > 0 ==> IsAlnum(r[0]) && IsAlnum(r[|r| - 1])
  {
    var b := TrimBounds(s);
    s[b.0..b.1]
  }

  /** The cut is determined by the characterization: any bounds that meet it are the ones `Trim` uses. */
  lemma TrimUnique(s: string, lo: nat, hi: nat)
    requires TrimmedAt(s, lo, hi)
    ensures Trim(s) == s[lo..hi]
  {
    var b := TrimBounds(s);
  }

  /** A string that already starts and ends with an alphanumeric is left alone. */
  lemma TrimKeepsAlnumEnds(s: string)
    requires |s| > 0 && IsAlnum(s[0]) && IsAlnum(s[|s| - 1])
    ensures Trim(s) == s
  {
    TrimUnique(s, 0, |s|);
    assert s[0..|s|] == s;
  }

  /** Trimming twice is trimming once. */
  lemma TrimIdempotent(s: string)
    ensures Trim(Trim(s)) == Trim(s)
  {
    var r := Trim(s);
    if |r| > 0 {
      TrimKeepsAlnumEnds(r);
    }
  }

  /** A leading `#` (or any other non-alphanumeric) is ignored. */
  lemma TrimIgnoresLeadingMark(c: char, s: string)
    requires !IsAlnum(c)
    ensures Trim([c] + s) == Trim(s)
  {
    var b := TrimBounds(s);
    ShiftedCut(c, s, b.0, b.1);
    TrimUnique([c] + s, b.0 + 1, b.1 + 1);
  }

  lemma ShiftedCut(c: char, s: string, lo: nat, hi: nat)
    requires !IsAlnum(c) && TrimmedAt(s, lo, hi)
    ensures TrimmedAt([c] + s, lo + 1, hi + 1)
    ensures ([c] + s)[lo + 1..hi + 1] == s[lo..hi]
  {
    var cs := [c] + s;
    assert forall i :: 0 < i <= |s| ==> cs[i] == s[i - 1];
    assert forall i :: 0 <= i < hi - lo ==> cs[lo + 1..hi + 1][i] == s[lo..hi][i];
  }

  // ---------------------------------------------------------------------------
  // Scanning the leading hexadecimal digits
  // ---------------------------------------------------------------------------

  predicate IsHexDigit(c: char) {
    ('0' <= c <= '9') || ('a' <= c <= 'f') || ('A' <= c <= 'F')
  }

  predicate AllHex(s: string) {
    forall i :: 0 <= i < |s| ==> IsHexDigit(s[i])
  }

  function DigitValue(c: char): (v: nat)
    requires IsHexDigit(c)
    ensures v < 16
  {
    if '0' <= c <= '9' then (c as int) - ('0' as int)
    else if 'a' <= c <= 'f' then (c as int) - ('a' as int) + 10
    else (c as int) - ('A' as int) + 10
  }

  function Pow16(k: nat): (p: nat)
    ensures p > 0
  {
    if k == 0 then 1 else 16 * Pow16(k - 1)
  }

  /** The number written by a string of hexadecimal digits, most significant first. */
  function HexNumber(s: string): (n: nat)
    requires AllHex(s)
    ensures n < Pow16(|s|)
  {
    if |s| == 0 then 0
    else HexNumber(s[..|s| - 1]) * 16 + DigitValue(s[|s| - 1])
  }

  /** The end of the run of hexadecimal digits that starts at `i`. */
  function HexRunEnd(s: string, i: nat): (k: nat)
    requires i <= |s|
    ensures i <= k <= |s|
    ensures forall j :: i <= j < k ==> IsHexDigit(s[j])
    ensures k < |s| ==> !IsHexDigit(s[k])
    decreases |s| - i
  {
    if i == |s| || !IsHexDigit(s[i]) then i else HexRunEnd(s, i + 1)
  }

  /**
   * `Scanner(string:).scanHexInt64(&int)` starting from 0: the value of the
   * leading run of hexadecimal digits, and 0 when there is none (the scan
   * fails and leaves `int` untouched).
   */
  function ScanHex(s: string): (n: nat)
    ensures n < Pow16(|s|)
  {
    var k := HexRunEnd(s, 0);
    assert AllHex(s[..k]) by {
      assert forall j :: 0 <= j < k ==> s[..k][j] == s[j];
    }
    Pow16Monotone(k, |s|);
    HexNumber(s[..k])
  }

  lemma {:induction false} Pow16Monotone(j: nat, k: nat)
    requires j <= k
    ensures Pow16(j) <= Pow16(k)
    decreases k
  {
    if j < k {
      Pow16Monotone(j, k - 1);
    }
  }

  /** When the whole string is hexadecimal, the scan reads all of it. */
  lemma ScanAllHex(s: string)
    requires AllHex(s)
    ensures ScanHex(s) == HexNumber(s)
  {
    assert s[..|s|] == s;
  }

  /** A string that does not start with a hexadecimal digit scans as 0. */
  lemma ScanNonHexStart(s: string)
    requires |s| > 0 && !IsHexDigit(s[0])
    ensures ScanHex(s) == 0
  {
  }

  /** Two hexadecimal digits make one byte. */
  function HexByte(hi: char, lo: char): (v: nat)
    requires IsHexDigit(hi) && IsHexDigit(lo)
    ensures v < 256
  {
    DigitValue(hi) * 16 + DigitValue(lo)
  }

  lemma TwoDigits(s: string)
    requires |s| == 2 && AllHex(s)
    ensures HexNumber(s) == HexByte(s[0], s[1])
  {
    assert s[..1][..0] == [];
  }

  // ---------------------------------------------------------------------------
  // Components
  // ---------------------------------------------------------------------------

  /** Alpha, red, green and blue as the unsigned integers the decoder computes. */
  datatype Argb = Argb(a: int, r: int, g: int, b: int)

  predicate IsByte(x: int) {
    0 <= x < 256
  }

  /**
   * The `switch` on the trimmed length over the scanned value `n`: 3
   * characters are 12-bit RGB with each nibble scaled by 17, 6 characters
   * are 24-bit RGB, 8 characters are 32-bit ARGB, and every other length is
   * opaque black. Shifts and masks on the non-negative value are division
   * and remainder by powers of two. When `n` has no more digits than the
   * length, every component is a byte.
   */
  function Components(len: nat, n: nat): (c: Argb)
    ensures n < Pow16(len) ==> IsByte(c.a) && IsByte(c.r) && IsByte(c.g) && IsByte(c.b)
  {
    assert Pow16(3) == 4096 && Pow16(6) == 0x100_0000 && Pow16(8) == 0x1_0000_0000;
    if len == 3 then Argb(255, (n / 256) * 17, (n / 16 % 16) * 17, (n % 16) * 17)
    else if len == 6 then Argb(255, n / 0x1_0000, n / 256 % 256, n % 256)
    else if len == 8 then Argb(n / 0x100_0000, n / 0x1_0000 % 256, n / 256 % 256, n % 256)
    else Argb(255, 0, 0, 0)
  }

  /** `Color.init(hex:)` up to the conversion to fractions; every component is a byte, whatever the input. */
  function Decode(hex: string): (c: Argb)
    ensures IsByte(c.a) && IsByte(c.r) && IsByte(c.g) && IsByte(c.b)
  {
    var t := Trim(hex);
    Components(|t|, ScanHex(t))
  }

  const OpaqueBlack := Argb(255, 0, 0, 0)

  /** Any trimmed length other than 3, 6 or 8 gives opaque black, whatever the characters. */
  lemma OtherLengthsAreOpaqueBlack(hex: string)
    requires |Trim(hex)| != 3 && |Trim(hex)| != 6 && |Trim(hex)| != 8
    ensures Decode(hex) == OpaqueBlack
  {
  }

  lemma ThreeNibbles(x0: nat, x1: nat, x2: nat)
    requires x0 < 16 && x1 < 16 && x2 < 16
    ensures Components(3, x0 * 256 + (x1 * 16 + x2)) == Argb(255, x0 * 17, x1 * 17, x2 * 17)
  {
    var n := x0 * 256 + (x1 * 16 + x2);
    assert n / 256 == x0;
    assert n == (x0 * 16 + x1) * 16 + x2;
    assert n / 16 == x0 * 16 + x1;
  }

  lemma ThreeBytes(x0: nat, x1: nat, x2: nat)
    requires x0 < 256 && x1 < 256 && x2 < 256
    ensures Components(6, (x0 * 256 + x1) * 256 + x2) == Argb(255, x0, x1, x2)
  {
    var m1 := x0 * 256 + x1;
    var n := m1 * 256 + x2;
    ByteSplit(m1, x2);
    ByteSplit(x0, x1);
    DivTwice(n);
  }

  lemma ByteSplit(hi: nat, lo: nat)
    requires lo < 256
    ensures (hi * 256 + lo) / 256 == hi && (hi * 256 + lo) % 256 == lo
  {
  }

  lemma DivTwice(n: nat)
    ensures n / 0x1_0000 == n / 256 / 256
    ensures n / 0x100_0000 == n / 0x1_0000 / 256
  {
  }

  lemma FourBytes(x0: nat, x1: nat, x2: nat, x3: nat)
    requires x0 < 256 && x1 < 256 && x2 < 256 && x3 < 256
    ensures Components(8, ((x0 * 256 + x1) * 256 + x2) * 256 + x3) == Argb(x0, x1, x2, x3)
  {
    var m2 := x0 * 256 + x1;
    var m1 := m2 * 256 + x2;
    var n := m1 * 256 + x3;
    ByteSplit(m1, x3);
    ByteSplit(m2, x2);
    ByteSplit(x0, x1);
    DivTwice(n);
  }

  /** The value of a string of hexadecimal digits, read two at a time. */
  lemma AllHexPrefix(s: string, k: nat)
    requires AllHex(s) && k <= |s|
    ensures AllHex(s[..k])
  {
    assert forall j :: 0 <= j < k ==> s[..k][j] == s[j];
  }

  lemma HexNumberLast(s: string)
    requires AllHex(s) && |s| > 0
    ensures AllHex(s[..|s| - 1])
    ensures HexNumber(s) == HexNumber(s[..|s| - 1]) * 16 + DigitValue(s[|s| - 1])
  {
    AllHexPrefix(s, |s| - 1);
  }

  lemma HexNumberByPairs(s: string)
    requires AllHex(s) && |s| >= 2
    ensures AllHex(s[..|s| - 2])
    ensures HexNumber(s) == HexNumber(s[..|s| - 2]) * 256 + HexByte(s[|s| - 2], s[|s| - 1])
  {
    var s1, s2 := s[..|s| - 1], s[..|s| - 2];
    AllHexPrefix(s, |s| - 1);
    AllHexPrefix(s, |s| - 2);
    assert s1[..|s1| - 1] == s2 && s1[|s1| - 1] == s[|s| - 2];
    var h, hi, lo := HexNumber(s2), DigitValue(s[|s| - 2]), DigitValue(s[|s| - 1]);
    assert HexNumber(s1) == h * 16 + hi;
    assert HexNumber(s) == HexNumber(s1) * 16 + lo;
    Regroup(h, hi, lo);
  }

  lemma Regroup(h: nat, hi: nat, lo: nat)
    ensures (h * 16 + hi) * 16 + lo == h * 256 + (hi * 16 + lo)
  {
  }


  lemma ThreeDigitValue(t: string)
    requires |t| == 3 && AllHex(t)
    ensures Components(3, ScanHex(t)) == Argb(255, DigitValue(t[0]) * 17, DigitValue(t[1]) * 17, DigitValue(t[2]) * 17)
  {
    ScanAllHex(t);
    HexNumberByPairs(t);
    assert t[..1][..0] == [];
    assert HexNumber(t[..1]) == DigitValue(t[0]);
    ThreeNibbles(DigitValue(t[0]), DigitValue(t[1]), DigitValue(t[2]));
  }

  lemma SixDigitValue(t: string)
    requires |t| == 6 && AllHex(t)
    ensures Components(6, ScanHex(t)) == Argb(255, HexByte(t[0], t[1]), HexByte(t[2], t[3]), HexByte(t[4], t[5]))
  {
    ScanAllHex(t);
    var t4, t2 := t[..4], t[..2];
    HexNumberByPairs(t);
    assert t[..|t| - 2] == t4;
    HexNumberByPairs(t4);
    assert t4[..|t4| - 2] == t2;
    TwoDigits(t2);
    ThreeBytes(HexByte(t[0], t[1]), HexByte(t[2], t[3]), HexByte(t[4], t[5]));
  }

  lemma EightDigitValue(t: string)
    requires |t| == 8 && AllHex(t)
    ensures Components(8, ScanHex(t)) == Argb(HexByte(t[0], t[1]), HexByte(t[2], t[3]), HexByte(t[4], t[5]), HexByte(t[6], t[7]))
  {
    ScanAllHex(t);
    var t6, t4, t2 := t[..6], t[..4], t[..2];
    HexNumberByPairs(t);
    assert t[..|t| - 2] == t6;
    HexNumberByPairs(t6);
    assert t6[..|t6| - 2] == t4;
    HexNumberByPairs(t4);
    assert t4[..|t4| - 2] == t2;
    TwoDigits(t2);
    FourBytes(HexByte(t[0], t[1]), HexByte(t[2], t[3]), HexByte(t[4], t[5]), HexByte(t[6], t[7]));
  }

  /** Three hexadecimal digits: opaque, each digit scaled by 17 (so `F` is 255). */
  lemma ThreeDigits(hex: string)
    requires var t := Trim(hex); |t| == 3 && AllHex(t)
    ensures var t := Trim(hex);
            Decode(hex) == Argb(255, DigitValue(t[0]) * 17, DigitValue(t[1]) * 17, DigitValue(t[2]) * 17)
  {
    ThreeDigitValue(Trim(hex));
  }

  /** Six hexadecimal digits: opaque, and the three digit pairs are red, green and blue. */
  lemma SixDigits(hex: string)
    requires var t := Trim(hex); |t| == 6 && AllHex(t)
    ensures var t := Trim(hex);
            Decode(hex) == Argb(255, HexByte(t[0], t[1]), HexByte(t[2], t[3]), HexByte(t[4], t[5]))
  {
    SixDigitValue(Trim(hex));
  }

  /** Eight hexadecimal digits: the digit pairs are alpha, red, green and blue. */
  lemma EightDigits(hex: string)
    requires var t := Trim(hex); |t| == 8 && AllHex(t)
    ensures var t := Trim(hex);
            Decode(hex) == Argb(HexByte(t[0], t[1]), HexByte(t[2], t[3]), HexByte(t[4], t[5]), HexByte(t[6], t[7]))
  {
    EightDigitValue(Trim(hex));
  }

  /** A `#` in front of alphanumerics is the only thing trimmed. */
  lemma TrimHashed(t: string)
    requires |t| > 0 && IsAlnum(t[0]) && IsAlnum(t[|t| - 1])
    ensures Trim(['#'] + t) == t
  {
    TrimIgnoresLeadingMark('#', t);
    TrimKeepsAlnumEnds(t);
  }

  /**
   * Only the leading hexadecimal run is read: in a six-character string with
   * a non-hexadecimal third character, the first two digits end up in blue.
   */
  lemma ScanStopsAtFirstNonHex()
    ensures Decode("#12G456") == Argb(255, 0, 0, 0x12)
  {
    var t := "12G456";
    assert "#12G456" == ['#'] + t;
    TrimHashed(t);
    ScanTwelve(t);
  }

  lemma ScanTwelve(t: string)
    requires t == "12G456"
    ensures ScanHex(t) == 0x12
  {
    assert HexRunEnd(t, 2) == 2;
    assert HexRunEnd(t, 0) == 2;
    assert t[..2] == "12";
    TwoDigits("12");
  }

  /** Eight characters that do not start with a hexadecimal digit give transparent black. */
  lemma EightNonHexIsTransparent(hex: string)
    requires var t := Trim(hex); |t| == 8 && !IsHexDigit(t[0])
    ensures Decode(hex) == Argb(0, 0, 0, 0)
  {
    ScanNonHexStart(Trim(hex));
  }

  /** The colour the app gives the seeded Push-ups type. */
  lemma PushUpsColour()
    ensures Decode("#FF5733") == Argb(255, 255, 0x57, 0x33)
  {
    var t := "FF5733";
    assert "#FF5733" == ['#'] + t;
    TrimHashed(t);
    assert AllHex(t);
    SixDigitValue(t);
  }
}
