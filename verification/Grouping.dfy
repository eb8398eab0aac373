/** Thousands separators for the decision detail. */
module Grouping {
  // ---------- decimal numerals ----------

  function Digit(d: nat): char
    requires d < 10
  {
    ['0', '1', '2', '3', '4', '5', '6', '7', '8', '9'][d]
  }

  predicate IsDigit(c: char) { '0' <= c <= '9' }

  /** What the C library prints for an unsigned number. */
  function Decimal(v: nat): (s: string)
    ensures |s| >= 1 && forall i :: 0 <= i < |s| ==> IsDigit(s[i])
  {
    if v < 10 then [Digit(v)] else Decimal(v / 10) + [Digit(v % 10)]
  }

  function DigitValue(c: char): nat
    requires IsDigit(c)
  {
    c as int - '0' as int
  }

  ghost function Parse(s: string): nat
    requires forall i :: 0 <= i < |s| ==> IsDigit(s[i])
  {
    if s == "" then 0 else 10 * Parse(s[..|s| - 1]) + DigitValue(s[|s| - 1])
  }

  lemma {:induction false} ParseDecimal(v: nat)
    ensures Parse(Decimal(v)) == v
  {
    var s := Decimal(v);
    if v < 10 {
      assert s[..0] == "";
    } else {
      assert s[..|s| - 1] == Decimal(v / 10);
      ParseDecimal(v / 10);
    }
  }

  function Pow10(k: nat): nat { if k == 0 then 1 else 10 * Pow10(k - 1) }

  lemma {:induction false} DecimalLength(v: nat, k: nat)
    requires k >= 1 && v < Pow10(k)
    ensures |Decimal(v)| <= k
  {
    if v >= 10 {
      assert Pow10(k) == 10 * Pow10(k - 1);
      DecimalLength(v / 10, k - 1);
    }
  }

  const TWO_TO_64 := 0x1_0000_0000_0000_0000

  lemma Fits64(v: nat)
    requires v < TWO_TO_64
    ensures |Decimal(v)| <= 20
  {
    assert Pow10(5) == 100000;
    assert Pow10(10) == 100000 * 100000 by {
      assert Pow10(6) == 1000000 && Pow10(7) == 10000000 && Pow10(8) == 100000000;
    }
    assert Pow10(12) == 1000000000000;
    assert Pow10(14) == 100000000000000;
    assert Pow10(16) == 10000000000000000;
    assert Pow10(18) == 1000000000000000000;
    assert Pow10(20) == 100000000000000000000;
    DecimalLength(v, 20);
  }

  // ---------- grouping ----------

  ghost function StripCommas(s: string): string {
    if s == "" then "" else (if s[0] == ',' then "" else [s[0]]) + StripCommas(s[1..])
  }

  ghost predicate Digits(s: string) { forall i :: 0 <= i < |s| ==> IsDigit(s[i]) }

  /** Every fourth place, counted from 0 at the right. */
  ghost predicate CommaPlace(n: nat) { n % 4 == 3 }

  /** The length of `d` digits with their commas. */
  ghost function GroupedLength(d: nat): nat { if d == 0 then 0 else d + (d - 1) / 3 }

  lemma LengthArithmetic(d: nat)
    ensures CommaPlace(GroupedLength(d)) <==> d > 0 && d % 3 == 0
    ensures CommaPlace(GroupedLength(d)) ==> !CommaPlace(GroupedLength(d) + 1)
    ensures GroupedLength(d + 1) == GroupedLength(d) + (if d > 0 && d % 3 == 0 then 2 else 1)
  {
    var a, b := d / 3, d % 3;
    assert d == 3 * a + b;
    if b == 0 {
      if a > 0 { assert d - 1 == 3 * (a - 1) + 2 && GroupedLength(d) == 4 * a - 1; }
    } else {
      assert d - 1 == 3 * a + (b - 1) && GroupedLength(d) == 4 * a + b;
    }
  }

  /** `g` is `s` with a comma at every fourth place from the right and nowhere
      else, which is where the number of digits to the right is a positive
      multiple of three. */
  ghost predicate Groups(g: string, s: string) {
    && |g| == GroupedLength(|s|)
    && (forall i :: 0 <= i < |g| ==> (g[i] == ',' <==> CommaPlace(|g| - 1 - i)))
    && StripCommas(g) == s
  }

  ghost function DigitsIn(s: string): nat { |StripCommas(s)| }

  lemma StripStep(c: char, s: string)
    ensures StripCommas([c] + s) == (if c == ',' then "" else [c]) + StripCommas(s)
  {
    assert ([c] + s)[1..] == s;
  }

  /** One more digit in front. */
  lemma GroupsStep(g: string, s: string, c: char)
    requires Groups(g, s) && c != ','
    ensures Groups([c] + (if |s| > 0 && |s| % 3 == 0 then "," else "") + g, [c] + s)
  {
    hide CommaPlace, GroupedLength, StripCommas;
    LengthArithmetic(|s|);
    if |s| > 0 && |s| % 3 == 0 {
      StripStep(',', g);
      StripStep(c, "," + g);
      assert "" + s == s;
      assert [c] + "," + g == [c] + ("," + g);
    } else {
      StripStep(c, g);
      assert [c] + "" + g == [c] + g;
    }
  }

  lemma CommaArithmetic(n: nat)
    ensures var d := n - n / 4;
            && (CommaPlace(n) ==> d > 0 && d % 3 == 0)
            && (!CommaPlace(n) && d > 0 && d % 3 == 0 ==> n > 0 && CommaPlace(n - 1))
  {
    var m, r := n / 4, n % 4;
    assert n - n / 4 == 3 * m + r;
  }

  /** Commas stand exactly where the digits that follow are a positive multiple
      of three and the next character does not already separate them. */
  lemma CommaPlaces(g: string, s: string, i: nat)
    requires Groups(g, s) && i < |g|
    ensures g[i] == ',' ==> DigitsIn(g[i + 1..]) > 0 && DigitsIn(g[i + 1..]) % 3 == 0
    ensures g[i] != ',' && DigitsIn(g[i + 1..]) > 0 && DigitsIn(g[i + 1..]) % 3 == 0 ==> i + 1 < |g| && g[i + 1] == ','
  {
    hide CommaPlace, StripCommas, GroupedLength;
    SuffixDigits(g, i + 1);
    CommaArithmetic(|g| - 1 - i);
  }

  /** A suffix of length `n` of a grouped numeral holds `n - n / 4` digits. */
  lemma {:induction false} SuffixDigits(g: string, i: nat)
    requires i <= |g| && forall k :: 0 <= k < |g| ==> (g[k] == ',' <==> CommaPlace(|g| - 1 - k))
    ensures DigitsIn(g[i..]) == (|g| - i) - (|g| - i) / 4
    decreases |g| - i
  {
    if i < |g| {
      SuffixDigits(g, i + 1);
      assert g[i..][1..] == g[i + 1..];
    }
  }

  /** Nothing is lost: commas out, digits read, the value is back. */
  lemma GroupsRoundTrip(g: string, v: nat)
    requires Groups(g, Decimal(v))
    ensures Digits(StripCommas(g)) && Parse(StripCommas(g)) == v
  {
    ParseDecimal(v);
  }

  /** At most one text meets the description. */
  lemma {:induction false} GroupsUnique(g: string, h: string, s: string)
    requires Groups(g, s) && Groups(h, s)
    ensures g == h
  {
    SameShape(g, h);
  }

  lemma {:induction false} SameShape(g: string, h: string)
    requires |g| == |h| && StripCommas(g) == StripCommas(h)
    requires forall i :: 0 <= i < |g| ==> (g[i] == ',' <==> h[i] == ',')
    ensures g == h
  {
    if g != "" {
      assert g == [g[0]] + g[1..] && h == [h[0]] + h[1..];
      if g[0] != ',' {
        assert StripCommas(g)[0] == g[0] && StripCommas(g)[1..] == StripCommas(g[1..]);
        assert StripCommas(h)[0] == h[0] && StripCommas(h)[1..] == StripCommas(h[1..]);
      } else {
        assert "" + StripCommas(g[1..]) == StripCommas(g[1..]);
        assert "" + StripCommas(h[1..]) == StripCommas(h[1..]);
      }
      SameShape(g[1..], h[1..]);
    }
  }

  // ---------- the buffer code ----------

  /** What the first `o` slots of the reversed buffer read back as. */
  ghost function Backwards(out: seq<char>): string {
    seq(|out|, i requires 0 <= i < |out| => out[|out| - 1 - i])
  }

  lemma BackwardsStep(out: seq<char>, c: char)
    ensures Backwards(out + [c]) == [c] + Backwards(out)
  {
  }

  /** First loop: the digits from the right, a comma after every third. */
  method FillReversed(tmp: array<char>, len: nat, out: array<char>) returns (o: nat)
    requires 1 <= len <= 20 && len <= tmp.Length && out.Length >= 48 && tmp != out
    requires forall k :: 0 <= k < len ==> IsDigit(tmp[k])
    modifies out
    ensures o < 48 && Groups(Backwards(out[..o]), tmp[..len])
  {
    hide Groups, Backwards, CommaPlace;
    ghost var s := tmp[..len];
    var digits := 0;
    o := 0;
    Nothing();
    assert s[len..] == "" && out[..0] == [];
    var i := len - 1;
    while i >= 0
      invariant -1 <= i < len && digits == len - 1 - i && tmp[..len] == s
      invariant o == GroupedLength(digits)
      invariant Groups(Backwards(out[..o]), s[i + 1..])
    {
      ghost var g := Backwards(out[..o]);
      assert s[i] == tmp[i] && IsDigit(s[i]);
      GroupsStep(g, s[i + 1..], s[i]);
      LengthArithmetic(digits);
      assert s[i..] == [s[i]] + s[i + 1..];
      o := PutDigit(out, o, tmp[i], digits > 0 && digits % 3 == 0);
      assert [s[i]] + "" + g == [s[i]] + g;
      digits := digits + 1;
      i := i - 1;
    }
    assert s[0..] == s;
  }

  method PutDigit(out: array<char>, o0: nat, c: char, comma: bool) returns (o: nat)
    requires o0 + 2 <= out.Length
    modifies out
    ensures o == o0 + (if comma then 2 else 1)
    ensures Backwards(out[..o]) == [c] + (if comma then "," else "") + old(Backwards(out[..o0]))
  {
    hide Backwards;
    o := o0;
    ghost var before := out[..o];
    if comma {
      out[o] := ',';
      o := o + 1;
      assert out[..o] == before + [','];
      BackwardsStep(before, ',');
    }
    ghost var middle := out[..o];
    out[o] := c;
    o := o + 1;
    assert out[..o] == middle + [c];
    BackwardsStep(middle, c);
  }

  lemma Nothing()
    ensures Groups(Backwards([]), "")
  {
  }

  /** Second loop: the buffer read backwards. */
  method AppendBackwards(buf: string, out: array<char>, o: nat) returns (r: string)
    requires o <= out.Length
    ensures r == buf + Backwards(out[..o])
  {
    r := buf;
    ghost var all := Backwards(out[..o]);
    var i := o - 1;
    while i >= 0
      invariant -1 <= i < o && r == buf + all[..o - 1 - i]
    {
      assert out[i] == all[o - 1 - i];
      r := r + [out[i]];
      i := i - 1;
    }
  }

  /** Appends `value` with separators; both local buffers are large enough, and so
      the source's test of the printed length never fires. */
  method AppendGrouped(buf: string, value: nat) returns (r: string)
    requires value < TWO_TO_64
    ensures exists g :: r == buf + g && Groups(g, Decimal(value))
  {
    hide Groups, Backwards;
    var tmp := new char[32];
    var out := new char[48];
    var s := Decimal(value);
    var len := |s|;
    Fits64(value);
    for k := 0 to len
      invariant tmp[..k] == s[..k]
    {
      tmp[k] := s[k];
    }
    tmp[len] := '\0';
    assert tmp[..len] == s;
    var o := FillReversed(tmp, len, out);
    out[o] := '\0';
    r := AppendBackwards(buf, out, o);
  }
}
