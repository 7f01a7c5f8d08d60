/** Text building blocks used by the recommendation messages: Python's
    `str(n)` and `f"{n:,.0f}"` on integers, and `sep.join(parts)` with the
    matching `str.split(sep)`. */
module Text {

  predicate IsDigit(c: char)
  {
    '0' <= c <= '9'
  }

  function DigitValue(c: char): nat
    requires IsDigit(c)
  {
    c as int - '0' as int
  }

  function DigitChar(d: nat): (c: char)
    requires d < 10
    ensures IsDigit(c) && DigitValue(c) == d
  {
    ('0' as int + d) as char
  }

  /** The value of the decimal digits of s read in order; every other
      character (the thousands separator) is skipped. */
  function DigitsValue(s: string): nat
  {
    if s == [] then 0
    else if IsDigit(s[|s| - 1]) then DigitsValue(s[..|s| - 1]) * 10 + DigitValue(s[|s| - 1])
    else DigitsValue(s[..|s| - 1])
  }

  /** Python `str(n)` for n >= 0: decimal digits, no leading zero. */
  function Decimal(n: nat): (s: string)
    ensures |s| >= 1 && (forall i :: 0 <= i < |s| ==> IsDigit(s[i]))
    ensures |s| > 1 ==> s[0] != '0'
  {
    if n < 10 then [DigitChar(n)] else Decimal(n / 10) + [DigitChar(n % 10)]
  }

  /** Python `str(i)` for any integer. */
  function IntToString(i: int): (s: string)
    ensures forall k :: 0 <= k < |s| ==> IsDigit(s[k]) || s[k] == '-'
  {
    if i < 0 then "-" + Decimal(-i) else Decimal(i)
  }

  /** Three digits with leading zeros, the groups after the first. */
  function Pad3(m: nat): (s: string)
    requires m < 1000
    ensures |s| == 3 && (forall i :: 0 <= i < 3 ==> IsDigit(s[i]))
  {
    [DigitChar(m / 100), DigitChar(m / 10 % 10), DigitChar(m % 10)]
  }

  /** Python `f"{n:,.0f}"` for a non-negative integer n: decimal digits with
      a comma before every group of three counted from the right. */
  function Grouped(n: nat): (s: string)
    ensures |s| >= 1 && (forall i :: 0 <= i < |s| ==> IsDigit(s[i]) || s[i] == ',')
    ensures IsDigit(s[0]) && (|s| > 1 ==> s[0] != '0')
  {
    if n < 1000 then Decimal(n) else Grouped(n / 1000) + "," + Pad3(n % 1000)
  }

  lemma {:induction false} DecimalRoundTrip(n: nat)
    ensures DigitsValue(Decimal(n)) == n
  {
    var s := Decimal(n);
    if n < 10 {
      assert s[..0] == [];
    } else {
      DecimalRoundTrip(n / 10);
      assert s[..|s| - 1] == Decimal(n / 10);
    }
  }

  /** Reading back the digits of the grouped rendering gives n again. */
  lemma {:induction false} GroupedRoundTrip(n: nat)
    ensures DigitsValue(Grouped(n)) == n
  {
    if n < 1000 {
      DecimalRoundTrip(n);
    } else {
      GroupedRoundTrip(n / 1000);
      GroupAppend(Grouped(n / 1000), n % 1000);
    }
  }

  /** Appending a comma and a padded group of three multiplies the value
      read so far by 1000 and adds the group. */
  lemma GroupAppend(a: string, m: nat)
    requires m < 1000
    ensures DigitsValue(a + "," + Pad3(m)) == DigitsValue(a) * 1000 + m
  {
    var p := Pad3(m);
    var q := DigitsValue(a);
    var a1 := a + [','];
    var a2 := a1 + [p[0]];
    var a3 := a2 + [p[1]];
    assert a + "," + p == a3 + [p[2]];
    DigitsValueSnoc(a, ',');
    assert DigitsValue(a1) == q;
    DigitsValueSnoc(a1, p[0]);
    assert DigitsValue(a2) == q * 10 + m / 100;
    DigitsValueSnoc(a2, p[1]);
    assert DigitsValue(a3) == (q * 10 + m / 100) * 10 + m / 10 % 10;
    DigitsValueSnoc(a3, p[2]);
    ThreeDigits(q, m);
  }

  lemma ThreeDigits(q: nat, m: nat)
    requires m < 1000
    ensures ((q * 10 + m / 100) * 10 + m / 10 % 10) * 10 + m % 10 == q * 1000 + m
  {
    var t := m / 10;
    assert m == 10 * t + m % 10;
    assert t == 10 * (t / 10) + t % 10;
    assert t / 10 == m / 100;
  }

  lemma DigitsValueSnoc(s: string, c: char)
    ensures DigitsValue(s + [c]) == if IsDigit(c) then DigitsValue(s) * 10 + DigitValue(c) else DigitsValue(s)
  {
    assert (s + [c])[..|s|] == s;
  }

  /** Python `sep.join(parts)`. */
  function Join(parts: seq<string>, sep: string): string
  {
    if |parts| == 0 then ""
    else if |parts| == 1 then parts[0]
    else parts[0] + sep + Join(parts[1..], sep)
  }

  /** Python `s.split(sep)` for a non-empty separator: cut at each leftmost
      non-overlapping occurrence of sep. */
  function Split(s: string, sep: string): (parts: seq<string>)
    requires |sep| > 0
    ensures |parts| >= 1
    decreases |s|
  {
    if |s| < |sep| then [s]
    else if s[..|sep|] == sep then [""] + Split(s[|sep|..], sep)
    else
      var rest := Split(s[1..], sep);
      [[s[0]] + rest[0]] + rest[1..]
  }

  /** A prefix free of the separator's first character is glued onto the
      first piece. */
  lemma {:induction false} SplitPrefix(p: string, t: string, sep: string)
    requires |sep| > 0 && sep[0] !in p
    ensures Split(p + t, sep) == [p + Split(t, sep)[0]] + Split(t, sep)[1..]
    decreases |p|
  {
    if p == [] {
      assert p + t == t;
      var r := Split(t, sep);
      assert p + r[0] == r[0];
      assert r == [r[0]] + r[1..];
    } else {
      var s := p + t;
      assert s[0] == p[0];
      assert s[1..] == p[1..] + t;
      SplitPrefix(p[1..], t, sep);
      if |s| < |sep| {
        assert |t| < |sep|;
      } else {
        assert s[..|sep|][0] != sep[0];
        var r := Split(t, sep);
        assert Split(s[1..], sep) == [p[1..] + r[0]] + r[1..];
        assert [s[0]] + (p[1..] + r[0]) == p + r[0];
      }
    }
  }

  lemma SplitSeparatorFirst(t: string, sep: string)
    requires |sep| > 0
    ensures Split(sep + t, sep) == [""] + Split(t, sep)
  {
    var s := sep + t;
    assert s[..|sep|] == sep;
    assert s[|sep|..] == t;
  }

  /** Join and Split are inverse when no part contains the separator's
      first character. */
  lemma {:induction false} SplitJoin(parts: seq<string>, sep: string)
    requires |sep| > 0 && |parts| >= 1
    requires forall i :: 0 <= i < |parts| ==> sep[0] !in parts[i]
    ensures Split(Join(parts, sep), sep) == parts
  {
    if |parts| == 1 {
      SplitPrefix(parts[0], "", sep);
      assert parts[0] + "" == parts[0];
    } else {
      var rest := Join(parts[1..], sep);
      SplitJoin(parts[1..], sep);
      SplitSeparatorFirst(rest, sep);
      assert parts[0] + sep + rest == parts[0] + (sep + rest);
      SplitPrefix(parts[0], sep + rest, sep);
      assert parts[0] + "" == parts[0];
      assert parts == [parts[0]] + parts[1..];
    }
  }
}
