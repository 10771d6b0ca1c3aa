/** The Java string operations the wire decoder relies on: `String.split` on a delimiter that is one
    literal character, and `Long.parseLong`, together with the decimal rendering they invert. */
module JavaText {

  const LongMin: int := -0x8000_0000_0000_0000
  const LongMax: int := 0x7FFF_FFFF_FFFF_FFFF

  /** The pieces of `s` between occurrences of `d`, empty pieces included. */
  function SplitAll(s: string, d: char): (r: seq<string>)
    ensures |r| >= 1
    ensures forall i :: 0 <= i < |r| ==> d !in r[i]
  {
    if s == [] then [""]
    else
      var rest := SplitAll(s[1..], d);
      if s[0] == d then [""] + rest else [[s[0]] + rest[0]] + rest[1..]
  }

  /** The pieces put back together with `d` between each two. */
  function Join(ps: seq<string>, d: char): string
    requires |ps| >= 1
  {
    if |ps| == 1 then ps[0] else ps[0] + [d] + Join(ps[1..], d)
  }

  /** A split list without its trailing empty pieces. */
  function DropTrailingEmpty(r: seq<string>): (t: seq<string>)
    ensures |t| <= |r| && t == r[..|t|]
    ensures t != [] ==> t[|t| - 1] != ""
    ensures forall i :: |t| <= i < |r| ==> r[i] == ""
  {
    if r != [] && r[|r| - 1] == "" then DropTrailingEmpty(r[..|r| - 1]) else r
  }

  /** `s.split(d)` with Java's limit 0: the string itself when `d` does not occur in it, otherwise the
      pieces without the trailing empty ones (so `"."` splits into no piece at all). */
  function JavaSplit(s: string, d: char): (r: seq<string>)
    ensures forall i :: 0 <= i < |r| ==> d !in r[i]
    ensures r == [s] <==> d !in s
    ensures |r| <= 1 || r[|r| - 1] != ""
  {
    if d !in s then [s] else DropTrailingEmpty(SplitAll(s, d))
  }

  lemma {:induction false} SplitAllNoDelimiter(s: string, d: char)
    requires d !in s
    ensures SplitAll(s, d) == [s]
  {
    if s != [] {
      SplitAllNoDelimiter(s[1..], d);
      assert [s[0]] + s[1..] == s;
    }
  }

  /** A delimiter-free prefix `x` glues onto the first piece of whatever follows it. */
  lemma {:induction false} SplitAllPrefix(x: string, y: string, d: char)
    requires d !in x
    ensures SplitAll(x + y, d) == [x + SplitAll(y, d)[0]] + SplitAll(y, d)[1..]
  {
    if x != [] {
      SplitAllPrefix(x[1..], y, d);
      assert (x + y)[1..] == x[1..] + y;
      assert [x[0]] + (x[1..] + SplitAll(y, d)[0]) == x + SplitAll(y, d)[0];
    } else {
      assert x + y == y;
      assert x + SplitAll(y, d)[0] == SplitAll(y, d)[0];
      assert SplitAll(y, d) == [SplitAll(y, d)[0]] + SplitAll(y, d)[1..];
    }
  }

  /** Splitting undoes joining, when no piece contains the delimiter. */
  lemma {:induction false} SplitJoin(ps: seq<string>, d: char)
    requires |ps| >= 1 && forall i :: 0 <= i < |ps| ==> d !in ps[i]
    ensures SplitAll(Join(ps, d), d) == ps
  {
    if |ps| == 1 {
      SplitAllNoDelimiter(ps[0], d);
    } else {
      SplitJoin(ps[1..], d);
      var y := [d] + Join(ps[1..], d);
      SplitAllPrefix(ps[0], y, d);
      assert y[1..] == Join(ps[1..], d);
      assert ps[0] + [d] + Join(ps[1..], d) == ps[0] + y;
      assert y[0] == d && y == [d] + y[1..];
      assert SplitAll(y, d) == [""] + ps[1..];
      assert ps[0] + "" == ps[0];
      assert ps == [ps[0]] + ps[1..];
    }
  }

  /** Joining undoes splitting. */
  lemma {:induction false} JoinSplit(s: string, d: char)
    ensures Join(SplitAll(s, d), d) == s
  {
    if s != [] {
      JoinSplit(s[1..], d);
      var rest := SplitAll(s[1..], d);
      if s[0] == d {
        assert ([""] + rest)[1..] == rest;
        assert s == [d] + s[1..];
      } else {
        var r := [[s[0]] + rest[0]] + rest[1..];
        assert r[1..] == rest[1..];
        if |rest| == 1 {
          assert s == [s[0]] + s[1..];
        } else {
          assert Join(rest, d) == rest[0] + [d] + Join(rest[1..], d);
          assert s == [s[0]] + s[1..];
        }
      }
    }
  }

  /** `split` on a joined line gives back its pieces, when there are at least two and the last one
      is not empty. */
  lemma JavaSplitJoin(ps: seq<string>, d: char)
    requires |ps| >= 2 && ps[|ps| - 1] != ""
    requires forall i :: 0 <= i < |ps| ==> d !in ps[i]
    ensures JavaSplit(Join(ps, d), d) == ps
  {
    SplitJoin(ps, d);
    assert Join(ps, d) == ps[0] + [d] + Join(ps[1..], d);
    assert Join(ps, d)[|ps[0]|] == d;
  }

  /** An ASCII decimal digit, the only digits this model reads. */
  predicate IsDigit(c: char)
  {
    '0' <= c <= '9'
  }

  predicate AllDigits(s: string)
  {
    forall i :: 0 <= i < |s| ==> IsDigit(s[i])
  }

  function DigitChar(n: nat): (c: char)
    requires n < 10
    ensures IsDigit(c) && (c as int) - ('0' as int) == n
  {
    ('0' as int + n) as char
  }

  /** The number a digit string denotes (an empty string denotes zero). */
  function DigitsValue(s: string): nat
    requires AllDigits(s)
  {
    if s == [] then 0 else DigitsValue(s[..|s| - 1]) * 10 + ((s[|s| - 1] as int) - ('0' as int))
  }

  function Pow10(k: nat): (r: nat)
    ensures r >= 1
  {
    if k == 0 then 1 else 10 * Pow10(k - 1)
  }

  /** The decimal rendering of a natural number: no sign, no leading zeros. */
  function Decimal(n: nat): (s: string)
    ensures |s| >= 1 && AllDigits(s)
    ensures (|s| == 1) == (n < 10)
  {
    if n < 10 then [DigitChar(n)] else Decimal(n / 10) + [DigitChar(n % 10)]
  }

  lemma {:induction false} DecimalValue(n: nat)
    ensures DigitsValue(Decimal(n)) == n
  {
    if n >= 10 {
      DecimalValue(n / 10);
      var s := Decimal(n);
      assert s[..|s| - 1] == Decimal(n / 10);
    }
  }

  /** The value of two digit strings written one after the other. */
  lemma {:induction false} DigitsConcat(a: string, b: string)
    requires AllDigits(a) && AllDigits(b)
    ensures AllDigits(a + b)
    ensures DigitsValue(a + b) == DigitsValue(a) * Pow10(|b|) + DigitsValue(b)
  {
    if b == [] {
      assert a + b == a;
    } else {
      var b' := b[..|b| - 1];
      DigitsConcat(a, b');
      assert (a + b)[..|a + b| - 1] == a + b';
      var va, vb', p, c := DigitsValue(a), DigitsValue(b'), Pow10(|b'|), (b[|b| - 1] as int) - ('0' as int);
      assert b[..|b| - 1] == b';
      assert DigitsValue(b) == vb' * 10 + c;
      assert Pow10(|b|) == p * 10;
      assert DigitsValue(a + b) == (va * p + vb') * 10 + c;
      ShiftDigit(va, p, vb', c);
    }
  }

  lemma ShiftDigit(x: int, p: int, y: int, c: int)
    ensures (x * p + y) * 10 + c == x * (p * 10) + (y * 10 + c)
  {
  }

  /** The digits of a `parseLong` argument: the text after an optional leading sign. */
  function Unsigned(s: string): string
  {
    if |s| > 0 && (s[0] == '-' || s[0] == '+') then s[1..] else s
  }

  /** The value `Long.parseLong` reads from a signed digit string, before its range check. */
  function SignedValue(s: string): int
    requires AllDigits(Unsigned(s))
  {
    if |s| > 0 && s[0] == '-' then -(DigitsValue(Unsigned(s)) as int) else DigitsValue(Unsigned(s))
  }

  /** The strings `Long.parseLong` accepts: an optional sign, then at least one digit, denoting a
      value within the 64-bit range. The digits are ASCII ones only: `Long.parseLong` also accepts
      the decimal digits of other scripts, which this model does not. */
  predicate IsLongText(s: string)
  {
    Unsigned(s) != [] && AllDigits(Unsigned(s)) && LongMin <= SignedValue(s) <= LongMax
  }

  function ParseLong(s: string): (n: int)
    requires IsLongText(s)
    ensures LongMin <= n <= LongMax
    ensures s[0] != '-' ==> n >= 0
  {
    SignedValue(s)
  }

  /** `parseLong` reads back what `Decimal` writes. */
  lemma ParseDecimal(n: nat)
    requires n <= LongMax
    ensures IsLongText(Decimal(n)) && ParseLong(Decimal(n)) == n
  {
    DecimalValue(n);
    assert Unsigned(Decimal(n)) == Decimal(n);
  }

  /** A digit string in the 64-bit range parses to its value. */
  lemma ParseDigits(s: string)
    requires s != [] && AllDigits(s) && DigitsValue(s) <= LongMax
    ensures IsLongText(s) && ParseLong(s) == DigitsValue(s)
  {
    assert Unsigned(s) == s;
  }
}
