/** The `%`-formatting the table writers use for integers: `%d` and `%x` of
    a non-negative value, and fields joined with commas. */
module Text {

  /** The character of digit `d`; `%x` writes lower-case letters. */
  function DigitChar(d: nat): (c: char)
    requires d < 16
  {
    if d < 10 then ('0' as int + d) as char else ('a' as int + d - 10) as char
  }

  /** The value of a digit character, or -1 for any other character. */
  function DigitValue(c: char): (d: int)
    ensures -1 <= d < 16
    ensures d >= 0 ==> DigitChar(d) == c
  {
    if '0' <= c <= '9' then c as int - '0' as int
    else if 'a' <= c <= 'f' then c as int - 'a' as int + 10
    else -1
  }

  /** The bases `%d` and `%x` write in. */
  predicate Radix(base: nat) {
    base == 10 || base == 16
  }

  /** `'%d' % n` in base 10 and `'%x' % n` in base 16: the digits of `n`,
      most significant first, with no leading zero. */
  function Numeral(n: nat, base: nat): (s: string)
    requires Radix(base)
    ensures |s| >= 1
    decreases n
  {
    if n < base then [DigitChar(n)] else Numeral(n / base, base) + [DigitChar(n % base)]
  }

  /** Reading digits back, most significant first. */
  function NumeralValue(s: string, base: nat): int
  {
    if s == [] then 0 else NumeralValue(s[..|s| - 1], base) * base + DigitValue(s[|s| - 1])
  }

  lemma {:induction false} DigitRoundTrip(d: nat)
    requires d < 16
    ensures DigitValue(DigitChar(d)) == d
  {
  }

  /** Reading the numeral gives the number back. */
  lemma {:induction false} NumeralRoundTrip(n: nat, base: nat)
    requires Radix(base)
    ensures NumeralValue(Numeral(n, base), base) == n
    decreases n
  {
    var s := Numeral(n, base);
    if n < base {
      DigitRoundTrip(n);
      assert s[..0] == [];
    } else {
      var q, d := n / base, n % base;
      DivShrinks(n, base);
      NumeralRoundTrip(q, base);
      DigitRoundTrip(d);
      assert s == Numeral(q, base) + [DigitChar(d)];
      assert s[..|s| - 1] == Numeral(q, base);
      assert NumeralValue(s, base) == q * base + d;
      assert q * base + d == n;
    }
  }

  /** Every character of a numeral is a digit of its base; in particular
      none is a comma. */
  lemma {:induction false} NumeralDigits(n: nat, base: nat)
    requires Radix(base)
    ensures forall k :: 0 <= k < |Numeral(n, base)| ==> 0 <= DigitValue(Numeral(n, base)[k]) < base
    ensures ',' !in Numeral(n, base)
    decreases n
  {
    var s := Numeral(n, base);
    if n < base {
      DigitRoundTrip(n);
    } else {
      DivShrinks(n, base);
      NumeralDigits(n / base, base);
      DigitRoundTrip(n % base);
      assert s == Numeral(n / base, base) + [DigitChar(n % base)];
    }
  }

  lemma {:induction false} DivShrinks(n: nat, base: nat)
    requires Radix(base) && base <= n
    ensures 1 <= n / base < n
    ensures n == n / base * base + n % base
  {
    if base == 10 {
      assert n == n / 10 * 10 + n % 10;
    } else {
      assert n == n / 16 * 16 + n % 16;
    }
  }

  /** The first digit is `0` only for zero. */
  lemma {:induction false} NumeralNoLeadingZero(n: nat, base: nat)
    requires Radix(base)
    ensures Numeral(n, base)[0] == '0' <==> n == 0
    decreases n
  {
    if n >= base {
      DivShrinks(n, base);
      NumeralNoLeadingZero(n / base, base);
    }
  }

  /** A number below `base * base` takes one digit, or two from `base` on:
      a byte is one or two hex digits. */
  lemma {:induction false} NumeralTwoDigits(n: nat, base: nat)
    requires Radix(base) && n < base * base
    ensures |Numeral(n, base)| == if n < base then 1 else 2
  {
    if n >= base {
      assert n / base < base;
    }
  }

  /** `','.join(parts)`. */
  function JoinFields(parts: seq<string>): (s: string)
    decreases |parts|
  {
    if |parts| == 0 then ""
    else if |parts| == 1 then parts[0]
    else parts[0] + "," + JoinFields(parts[1..])
  }

  /** `s.split(',')`: the pieces between the commas. */
  function SplitFields(s: string): (r: seq<string>)
    ensures |r| >= 1
    decreases |s|
  {
    if s == [] then [""]
    else if s[0] == ',' then [""] + SplitFields(s[1..])
    else
      var rest := SplitFields(s[1..]);
      [[s[0]] + rest[0]] + rest[1..]
  }

  /** A piece without commas extends the first field of whatever follows. */
  lemma {:induction false} SplitPrefix(a: string, rest: string)
    requires ',' !in a
    ensures SplitFields(a + rest) == [a + SplitFields(rest)[0]] + SplitFields(rest)[1..]
    decreases |a|
  {
    if a != [] {
      SplitPrefix(a[1..], rest);
      assert (a + rest)[1..] == a[1..] + rest;
      assert [a[0]] + (a[1..] + SplitFields(rest)[0]) == a + SplitFields(rest)[0];
    } else {
      var r := SplitFields(rest);
      assert a + rest == rest;
      assert a + r[0] == r[0];
      assert [r[0]] + r[1..] == r;
    }
  }

  /** Splitting the joined fields gives the fields back, as long as none of
      them holds a comma. */
  lemma {:induction false} SplitJoin(parts: seq<string>)
    requires |parts| >= 1
    requires forall k :: 0 <= k < |parts| ==> ',' !in parts[k]
    ensures SplitFields(JoinFields(parts)) == parts
    decreases |parts|
  {
    if |parts| == 1 {
      SplitPrefix(parts[0], "");
      assert parts[0] + "" == parts[0];
    } else {
      var tail := JoinFields(parts[1..]);
      SplitJoin(parts[1..]);
      assert SplitFields("," + tail) == [""] + SplitFields(tail);
      SplitPrefix(parts[0], "," + tail);
      assert parts[0] + "," + tail == parts[0] + ("," + tail);
      assert parts[0] + "" == parts[0];
      assert [parts[0]] + parts[1..] == parts;
    }
  }
}
