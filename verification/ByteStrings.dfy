/** Byte strings, written as characters below 256, and the two numerals the program prints. */
module ByteStrings {

  type Byte = c: char | c as int < 256 witness 'a'
  type Bytes = seq<Byte>

  predicate IsDigit(c: Byte) {
    '0' <= c <= '9'
  }

  function Digit(d: nat): Byte
    requires d < 10
  {
    ('0' as int + d) as char
  }

  function DigitValue(c: Byte): nat
    requires IsDigit(c)
  {
    c as int - '0' as int
  }

  predicate AllDigits(t: Bytes) {
    forall i :: 0 <= i < |t| ==> IsDigit(t[i])
  }

  function Decimal(n: nat): Bytes {
    if n < 10 then [Digit(n)] else Decimal(n / 10) + [Digit(n % 10)]
  }

  function NatOf(t: Bytes): nat
    requires AllDigits(t)
  {
    if t == [] then 0 else NatOf(t[..|t| - 1]) * 10 + DigitValue(t[|t| - 1])
  }

  /** No superfluous leading zero. */
  predicate CanonicalNat(t: Bytes) {
    t != [] && AllDigits(t) && (|t| == 1 || t[0] != '0')
  }

  lemma {:induction false} NatOfDecimal(n: nat)
    ensures CanonicalNat(Decimal(n)) && NatOf(Decimal(n)) == n
    ensures n != 0 ==> Decimal(n)[0] != '0'
  {
    if n >= 10 {
      NatOfDecimal(n / 10);
      var t := Decimal(n);
      assert t[..|t| - 1] == Decimal(n / 10);
    }
  }

  lemma {:induction false} CanonicalPositive(t: Bytes)
    requires CanonicalNat(t) && t[0] != '0'
    ensures NatOf(t) > 0
    decreases |t|
  {
    if |t| > 1 {
      CanonicalPositive(t[..|t| - 1]);
    }
  }

  lemma {:induction false} DecimalOfNat(t: Bytes)
    requires CanonicalNat(t)
    ensures Decimal(NatOf(t)) == t
    decreases |t|
  {
    if |t| == 1 {
      assert t[..0] == [];
    } else {
      DecimalOfNat(t[..|t| - 1]);
      CanonicalPositive(t[..|t| - 1]);
      assert t == t[..|t| - 1] + [t[|t| - 1]];
    }
  }

  /** Decimal notation: the last digit stands for the ones, the digits before it for the tens. */
  lemma DecimalIs(n: nat, d: nat)
    requires d < 10
    ensures Decimal(10 * n + d) == (if n == 0 then [] else Decimal(n)) + ["0123456789"[d]]
  {
    assert (10 * n + d) / 10 == n && (10 * n + d) % 10 == d;
  }

  // ---- signed numerals, as strconv.ParseInt reads them in base 10 ----

  function Unsigned(t: Bytes): Bytes {
    if t != [] && (t[0] == '-' || t[0] == '+') then t[1..] else t
  }

  predicate IsNumber(t: Bytes) {
    Unsigned(t) != [] && AllDigits(Unsigned(t))
  }

  function NumberOf(t: Bytes): int
    requires IsNumber(t)
  {
    var n: int := NatOf(Unsigned(t));
    if t[0] == '-' then -n else n
  }

  function Numeral(i: int): Bytes {
    if i < 0 then "-" + Decimal(-i) else Decimal(i)
  }

  /** The numerals BEP 3 allows: no plus sign, no leading zero, no minus zero. */
  predicate CanonicalInt(t: Bytes) {
    if t != [] && t[0] == '-' then CanonicalNat(t[1..]) && t[1] != '0' else CanonicalNat(t)
  }

  lemma NumeralReads(i: int)
    ensures IsNumber(Numeral(i)) && NumberOf(Numeral(i)) == i && CanonicalInt(Numeral(i))
    ensures i >= 0 ==> IsDigit(Numeral(i)[0])
  {
    NatOfDecimal(if i < 0 then -i else i);
    if i < 0 {
      assert Numeral(i)[1..] == Decimal(-i);
    }
  }

  lemma NumeralOfNumber(t: Bytes)
    requires IsNumber(t)
    ensures Numeral(NumberOf(t)) == t <==> CanonicalInt(t)
  {
    NumeralReads(NumberOf(t));
    if CanonicalInt(t) {
      if t[0] == '-' {
        DecimalOfNat(t[1..]);
        CanonicalPositive(t[1..]);
        assert t == "-" + t[1..];
      } else {
        DecimalOfNat(t);
      }
    }
  }

  // ---- lexicographic order, the order in which keys are sorted ----

  predicate Less(a: Bytes, b: Bytes)
    decreases |a|
  {
    b != [] && (a == [] || a[0] < b[0] || (a[0] == b[0] && Less(a[1..], b[1..])))
  }

  lemma {:induction false} LessTrichotomy(a: Bytes, b: Bytes)
    ensures !(Less(a, b) && Less(b, a))
    ensures a == b || Less(a, b) || Less(b, a)
    ensures Less(a, b) ==> a != b
    decreases |a|
  {
    if a != [] && b != [] {
      LessTrichotomy(a[1..], b[1..]);
      assert a == [a[0]] + a[1..] && b == [b[0]] + b[1..];
    }
  }

  lemma {:induction false} LessTransitive(a: Bytes, b: Bytes, c: Bytes)
    requires Less(a, b) && Less(b, c)
    ensures Less(a, c)
    decreases |a|
  {
    if a != [] && a[0] == b[0] == c[0] {
      LessTransitive(a[1..], b[1..], c[1..]);
    }
  }

  predicate FirstDifference(a: Bytes, b: Bytes, i: int) {
    0 <= i < |a| && i < |b| && a[..i] == b[..i] && a[i] < b[i]
  }

  /** A proper prefix comes first, and otherwise the smaller byte at the first difference. */
  lemma {:induction false} LessIsLexicographic(a: Bytes, b: Bytes)
    ensures Less(a, b) <==> a < b || exists i :: FirstDifference(a, b, i)
    decreases |a|
  {
    if a != [] && b != [] {
      var a', b' := a[1..], b[1..];
      assert a == [a[0]] + a' && b == [b[0]] + b';
      LessIsLexicographic(a', b');
      if a[0] < b[0] {
        assert FirstDifference(a, b, 0);
      }
      if a[0] == b[0] && Less(a', b') {
        if i :| FirstDifference(a', b', i) {
          assert a[..i + 1] == [a[0]] + a'[..i] && b[..i + 1] == [b[0]] + b'[..i];
          assert FirstDifference(a, b, i + 1);
        }
      }
      if i :| FirstDifference(a, b, i) {
        if i > 0 {
          assert a'[..i - 1] == a[..i][1..] && b'[..i - 1] == b[..i][1..];
          assert a[0] == a[..i][0] && b[0] == b[..i][0];
          assert FirstDifference(a', b', i - 1);
        }
      }
    }
  }

  // ---- searching ----

  function Find(bs: Bytes, c: Byte): (i: nat)
    ensures i <= |bs| && c !in bs[..i] && (i < |bs| ==> bs[i] == c)
  {
    if bs == [] || bs[0] == c then 0 else 1 + Find(bs[1..], c)
  }

  lemma {:induction false} FindIn(t: Bytes, c: Byte, rest: Bytes)
    requires c !in t
    ensures Find(t + [c] + rest, c) == |t|
    decreases |t|
  {
    var bs := t + [c] + rest;
    if t != [] {
      assert bs[1..] == t[1..] + [c] + rest;
      FindIn(t[1..], c, rest);
    }
  }

  /** What strings.Cut returns before and after the first c. */
  function CutAt(bs: Bytes, c: Byte): (Bytes, Bytes) {
    var j := Find(bs, c);
    if j == |bs| then (bs, []) else (bs[..j], bs[j + 1..])
  }

  lemma CutIn(t: Bytes, c: Byte, rest: Bytes)
    requires c !in t
    ensures CutAt(t + [c] + rest, c) == (t, rest)
    ensures CutAt(t, c) == (t, [])
  {
    FindIn(t, c, rest);
    var bs := t + [c] + rest;
    assert bs[..|t|] == t && bs[|t| + 1..] == rest;
  }
}
