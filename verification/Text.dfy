/** Text as sequences of Unicode scalars: decimal numerals, code-point order, sorted names. */
module Text {

  // ---- decimal numerals

  predicate IsDigit(c: char) {
    '0' <= c <= '9'
  }

  predicate AllDigits(s: string) {
    forall i :: 0 <= i < |s| ==> IsDigit(s[i])
  }

  function DigitChar(d: nat): (c: char)
    requires d < 10
    ensures IsDigit(c) && DigitValue(c) == d
  {
    "0123456789"[d]
  }

  function DigitValue(c: char): (d: nat)
    requires IsDigit(c)
    ensures d < 10
  {
    c as int - '0' as int
  }

  /** Shortest decimal spelling of a natural number. */
  function Decimal(n: nat): string {
    if n < 10 then [DigitChar(n)] else Decimal(n / 10) + [DigitChar(n % 10)]
  }

  function DecimalValue(s: string): nat
    requires AllDigits(s)
  {
    if s == [] then 0 else 10 * DecimalValue(s[..|s| - 1]) + DigitValue(s[|s| - 1])
  }

  /** Non-empty, digits only, no superfluous leading zero. */
  predicate IsMinimalDecimal(s: string) {
    s != [] && AllDigits(s) && (|s| > 1 ==> s[0] != '0')
  }

  lemma {:induction false} DecimalRoundTrip(n: nat)
    ensures IsMinimalDecimal(Decimal(n))
    ensures DecimalValue(Decimal(n)) == n
    ensures Decimal(n) == "0" <==> n == 0
    ensures Decimal(n)[0] == '0' ==> n == 0
  {
    if n < 10 {
      assert Decimal(n)[..0] == [];
    } else {
      DecimalRoundTrip(n / 10);
      var p := Decimal(n / 10);
      assert Decimal(n)[..|p|] == p;
    }
  }

  lemma {:induction false} NumeralRoundTrip(s: string)
    requires IsMinimalDecimal(s)
    ensures Decimal(DecimalValue(s)) == s
    ensures DecimalValue(s) == 0 <==> s == "0"
  {
    var p, d := s[..|s| - 1], DigitValue(s[|s| - 1]);
    var v := DecimalValue(p);
    assert DecimalValue(s) == 10 * v + d && DigitChar(d) == s[|s| - 1];
    if |s| == 1 {
      assert v == 0;
    } else {
      NumeralRoundTrip(p);
      assert p != "0" && v > 0;
      assert (10 * v + d) / 10 == v && (10 * v + d) % 10 == d;
      assert s == p + [DigitChar(d)];
    }
  }

  lemma {:induction false} DecimalInjective(m: nat, n: nat)
    requires Decimal(m) == Decimal(n)
    ensures m == n
  {
    DecimalRoundTrip(m);
    DecimalRoundTrip(n);
  }

  // ---- code-point order and sorted name lists

  predicate Before(a: string, b: string) {
    if b == [] then false
    else if a == [] then true
    else if a[0] != b[0] then a[0] < b[0]
    else Before(a[1..], b[1..])
  }

  lemma {:induction false} BeforeIsTotal(a: string, b: string)
    ensures a != b ==> Before(a, b) != Before(b, a)
    ensures !Before(a, a)
  {
    if a != [] {
      BeforeIsTotal(a[1..], a[1..]);
    }
    if a != [] && b != [] && a[0] == b[0] {
      BeforeIsTotal(a[1..], b[1..]);
      assert a == [a[0]] + a[1..] && b == [b[0]] + b[1..];
    }
  }

  lemma {:induction false} BeforeIsTransitive(a: string, b: string, c: string)
    requires Before(a, b) && Before(b, c)
    ensures Before(a, c)
  {
    if a != [] && a[0] == b[0] && b[0] == c[0] {
      BeforeIsTransitive(a[1..], b[1..], c[1..]);
    }
  }

  /** The texts agree up to `n`, where the first ends or has the smaller character. */
  predicate FirstDifference(a: string, b: string, n: nat) {
    n <= |a| && n < |b| && a[..n] == b[..n] && (n == |a| || a[n] < b[n])
  }

  ghost predicate InCodePointOrder(a: string, b: string) {
    exists n: nat :: FirstDifference(a, b, n)
  }

  /** The order is the code-point order: a proper prefix comes first, else the first different character decides. */
  lemma {:induction false} BeforeIsLexicographic(a: string, b: string)
    ensures Before(a, b) <==> InCodePointOrder(a, b)
  {
    if a != [] && b != [] && a[0] == b[0] {
      BeforeIsLexicographic(a[1..], b[1..]);
      if n: nat :| FirstDifference(a[1..], b[1..], n) {
        assert a[..n + 1] == [a[0]] + a[1..][..n] && b[..n + 1] == [b[0]] + b[1..][..n];
        assert FirstDifference(a, b, n + 1);
      }
      if n: nat :| FirstDifference(a, b, n) {
        assert a[1..][..n - 1] == a[..n][1..] && b[1..][..n - 1] == b[..n][1..];
        assert FirstDifference(a[1..], b[1..], n - 1);
      }
    } else if b != [] {
      if Before(a, b) {
        assert FirstDifference(a, b, 0);
      }
    }
  }

  predicate IsLeast(k: string, keys: set<string>) {
    k in keys && forall j | j in keys && j != k :: Before(k, j)
  }

  lemma {:induction false} LeastExists(keys: set<string>)
    requires keys != {}
    ensures exists k :: IsLeast(k, keys)
    ensures forall j, k :: IsLeast(j, keys) && IsLeast(k, keys) ==> j == k
  {
    forall j, k | IsLeast(j, keys) && IsLeast(k, keys) ensures j == k {
      BeforeIsTotal(j, k);
    }
    var any :| any in keys;
    var others := keys - {any};
    if others == {} {
      assert keys == {any};
      assert IsLeast(any, keys);
    } else {
      LeastExists(others);
      var k :| IsLeast(k, others);
      BeforeIsTotal(any, k);
      if Before(any, k) {
        forall j | j in keys && j != any ensures Before(any, j) {
          if j != k {
            BeforeIsTransitive(any, k, j);
          }
        }
        assert IsLeast(any, keys);
      } else {
        assert IsLeast(k, keys);
      }
    }
  }

  /** The iteration order of a `BTreeMap<String, _>` with these keys. */
  function SortedNames(keys: set<string>): (names: seq<string>)
    ensures forall k :: k in names <==> k in keys
    ensures forall i, j :: 0 <= i < j < |names| ==> Before(names[i], names[j])
    ensures |names| == |keys|
    decreases |keys|
  {
    if keys == {} then [] else
      LeastExists(keys);
      var k :| IsLeast(k, keys);
      [k] + SortedNames(keys - {k})
  }

  predicate NoRepeats(names: seq<string>) {
    forall i, j :: 0 <= i < j < |names| ==> names[i] != names[j]
  }

  lemma SnocNoRepeats(init: seq<string>, last: string)
    ensures NoRepeats(init + [last]) <==> NoRepeats(init) && last !in init
  {
    var ids := init + [last];
    if NoRepeats(ids) {
      forall i, j | 0 <= i < j < |init| ensures init[i] != init[j] {
        assert ids[i] != ids[j];
      }
      forall i | 0 <= i < |init| ensures init[i] != last {
        assert ids[i] != ids[|init|];
      }
    }
  }

  lemma SortedNamesAreDistinct(keys: set<string>)
    ensures NoRepeats(SortedNames(keys))
  {
    var names := SortedNames(keys);
    forall i, j | 0 <= i < j < |names| ensures names[i] != names[j] {
      BeforeIsTotal(names[i], names[j]);
    }
  }

  /** Names in ascending order are the sorted names of their set. */
  lemma {:induction false} SortedNamesAreUnique(keys: set<string>, names: seq<string>)
    requires forall k :: k in names <==> k in keys
    requires forall i, j :: 0 <= i < j < |names| ==> Before(names[i], names[j])
    ensures names == SortedNames(keys)
    decreases |names|
  {
    hide Before;
    if names == [] {
      assert keys == {};
    } else {
      var first, more := names[0], names[1..];
      assert first in keys && names == [first] + more;
      forall j | j in keys && j != first ensures Before(first, j) {
        var i :| 0 <= i < |names| && names[i] == j;
      }
      assert IsLeast(first, keys);
      LeastExists(keys);
      assert first !in more by {
        if first in more {
          var i :| 0 <= i < |more| && more[i] == first;
          assert Before(names[0], names[i + 1]);
          BeforeIsTotal(first, first);
          assert false;
        }
      }
      assert forall k :: k in more <==> k in keys - {first};
      forall i, j | 0 <= i < j < |more| ensures Before(more[i], more[j]) {
        assert more[i] == names[i + 1] && more[j] == names[j + 1];
      }
      SortedNamesAreUnique(keys - {first}, more);
    }
  }
}
