/** Text helpers: the code-point order Python sorts strings by, and decimal and
    hexadecimal numerals as `json.dumps` writes them. */
module Text {

  /** Python's `a <= b` on strings. */
  predicate LexLeq(a: string, b: string) {
    a == "" || (b != "" && (a[0] < b[0] || (a[0] == b[0] && LexLeq(a[1..], b[1..]))))
  }

  /** Python's `a < b` on strings. */
  predicate LexLess(a: string, b: string) {
    LexLeq(a, b) && a != b
  }

  lemma {:induction false} LexAntisymmetric(a: string, b: string)
    requires LexLeq(a, b) && LexLeq(b, a)
    ensures a == b
  {
    if a != "" {
      LexAntisymmetric(a[1..], b[1..]);
      assert a == [a[0]] + a[1..] && b == [b[0]] + b[1..];
    }
  }

  lemma {:induction false} LexTotal(a: string, b: string)
    ensures LexLeq(a, b) || LexLeq(b, a)
  {
    if a != "" && b != "" && a[0] == b[0] {
      LexTotal(a[1..], b[1..]);
    }
  }

  lemma {:induction false} LexTransitive(a: string, b: string, c: string)
    requires LexLeq(a, b) && LexLeq(b, c)
    ensures LexLeq(a, c)
  {
    if a != "" && a[0] == b[0] == c[0] {
      LexTransitive(a[1..], b[1..], c[1..]);
    }
  }

  lemma LeastExists(s: set<string>) returns (least: string)
    requires s != {}
    ensures least in s && forall other <- s :: LexLeq(least, other)
  {
    least :| least in s;
    if s == {least} {
      LexTotal(least, least);
    } else {
      var rest := s - {least};
      var candidate := LeastExists(rest);
      LexTotal(least, candidate);
      LexTotal(least, least);
      if LexLeq(least, candidate) {
        forall other | other in rest ensures LexLeq(least, other) {
          LexTransitive(least, candidate, other);
        }
        assert forall other <- s :: other == least || other in rest;
      } else {
        assert forall other <- s :: other == least || other in rest;
        least := candidate;
      }
    }
  }

  function Least(s: set<string>): (least: string)
    requires s != {}
    ensures least in s && forall other <- s :: LexLeq(least, other)
  {
    assert exists k :: k in s && forall other <- s :: LexLeq(k, other) by {
      var k := LeastExists(s);
    }
    assert forall k, l | k in s && l in s
        && (forall other <- s :: LexLeq(k, other)) && (forall other <- s :: LexLeq(l, other)) :: k == l by {
      forall k, l | k in s && l in s
        && (forall other <- s :: LexLeq(k, other)) && (forall other <- s :: LexLeq(l, other))
        ensures k == l
      {
        LexAntisymmetric(k, l);
      }
    }
    var k :| k in s && forall other <- s :: LexLeq(k, other);
    k
  }

  /** `sorted(keys)`. */
  function SortedKeys(s: set<string>): (keys: seq<string>)
    ensures forall k :: k in keys <==> k in s
    ensures |keys| == |s|
  {
    if s == {} then [] else
    var k := Least(s);
    [k] + SortedKeys(s - {k})
  }

  /** The keys come out in strictly increasing order: the order is canonical. */
  lemma {:induction false} SortedKeysIncrease(s: set<string>)
    ensures forall i, j | 0 <= i < j < |SortedKeys(s)| :: LexLess(SortedKeys(s)[i], SortedKeys(s)[j])
  {
    if s != {} {
      var k, rest := Least(s), SortedKeys(s - {Least(s)});
      SortedKeysIncrease(s - {k});
      forall j | 0 <= j < |rest| ensures LexLess(k, rest[j]) {
        assert rest[j] in rest;
      }
    }
  }

  /** Where two strings first differ, or one of them ends. */
  function Agreeing(a: string, b: string): (n: nat)
    ensures n <= |a| && n <= |b| && a[..n] == b[..n]
    ensures n < |a| && n < |b| ==> a[n] != b[n]
  {
    if a == "" || b == "" || a[0] != b[0] then 0
    else
      var n := Agreeing(a[1..], b[1..]);
      assert a[..n + 1] == [a[0]] + a[1..][..n] && b[..n + 1] == [b[0]] + b[1..][..n];
      n + 1
  }

  /** A string comes before another exactly when it is a proper prefix of it, or the first characters that
      differ are in order. */
  lemma {:induction false} LexMeans(a: string, b: string)
    ensures var n := Agreeing(a, b);
      LexLess(a, b) <==> if n < |a| && n < |b| then a[n] < b[n] else |a| < |b|
  {
    if a != "" && b != "" && a[0] == b[0] {
      LexMeans(a[1..], b[1..]);
      assert a == [a[0]] + a[1..] && b == [b[0]] + b[1..];
    }
  }

  /** There is one increasing list of the elements of a set. */
  lemma {:induction false} SortedKeysAre(keys: seq<string>, s: set<string>)
    requires forall i, j | 0 <= i < j < |keys| :: LexLess(keys[i], keys[j])
    requires forall k :: k in keys <==> k in s
    ensures SortedKeys(s) == keys
    decreases |keys|
  {
    hide LexLess;
    if keys == [] {
      assert s == {};
    } else {
      var first, rest := keys[0], keys[1..];
      assert first in s;
      FirstIsLeast(keys, s);
      hide Least;
      forall k ensures k in rest <==> k in s - {first} { TailHolds(keys, k); }
      SortedKeysAre(rest, s - {first});
      assert keys == [first] + rest;
    }
  }

  lemma FirstIsLeast(keys: seq<string>, s: set<string>)
    requires keys != [] && s != {}
    requires forall i, j | 0 <= i < j < |keys| :: LexLess(keys[i], keys[j])
    requires forall k :: k in keys <==> k in s
    ensures Least(s) == keys[0]
  {
    hide LexLeq;
    var i :| 0 <= i < |keys| && keys[i] == Least(s);
    assert keys[0] in s;
    LexAntisymmetric(keys[0], Least(s));
  }

  lemma TailHolds(keys: seq<string>, k: string)
    requires keys != [] && forall i, j | 0 <= i < j < |keys| :: LexLess(keys[i], keys[j])
    ensures k in keys[1..] <==> k in keys && k != keys[0]
  {
    hide LexLeq;
    assert keys == [keys[0]] + keys[1..];
    if k in keys[1..] {
      var i :| 0 <= i < |keys[1..]| && keys[1..][i] == k;
      assert LexLess(keys[0], keys[i + 1]);
    }
  }

  // ---------- decimal numerals ----------

  predicate IsDigit(c: char) { '0' <= c <= '9' }

  function Digit(d: nat): (c: char)
    requires d < 10
    ensures IsDigit(c) && DigitValue(c) == d
  {
    '0' + d as char
  }

  function DigitValue(c: char): (d: nat)
    requires IsDigit(c)
  {
    (c - '0') as nat
  }

  function DecimalNat(n: nat): (s: string)
    ensures s != "" && forall c <- s :: IsDigit(c)
    ensures s[0] == '0' <==> n == 0
    ensures s[0] == '0' ==> |s| == 1
  {
    if n < 10 then [Digit(n)] else DecimalNat(n / 10) + [Digit(n % 10)]
  }

  /** `str(n)`. */
  function Decimal(n: int): (s: string)
    ensures s != "" && (IsDigit(s[0]) || s[0] == '-')
    ensures forall c <- s :: IsDigit(c) || c == '-'
  {
    if n < 0 then "-" + DecimalNat(-n) else DecimalNat(n)
  }

  function NatValue(s: string): nat
    requires forall c <- s :: IsDigit(c)
  {
    if s == "" then 0 else 10 * NatValue(s[..|s| - 1]) + DigitValue(s[|s| - 1])
  }

  lemma {:induction false} DecimalNatValue(n: nat)
    ensures NatValue(DecimalNat(n)) == n
  {
    if n >= 10 {
      DecimalNatValue(n / 10);
      var s := DecimalNat(n);
      assert s[..|s| - 1] == DecimalNat(n / 10);
    } else {
      var s := DecimalNat(n);
      assert s[..0] == "";
    }
  }

  /** The longest digit prefix. */
  function TakeDigits(s: string): (digits: string)
    ensures digits <= s && forall c <- digits :: IsDigit(c)
    ensures |digits| < |s| ==> !IsDigit(s[|digits|])
  {
    if s == "" || !IsDigit(s[0]) then "" else [s[0]] + TakeDigits(s[1..])
  }

  lemma {:induction false} TakeDigitsOf(digits: string, rest: string)
    requires forall c <- digits :: IsDigit(c)
    requires rest != "" ==> !IsDigit(rest[0])
    ensures TakeDigits(digits + rest) == digits
  {
    if digits == "" {
      assert digits + rest == rest;
    } else {
      assert (digits + rest)[1..] == digits[1..] + rest;
      TakeDigitsOf(digits[1..], rest);
    }
  }

  // ---------- hexadecimal digits ----------

  function HexDigit(d: nat): (c: char)
    requires d < 16
    ensures HexValue(c) == d
    ensures ' ' < c && c != '"' && c != '\\'
  {
    if d < 10 then '0' + d as char else 'a' + (d - 10) as char
  }

  /** The value of a hexadecimal digit, or 16 for any other character. */
  function HexValue(c: char): nat {
    if '0' <= c <= '9' then (c - '0') as nat
    else if 'a' <= c <= 'f' then 10 + (c - 'a') as nat
    else if 'A' <= c <= 'F' then 10 + (c - 'A') as nat
    else 16
  }
}
