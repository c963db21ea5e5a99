/**
 * The order in which a JavaScript object lists its own string keys
 * (OrdinaryOwnPropertyKeys, section 10.1.11.1 of ECMAScript 2023): keys that
 * are array indices come first, in ascending numeric order; every other key
 * follows in the order in which it was first created. `Object.entries` and
 * `JSON.stringify` both enumerate in this order.
 */
module JsKeys {

  /** 2^32 - 1: the smallest canonical numeral that is not an array index. */
  const ArrayIndexLimit: int := 4294967295

  predicate IsDigit(c: char) { '0' <= c <= '9' }

  function DigitValue(c: char): int { c as int - '0' as int }

  predicate IsDigits(s: string) { forall i :: 0 <= i < |s| ==> IsDigit(s[i]) }

  /** Decimal value of a digit string, most significant digit first. */
  function Value(s: string): int
  {
    if |s| == 0 then 0 else Value(s[..|s| - 1]) * 10 + DigitValue(s[|s| - 1])
  }

  /** A non-empty digit string without a leading zero (or "0" itself). */
  predicate IsCanonicalNumeral(s: string)
  {
    |s| >= 1 && IsDigits(s) && (|s| == 1 || s[0] != '0')
  }

  /** A key `P` with `ToString(ToUint32(P)) == P` and `ToUint32(P) != 2^32 - 1`. */
  predicate IsArrayIndex(s: string)
  {
    IsCanonicalNumeral(s) && Value(s) < ArrayIndexLimit
  }

  function Pow10(n: nat): (r: nat)
    ensures r >= 1
  {
    if n == 0 then 1 else 10 * Pow10(n - 1)
  }

  lemma {:induction false} Pow10Monotone(m: nat, n: nat)
    requires m <= n
    ensures Pow10(m) <= Pow10(n)
  {
    if m < n {
      Pow10Monotone(m, n - 1);
    }
  }

  lemma {:induction false} ValueBounds(s: string)
    requires IsDigits(s)
    ensures 0 <= Value(s) < Pow10(|s|)
  {
    if |s| > 0 {
      var p := s[..|s| - 1];
      assert IsDigits(p) by {
        forall i | 0 <= i < |p| ensures IsDigit(p[i]) { assert p[i] == s[i]; }
      }
      ValueBounds(p);
    }
  }

  lemma {:induction false} ValueLeading(s: string)
    requires IsDigits(s) && |s| >= 1 && s[0] != '0'
    ensures Value(s) >= Pow10(|s| - 1)
  {
    var p := s[..|s| - 1];
    if |s| == 1 {
      assert p == [];
    } else {
      assert p[0] == s[0];
      assert IsDigits(p) by {
        forall i | 0 <= i < |p| ensures IsDigit(p[i]) { assert p[i] == s[i]; }
      }
      ValueLeading(p);
      ValueBounds(p);
    }
  }

  /** Two digit strings of the same length and value are the same string. */
  lemma {:induction false} DigitsInjective(a: string, b: string)
    requires IsDigits(a) && IsDigits(b) && |a| == |b| && Value(a) == Value(b)
    ensures a == b
  {
    if |a| > 0 {
      var n := |a|;
      var pa, pb := a[..n - 1], b[..n - 1];
      assert IsDigits(pa) by {
        forall i | 0 <= i < |pa| ensures IsDigit(pa[i]) { assert pa[i] == a[i]; }
      }
      assert IsDigits(pb) by {
        forall i | 0 <= i < |pb| ensures IsDigit(pb[i]) { assert pb[i] == b[i]; }
      }
      assert IsDigit(a[n - 1]) && IsDigit(b[n - 1]);
      assert DigitValue(a[n - 1]) == DigitValue(b[n - 1]);
      assert a[n - 1] == b[n - 1];
      DigitsInjective(pa, pb);
      assert a == pa + [a[n - 1]];
      assert b == pb + [b[n - 1]];
    }
  }

  /** A canonical numeral with more digits denotes a larger number. */
  lemma LongerIsLarger(a: string, b: string)
    requires IsCanonicalNumeral(a) && IsCanonicalNumeral(b) && |a| < |b|
    ensures Value(a) < Value(b)
  {
    ValueBounds(a);
    ValueLeading(b);
    Pow10Monotone(|a|, |b| - 1);
  }

  /** Distinct canonical numerals denote distinct numbers. */
  lemma ValueInjective(a: string, b: string)
    requires IsCanonicalNumeral(a) && IsCanonicalNumeral(b) && Value(a) == Value(b)
    ensures a == b
  {
    if |a| < |b| {
      LongerIsLarger(a, b);
    } else if |b| < |a| {
      LongerIsLarger(b, a);
    } else {
      DigitsInjective(a, b);
    }
  }

  predicate Distinct(ks: seq<string>)
  {
    forall i, j :: 0 <= i < j < |ks| ==> ks[i] != ks[j]
  }

  /** Key `a` may be enumerated before key `b`: an array index comes only after smaller array indices. */
  predicate MayPrecede(a: string, b: string)
  {
    IsArrayIndex(b) ==> IsArrayIndex(a) && Value(a) < Value(b)
  }

  /** Array-index keys precede all other keys and ascend numerically. */
  predicate IndicesFirstAscending(ks: seq<string>)
  {
    forall i, j :: 0 <= i < j < |ks| ==> MayPrecede(ks[i], ks[j])
  }

  /**
   * What every own-key list of a JavaScript object satisfies: no key twice,
   * and the array indices first, ascending. The creation order of the other
   * keys is not expressed here; `InsertKey` keeps it.
   */
  predicate Ordered(ks: seq<string>)
  {
    Distinct(ks) && IndicesFirstAscending(ks)
  }

  /** Places the array index `k` after every smaller array index of `ks`. */
  function InsertIndex(ks: seq<string>, k: string): seq<string>
  {
    if |ks| == 0 then [k]
    else if IsArrayIndex(ks[0]) && Value(ks[0]) < Value(k) then [ks[0]] + InsertIndex(ks[1..], k)
    else [k] + ks
  }

  /** The own keys after `obj[k] = v` on an object whose own keys are `ks`. */
  function InsertKey(ks: seq<string>, k: string): seq<string>
  {
    if k in ks then ks
    else if IsArrayIndex(k) then InsertIndex(ks, k)
    else ks + [k]
  }

  lemma OrderedTail(ks: seq<string>)
    requires Ordered(ks) && |ks| > 0
    ensures Ordered(ks[1..])
  {
  }

  /** Prepending a key that is smaller than, and different from, every later key. */
  lemma OrderedCons(x: string, rest: seq<string>)
    requires Ordered(rest)
    requires forall j :: 0 <= j < |rest| ==> x != rest[j]
    requires forall j :: 0 <= j < |rest| ==> MayPrecede(x, rest[j])
    ensures Ordered([x] + rest)
  {
  }

  lemma {:induction false} InsertIndexOrdered(ks: seq<string>, k: string)
    requires Ordered(ks) && IsArrayIndex(k) && k !in ks
    ensures Ordered(InsertIndex(ks, k))
  {
    if |ks| == 0 {
    } else if IsArrayIndex(ks[0]) && Value(ks[0]) < Value(k) {
      var tail := ks[1..];
      OrderedTail(ks);
      assert ks == [ks[0]] + tail;
      InsertIndexOrdered(tail, k);
      InsertIndexMembers(tail, k);
      var rest := InsertIndex(tail, k);
      forall j | 0 <= j < |rest| ensures ks[0] != rest[j] && MayPrecede(ks[0], rest[j]) {
        assert rest[j] in rest;
        if rest[j] != k {
          var m :| 0 <= m < |tail| && tail[m] == rest[j];
          assert ks[m + 1] == rest[j];
        }
      }
      OrderedCons(ks[0], rest);
    } else {
      assert ks[0] != k by { assert ks[0] in ks; }
      if IsArrayIndex(ks[0]) && Value(ks[0]) == Value(k) {
        ValueInjective(ks[0], k);
      }
      forall j | 0 <= j < |ks| ensures k != ks[j] && MayPrecede(k, ks[j]) {
        assert ks[j] in ks;
        if j > 0 {
          assert MayPrecede(ks[0], ks[j]);
        }
      }
      OrderedCons(k, ks);
    }
  }

  /**
   * Assigning a key keeps the key list in enumeration order and adds exactly
   * that key; an existing key keeps its position.
   */
  lemma InsertKeyOrdered(ks: seq<string>, k: string)
    ensures Ordered(ks) ==> Ordered(InsertKey(ks, k))
    ensures forall x :: x in InsertKey(ks, k) <==> x in ks || x == k
    ensures k in ks ==> InsertKey(ks, k) == ks
    ensures k !in ks ==> exists p :: 0 <= p <= |ks| && InsertKey(ks, k) == ks[..p] + [k] + ks[p..]
    ensures k !in ks && !IsArrayIndex(k) ==> InsertKey(ks, k) == ks + [k]
  {
    if k !in ks {
      if IsArrayIndex(k) {
        var p := InsertIndexSplit(ks, k);
      } else {
        assert InsertKey(ks, k) == ks[..|ks|] + [k] + ks[|ks|..];
      }
    }
    if Ordered(ks) && k !in ks {
      if IsArrayIndex(k) {
        InsertIndexOrdered(ks, k);
        InsertIndexMembers(ks, k);
      } else {
        var r := ks + [k];
        forall i, j | 0 <= i < j < |r| ensures MayPrecede(r[i], r[j]) {
          if j < |ks| { assert r[i] == ks[i] && r[j] == ks[j]; }
        }
      }
    } else if !(k in ks) && IsArrayIndex(k) {
      InsertIndexMembers(ks, k);
    }
  }

  lemma {:induction false} InsertIndexMembers(ks: seq<string>, k: string)
    ensures forall x :: x in InsertIndex(ks, k) <==> x in ks || x == k
  {
    if |ks| > 0 && IsArrayIndex(ks[0]) && Value(ks[0]) < Value(k) {
      InsertIndexMembers(ks[1..], k);
      assert ks == [ks[0]] + ks[1..];
    }
  }

  /** Inserting an array index keeps the other keys in their relative order: `p` is where it goes. */
  lemma {:induction false} InsertIndexSplit(ks: seq<string>, k: string) returns (p: nat)
    ensures p <= |ks| && InsertIndex(ks, k) == ks[..p] + [k] + ks[p..]
  {
    if |ks| > 0 && IsArrayIndex(ks[0]) && Value(ks[0]) < Value(k) {
      var tail := ks[1..];
      var q := InsertIndexSplit(tail, k);
      p := q + 1;
      assert ks[..p] == [ks[0]] + tail[..q];
      assert ks[p..] == tail[q..];
    } else {
      p := 0;
    }
  }

  lemma {:induction false} InsertIndexAtEnd(ks: seq<string>, k: string)
    requires forall i :: 0 <= i < |ks| ==> IsArrayIndex(ks[i]) && Value(ks[i]) < Value(k)
    ensures InsertIndex(ks, k) == ks + [k]
  {
    if |ks| > 0 {
      InsertIndexAtEnd(ks[1..], k);
      assert ks == [ks[0]] + ks[1..];
    }
  }

  /**
   * Re-creating the keys of an object one by one, in its own enumeration
   * order, reproduces that order: each key lands at the end.
   */
  lemma InsertKeyAtEnd(ks: seq<string>, k: string)
    requires Ordered(ks + [k])
    ensures InsertKey(ks, k) == ks + [k]
  {
    var r := ks + [k];
    assert r[|ks|] == k;
    assert k !in ks by {
      forall i | 0 <= i < |ks| ensures ks[i] != k { assert r[i] == ks[i]; }
    }
    if IsArrayIndex(k) {
      forall i | 0 <= i < |ks| ensures IsArrayIndex(ks[i]) && Value(ks[i]) < Value(k) {
        assert r[i] == ks[i];
        assert MayPrecede(r[i], r[|ks|]);
      }
      InsertIndexAtEnd(ks, k);
    }
  }
}
