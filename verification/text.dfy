/** The string operations of Python's `str` that the engine relies on:
    ordering, `split`/`join` on one separator character, `index`/`rindex`,
    `str(n)` of a natural number and `int(text)`. */
module Text {
  import opened Base
  import Sorting

  /** Python's `a <= b` on `str`: lexicographic by code point, a proper prefix first. */
  predicate Le(a: string, b: string)
    decreases |a|
  {
    a == [] || (b != [] && (a[0] < b[0] || (a[0] == b[0] && Le(a[1..], b[1..]))))
  }

  lemma {:induction false} LeReflexive(a: string)
    ensures Le(a, a)
    decreases |a|
  {
    if a != [] { LeReflexive(a[1..]); }
  }

  lemma {:induction false} LeAntisymmetric(a: string, b: string)
    requires Le(a, b) && Le(b, a)
    ensures a == b
    decreases |a|
  {
    if a != [] && b != [] {
      LeAntisymmetric(a[1..], b[1..]);
      assert a == [a[0]] + a[1..] && b == [b[0]] + b[1..];
    }
  }

  lemma {:induction false} LeTransitive(a: string, b: string, c: string)
    requires Le(a, b) && Le(b, c)
    ensures Le(a, c)
    decreases |a|
  {
    if a != [] && b != [] && c != [] && a[0] == b[0] == c[0] {
      LeTransitive(a[1..], b[1..], c[1..]);
    }
  }

  lemma {:induction false} LeTotal(a: string, b: string)
    ensures Le(a, b) || Le(b, a)
    decreases |a|
  {
    if a != [] && b != [] && a[0] == b[0] {
      LeTotal(a[1..], b[1..]);
    }
  }

  lemma LeTotalOrder()
    ensures Sorting.TotalOrder(Le)
  {
    forall a ensures Le(a, a) { LeReflexive(a); }
    forall a, b | Le(a, b) && Le(b, a) ensures a == b { LeAntisymmetric(a, b); }
    forall a, b, c | Le(a, b) && Le(b, c) ensures Le(a, c) { LeTransitive(a, b, c); }
    forall a, b ensures Le(a, b) || Le(b, a) { LeTotal(a, b); }
  }

  // ---------------------------------------------------------------- split / join

  /** `s.split(c)`: always at least one part, the separator never inside a part. */
  function Split(s: string, c: char): (r: seq<string>)
    ensures |r| >= 1
  {
    if s == [] then [""]
    else
      var rest := Split(s[1..], c);
      if s[0] == c then [""] + rest else [[s[0]] + rest[0]] + rest[1..]
  }

  lemma {:induction false} SplitPartsAvoid(s: string, c: char)
    ensures forall k :: 0 <= k < |Split(s, c)| ==> c !in Split(s, c)[k]
  {
    if s != [] {
      SplitPartsAvoid(s[1..], c);
    }
  }

  /** `c.join(parts)` for a one-character separator. */
  function Join(parts: seq<string>, c: char): (r: string)
    ensures parts != [] ==> parts[0] <= r
  {
    if |parts| == 0 then ""
    else if |parts| == 1 then parts[0]
    else parts[0] + [c] + Join(parts[1..], c)
  }

  lemma {:induction false} SplitNoSeparator(s: string, c: char)
    requires c !in s
    ensures Split(s, c) == [s]
  {
    if s != [] {
      SplitNoSeparator(s[1..], c);
      assert s == [s[0]] + s[1..];
    }
  }

  lemma SplitCons(x: char, t: string, c: char)
    ensures Split([x] + t, c) ==
      if x == c then [""] + Split(t, c) else [[x] + Split(t, c)[0]] + Split(t, c)[1..]
  {
    assert ([x] + t)[1..] == t;
  }

  lemma ConsThenAppend(l: seq<string>, r: seq<string>, ra: seq<string>, rb: seq<string>, rt: seq<string>)
    requires l == [""] + rt && r == [""] + ra && rt == ra + rb
    ensures l == r + rb
  {
  }

  lemma ExtendThenAppend(l: seq<string>, r: seq<string>, ra: seq<string>, rb: seq<string>, rt: seq<string>, x: char)
    requires |ra| >= 1 && rt == ra + rb
    requires l == [[x] + rt[0]] + rt[1..] && r == [[x] + ra[0]] + ra[1..]
    ensures l == r + rb
  {
    assert rt[0] == ra[0];
    assert rt[1..] == ra[1..] + rb;
  }

  /** Splitting distributes over a separator placed between two strings. */
  lemma {:induction false} SplitConcat(a: string, b: string, c: char)
    ensures Split(a + [c] + b, c) == Split(a, c) + Split(b, c)
  {
    if a == [] {
      assert a + [c] + b == [c] + b;
      SplitCons(c, b, c);
    } else {
      var x, a' := a[0], a[1..];
      var t := a' + [c] + b;
      SplitConcat(a', b, c);
      assert a + [c] + b == [x] + t;
      assert a == [x] + a';
      SplitCons(x, t, c);
      SplitCons(x, a', c);
      if x == c {
        ConsThenAppend(Split([x] + t, c), Split([x] + a', c), Split(a', c), Split(b, c), Split(t, c));
      } else {
        ExtendThenAppend(Split([x] + t, c), Split([x] + a', c), Split(a', c), Split(b, c), Split(t, c), x);
      }
    }
  }

  lemma {:induction false} JoinSplit(s: string, c: char)
    ensures Join(Split(s, c), c) == s
  {
    if s != [] {
      JoinSplit(s[1..], c);
      var rest := Split(s[1..], c);
      assert s == [s[0]] + s[1..];
      if s[0] == c {
        var parts := [""] + rest;
        assert Split(s, c) == parts;
        assert parts[1..] == rest;
        assert Join(parts, c) == [c] + Join(rest, c);
      } else {
        var parts := [[s[0]] + rest[0]] + rest[1..];
        assert Split(s, c) == parts;
        if |rest| > 1 {
          assert parts[1..] == rest[1..];
          assert Join(rest, c) == rest[0] + [c] + Join(rest[1..], c);
          assert Join(parts, c) == [s[0]] + (rest[0] + [c] + Join(rest[1..], c));
        } else {
          assert Join(parts, c) == [s[0]] + rest[0];
        }
      }
    }
  }

  /** `c.join` then `split(c)` gives the parts back when no part holds the separator. */
  lemma {:induction false} SplitJoin(parts: seq<string>, c: char)
    requires |parts| >= 1
    requires forall k :: 0 <= k < |parts| ==> c !in parts[k]
    ensures Split(Join(parts, c), c) == parts
  {
    if |parts| == 1 {
      SplitNoSeparator(parts[0], c);
    } else {
      SplitJoin(parts[1..], c);
      SplitNoSeparator(parts[0], c);
      SplitConcat(parts[0], Join(parts[1..], c), c);
      assert parts == [parts[0]] + parts[1..];
    }
  }

  lemma {:induction false} JoinAvoids(parts: seq<string>, c: char, d: char)
    requires d != c
    requires forall k :: 0 <= k < |parts| ==> d !in parts[k]
    ensures d !in Join(parts, c)
  {
    if |parts| > 1 {
      JoinAvoids(parts[1..], c, d);
    }
  }

  // ---------------------------------------------------------------- index / rindex

  /** `s.index(c, start)`: the first position at or after `start` holding `c`. */
  function IndexFrom(s: string, c: char, start: nat): (r: Option<nat>)
    decreases |s| - start
    ensures r.Some? ==> start <= r.value < |s| && s[r.value] == c
    ensures r.Some? ==> forall k :: start <= k < r.value ==> s[k] != c
    ensures r.None? ==> forall k :: start <= k < |s| ==> s[k] != c
  {
    if start >= |s| then None
    else if s[start] == c then Some(start)
    else IndexFrom(s, c, start + 1)
  }

  /** `s.rindex(c)`: the last position holding `c`. */
  function LastIndexOf(s: string, c: char): (r: Option<nat>)
    ensures r.Some? ==> r.value < |s| && s[r.value] == c
    ensures r.Some? ==> forall k :: r.value < k < |s| ==> s[k] != c
    ensures r.None? <==> c !in s
  {
    if s == [] then None
    else if s[|s| - 1] == c then Some(|s| - 1)
    else
      assert s == s[..|s| - 1] + [s[|s| - 1]];
      LastIndexOf(s[..|s| - 1], c)
  }

  /** `index` finds the first occurrence at or after `start`. */
  lemma IndexFromAt(s: string, c: char, start: nat, k: nat)
    requires start <= k < |s| && s[k] == c
    requires forall t :: start <= t < k ==> s[t] != c
    ensures IndexFrom(s, c, start) == Some(k)
  {
  }

  /** `rindex` finds the last occurrence. */
  lemma LastIndexOfAt(s: string, c: char, k: nat)
    requires k < |s| && s[k] == c
    requires forall t :: k < t < |s| ==> s[t] != c
    ensures LastIndexOf(s, c) == Some(k)
  {
  }

  // ---------------------------------------------------------------- decimal text

  predicate IsDigit(ch: char) { '0' <= ch <= '9' }

  function DigitChar(d: nat): (ch: char)
    requires d < 10
    ensures IsDigit(ch) && ch as int - '0' as int == d
  {
    ('0' as int + d) as char
  }

  /** `str(n)` for a natural number. */
  function NatToString(n: nat): (r: string)
    ensures |r| >= 1
    ensures forall k :: 0 <= k < |r| ==> IsDigit(r[k])
  {
    if n < 10 then [DigitChar(n)] else NatToString(n / 10) + [DigitChar(n % 10)]
  }

  /** The value of a string of decimal digits. */
  function DigitsValue(s: string): nat
    requires forall k :: 0 <= k < |s| ==> IsDigit(s[k])
  {
    if s == [] then 0
    else DigitsValue(s[..|s| - 1]) * 10 + DigitValue(s[|s| - 1])
  }

  function DigitValue(ch: char): nat
    requires IsDigit(ch)
  {
    ch as int - '0' as int
  }

  lemma {:induction false} DigitsOfNat(n: nat)
    ensures DigitsValue(NatToString(n)) == n
  {
    if n >= 10 {
      DigitsOfNat(n / 10);
      var s := NatToString(n);
      assert s[..|s| - 1] == NatToString(n / 10);
    }
  }

  /** Decimal rendering is injective: distinct numbers have distinct texts. */
  lemma NatToStringInjective(a: nat, b: nat)
    requires NatToString(a) == NatToString(b)
    ensures a == b
  {
    DigitsOfNat(a);
    DigitsOfNat(b);
  }

  predicate AllDigits(s: string) {
    |s| >= 1 && forall k :: 0 <= k < |s| ==> IsDigit(s[k])
  }

  /** `int(text)` restricted to an optional sign followed by ASCII digits. */
  function ParseInt(s: string): (r: Option<int>)
    ensures r.Some? <==> AllDigits(s) || (|s| >= 2 && (s[0] == '-' || s[0] == '+') && AllDigits(s[1..]))
    ensures AllDigits(s) ==> r == Some(DigitsValue(s))
    ensures |s| >= 2 && s[0] == '-' && AllDigits(s[1..]) ==> r == Some(0 - DigitsValue(s[1..]))
    ensures |s| >= 2 && s[0] == '+' && AllDigits(s[1..]) ==> r == Some(DigitsValue(s[1..]) as int)
  {
    if |s| >= 2 && s[0] == '-' && AllDigits(s[1..]) then Some(0 - DigitsValue(s[1..]) as int)
    else if |s| >= 2 && s[0] == '+' && AllDigits(s[1..]) then Some(DigitsValue(s[1..]))
    else if AllDigits(s) then Some(DigitsValue(s))
    else None
  }

  /** `int(str(n)) == n`. */
  lemma ParseIntOfNat(n: nat)
    ensures ParseInt(NatToString(n)) == Some(n)
  {
    DigitsOfNat(n);
  }

  /** `int('-' + str(n)) == -n` and `int('+' + str(n)) == n`. */
  lemma ParseIntOfSigned(n: nat)
    ensures ParseInt("-" + NatToString(n)) == Some(-(n as int))
    ensures ParseInt("+" + NatToString(n)) == Some(n)
  {
    DigitsOfNat(n);
    assert ("-" + NatToString(n))[1..] == NatToString(n);
    assert ("+" + NatToString(n))[1..] == NatToString(n);
  }

  /** Leading zeros do not change the value: `int('0' + s) == int(s)`. */
  lemma {:induction false} DigitsLeadingZero(s: string)
    requires forall k :: 0 <= k < |s| ==> IsDigit(s[k])
    ensures DigitsValue("0" + s) == DigitsValue(s)
    decreases |s|
  {
    if s != [] {
      var t := "0" + s;
      assert t[..|t| - 1] == "0" + s[..|s| - 1];
      DigitsLeadingZero(s[..|s| - 1]);
    }
  }
}
