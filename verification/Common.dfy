/** Small shared vocabulary: options, results, sums, duplicate-free sequences and text helpers. */
module Common {

  datatype Option<+T> = None | Some(value: T) {
    function GetOr(default: T): T {
      if Some? then value else default
    }
  }

  datatype Result<+T, +E> = Ok(value: T) | Err(error: E)

  function Min(a: int, b: int): int {
    if a <= b then a else b
  }

  function Max(a: int, b: int): int {
    if a >= b then a else b
  }

  /** ceil(a / b) for a positive divisor, the way `math.ceil` sees it. */
  function CeilDiv(a: int, b: int): int
    requires b > 0
  {
    (a + b - 1) / b
  }

  /** Quotient and remainder are the only decomposition with a remainder in range. */
  lemma DivModUnique(d: int, x: int, q: int, r: int)
    requires d > 0 && 0 <= r < d && x == d * q + r
    ensures x / d == q && x % d == r
  {
    var q', r' := x / d, x % d;
    assert d * (q - q') == r' - r;
    MultipleBound(d, q - q');
  }

  lemma MultipleBound(d: int, x: int)
    requires d > 0
    ensures x >= 1 ==> d * x >= d
    ensures x <= -1 ==> d * x <= -d
  {
  }

  lemma ProductPositive(x: real, y: real)
    requires x > 0.0 && y > 0.0
    ensures x * y > 0.0
  {
  }

  function Reversed<T>(s: seq<T>): seq<T> {
    seq(|s|, i requires 0 <= i < |s| => s[|s| - 1 - i])
  }

  function Sum(s: seq<int>): int {
    if s == [] then 0 else s[0] + Sum(s[1..])
  }

  function SumReal(s: seq<real>): real {
    if s == [] then 0.0 else s[0] + SumReal(s[1..])
  }

  function Flatten<T>(s: seq<seq<T>>): seq<T> {
    if s == [] then [] else s[0] + Flatten(s[1..])
  }

  function Filter<T>(p: T -> bool, s: seq<T>): seq<T> {
    if s == [] then []
    else if p(s[0]) then [s[0]] + Filter(p, s[1..])
    else Filter(p, s[1..])
  }

  function MapSeq<A, B>(f: A -> B, s: seq<A>): (r: seq<B>)
    ensures |r| == |s|
    ensures forall i :: 0 <= i < |s| ==> r[i] == f(s[i])
  {
    seq(|s|, i requires 0 <= i < |s| => f(s[i]))
  }

  ghost predicate Distinct<T>(s: seq<T>) {
    forall i, j :: 0 <= i < j < |s| ==> s[i] != s[j]
  }

  function Elements<T>(s: seq<T>): set<T> {
    set x | x in s
  }

  lemma {:induction false} SumAppend(a: seq<int>, b: seq<int>)
    ensures Sum(a + b) == Sum(a) + Sum(b)
  {
    if a == [] {
      assert a + b == b;
    } else {
      assert (a + b)[1..] == a[1..] + b;
      SumAppend(a[1..], b);
    }
  }

  lemma {:induction false} SumRealAppend(a: seq<real>, b: seq<real>)
    ensures SumReal(a + b) == SumReal(a) + SumReal(b)
  {
    if a == [] {
      assert a + b == b;
    } else {
      assert (a + b)[1..] == a[1..] + b;
      SumRealAppend(a[1..], b);
    }
  }

  lemma {:induction false} SumRealUpdate(s: seq<real>, i: nat, x: real)
    requires i < |s|
    ensures SumReal(s[i := x]) == SumReal(s) - s[i] + x
  {
    if i == 0 {
    } else {
      assert s[i := x][1..] == s[1..][i - 1 := x];
      SumRealUpdate(s[1..], i - 1, x);
    }
  }

  lemma {:induction false} FlattenAppend<T>(a: seq<seq<T>>, b: seq<seq<T>>)
    ensures Flatten(a + b) == Flatten(a) + Flatten(b)
  {
    if a == [] {
      assert a + b == b;
    } else {
      assert (a + b)[1..] == a[1..] + b;
      FlattenAppend(a[1..], b);
    }
  }

  lemma {:induction false} FlattenMember<T>(s: seq<seq<T>>, x: T)
    ensures x in Flatten(s) <==> exists i :: 0 <= i < |s| && x in s[i]
  {
    if s == [] {
    } else {
      FlattenMember(s[1..], x);
      if x in Flatten(s[1..]) {
        var i :| 0 <= i < |s[1..]| && x in s[1..][i];
        assert x in s[i + 1];
      }
      if i :| 0 <= i < |s| && x in s[i] {
        assert i > 0 ==> s[1..][i - 1] == s[i];
      }
    }
  }

  lemma {:induction false} FilterAppend<T>(p: T -> bool, a: seq<T>, b: seq<T>)
    ensures Filter(p, a + b) == Filter(p, a) + Filter(p, b)
  {
    if a == [] {
      assert a + b == b;
    } else {
      assert (a + b)[1..] == a[1..] + b;
      FilterAppend(p, a[1..], b);
    }
  }

  lemma {:induction false} FilterMember<T>(p: T -> bool, s: seq<T>, x: T)
    ensures x in Filter(p, s) <==> x in s && p(x)
  {
    if s == [] {
    } else {
      FilterMember(p, s[1..], x);
    }
  }

  lemma {:induction false} FilterAll<T>(p: T -> bool, s: seq<T>)
    requires forall x :: x in s ==> p(x)
    ensures Filter(p, s) == s
  {
    if s == [] {
    } else {
      FilterAll(p, s[1..]);
    }
  }

  lemma {:induction false} FilterNone<T>(p: T -> bool, s: seq<T>)
    requires forall x :: x in s ==> !p(x)
    ensures Filter(p, s) == []
  {
    if s == [] {
    } else {
      FilterNone(p, s[1..]);
    }
  }

  /** What is left to do: the elements whose key is not among the finished ones. */
  function Remaining<T, K(==)>(done: set<K>, key: T -> K, s: seq<T>): seq<T> {
    Filter(Unfinished(done, key), s)
  }

  function Unfinished<T, K(==)>(done: set<K>, key: T -> K): T -> bool {
    (x: T) => key(x) !in done
  }

  lemma UnfinishedMeans<T, K>(done: set<K>, key: T -> K, x: T)
    ensures Unfinished(done, key)(x) <==> key(x) !in done
  {
  }

  lemma RemainingAppend<T, K>(done: set<K>, key: T -> K, a: seq<T>, b: seq<T>)
    ensures Remaining(done, key, a + b) == Remaining(done, key, a) + Remaining(done, key, b)
  {
    FilterAppend(Unfinished(done, key), a, b);
  }

  lemma DistinctConcat<T>(a: seq<T>, b: seq<T>)
    requires Distinct(a) && Distinct(b) && forall x :: x in a ==> x !in b
    ensures Distinct(a + b)
  {
    var c := a + b;
    forall i, j | 0 <= i < j < |c| ensures c[i] != c[j] {
      if i < |a| <= j {
        assert c[i] in a && c[j] == b[j - |a|];
      }
    }
  }

  /** Counting argument: a sequence has as many elements as it has values exactly when no value repeats. */
  lemma {:induction false} DistinctIffCardinality<T>(s: seq<T>)
    ensures |Elements(s)| <= |s|
    ensures Distinct(s) <==> |Elements(s)| == |s|
  {
    if s == [] {
    } else {
      var head, tail := s[0], s[1..];
      DistinctIffCardinality(tail);
      if head in tail {
        assert Elements(s) == Elements(tail);
        var j :| 0 <= j < |tail| && tail[j] == head;
        assert s[0] == s[j + 1];
      } else {
        assert Elements(s) == Elements(tail) + {head};
        if Distinct(tail) {
          forall i, j | 0 <= i < j < |s| ensures s[i] != s[j] {
            assert s[j] == tail[j - 1];
            assert i > 0 ==> s[i] == tail[i - 1];
          }
        } else {
          var i, j :| 0 <= i < j < |tail| && tail[i] == tail[j];
          assert s[i + 1] == s[j + 1];
        }
      }
    }
  }

  /** The distinct values of `s`, in the order of their first occurrence: the key order of a Python dict. */
  function FirstOccurrences<T(==)>(s: seq<T>): seq<T> {
    if s == [] then []
    else
      var rest := FirstOccurrences(s[..|s| - 1]);
      if s[|s| - 1] in rest then rest else rest + [s[|s| - 1]]
  }

  lemma {:induction false} FirstOccurrencesElements<T>(s: seq<T>)
    ensures Distinct(FirstOccurrences(s))
    ensures Elements(FirstOccurrences(s)) == Elements(s)
  {
    if s == [] {
    } else {
      var front, last := s[..|s| - 1], s[|s| - 1];
      assert s == front + [last];
      FirstOccurrencesElements(front);
      assert Elements(s) == Elements(front) + {last};
      var r := FirstOccurrences(front);
      assert last in r <==> last in Elements(r);
      assert Elements(r + [last]) == Elements(r) + {last};
    }
  }

  lemma {:induction false} FirstOccurrencesOfDistinct<T>(s: seq<T>)
    requires Distinct(s)
    ensures FirstOccurrences(s) == s
  {
    if s == [] {
    } else {
      var front, last := s[..|s| - 1], s[|s| - 1];
      assert s == front + [last];
      FirstOccurrencesOfDistinct(front);
      forall i | 0 <= i < |front| ensures front[i] != last {
        assert s[i] != s[|s| - 1];
      }
    }
  }

  lemma FirstOccurrencesSpec<T>(s: seq<T>)
    ensures Distinct(FirstOccurrences(s))
    ensures Elements(FirstOccurrences(s)) == Elements(s)
    ensures |FirstOccurrences(s)| == |s| <==> Distinct(s)
    ensures Distinct(s) ==> FirstOccurrences(s) == s
  {
    hide FirstOccurrences;
    FirstOccurrencesElements(s);
    DistinctIffCardinality(s);
    DistinctIffCardinality(FirstOccurrences(s));
    if Distinct(s) {
      FirstOccurrencesOfDistinct(s);
    }
  }

  lemma BagWithout<T>(s: seq<T>, i: nat)
    requires i < |s|
    ensures multiset(s) == multiset(s[..i] + s[i + 1..]) + multiset{s[i]}
  {
    assert s == s[..i] + [s[i]] + s[i + 1..];
  }

  /** Bags of equal content have equal counts of every property. */
  function Count<T>(p: T -> bool, s: seq<T>): nat {
    if s == [] then 0
    else Count(p, s[..|s| - 1]) + (if p(s[|s| - 1]) then 1 else 0)
  }

  lemma {:induction false} CountAppend<T>(p: T -> bool, a: seq<T>, b: seq<T>)
    ensures Count(p, a + b) == Count(p, a) + Count(p, b)
  {
    if b == [] {
      assert a + b == a;
    } else {
      assert (a + b)[..|a + b| - 1] == a + b[..|b| - 1];
      CountAppend(p, a, b[..|b| - 1]);
    }
  }

  lemma CountWithout<T>(p: T -> bool, s: seq<T>, i: nat)
    requires i < |s|
    ensures Count(p, s) == Count(p, s[..i] + s[i + 1..]) + (if p(s[i]) then 1 else 0)
  {
    var before, here, after := s[..i], [s[i]], s[i + 1..];
    assert s == before + (here + after);
    CountOne(p, s[i]);
    hide Count;
    CountAppend(p, before, here + after);
    CountAppend(p, here, after);
    CountAppend(p, before, after);
  }

  lemma CountOne<T>(p: T -> bool, x: T)
    ensures Count(p, [x]) == if p(x) then 1 else 0
  {
    assert [x][..0] == [];
    assert Count(p, []) == 0;
  }

  lemma {:induction false} CountOfBag<T>(p: T -> bool, a: seq<T>, b: seq<T>)
    requires multiset(a) == multiset(b)
    ensures Count(p, a) == Count(p, b)
    decreases |a|
  {
    assert |multiset(a)| == |a| && |multiset(b)| == |b|;
    if a == [] {
    } else {
      var k := |a| - 1;
      assert a[k] in multiset(b);
      var i :| 0 <= i < |b| && b[i] == a[k];
      var restA, restB := a[..k], b[..i] + b[i + 1..];
      BagWithout(a, k);
      assert a[..k] + a[k + 1..] == restA;
      BagWithout(b, i);
      CountWithout(p, b, i);
      CancelOne(multiset(restA), multiset(restB), a[k]);
      CountOfBag(p, restA, restB);
    }
  }

  lemma CancelOne<T>(a: multiset<T>, b: multiset<T>, x: T)
    requires a + multiset{x} == b + multiset{x}
    ensures a == b
  {
    assert a == (a + multiset{x}) - multiset{x};
    assert b == (b + multiset{x}) - multiset{x};
  }

  lemma {:induction false} CountBounds<T>(p: T -> bool, s: seq<T>)
    ensures 0 <= Count(p, s) <= |s|
    ensures (forall x :: x in s ==> p(x)) ==> Count(p, s) == |s|
    ensures (forall x :: x in s ==> !p(x)) ==> Count(p, s) == 0
  {
    if s == [] {
    } else {
      var front, last := s[..|s| - 1], s[|s| - 1];
      CountBounds(p, front);
      assert last in s && forall x :: x in front ==> x in s;
    }
  }

  // ---- dicts of lists -----------------------------------------------------------

  function Lookup<K, T>(table: map<K, seq<T>>, key: K): seq<T> {
    if key in table then table[key] else []
  }

  /** `table[key].append(x)` on a defaultdict of lists. */
  function AppendTo<K(!new), T>(table: map<K, seq<T>>, key: K, x: T): (r: map<K, seq<T>>)
    ensures forall k :: Lookup(r, k) == Lookup(table, k) + (if k == key then [x] else [])
    ensures forall k :: k in r <==> k in table || k == key
  {
    table[key := Lookup(table, key) + [x]]
  }

  // ---- text -------------------------------------------------------------

  function Digit(d: nat): char
    requires d < 10
  {
    "0123456789"[d]
  }

  /** Decimal rendering of a natural number, as `str(n)`. */
  function Decimal(n: nat): string {
    if n < 10 then [Digit(n)] else Decimal(n / 10) + [Digit(n % 10)]
  }

  function DigitValue(c: char): int {
    c as int - '0' as int
  }

  function ParseDecimal(s: string): int {
    if s == [] then 0 else 10 * ParseDecimal(s[..|s| - 1]) + DigitValue(s[|s| - 1])
  }

  /** Rendering loses nothing and never produces a colon. */
  lemma {:induction false} DecimalRoundTrip(n: nat)
    ensures ParseDecimal(Decimal(n)) == n
    ensures forall c :: c in Decimal(n) ==> '0' <= c <= '9'
    ensures |Decimal(n)| > 0
  {
    if n >= 10 {
      DecimalRoundTrip(n / 10);
      var d := Decimal(n / 10);
      assert Decimal(n)[..|Decimal(n)| - 1] == d;
    } else {
      assert Decimal(n)[..0] == [];
    }
  }

  /** Digits without a leading zero are the rendering of the number that they stand for. */
  lemma {:induction false} DecimalOfParse(s: string)
    requires s != "" && (forall c :: c in s ==> '0' <= c <= '9') && (s[0] == '0' ==> |s| == 1)
    ensures ParseDecimal(s) >= 0 && Decimal(ParseDecimal(s)) == s
    ensures |s| > 1 ==> ParseDecimal(s) >= 10
  {
    hide Decimal, Digit, DigitValue;
    var front, last := s[..|s| - 1], s[|s| - 1];
    assert last in s && s == front + [last];
    assert forall c :: c in front ==> c in s;
    var d := DigitValue(last);
    DigitOfValue(last);
    OneDigit(d);
    if front == "" {
      assert ParseDecimal(front) == 0;
    } else {
      assert s[0] == front[0];
      DecimalOfParse(front);
      var n := ParseDecimal(front);
      assert n >= 1 by {
        LeadingDigit(front);
      }
      DecimalNext(n, d);
    }
  }

  lemma OneDigit(d: nat)
    requires d < 10
    ensures Decimal(d) == [Digit(d)]
  {
  }

  lemma DecimalNext(n: nat, d: nat)
    requires n >= 1 && d < 10
    ensures Decimal(10 * n + d) == Decimal(n) + [Digit(d)]
  {
    DivModUnique(10, 10 * n + d, n, d);
  }

  lemma DigitOfValue(c: char)
    requires '0' <= c <= '9'
    ensures 0 <= DigitValue(c) < 10 && Digit(DigitValue(c)) == c
  {
  }

  /** A first digit that is not zero makes the number positive. */
  lemma {:induction false} LeadingDigit(s: string)
    requires s != "" && (forall c :: c in s ==> '0' <= c <= '9') && s[0] != '0'
    ensures ParseDecimal(s) >= 1
  {
    var front, last := s[..|s| - 1], s[|s| - 1];
    assert last in s && s == front + [last];
    assert forall c :: c in front ==> c in s;
    if front == "" {
      assert ParseDecimal(front) == 0;
    } else {
      assert s[0] == front[0];
      LeadingDigit(front);
    }
  }

  /** Only zero itself is written with a leading zero. */
  lemma {:induction false} DecimalHasNoLeadingZero(n: nat)
    ensures n > 0 ==> Decimal(n)[0] != '0'
  {
    if n >= 10 {
      DecimalHasNoLeadingZero(n / 10);
    }
  }

  function Join(parts: seq<string>, sep: string): string {
    if parts == [] then ""
    else if |parts| == 1 then parts[0]
    else Join(parts[..|parts| - 1], sep) + sep + parts[|parts| - 1]
  }

  /** Joining two nonempty lists separately and then together gives the join of the whole list. */
  lemma {:induction false} JoinAppend(a: seq<string>, b: seq<string>, sep: string)
    requires a != [] && b != []
    ensures Join(a + b, sep) == Join(a, sep) + sep + Join(b, sep)
  {
    var last := b[|b| - 1];
    assert (a + b)[..|a + b| - 1] == a + b[..|b| - 1];
    if |b| == 1 {
      assert a + b[..0] == a;
    } else {
      JoinAppend(a, b[..|b| - 1], sep);
    }
  }
}
