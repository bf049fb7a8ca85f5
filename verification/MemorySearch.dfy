/** Cosine distance over exact reals, and the stable ranking of memory candidates.  A square root is given
    by its defining equation. */
module MemorySearch {
  import opened Ordering

  type Vector = seq<real>

  function Dot(a: Vector, b: Vector): real
    requires |a| == |b|
  {
    if a == [] then 0.0 else Dot(a[..|a| - 1], b[..|b| - 1]) + a[|a| - 1] * b[|b| - 1]
  }

  function SumSq(a: Vector): real { Dot(a, a) }

  ghost predicate IsNorm(n: real, a: Vector) { n >= 0.0 && n * n == SumSq(a) }

  // ----- the Cauchy-Schwarz inequality -----

  /** The squared length of x a - y b. */
  function Residual(a: Vector, b: Vector, x: real, y: real): real
    requires |a| == |b|
  {
    if a == [] then 0.0
    else
      var d := x * a[|a| - 1] - y * b[|b| - 1];
      Residual(a[..|a| - 1], b[..|b| - 1], x, y) + d * d
  }

  lemma SquareNonNegative(x: real)
    ensures x * x >= 0.0
  {
  }

  lemma {:induction false} ResidualNonNegative(a: Vector, b: Vector, x: real, y: real)
    requires |a| == |b|
    ensures Residual(a, b, x, y) >= 0.0
    decreases |a|
  {
    if a != [] {
      ResidualNonNegative(a[..|a| - 1], b[..|b| - 1], x, y);
      SquareNonNegative(x * a[|a| - 1] - y * b[|b| - 1]);
    }
  }

  lemma SquareOfDifference(p: real, q: real, x: real, y: real)
    ensures (x * p - y * q) * (x * p - y * q) == x * x * (p * p) - 2.0 * (x * y) * (p * q) + y * y * (q * q)
  {
    var u, v := x * p, y * q;
    assert (u - v) * (u - v) == u * u - 2.0 * (u * v) + v * v;
    assert u * u == x * x * (p * p) by { Swap(x, p, x, p); }
    assert v * v == y * y * (q * q) by { Swap(y, q, y, q); }
    assert u * v == (x * y) * (p * q) by { Swap(x, p, y, q); }
  }

  lemma Swap(a: real, b: real, c: real, d: real)
    ensures (a * b) * (c * d) == (a * c) * (b * d)
  {
    assert (a * b) * (c * d) == a * (b * (c * d));
    assert b * (c * d) == c * (b * d);
    assert a * (c * (b * d)) == (a * c) * (b * d);
  }

  function Expanded(x: real, y: real, s: real, d: real, t: real): real { x * x * s - 2.0 * (x * y) * d + y * y * t }

  lemma {:induction false} ResidualExpands(a: Vector, b: Vector, x: real, y: real)
    requires |a| == |b|
    ensures Residual(a, b, x, y) == Expanded(x, y, SumSq(a), Dot(a, b), SumSq(b))
    decreases |a|
  {
    ExpandedZero(x, y);
    assert a == [] ==> Residual(a, b, x, y) == Expanded(x, y, SumSq(a), Dot(a, b), SumSq(b));
    hide Expanded, Dot, SumSq;
    if a != [] {
      var p, q := a[|a| - 1], b[|b| - 1];
      ResidualExpands(a[..|a| - 1], b[..|b| - 1], x, y);
      DotStep(a, b);
      ExpandedGrows(x, y, SumSq(a[..|a| - 1]), Dot(a[..|a| - 1], b[..|b| - 1]), SumSq(b[..|b| - 1]), p, q);
    }
  }

  lemma DotStep(a: Vector, b: Vector)
    requires |a| == |b| && a != []
    ensures var a', b', p, q := a[..|a| - 1], b[..|b| - 1], a[|a| - 1], b[|b| - 1];
            && SumSq(a) == SumSq(a') + p * p && SumSq(b) == SumSq(b') + q * q && Dot(a, b) == Dot(a', b') + p * q
  {
  }

  lemma ExpandedZero(x: real, y: real)
    ensures Expanded(x, y, 0.0, 0.0, 0.0) == 0.0
  {
  }

  lemma ExpandedGrows(x: real, y: real, s: real, d: real, t: real, p: real, q: real)
    ensures Expanded(x, y, s + p * p, d + p * q, t + q * q) == Expanded(x, y, s, d, t) + (x * p - y * q) * (x * p - y * q)
  {
    SquareOfDifference(p, q, x, y);
    Distribute(x * x, s, p * p);
    Distribute(2.0 * (x * y), d, p * q);
    Distribute(y * y, t, q * q);
  }

  lemma Distribute(k: real, u: real, v: real)
    ensures k * (u + v) == k * u + k * v
  {
  }

  lemma {:induction false} ZeroVector(a: Vector, b: Vector)
    requires |a| == |b| && SumSq(b) == 0.0
    ensures Dot(a, b) == 0.0
    decreases |a|
  {
    if a != [] {
      var q := b[|b| - 1];
      SumSqNonNegative(b[..|b| - 1]);
      SquareNonNegative(q);
      assert Times(q, q) == 0.0 && SumSq(b[..|b| - 1]) == 0.0;
      ZeroRoot(q);
      ZeroVector(a[..|a| - 1], b[..|b| - 1]);
    }
  }

  function Times(x: real, y: real): real { x * y }

  lemma SameSign(x: real, y: real)
    requires (x > 0.0 && y > 0.0) || (x < 0.0 && y < 0.0)
    ensures Times(x, y) > 0.0
  {
  }

  lemma ZeroRoot(q: real)
    requires Times(q, q) == 0.0
    ensures q == 0.0
  {
    hide Times;
    if q != 0.0 { SameSign(q, q); }
  }

  lemma {:induction false} SumSqNonNegative(a: Vector)
    ensures SumSq(a) >= 0.0
    decreases |a|
  {
    if a != [] {
      SumSqNonNegative(a[..|a| - 1]);
      SquareNonNegative(a[|a| - 1]);
    }
  }

  lemma CauchySchwarz(a: Vector, b: Vector)
    requires |a| == |b|
    ensures Dot(a, b) * Dot(a, b) <= SumSq(a) * SumSq(b)
  {
    hide Dot, SumSq, Residual, Expanded;
    var s, t, d := SumSq(a), SumSq(b), Dot(a, b);
    SumSqNonNegative(b);
    if t == 0.0 {
      ZeroVector(a, b);
    } else {
      ResidualExpands(a, b, t, d);
      ResidualNonNegative(a, b, t, d);
      Factor(s, t, d);
    }
  }

  /** t (s t - d d) >= 0 and t > 0. */
  lemma Factor(s: real, t: real, d: real)
    requires t > 0.0 && Expanded(t, d, s, d, t) >= 0.0
    ensures d * d <= s * t
  {
    assert t * t * s == t * (s * t);
    assert (t * d) * d == t * (d * d);
    assert d * d * t == t * (d * d);
    Distribute(t, s * t, -(d * d));
    assert t * (s * t - d * d) >= 0.0;
    if s * t - d * d < 0.0 { Negative(t, s * t - d * d); }
  }

  lemma Negative(t: real, u: real)
    requires t > 0.0 && u < 0.0
    ensures t * u < 0.0
  {
  }

  // ----- cosine distance -----

  function Clamp(x: real): real { if x < -1.0 then -1.0 else if x > 1.0 then 1.0 else x }

  function CosineDistance(a: Vector, normA: real, b: Vector, normB: real): real {
    if a == [] || |a| != |b| || normA == 0.0 || normB == 0.0 || normA * normB == 0.0 then 1.0
    else 1.0 - Clamp(Dot(a, b) / (normA * normB))
  }

  lemma RootMonotone(d: real, n: real)
    requires n >= 0.0 && d * d <= n * n
    ensures -n <= d <= n
  {
    assert (d - n) * (d + n) == d * d - n * n == (-d - n) * (n - d);
    if d > n { Product(d - n, d + n); }
    if d < -n { Product(-d - n, n - d); }
  }

  lemma Product(x: real, y: real)
    requires x > 0.0 && y > 0.0
    ensures x * y > 0.0
  {
  }

  /** The similarity of two vectors lies in [-1, 1] before it is clamped. */
  lemma ClampNeverFires(a: Vector, normA: real, b: Vector, normB: real)
    requires |a| == |b| && IsNorm(normA, a) && IsNorm(normB, b) && normA != 0.0 && normB != 0.0
    ensures normA * normB > 0.0
    ensures -1.0 <= Dot(a, b) / (normA * normB) <= 1.0
    ensures a != [] ==> CosineDistance(a, normA, b, normB) == 1.0 - Dot(a, b) / (normA * normB)
    ensures 0.0 <= CosineDistance(a, normA, b, normB) <= 2.0
  {
    var n, d := normA * normB, Dot(a, b);
    Product(normA, normB);
    CauchySchwarz(a, b);
    Swap(normA, normB, normA, normB);
    RootMonotone(d, n);
    Quotient(d, n);
  }

  lemma Quotient(d: real, n: real)
    requires n > 0.0 && -n <= d <= n
    ensures -1.0 <= d / n <= 1.0
  {
    var q := d / n;
    assert q * n == d;
    if q > 1.0 { Product(q - 1.0, n); }
    if q < -1.0 { Product(-1.0 - q, n); }
  }

  /** Vectors that cannot be compared are at distance one. */
  lemma IncomparableDistance(a: Vector, normA: real, b: Vector, normB: real)
    requires a == [] || |a| != |b| || normA == 0.0 || normB == 0.0
    ensures CosineDistance(a, normA, b, normB) == 1.0
  {
  }

  function Scaled(k: real, a: Vector): Vector { seq(|a|, i requires 0 <= i < |a| => k * a[i]) }

  lemma {:induction false} DotScaled(k: real, a: Vector, b: Vector)
    requires |a| == |b|
    ensures Dot(Scaled(k, a), b) == k * Dot(a, b)
    decreases |a|
  {
    if a != [] {
      var a', b', p, q := a[..|a| - 1], b[..|b| - 1], a[|a| - 1], b[|b| - 1];
      DotScaled(k, a', b');
      forall i | 0 <= i < |a'| ensures Scaled(k, a)[i] == Scaled(k, a')[i] { assert a[i] == a'[i]; }
      assert Scaled(k, a)[..|a| - 1] == Scaled(k, a');
      assert (k * p) * q == k * (p * q);
      Distribute(k, Dot(a', b'), p * q);
    }
  }

  /** The distance depends on directions only: a vector is at distance zero from every positive multiple of itself
      and at distance two from every negative one. */
  lemma MultipleDistance(a: Vector, norm: real, k: real, scaledNorm: real)
    requires a != [] && IsNorm(norm, a) && norm != 0.0 && k != 0.0 && scaledNorm == norm * (if k > 0.0 then k else -k)
    ensures CosineDistance(a, norm, Scaled(k, a), scaledNorm) == if k > 0.0 then 0.0 else 2.0
  {
    var m, b := if k > 0.0 then k else -k, Scaled(k, a);
    Product(norm, m);
    Product(norm, norm * m);
    DotScaled(k, a, a);
    DotSymmetric(a, b);
    var n, d := norm * scaledNorm, Dot(a, b);
    hide Dot, Scaled, CosineDistance;
    NormsAgree(norm, m, k, d, scaledNorm);
    QuotientOne(n);
    DistanceFrom(a, norm, b, scaledNorm, if k > 0.0 then 1.0 else -1.0);
  }

  lemma NormsAgree(norm: real, m: real, k: real, d: real, scaledNorm: real)
    requires (k > 0.0 && m == k) || (k < 0.0 && m == -k)
    requires scaledNorm == norm * m && d == k * (norm * norm)
    ensures d == if k > 0.0 then norm * scaledNorm else -(norm * scaledNorm)
  {
    assert norm * (norm * m) == m * (norm * norm);
    assert (-m) * (norm * norm) == -(m * (norm * norm));
  }

  lemma DistanceFrom(a: Vector, normA: real, b: Vector, normB: real, similarity: real)
    requires a != [] && |a| == |b| && normA * normB != 0.0 && normA != 0.0 && normB != 0.0
    requires Dot(a, b) / (normA * normB) == similarity && -1.0 <= similarity <= 1.0
    ensures CosineDistance(a, normA, b, normB) == 1.0 - similarity
  {
  }

  lemma QuotientOne(n: real)
    requires n > 0.0
    ensures n / n == 1.0 && (-n) / n == -1.0
  {
  }

  lemma {:induction false} DotSymmetric(a: Vector, b: Vector)
    requires |a| == |b|
    ensures Dot(a, b) == Dot(b, a)
    decreases |a|
  {
    if a != [] { DotSymmetric(a[..|a| - 1], b[..|b| - 1]); }
  }

  lemma DistanceSymmetric(a: Vector, normA: real, b: Vector, normB: real)
    ensures CosineDistance(a, normA, b, normB) == CosineDistance(b, normB, a, normA)
  {
    if |a| == |b| { DotSymmetric(a, b); }
  }

  // ----- ranking -----

  /** A candidate row; the embedding is absent when it is malformed, and `norm` is its length. */
  datatype Candidate = Candidate(id: int, embedding: Option<Vector>, norm: real, kind: string, source: string)

  /** A scored candidate with its position in the input. */
  datatype Scored = Scored(index: nat, item: Candidate, distance: real)

  predicate Allowed(x: string, allowed: Option<set<string>>) { allowed.None? || x in allowed.value }

  predicate Eligible(item: Candidate, dim: nat, kinds: Option<set<string>>, sources: Option<set<string>>) {
    && Allowed(item.kind, kinds) && Allowed(item.source, sources)
    && item.embedding.Some? && item.embedding.value != [] && |item.embedding.value| == dim
  }

  function Score(items: seq<Candidate>, i: nat, query: Vector, norm: real): Scored
    requires i < |items| && items[i].embedding.Some?
  {
    Scored(i, items[i], CosineDistance(query, norm, items[i].embedding.value, items[i].norm))
  }

  /** Nearer, or as near and earlier in the input. */
  predicate Before(a: Scored, b: Scored) {
    a.distance < b.distance || (a.distance == b.distance && a.index < b.index)
  }

  ghost predicate InOrder(list: seq<Scored>) { forall i, j | 0 <= i < j < |list| :: Before(list[i], list[j]) }

  ghost predicate Scores(list: seq<Scored>, items: seq<Candidate>, n: nat, query: Vector, norm: real,
                         kinds: Option<set<string>>, sources: Option<set<string>>)
    requires n <= |items|
  {
    forall s :: s in list <==>
      s.index < n && Eligible(items[s.index], |query|, kinds, sources) && s == Score(items, s.index, query, norm)
  }

  /** The stable ranking of all eligible candidates. */
  ghost predicate IsRanking(list: seq<Scored>, items: seq<Candidate>, query: Vector, norm: real,
                            kinds: Option<set<string>>, sources: Option<set<string>>) {
    InOrder(list) && Scores(list, items, |items|, query, norm, kinds, sources)
  }

  /** There is only one. */
  lemma {:induction false} RankingUnique(a: seq<Scored>, b: seq<Scored>)
    requires InOrder(a) && InOrder(b) && forall s :: s in a <==> s in b
    ensures a == b
    decreases |a|
  {
    assert a == [] || a[0] in a;
    assert b == [] || b[0] in b;
    if a != [] && b != [] {
      assert a[0] == b[0];
      Rest(a, b);
      RankingUnique(a[1..], b[1..]);
      assert a == [a[0]] + a[1..] && b == [b[0]] + b[1..];
    }
  }

  lemma Rest(a: seq<Scored>, b: seq<Scored>)
    requires InOrder(a) && InOrder(b) && a != [] && b != [] && a[0] == b[0] && forall s :: s in a <==> s in b
    ensures forall s :: s in a[1..] <==> s in b[1..]
  {
    forall s ensures s in a[1..] <==> s in b[1..] {
      if s in a[1..] { assert s in a && Before(a[0], s); }
      if s in b[1..] { assert s in b && Before(b[0], s); }
    }
  }

  /** `list[:limit]`: a negative limit counts from the end. */
  function Slice(list: seq<Scored>, limit: int): seq<Scored> {
    if limit >= 0 then list[..Min(limit, |list|)] else list[..Max(0, |list| + limit)]
  }

  /** One insertion of a stable sort that looks at the distance only. */
  function Insert(list: seq<Scored>, s: Scored): (r: seq<Scored>)
    ensures forall x :: x in r <==> x == s || x in list
  {
    if list == [] || list[|list| - 1].distance <= s.distance then list + [s]
    else
      assert list == list[..|list| - 1] + [list[|list| - 1]];
      Insert(list[..|list| - 1], s) + [list[|list| - 1]]
  }

  lemma {:induction false} InsertIsStable(list: seq<Scored>, s: Scored)
    requires InOrder(list) && forall x | x in list :: x.index < s.index
    ensures InOrder(Insert(list, s))
    decreases |list|
  {
    if list != [] && list[|list| - 1].distance > s.distance {
      var prefix, last := list[..|list| - 1], list[|list| - 1];
      InsertIsStable(prefix, s);
      var r := Insert(prefix, s);
      forall i | 0 <= i < |r| ensures Before(r[i], last) {
        assert r[i] in r;
        if r[i] != s {
          var j :| 0 <= j < |prefix| && prefix[j] == r[i];
          assert list[j] == r[i];
        }
      }
    } else {
      forall i | 0 <= i < |list| ensures Before(list[i], s) { assert list[i] in list; }
    }
  }

  /** The nearest eligible candidates, ties in input order; no query, no result. */
  method RankMemoryCandidates(items: seq<Candidate>, query: Option<Vector>, norm: real, limit: int,
                              kinds: Option<set<string>>, sources: Option<set<string>>)
      returns (result: seq<Scored>, ghost ranking: seq<Scored>)
    ensures query.None? || query.value == [] ==> result == []
    ensures query.Some? && query.value != [] ==>
              && IsRanking(ranking, items, query.value, norm, kinds, sources) && result == Slice(ranking, limit)
              && RanksEligible(ranking, items, query.value, norm, kinds, sources)
              && (forall i | 0 <= i < |result| :: i < |ranking| && result[i] == ranking[i])
              && |result| == if limit >= 0 then Min(limit, |ranking|) else Max(0, |ranking| + limit)
  {
    hide Slice, RanksEligible, IsRanking, CosineDistance;
    ranking := [];
    if query.None? || query.value == [] { return [], []; }
    var list: seq<Scored> := [];
    for i := 0 to |items|
      invariant InOrder(list) && Scores(list, items, i, query.value, norm, kinds, sources)
    {
      if Eligible(items[i], |query.value|, kinds, sources) {
        var scored := Score(items, i, query.value, norm);
        InsertIsStable(list, scored);
        list := Insert(list, scored);
      }
    }
    ranking := list;
    RankedItems(list, items, query.value, norm, kinds, sources);
    SliceMeans(list, limit);
    result := Slice(list, limit);
  }

  /** In columns: the ranking holds exactly the candidates of the wanted kinds and sources with an embedding of the
      query's dimension, once each, with their distance to the query, nearer ones first and ties in input order. */
  ghost predicate RanksEligible(ranking: seq<Scored>, items: seq<Candidate>, query: Vector, norm: real,
                                kinds: Option<set<string>>, sources: Option<set<string>>) {
    && (forall i | 0 <= i < |items| ::
          (exists s | s in ranking :: s.index == i) <==>
            && (kinds.None? || items[i].kind in kinds.value) && (sources.None? || items[i].source in sources.value)
            && items[i].embedding.Some? && items[i].embedding.value != [] && |items[i].embedding.value| == |query|)
    && (forall s | s in ranking ::
          && s.index < |items| && s.item == items[s.index] && s.item.embedding.Some?
          && s.distance == CosineDistance(query, norm, s.item.embedding.value, s.item.norm))
    && (forall i, j | 0 <= i < j < |ranking| ::
          ranking[i].distance < ranking[j].distance || (ranking[i].distance == ranking[j].distance && ranking[i].index < ranking[j].index))
  }

  lemma RankedItems(list: seq<Scored>, items: seq<Candidate>, query: Vector, norm: real, kinds: Option<set<string>>, sources: Option<set<string>>)
    requires InOrder(list) && Scores(list, items, |items|, query, norm, kinds, sources)
    ensures IsRanking(list, items, query, norm, kinds, sources) && RanksEligible(list, items, query, norm, kinds, sources)
  {
    forall i | 0 <= i < |items| ensures (exists s | s in list :: s.index == i) <==> Eligible(items[i], |query|, kinds, sources) {
      if Eligible(items[i], |query|, kinds, sources) { assert Score(items, i, query, norm).index == i && Score(items, i, query, norm) in list; }
    }
    hide CosineDistance;
  }

  lemma SliceMeans(list: seq<Scored>, limit: int)
    ensures |Slice(list, limit)| == if limit >= 0 then Min(limit, |list|) else Max(0, |list| + limit)
    ensures forall i | 0 <= i < |Slice(list, limit)| :: i < |list| && Slice(list, limit)[i] == list[i]
  {
  }

  /** What the slice of a ranking means: everything returned is no farther than anything left out. */
  lemma NearestFirst(ranking: seq<Scored>, limit: nat, s: Scored, left: Scored)
    requires InOrder(ranking) && s in Slice(ranking, limit) && left in ranking && left !in Slice(ranking, limit)
    ensures Before(s, left) && s.distance <= left.distance && |Slice(ranking, limit)| == limit
  {
    var n := Min(limit, |ranking|);
    var i :| 0 <= i < n && ranking[i] == s;
    var j :| 0 <= j < |ranking| && ranking[j] == left;
    forall k | 0 <= k < n ensures ranking[k] in ranking[..n] { assert ranking[..n][k] == ranking[k]; }
  }
}
