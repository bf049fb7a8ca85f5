/** Lexicographic ORDER BY keys, the row an ORDER BY .. LIMIT 1 query returns, and the rows an
    ORDER BY .. LIMIT n query returns.  Every query of the repository that orders rows ends its
    key with the primary key, so the order is total and the answer unique. */
module Ordering {

  datatype Option<+T> = None | Some(value: T)

  function Max(a: int, b: int): (m: int)
    ensures m >= a && m >= b && (m == a || m == b)
  {
    if a < b then b else a
  }

  function Min(a: int, b: int): (m: int)
    ensures m <= a && m <= b && (m == a || m == b)
  {
    if a < b then a else b
  }

  /** Lexicographic order; NULL columns are encoded by the caller as an extra leading flag. */
  predicate LexLess(a: seq<int>, b: seq<int>)
    decreases |a|
  {
    if |b| == 0 then false
    else if |a| == 0 then true
    else a[0] < b[0] || (a[0] == b[0] && LexLess(a[1..], b[1..]))
  }

  lemma {:induction false} LexIrreflexive(a: seq<int>)
    ensures !LexLess(a, a)
    decreases |a|
  {
    if |a| > 0 { LexIrreflexive(a[1..]); }
  }

  lemma {:induction false} LexTransitive(a: seq<int>, b: seq<int>, c: seq<int>)
    requires LexLess(a, b) && LexLess(b, c)
    ensures LexLess(a, c)
    decreases |a|
  {
    if |a| > 0 && a[0] == b[0] == c[0] { LexTransitive(a[1..], b[1..], c[1..]); }
  }

  lemma {:induction false} LexTotal(a: seq<int>, b: seq<int>)
    ensures a == b || LexLess(a, b) || LexLess(b, a)
    decreases |a|
  {
    if |a| > 0 && |b| > 0 && a[0] == b[0] {
      LexTotal(a[1..], b[1..]);
      assert a == [a[0]] + a[1..] && b == [b[0]] + b[1..];
    }
  }

  /** A shared prefix does not matter to the order, and a smaller prefix decides it. */
  lemma {:induction false} LexPrefix(p: seq<int>, q: seq<int>, a: seq<int>, b: seq<int>)
    requires |p| == |q|
    ensures LexLess(p + a, q + b) <==> LexLess(p, q) || (p == q && LexLess(a, b))
    decreases |p|
  {
    if |p| == 0 {
      assert p + a == a && q + b == b;
    } else {
      assert (p + a)[1..] == p[1..] + a && (q + b)[1..] == q[1..] + b;
      assert p == [p[0]] + p[1..] && q == [q[0]] + q[1..];
      LexPrefix(p[1..], q[1..], a, b);
    }
  }

  /** `ORDER BY x IS NULL, x ASC`: rows without a value come last. */
  function NullsLast(x: Option<int>): (key: seq<int>)
    ensures |key| == 2
  {
    match x case None => [1, 0] case Some(v) => [0, v]
  }

  ghost predicate Injective<T(!new)>(s: set<T>, key: T -> seq<int>) {
    forall x, y | x in s && y in s && key(x) == key(y) :: x == y
  }

  ghost predicate IsLeast<T(!new)>(s: set<T>, key: T -> seq<int>, x: T) {
    x in s && forall y | y in s && y != x :: LexLess(key(x), key(y))
  }

  lemma {:induction false} LeastExists<T(!new)>(s: set<T>, key: T -> seq<int>) returns (x: T)
    requires s != {} && Injective(s, key)
    ensures IsLeast(s, key, x)
    decreases s
  {
    var a :| a in s;
    var rest := s - {a};
    if rest == {} {
      x := a;
      assert s == {a} + rest;
    } else {
      var b := LeastExists(rest, key);
      LexTotal(key(a), key(b));
      if LexLess(key(a), key(b)) {
        x := a;
        forall y | y in s && y != a ensures LexLess(key(a), key(y)) {
          if y != b { LexTransitive(key(a), key(b), key(y)); }
        }
      } else {
        x := b;
      }
    }
  }

  lemma LeastUnique<T(!new)>(s: set<T>, key: T -> seq<int>, x: T, y: T)
    requires IsLeast(s, key, x) && IsLeast(s, key, y)
    ensures x == y
  {
    if x != y {
      LexTransitive(key(x), key(y), key(x));
      LexIrreflexive(key(x));
    }
  }

  /** `ORDER BY key LIMIT 1` */
  method FindLeast(ids: set<int>, key: int -> seq<int>) returns (least: int)
    requires ids != {} && Injective(ids, key)
    ensures IsLeast(ids, key, least)
  {
    assert exists id :: id in ids by { var id := Any(ids); }
    least :| least in ids;
    var rest := ids - {least};
    while rest != {}
      invariant rest <= ids - {least} && least in ids
      invariant forall id | id in ids - rest && id != least :: LexLess(key(least), key(id))
      decreases |rest|
    {
      assert exists id :: id in rest by { var id := Any(rest); }
      var id :| id in rest;
      LexTotal(key(least), key(id));
      if LexLess(key(id), key(least)) {
        forall other | other in ids - rest && other != least ensures LexLess(key(id), key(other)) {
          LexTransitive(key(id), key(least), key(other));
        }
        least := id;
      }
      rest := rest - {id};
    }
  }

  /** `sel` is what `SELECT .. FROM s ORDER BY key LIMIT n` returns. */
  ghost predicate IsFirst<T(!new)>(s: set<T>, key: T -> seq<int>, n: nat, sel: set<T>) {
    && sel <= s
    && |sel| == Min(n, |s|)
    && forall x, y | x in sel && y in s - sel :: LexLess(key(x), key(y))
  }

  lemma {:induction false} FirstExists<T(!new)>(s: set<T>, key: T -> seq<int>, n: nat) returns (sel: set<T>)
    requires Injective(s, key)
    ensures IsFirst(s, key, n, sel)
    decreases n
  {
    if n == 0 || s == {} {
      sel := {};
    } else {
      var x := LeastExists(s, key);
      var rest := FirstExists(s - {x}, key, n - 1);
      sel := {x} + rest;
      assert |s - {x}| == |s| - 1;
      assert |sel| == 1 + |rest|;
    }
  }

  /** `ORDER BY key LIMIT n` */
  ghost function Leading(s: set<int>, key: int -> seq<int>, n: nat): (sel: set<int>)
    requires Injective(s, key)
    ensures IsFirst(s, key, n, sel)
  {
    assert exists sel :: IsFirst(s, key, n, sel) by { var sel := FirstExists(s, key, n); }
    var sel :| IsFirst(s, key, n, sel);
    sel
  }

  method SelectFirst(s: set<int>, key: int -> seq<int>, n: nat) returns (sel: set<int>)
    requires Injective(s, key)
    ensures IsFirst(s, key, n, sel) && sel == Leading(s, key, n)
  {
    hide AllBefore, Injective, LexLess;
    sel := {};
    var rest := s;
    NothingBefore(rest, key);
    while |sel| < n && rest != {}
      invariant rest <= s && sel == s - rest && |sel| + |rest| == |s| && |sel| <= n
      invariant AllBefore(sel, rest, key) && Injective(rest, key)
      decreases |rest|
    {
      var x := FindLeast(rest, key);
      OneMoreBefore(sel, rest, key, x);
      sel := sel + {x};
      rest := rest - {x};
    }
    assert rest == s - sel;
    BeforeIsFirst(s, key, n, sel);
  }

  lemma NothingBefore(rest: set<int>, key: int -> seq<int>)
    ensures AllBefore({}, rest, key)
  {
  }

  lemma BeforeIsFirst(s: set<int>, key: int -> seq<int>, n: nat, sel: set<int>)
    requires Injective(s, key) && sel <= s && AllBefore(sel, s - sel, key) && |sel| == Min(n, |s|)
    ensures IsFirst(s, key, n, sel) && sel == Leading(s, key, n)
  {
    hide LexLess;
    assert IsFirst(s, key, n, sel) by {
      forall x, y | x in sel && y in s - sel ensures LexLess(key(x), key(y)) {}
    }
    FirstUnique(s, key, n, sel, Leading(s, key, n));
  }

  ghost predicate AllBefore(sel: set<int>, rest: set<int>, key: int -> seq<int>) {
    forall x, y | x in sel && y in rest :: LexLess(key(x), key(y))
  }

  lemma OneMoreBefore(sel: set<int>, rest: set<int>, key: int -> seq<int>, x: int)
    requires AllBefore(sel, rest, key) && IsLeast(rest, key, x) && Injective(rest, key)
    ensures AllBefore(sel + {x}, rest - {x}, key) && Injective(rest - {x}, key)
  {
  }

  lemma FirstUnique<T(!new)>(s: set<T>, key: T -> seq<int>, n: nat, a: set<T>, b: set<T>)
    requires IsFirst(s, key, n, a) && IsFirst(s, key, n, b)
    ensures a == b
  {
    if a <= b {
      SameSizeSubset(a, b);
    } else if b <= a {
      SameSizeSubset(b, a);
    } else {
      var x :| x in a && x !in b;
      var y :| y in b && y !in a;
      LexTransitive(key(x), key(y), key(x));
      LexIrreflexive(key(x));
    }
  }

  lemma {:induction false} SameSizeSubset<T>(a: set<T>, b: set<T>)
    requires |a| == |b| && a <= b
    ensures a == b
  {
    assert b == a + (b - a);
    assert |b| == |a| + |b - a|;
  }

  lemma {:induction false} SubsetSize<T>(a: set<T>, b: set<T>)
    requires a <= b
    ensures |a| <= |b|
    ensures |a| == |b| ==> a == b
  {
    assert b == a + (b - a);
    assert |b| == |a| + |b - a|;
  }

  function Increasing(x: int): seq<int> { [x] }

  lemma IncreasingIsInjective(s: set<int>)
    ensures Injective(s, Increasing)
  {
    forall x, y | x in s && y in s && Increasing(x) == Increasing(y) ensures x == y {
      assert Increasing(x)[0] == Increasing(y)[0];
    }
  }

  ghost function Any<T>(s: set<T>): (x: T)
    requires s != {}
    ensures x in s
  {
    var x :| x in s; x
  }

  lemma SomeKey<K, V>(m: map<K, V>, v: V) returns (k: K)
    requires v in m.Values
    ensures k in m && m[k] == v
  {
    k :| k in m && m[k] == v;
  }

  /** `SELECT max(id)`, with 0 for no rows. */
  ghost function MaxId(ids: set<int>): (m: int)
    ensures forall i | i in ids :: i <= m
    ensures if ids == {} then m == 0 else m in ids
  {
    if ids == {} then 0 else
      var x := Any(ids);
      var rest := ids - {x};
      assert ids == {x} + rest;
      if rest == {} then x else Max(x, MaxId(rest))
  }

  predicate StrictlySorted(a: seq<int>) {
    forall i, j | 0 <= i < j < |a| :: a[i] < a[j]
  }

  /** `ORDER BY id ASC LIMIT n`, row by row. */
  ghost predicate IsPrefixOf(sel: seq<int>, ids: set<int>) {
    && StrictlySorted(sel)
    && (forall i | 0 <= i < |sel| :: sel[i] in ids)
    && (forall i, y | 0 <= i < |sel| && y in ids && y !in sel :: sel[i] < y)
  }

  method FirstRowIds(ids: set<int>, n: nat) returns (sel: seq<int>)
    ensures IsPrefixOf(sel, ids) && |sel| == Min(n, |ids|)
  {
    sel := [];
    var rest := ids;
    while |sel| < n && rest != {}
      invariant rest <= ids && |rest| + |sel| == |ids| && |sel| <= n
      invariant forall y | y in ids :: y in rest <==> y !in sel
      invariant IsPrefixOf(sel, ids)
      decreases rest
    {
      SmallestExists(rest);
      var id :| id in rest && forall y | y in rest :: id <= y;
      PrefixGrows(sel, ids, rest, id);
      sel := sel + [id];
      rest := rest - {id};
    }
  }

  lemma PrefixGrows(sel: seq<int>, ids: set<int>, rest: set<int>, id: int)
    requires IsPrefixOf(sel, ids) && rest <= ids && (forall y | y in ids :: y in rest <==> y !in sel)
    requires id in rest && forall y | y in rest :: id <= y
    ensures IsPrefixOf(sel + [id], ids)
    ensures forall y | y in ids :: y in rest - {id} <==> y !in sel + [id]
  {
  }

  lemma {:induction false} SortedSize(a: seq<int>)
    requires StrictlySorted(a)
    ensures |set x | x in a| == |a|
    decreases |a|
  {
    if a != [] {
      var prefix, last := a[..|a| - 1], a[|a| - 1];
      SortedSize(prefix);
      assert last !in prefix;
      assert (set x | x in a) == (set x | x in prefix) + {last} by { assert a == prefix + [last]; }
    }
  }

  lemma SmallestExists(ids: set<int>)
    requires ids != {}
    ensures exists id :: id in ids && forall y | y in ids :: id <= y
  {
    IncreasingIsInjective(ids);
    var least := LeastExists(ids, Increasing);
    forall y | y in ids ensures least <= y {
      if y != least { assert LexLess(Increasing(least), Increasing(y)); }
    }
  }

  lemma AllRowIds(sel: seq<int>, ids: set<int>)
    requires IsPrefixOf(sel, ids) && |sel| == |ids|
    ensures forall id | id in ids :: id in sel
  {
    SortedSize(sel);
    SameSizeSubset((set id | id in sel), ids);
  }

  lemma PrefixIsSorted(sel: seq<int>, ids: set<int>)
    requires IsPrefixOf(sel, ids)
    ensures StrictlySorted(sel)
  {
  }

  lemma FirstOfPrefix(all: seq<int>, ids: set<int>, k: nat)
    requires IsPrefixOf(all, ids) && (forall id | id in ids :: id in all) && k <= |all|
    ensures IsPrefixOf(all[..k], ids)
  {
    forall j | 0 <= j < k ensures all[j] in all[..k] { assert all[..k][j] == all[j]; }
    forall i, y | 0 <= i < k && y in ids && y !in all[..k] ensures all[i] < y {
      var j :| 0 <= j < |all| && all[j] == y;
    }
  }

  lemma LastIsLargest(sel: seq<int>, ids: set<int>)
    requires StrictlySorted(sel) && forall id :: id in sel <==> id in ids
    ensures |sel| == |ids|
    ensures sel != [] ==> sel[|sel| - 1] == MaxId(ids)
  {
    SortedSize(sel);
    assert (set id | id in sel) == ids;
    if sel != [] {
      assert sel[|sel| - 1] in ids;
      assert MaxId(ids) in sel;
    }
  }
}
