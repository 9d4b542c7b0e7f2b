/** Options, results, bytes, and counting, summing and filtering over sequences: the vocabulary shared
    by the other modules. */
module Collections {

  datatype Option<+T> = None | Some(value: T)

  newtype Byte = x: int | 0 <= x < 256

  datatype Result<+T, +E> = Ok(value: T) | Err(error: E)

  /** How many elements of `s` satisfy `p`. */
  function Count<T>(s: seq<T>, p: T -> bool): nat {
    if s == [] then 0 else (if p(s[0]) then 1 else 0) + Count(s[1..], p)
  }

  lemma {:induction false} CountConcat<T>(a: seq<T>, b: seq<T>, p: T -> bool)
    ensures Count(a + b, p) == Count(a, p) + Count(b, p)
  {
    if a == [] {
      assert a + b == b;
    } else {
      assert (a + b)[1..] == a[1..] + b;
      CountConcat(a[1..], b, p);
    }
  }

  lemma {:induction false} CountSnoc<T>(s: seq<T>, i: nat, p: T -> bool)
    requires i < |s|
    ensures Count(s[..i + 1], p) == Count(s[..i], p) + if p(s[i]) then 1 else 0
  {
    assert s[..i + 1] == s[..i] + [s[i]];
    CountConcat(s[..i], [s[i]], p);
  }

  lemma {:induction false} CountUpdate<T>(s: seq<T>, i: nat, x: T, p: T -> bool)
    requires i < |s|
    ensures Count(s[i := x], p) + (if p(s[i]) then 1 else 0) == Count(s, p) + (if p(x) then 1 else 0)
  {
    assert s == s[..i] + ([s[i]] + s[i + 1..]);
    assert s[i := x] == s[..i] + ([x] + s[i + 1..]);
    CountConcat(s[..i], [s[i]] + s[i + 1..], p);
    CountConcat(s[..i], [x] + s[i + 1..], p);
    assert ([s[i]] + s[i + 1..])[1..] == s[i + 1..] == ([x] + s[i + 1..])[1..];
  }

  lemma {:induction false} CountZero<T>(s: seq<T>, p: T -> bool)
    ensures Count(s, p) == 0 <==> forall x | x in s :: !p(x)
  {
    if s != [] {
      CountZero(s[1..], p);
      assert forall x :: x in s <==> x == s[0] || x in s[1..];
    }
  }

  lemma CountPrefix<T>(a: seq<T>, b: seq<T>, p: T -> bool)
    requires a <= b
    ensures Count(a, p) <= Count(b, p)
  {
    assert b == a + b[|a|..];
    CountConcat(a, b[|a|..], p);
  }

  lemma CountPair<T>(x: T, y: T, p: T -> bool)
    ensures Count([x, y], p) == (if p(x) then 1 else 0) + (if p(y) then 1 else 0)
  {
    assert [x, y] == [x] + [y];
    CountConcat([x], [y], p);
  }

  lemma CountTriple<T>(x: T, y: T, z: T, p: T -> bool)
    ensures Count([x, y, z], p) == (if p(x) then 1 else 0) + (if p(y) then 1 else 0) + (if p(z) then 1 else 0)
  {
    assert [x, y, z] == [x, y] + [z];
    CountConcat([x, y], [z], p);
    CountPair(x, y, p);
  }

  /** Implied predicates count no more; equivalent ones count the same. */
  lemma {:induction false} CountMonotone<T>(s: seq<T>, p: T -> bool, q: T -> bool)
    requires forall x | x in s :: p(x) ==> q(x)
    ensures Count(s, p) <= Count(s, q)
    ensures Count(s, p) == Count(s, q) <==> forall x | x in s :: q(x) ==> p(x)
  {
    if s != [] {
      CountMonotone(s[1..], p, q);
      assert forall x :: x in s <==> x == s[0] || x in s[1..];
    }
  }

  /** Counting does not see the order. */
  lemma {:induction false} CountPermutation<T>(a: seq<T>, b: seq<T>, p: T -> bool)
    requires multiset(a) == multiset(b)
    ensures Count(a, p) == Count(b, p)
  {
    if a == [] {
      PermutationMembers(a, b);
    } else {
      var j := Removal(a, b);
      CountPermutation(a[1..], b[..j] + b[j + 1..], p);
      assert a == [a[0]] + a[1..] && b == b[..j] + ([b[j]] + b[j + 1..]);
      CountConcat(b[..j], [b[j]] + b[j + 1..], p);
      CountConcat(b[..j], b[j + 1..], p);
      assert ([b[j]] + b[j + 1..])[1..] == b[j + 1..];
    }
  }

  /** Taking the head of `a` out of both sides of a permutation leaves a permutation. */
  lemma {:induction false} Removal<T>(a: seq<T>, b: seq<T>) returns (j: nat)
    requires a != [] && multiset(a) == multiset(b)
    ensures j < |b| && b[j] == a[0]
    ensures multiset(a[1..]) == multiset(b[..j] + b[j + 1..])
  {
    assert a[0] in multiset(b);
    j :| 0 <= j < |b| && b[j] == a[0];
    assert a == [a[0]] + a[1..];
    assert b == b[..j] + [b[j]] + b[j + 1..];
    assert multiset(b[..j] + b[j + 1..]) == multiset(b) - multiset{b[j]};
  }

  /** Permutations have the same members and the same length. */
  lemma PermutationMembers<T>(a: seq<T>, b: seq<T>)
    requires multiset(a) == multiset(b)
    ensures |a| == |b|
    ensures forall x :: x in a <==> x in b
  {
    assert |multiset(a)| == |a| && |multiset(b)| == |b|;
    forall x ensures x in a <==> x in b {
      assert x in a <==> x in multiset(a);
      assert x in b <==> x in multiset(b);
    }
  }

  /** The sum of `f` over `s`. */
  function Sum<T>(s: seq<T>, f: T -> nat): nat {
    if s == [] then 0 else f(s[0]) + Sum(s[1..], f)
  }

  lemma {:induction false} SumConcat<T>(a: seq<T>, b: seq<T>, f: T -> nat)
    ensures Sum(a + b, f) == Sum(a, f) + Sum(b, f)
  {
    if a == [] {
      assert a + b == b;
    } else {
      assert (a + b)[1..] == a[1..] + b;
      SumConcat(a[1..], b, f);
    }
  }

  lemma {:induction false} SumUpdate<T>(s: seq<T>, i: nat, x: T, f: T -> nat)
    requires i < |s|
    ensures Sum(s[i := x], f) + f(s[i]) == Sum(s, f) + f(x)
  {
    assert s == s[..i] + ([s[i]] + s[i + 1..]);
    assert s[i := x] == s[..i] + ([x] + s[i + 1..]);
    SumConcat(s[..i], [s[i]] + s[i + 1..], f);
    SumConcat(s[..i], [x] + s[i + 1..], f);
    assert ([s[i]] + s[i + 1..])[1..] == s[i + 1..] == ([x] + s[i + 1..])[1..];
  }

  /** The multiset sum of `f(x)` over the elements of `s`. */
  ghost function Gather<A, B>(s: seq<A>, f: A -> multiset<B>): multiset<B> {
    if s == [] then multiset{} else f(s[0]) + Gather(s[1..], f)
  }

  lemma {:induction false} GatherConcat<A, B>(a: seq<A>, b: seq<A>, f: A -> multiset<B>)
    ensures Gather(a + b, f) == Gather(a, f) + Gather(b, f)
  {
    if a == [] {
      assert a + b == b;
    } else {
      assert (a + b)[1..] == a[1..] + b;
      GatherConcat(a[1..], b, f);
    }
  }

  lemma {:induction false} GatherUpdate<A, B>(s: seq<A>, i: nat, x: A, f: A -> multiset<B>)
    requires i < |s|
    ensures Gather(s[i := x], f) + f(s[i]) == Gather(s, f) + f(x)
  {
    assert s == s[..i] + ([s[i]] + s[i + 1..]);
    assert s[i := x] == s[..i] + ([x] + s[i + 1..]);
    GatherConcat(s[..i], [s[i]] + s[i + 1..], f);
    GatherConcat(s[..i], [x] + s[i + 1..], f);
    assert ([s[i]] + s[i + 1..])[1..] == s[i + 1..] == ([x] + s[i + 1..])[1..];
  }

  /** Replacing an element by one that contributes the same keeps the sum. */
  lemma GatherKeep<A, B>(s: seq<A>, i: nat, x: A, f: A -> multiset<B>)
    requires i < |s| && f(s[i]) == f(x)
    ensures Gather(s[i := x], f) == Gather(s, f)
  {
    GatherUpdate(s, i, x, f);
    Cancel(Gather(s[i := x], f), Gather(s, f), f(x));
  }

  /** Replacing an element that contributed nothing adds what the new one contributes. */
  lemma GatherGain<A, B>(s: seq<A>, i: nat, x: A, f: A -> multiset<B>)
    requires i < |s| && f(s[i]) == multiset{}
    ensures Gather(s[i := x], f) == Gather(s, f) + f(x)
  {
    GatherUpdate(s, i, x, f);
    assert Gather(s[i := x], f) + multiset{} == Gather(s[i := x], f);
  }

  lemma Cancel<B>(a: multiset<B>, b: multiset<B>, c: multiset<B>)
    requires a + c == b + c
    ensures a == b
  {
    assert a == (a + c) - c && b == (b + c) - c;
  }

  /** The union of `f(x)` over the elements of `s`. */
  function Union<A, B>(s: seq<A>, f: A -> set<B>): set<B> {
    if s == [] then {} else f(s[0]) + Union(s[1..], f)
  }

  lemma {:induction false} UnionConcat<A, B>(a: seq<A>, b: seq<A>, f: A -> set<B>)
    ensures Union(a + b, f) == Union(a, f) + Union(b, f)
  {
    if a == [] {
      assert a + b == b;
    } else {
      assert (a + b)[1..] == a[1..] + b;
      UnionConcat(a[1..], b, f);
    }
  }

  lemma UnionPair<A, B>(x: A, y: A, f: A -> set<B>)
    ensures Union([x, y], f) == f(x) + f(y)
  {
    assert [x, y] == [x] + [y];
    UnionConcat([x], [y], f);
  }

  lemma {:induction false} UnionSnoc<A, B>(s: seq<A>, i: nat, f: A -> set<B>)
    requires i < |s|
    ensures Union(s[..i + 1], f) == Union(s[..i], f) + f(s[i])
  {
    assert s[..i + 1] == s[..i] + [s[i]];
    UnionConcat(s[..i], [s[i]], f);
  }

  /** A union is the least upper bound of its parts. */
  lemma {:induction false} UnionWithin<A, B>(s: seq<A>, f: A -> set<B>, bound: set<B>)
    ensures Union(s, f) <= bound <==> forall x | x in s :: f(x) <= bound
  {
    if s != [] {
      UnionWithin(s[1..], f, bound);
      assert forall x :: x in s <==> x == s[0] || x in s[1..];
    }
  }

  lemma {:induction false} UnionMembers<A, B>(s: seq<A>, f: A -> set<B>, x: B)
    ensures x in Union(s, f) <==> exists a :: a in s && x in f(a)
  {
    if s != [] {
      UnionMembers(s[1..], f, x);
      assert forall a :: a in s <==> a == s[0] || a in s[1..];
    }
  }

  lemma UnionPermutation<A, B>(a: seq<A>, b: seq<A>, f: A -> set<B>)
    requires multiset(a) == multiset(b)
    ensures Union(a, f) == Union(b, f)
  {
    PermutationMembers(a, b);
    UnionWithin(a, f, Union(b, f));
    UnionWithin(b, f, Union(b, f));
    UnionWithin(a, f, Union(a, f));
    UnionWithin(b, f, Union(a, f));
  }

  /** The first element of `s` that satisfies `p`. */
  function First<T>(s: seq<T>, p: T -> bool): Option<T> {
    if s == [] then None else if p(s[0]) then Some(s[0]) else First(s[1..], p)
  }

  lemma {:induction false} FirstIs<T>(s: seq<T>, p: T -> bool)
    ensures First(s, p).None? ==> forall x | x in s :: !p(x)
    ensures First(s, p).Some? ==> First(s, p).value in s && p(First(s, p).value)
  {
    if s != [] && !p(s[0]) {
      FirstIs(s[1..], p);
      assert forall x :: x in s <==> x == s[0] || x in s[1..];
    }
  }

  /** The first is `x` exactly when `x` stands at a place that satisfies `p` and no earlier place does. */
  lemma {:induction false} FirstAt<T>(s: seq<T>, p: T -> bool, x: T)
    ensures First(s, p) == Some(x) <==> exists i :: IsFirst(s, p, i) && s[i] == x
    ensures First(s, p) == None <==> forall i | 0 <= i < |s| :: !p(s[i])
  {
    if s != [] {
      if p(s[0]) {
        assert IsFirst(s, p, 0);
      } else {
        FirstAt(s[1..], p, x);
        if i :| IsFirst(s[1..], p, i) && s[1..][i] == x { assert IsFirst(s, p, i + 1); }
        if i :| IsFirst(s, p, i) && s[i] == x { assert IsFirst(s[1..], p, i - 1); }
        assert (forall i | 0 <= i < |s[1..]| :: !p(s[1..][i])) <==> forall i | 0 < i < |s| :: !p(s[i]) by {
          assert forall i | 0 < i < |s| :: s[i] == s[1..][i - 1];
        }
      }
    }
  }

  predicate IsFirst<T>(s: seq<T>, p: T -> bool, i: int) {
    0 <= i < |s| && p(s[i]) && forall j | 0 <= j < i :: !p(s[j])
  }

  lemma {:induction false} FirstConcat<T>(a: seq<T>, b: seq<T>, p: T -> bool)
    ensures First(a + b, p) == if First(a, p).Some? then First(a, p) else First(b, p)
  {
    if a == [] {
      assert a + b == b;
    } else {
      assert (a + b)[1..] == a[1..] + b;
      FirstConcat(a[1..], b, p);
    }
  }

  lemma FirstAround<T>(before: seq<T>, x: T, after: seq<T>, p: T -> bool)
    requires First(before, p).None? && p(x)
    ensures First(before + ([x] + after), p) == Some(x)
  {
    FirstConcat(before, [x] + after, p);
    assert ([x] + after)[0] == x;
  }

  /** The elements of `s` that satisfy `p`, in order. */
  function Filter<T>(s: seq<T>, p: T -> bool): seq<T> {
    if s == [] then [] else Keep(s[0], p) + Filter(s[1..], p)
  }

  function Keep<T>(x: T, p: T -> bool): seq<T> {
    if p(x) then [x] else []
  }

  lemma {:induction false} FilterMembers<T>(s: seq<T>, p: T -> bool)
    ensures forall x :: x in Filter(s, p) <==> x in s && p(x)
  {
    if s != [] {
      FilterMembers(s[1..], p);
      assert forall x :: x in s <==> x == s[0] || x in s[1..];
    }
  }

  lemma {:induction false} FilterConcat<T>(a: seq<T>, b: seq<T>, p: T -> bool)
    ensures Filter(a + b, p) == Filter(a, p) + Filter(b, p)
  {
    hide Keep;
    if a == [] {
      assert a + b == b;
    } else {
      assert (a + b)[1..] == a[1..] + b;
      FilterConcat(a[1..], b, p);
    }
  }

  lemma FilterSnoc<T>(s: seq<T>, i: nat, p: T -> bool)
    requires i < |s|
    ensures Filter(s[..i + 1], p) == Filter(s[..i], p) + if p(s[i]) then [s[i]] else []
  {
    assert s[..i + 1] == s[..i] + [s[i]];
    FilterConcat(s[..i], [s[i]], p);
  }

  lemma FilterAround<T>(s: seq<T>, i: nat, p: T -> bool)
    requires i < |s| && p(s[i])
    ensures Filter(s, p) == Filter(s[..i], p) + ([s[i]] + Filter(s[i + 1..], p))
  {
    assert s == s[..i] + s[i..] && s[i..][1..] == s[i + 1..];
    FilterConcat(s[..i], s[i..], p);
  }

  lemma {:induction false} FilterBounds<T>(s: seq<T>, p: T -> bool)
    ensures |Filter(s, p)| <= |s|
  {
    if s != [] { FilterBounds(s[1..], p); }
  }
}
