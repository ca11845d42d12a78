/** Lists with the same entries in another order. */
module Permutations {

  lemma WithoutOne<T>(s: seq<T>, i: nat)
    requires i < |s|
    ensures s == s[..i] + ([s[i]] + s[i + 1..])
    ensures multiset(s[..i] + s[i + 1..]) == multiset(s) - multiset{s[i]}
  {
    assert s == s[..i] + ([s[i]] + s[i + 1..]);
    assert multiset(s) == multiset(s[..i] + s[i + 1..]) + multiset{s[i]};
  }

  lemma IndexIn<T>(s: seq<T>, x: T) returns (i: nat)
    requires x in multiset(s)
    ensures i < |s| && s[i] == x
  {
    i :| 0 <= i < |s| && s[i] == x;
  }

  function Skip<T>(s: seq<T>, i: nat): seq<T>
    requires i < |s|
  {
    s[..i] + s[i + 1..]
  }

  /** Where the last entry of one list is in another one with the same entries. */
  lemma SameLast<T>(a: seq<T>, b: seq<T>) returns (n: nat, i: nat)
    requires a != [] && multiset(a) == multiset(b)
    ensures n == |a| - 1 && i < |b| && b[i] == a[n]
    ensures |Skip(a, n)| == n && multiset(Skip(a, n)) == multiset(Skip(b, i))
  {
    n := |a| - 1;
    WithoutOne(a, n);
    assert a[n] in multiset(a);
    i := IndexIn(b, a[n]);
    WithoutOne(b, i);
  }

  lemma SkipLast<T>(s: seq<T>, i: nat)
    requires i < |s|
    ensures i == |s| - 1 ==> Skip(s, i) == s[..i]
    ensures i < |s| - 1 ==>
              && s[..|s| - 1][i] == s[i]
              && Skip(s, i) != [] && Skip(s, i)[|Skip(s, i)| - 1] == s[|s| - 1]
              && Skip(s, i)[..|Skip(s, i)| - 1] == Skip(s[..|s| - 1], i)
  {
  }

  // ---------------------------------------------------------------- lists without repetitions

  ghost predicate NoRepeats<T>(keys: seq<T>) {
    forall i, j :: 0 <= i < j < |keys| ==> keys[i] != keys[j]
  }

  lemma {:induction false} OnceAtMost<T>(s: seq<T>, x: T)
    requires NoRepeats(s)
    ensures multiset(s)[x] == if x in s then 1 else 0
  {
    if s != [] {
      var n := |s| - 1;
      OnceAtMost(s[..n], x);
      assert s == s[..n] + [s[n]];
      assert s[n] !in s[..n];
    }
  }

  /** Two lists of the same things, each once, are permutations of each other. */
  lemma SameBags<T(!new)>(a: seq<T>, b: seq<T>)
    requires NoRepeats(a) && NoRepeats(b) && forall x :: x in a <==> x in b
    ensures multiset(a) == multiset(b) && |a| == |b|
  {
    hide NoRepeats;
    forall x ensures multiset(a)[x] == multiset(b)[x] {
      OnceAtMost(a, x);
      OnceAtMost(b, x);
    }
    assert multiset(a) == multiset(b);
    assert |multiset(a)| == |a| && |multiset(b)| == |b|;
  }

  // ---------------------------------------------------------------- orders given by positions

  predicate InRange(p: seq<nat>, n: nat) {
    forall i :: 0 <= i < |p| ==> p[i] < n
  }

  function Positions(n: nat): seq<nat> {
    seq(n, i requires 0 <= i < n => i)
  }

  /** p is an order of n things: every position below n, once. */
  ghost predicate Perm(p: seq<nat>, n: nat) {
    InRange(p, n) && multiset(p) == multiset(Positions(n))
  }

  /** The entries of a list in the order of these positions. */
  function At<T>(s: seq<T>, p: seq<nat>): (r: seq<T>)
    requires InRange(p, |s|)
    ensures |r| == |p|
  {
    seq(|p|, i requires 0 <= i < |p| => s[p[i]])
  }

  lemma PositionsOnce(n: nat)
    ensures NoRepeats(Positions(n)) && forall x: nat :: x in Positions(n) <==> x < n
  {
    var p := Positions(n);
    forall x: nat ensures x in p <==> x < n {
      if x < n {
        assert p[x] == x;
      }
    }
  }

  lemma PermOnce(p: seq<nat>, n: nat)
    requires Perm(p, n)
    ensures |p| == n && NoRepeats(p)
  {
    PositionsOnce(n);
    assert |multiset(p)| == |p| && |multiset(Positions(n))| == n;
    forall i, j | 0 <= i < j < |p| ensures p[i] != p[j] {
      OnceAtMost(Positions(n), p[i]);
      TwiceIn(p, i, j);
    }
  }

  lemma PermFrom(p: seq<nat>, n: nat)
    requires InRange(p, n) && NoRepeats(p) && forall x: nat :: x < n ==> x in p
    ensures Perm(p, n)
  {
    PositionsOnce(n);
    SameBags(p, Positions(n));
  }

  lemma TwiceIn<T>(s: seq<T>, i: nat, j: nat)
    requires i < j < |s|
    ensures s[i] == s[j] ==> multiset(s)[s[i]] >= 2
  {
    WithoutOne(s, j);
    if s[i] == s[j] {
      assert (s[..j] + s[j + 1..])[i] == s[i];
    }
  }

  /** The positions not in front, in order. */
  function Others(n: nat, front: seq<nat>): seq<nat> {
    if n == 0 then [] else Others(n - 1, front) + if n - 1 in front then [] else [n - 1]
  }

  lemma {:induction false} OthersAre(n: nat, front: seq<nat>)
    ensures NoRepeats(Others(n, front))
    ensures forall x: nat :: x in Others(n, front) <==> x < n && x !in front
  {
    if n > 0 {
      OthersAre(n - 1, front);
    }
  }

  /** Any different positions can come first. */
  lemma FrontFirst(n: nat, front: seq<nat>)
    requires NoRepeats(front) && InRange(front, n)
    ensures Perm(front + Others(n, front), n)
  {
    hide Others;
    var rest := Others(n, front);
    var p := front + rest;
    OthersAre(n, front);
    forall i | 0 <= i < |p| ensures p[i] < n {
      assert i >= |front| ==> p[i] in rest;
    }
    forall i, j | 0 <= i < j < |p| ensures p[i] != p[j] {
      assert j >= |front| ==> p[j] in rest;
      assert i < |front| ==> p[i] in front;
    }
    PermFrom(p, n);
  }

  lemma {:induction false} AtPermutes<T>(s: seq<T>, p: seq<nat>, q: seq<nat>)
    requires multiset(p) == multiset(q)
    requires InRange(p, |s|) && InRange(q, |s|)
    ensures multiset(At(s, p)) == multiset(At(s, q))
    decreases |p|
  {
    if p == [] {
      assert |multiset(q)| == 0;
    } else {
      hide At, Skip, InRange;
      var n, i := SameLast(p, q);
      AtSkip(s, p, n);
      AtSkip(s, q, i);
      AtPermutes(s, Skip(p, n), Skip(q, i));
    }
  }

  lemma AtSkip<T>(s: seq<T>, p: seq<nat>, i: nat)
    requires InRange(p, |s|) && i < |p|
    ensures p[i] < |s| && InRange(Skip(p, i), |s|)
    ensures multiset(At(s, p)) == multiset(At(s, Skip(p, i))) + multiset{s[p[i]]}
  {
    var all := At(s, p);
    assert At(s, Skip(p, i)) == Skip(all, i);
    WithoutOne(all, i);
    assert s[p[i]] == all[i] && all[i] in multiset(all);
  }

  lemma AtPositions<T>(s: seq<T>)
    ensures At(s, Positions(|s|)) == s
  {
  }
}
