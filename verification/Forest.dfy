/** Parent chains in a finite parent map: climbing, cycles, roots and depth. */
module Forest {
  import opened Events

  /** The n-th ancestor of x, if the chain is that long. */
  ghost function Climb<T>(p: map<T, T>, x: T, n: nat): Option<T> {
    if n == 0 then Some(x) else if x !in p then None else Climb(p, p[x], n - 1)
  }

  lemma {:induction false} ClimbSplit<T>(p: map<T, T>, x: T, m: nat, n: nat)
    ensures Climb(p, x, m + n) == match Climb(p, x, m) { case None => None case Some(y) => Climb(p, y, n) }
  {
    if m > 0 && x in p { ClimbSplit(p, p[x], m - 1, n); }
  }

  /** The last link of a chain: n + 1 steps end one parent above n steps. */
  lemma ClimbLast<T>(p: map<T, T>, x: T, n: nat)
    ensures Climb(p, x, n + 1).Some? ==>
              Climb(p, x, n).Some? && Climb(p, x, n).value in p && Climb(p, x, n + 1).value == p[Climb(p, x, n).value]
    ensures Climb(p, x, n).Some? && Climb(p, x, n).value in p ==> Climb(p, x, n + 1).Some?
  {
    ClimbSplit(p, x, n, 1);
    if Climb(p, x, n).Some? {
      var y := Climb(p, x, n).value;
      assert y in p ==> Climb(p, y, 1) == Climb(p, p[y], 0);
    }
  }

  /** No node is its own proper ancestor. */
  ghost predicate Acyclic<T(!new)>(p: map<T, T>) {
    forall x: T, n: nat :: n >= 1 ==> Climb(p, x, n) != Some(x)
  }

  ghost predicate RootedAt<T>(p: map<T, T>, x: T, n: nat) {
    Climb(p, x, n).Some? && Climb(p, x, n).value !in p
  }

  /** The chain from x ends at a parentless node. */
  ghost predicate Rooted<T>(p: map<T, T>, x: T) {
    exists n: nat :: RootedAt(p, x, n)
  }

  lemma {:induction false} RootedAtUnique<T>(p: map<T, T>, x: T, m: nat, n: nat)
    requires RootedAt(p, x, m) && RootedAt(p, x, n)
    ensures m == n
  {
    if m > 0 && n > 0 { RootedAtUnique(p, p[x], m - 1, n - 1); }
  }

  /** The number of parent links above x. */
  ghost function Depth<T>(p: map<T, T>, x: T): (n: nat)
    requires Rooted(p, x)
    ensures RootedAt(p, x, n)
  {
    var n: nat :| RootedAt(p, x, n); n
  }

  lemma DepthOfRoot<T>(p: map<T, T>, x: T)
    requires x !in p
    ensures Rooted(p, x) && Depth(p, x) == 0
  {
    assert RootedAt(p, x, 0);
    RootedAtUnique(p, x, 0, Depth(p, x));
  }

  lemma DepthOfChild<T>(p: map<T, T>, x: T)
    requires x in p
    ensures Rooted(p, x) <==> Rooted(p, p[x])
    ensures Rooted(p, x) ==> Depth(p, x) == Depth(p, p[x]) + 1
  {
    if Rooted(p, x) {
      var n := Depth(p, x);
      assert n > 0 && RootedAt(p, p[x], n - 1);
      RootedAtUnique(p, p[x], n - 1, Depth(p, p[x]));
    }
    if Rooted(p, p[x]) {
      assert RootedAt(p, x, Depth(p, p[x]) + 1);
    }
  }

  lemma {:induction false} DepthAlongChain<T>(p: map<T, T>, x: T, n: nat)
    requires Rooted(p, x) && Climb(p, x, n).Some?
    ensures Rooted(p, Climb(p, x, n).value)
    ensures Depth(p, x) == n + Depth(p, Climb(p, x, n).value)
  {
    if n > 0 {
      DepthOfChild(p, x);
      DepthAlongChain(p, p[x], n - 1);
    }
  }

  ghost predicate Below<T>(p: map<T, T>, s: T, x: T) {
    exists n: nat :: n >= 1 && Climb(p, s, n) == Some(x)
  }

  lemma BelowParent<T>(p: map<T, T>, s: T, x: T)
    requires x in p && (Below(p, s, x) || s == x)
    ensures Below(p, s, p[x])
  {
    var n: nat :| Climb(p, s, n) == Some(x) && (n >= 1 || s == x) by { if s == x { assert Climb(p, s, 0) == Some(x); } }
    ClimbLast(p, s, n);
    assert Climb(p, s, n + 1) == Some(p[x]);
  }

  /** Without cycles every chain ends: the nodes already passed cannot come again. */
  lemma {:induction false} ChainEnds<T(!new)>(p: map<T, T>, x: T, passed: set<T>)
    requires Acyclic(p) && passed <= p.Keys
    requires forall s :: s in passed ==> Below(p, s, x)
    ensures Rooted(p, x)
    decreases p.Keys - passed
  {
    if x !in p {
      DepthOfRoot(p, x);
    } else {
      assert x !in passed;
      forall s | s in passed + {x} ensures Below(p, s, p[x]) { BelowParent(p, s, x); }
      assert x in p.Keys - passed && x !in p.Keys - (passed + {x});
      ChainEnds(p, p[x], passed + {x});
      DepthOfChild(p, x);
    }
  }

  /** A finite parent map is acyclic exactly when every chain ends at a root. */
  lemma AcyclicIffRooted<T(!new)>(p: map<T, T>)
    ensures Acyclic(p) <==> forall x: T :: Rooted(p, x)
  {
    if Acyclic(p) {
      forall x: T ensures Rooted(p, x) { ChainEnds(p, x, {}); }
    }
    if forall x: T :: Rooted(p, x) {
      forall x: T, n: nat | n >= 1 ensures Climb(p, x, n) != Some(x) {
        assert Rooted(p, x);
        if Climb(p, x, n).Some? { DepthAlongChain(p, x, n); }
      }
    }
  }

  /** x and its ancestors. */
  ghost function Ancestry<T>(p: map<T, T>, x: T): set<T>
    requires Rooted(p, x)
    decreases Depth(p, x)
  {
    if x !in p then {x} else
      DepthOfChild(p, x);
      {x} + Ancestry(p, p[x])
  }

  lemma {:induction false} AncestrySize<T>(p: map<T, T>, x: T, N: set<T>)
    requires Rooted(p, x) && x in N && forall c :: c in p ==> p[c] in N
    ensures Ancestry(p, x) <= N && |Ancestry(p, x)| == Depth(p, x) + 1
    ensures forall y :: y in Ancestry(p, x) ==> Rooted(p, y) && Depth(p, y) <= Depth(p, x)
    decreases Depth(p, x)
  {
    if x !in p {
      DepthOfRoot(p, x);
    } else {
      DepthOfChild(p, x);
      AncestrySize(p, p[x], N);
      assert x !in Ancestry(p, p[x]);
    }
  }

  /** A chain never repeats a node, so it is shorter than the node set. */
  lemma DepthBound<T>(p: map<T, T>, x: T, N: set<T>)
    requires Rooted(p, x) && x in N && forall c :: c in p ==> p[c] in N
    ensures Depth(p, x) < |N|
  {
    AncestrySize(p, x, N);
    SubsetSize(Ancestry(p, x), N);
  }

  lemma {:induction false} SubsetSize<T>(A: set<T>, B: set<T>)
    requires A <= B
    ensures |A| <= |B|
  {
    assert B == A + (B - A);
  }
}
