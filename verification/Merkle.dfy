/**
 * The Merkle root over audit row hashes (crates/specton-audit/src/merkle.rs).
 *
 * Hashing is a parameter `h`; nothing is assumed about it except where a lemma
 * asks for `NoCollisions`, and then only for the pairs the two trees in question
 * really hash.
 */
module Merkle {
  import opened Common

  /** The parents of one level: an odd last node is paired with itself. */
  function Parents<T>(h: (T, T) -> T, level: seq<T>): (next: seq<T>)
    ensures |next| == (|level| + 1) / 2
  {
    if |level| == 0 then []
    else if |level| == 1 then [h(level[0], level[0])]
    else [h(level[0], level[1])] + Parents(h, level[2..])
  }

  /** The least height whose perfect tree has room for `n` leaves. */
  function Height(n: nat): (k: nat)
    requires n >= 1
    ensures n <= Pow2(k)
    ensures k > 0 ==> Pow2(k - 1) < n
  {
    if n == 1 then 0 else 1 + Height((n + 1) / 2)
  }

  /**
   * The root as a tree: a subtree of height k owns up to 2^k leaves, its left
   * half is filled first, and an empty right half repeats the left one.
   */
  function Tree<T>(h: (T, T) -> T, leaves: seq<T>, k: nat): T
    requires 1 <= |leaves| <= Pow2(k)
    decreases k
  {
    if k == 0 then leaves[0]
    else
      var half := Pow2(k - 1);
      if |leaves| <= half then
        var left := Tree(h, leaves, k - 1);
        h(left, left)
      else
        h(Tree(h, leaves[..half], k - 1), Tree(h, leaves[half..], k - 1))
  }

  function Root<T>(h: (T, T) -> T, genesis: T, leaves: seq<T>): T {
    if leaves == [] then genesis else Tree(h, leaves, Height(|leaves|))
  }

  /** The roots of the smallest lists, node by node. */
  lemma SmallRoots<T>(h: (T, T) -> T, genesis: T, a: T, b: T, c: T)
    ensures Root(h, genesis, []) == genesis && Root(h, genesis, [a]) == a && Root(h, genesis, [a, b]) == h(a, b)
    ensures Root(h, genesis, [a, b, c]) == h(h(a, b), h(c, c))
  {
    assert Pow2(0) == 1 && Pow2(1) == 2 && Pow2(2) == 4;
    assert Height(1) == 0 && Height(2) == 1 && Height(3) == 2;
    TreeOfThree(h, a, b, c);
    assert [a, b][..1] == [a] && [a, b][1..] == [b];
  }

  lemma TreeOfThree<T>(h: (T, T) -> T, a: T, b: T, c: T)
    requires Pow2(0) == 1 && Pow2(1) == 2 && Pow2(2) == 4
    ensures Tree(h, [a, b, c], 2) == h(h(a, b), h(c, c))
  {
    assert [a, b, c][..2] == [a, b] && [a, b, c][2..] == [c];
    assert [a, b][..1] == [a] && [a, b][1..] == [b];
    assert Tree(h, [a], 0) == a && Tree(h, [b], 0) == b && Tree(h, [c], 0) == c;
    assert Tree(h, [a, b], 1) == h(a, b) && Tree(h, [c], 1) == h(c, c);
  }

  lemma ParentsOfPair<T>(h: (T, T) -> T, level: seq<T>)
    requires |level| >= 2
    ensures Parents(h, level) == [h(level[0], level[1])] + Parents(h, level[2..])
  {
  }

  lemma Regroup<T>(a: seq<T>, b: seq<T>, c: seq<T>)
    ensures a + (b + c) == a + b + c
  {
  }

  /** An even number of nodes in front is paired off on its own. */
  lemma {:induction false} ParentsConcat<T>(h: (T, T) -> T, a: seq<T>, b: seq<T>)
    requires |a| % 2 == 0
    ensures Parents(h, a + b) == Parents(h, a) + Parents(h, b)
  {
    if a == [] {
      assert a + b == b;
    } else {
      ParentsOfPair(h, a);
      ParentsOfPair(h, a + b);
      assert (a + b)[2..] == a[2..] + b;
      ParentsConcat(h, a[2..], b);
      Regroup([h(a[0], a[1])], Parents(h, a[2..]), Parents(h, b));
    }
  }

  lemma TreeOfTwo<T>(h: (T, T) -> T, leaves: seq<T>)
    requires 1 <= |leaves| <= Pow2(1)
    ensures Tree(h, leaves, 1) == Tree(h, Parents(h, leaves), 0)
  {
    assert Pow2(1) == 2;
    if |leaves| == 2 {
      assert leaves[..1][0] == leaves[0] && leaves[1..][0] == leaves[1];
      assert Tree(h, leaves[..1], 0) == leaves[0] && Tree(h, leaves[1..], 0) == leaves[1];
    }
  }

  lemma ParentsOfHalves<T>(h: (T, T) -> T, leaves: seq<T>, quarter: nat)
    requires 2 * quarter < |leaves|
    ensures var all, half := Parents(h, leaves), 2 * quarter;
            && quarter < |all| && all[..quarter] == Parents(h, leaves[..half])
            && all[quarter..] == Parents(h, leaves[half..])
  {
    var half := 2 * quarter;
    ParentsConcat(h, leaves[..half], leaves[half..]);
    assert leaves == leaves[..half] + leaves[half..];
  }

  lemma TreeOfHalves<T>(h: (T, T) -> T, leaves: seq<T>, k: nat)
    requires k > 0 && Pow2(k) < |leaves| <= Pow2(k + 1)
    requires var half := Pow2(k);
             && Tree(h, leaves[..half], k) == Tree(h, Parents(h, leaves[..half]), k - 1)
             && Tree(h, leaves[half..], k) == Tree(h, Parents(h, leaves[half..]), k - 1)
    ensures Tree(h, leaves, k + 1) == Tree(h, Parents(h, leaves), k)
  {
    ParentsOfHalves(h, leaves, Pow2(k - 1));
  }

  /** Replacing the leaves by their parents lowers the tree by one level. */
  lemma {:induction false} TreeOfParents<T>(h: (T, T) -> T, leaves: seq<T>, k: nat)
    requires 1 <= |leaves| <= Pow2(k + 1)
    ensures Tree(h, leaves, k + 1) == Tree(h, Parents(h, leaves), k)
    decreases k
  {
    if k == 0 {
      TreeOfTwo(h, leaves);
    } else {
      var half := Pow2(k);
      assert half == 2 * Pow2(k - 1);
      if |leaves| <= half {
        TreeOfParents(h, leaves, k - 1);
      } else {
        TreeOfParents(h, leaves[..half], k - 1);
        TreeOfParents(h, leaves[half..], k - 1);
        TreeOfHalves(h, leaves, k);
      }
    }
  }

  lemma HeightOfMore(n: nat)
    requires n >= 2
    ensures Height(n) == Height((n + 1) / 2) + 1
  {
  }

  lemma RootIsTree<T>(h: (T, T) -> T, genesis: T, leaves: seq<T>, k: nat)
    requires leaves != [] && k == Height(|leaves|)
    ensures |leaves| <= Pow2(k) && Root(h, genesis, leaves) == Tree(h, leaves, k)
  {
  }

  lemma RootOneLevelUp<T>(h: (T, T) -> T, genesis: T, leaves: seq<T>, k: nat)
    requires |leaves| >= 2 && Height(|leaves|) == k + 1 && Height(|Parents(h, leaves)|) == k
    ensures Root(h, genesis, leaves) == Root(h, genesis, Parents(h, leaves))
  {
    RootIsTree(h, genesis, leaves, k + 1);
    RootIsTree(h, genesis, Parents(h, leaves), k);
    TreeOfParents(h, leaves, k);
  }

  /**
   * A list of at least two leaves has the root of its own list of parents: inner
   * nodes are hashed exactly like leaves, so a root alone does not fix the length.
   */
  lemma RootOfParents<T>(h: (T, T) -> T, genesis: T, leaves: seq<T>)
    requires |leaves| >= 2
    ensures Root(h, genesis, leaves) == Root(h, genesis, Parents(h, leaves))
  {
    HeightOfMore(|leaves|);
    RootOneLevelUp(h, genesis, leaves, Height(|Parents(h, leaves)|));
  }

  lemma PairOff<T>(h: (T, T) -> T, level: seq<T>, i: nat)
    requires i < |level|
    ensures Parents(h, level[i..]) ==
            [h(level[i], if i + 1 < |level| then level[i + 1] else level[i])]
            + Parents(h, if i + 2 <= |level| then level[i + 2..] else [])
  {
    var rest := level[i..];
    assert rest[0] == level[i];
    if i + 1 < |level| {
      assert rest[1] == level[i + 1] && rest[2..] == level[i + 2..];
    }
  }

  /** What is left of a level after `i` places. */
  function From<T>(level: seq<T>, i: nat): seq<T> {
    if i <= |level| then level[i..] else []
  }

  /** `next` holds the parents of the first `i` places. */
  ghost predicate Paired<T>(h: (T, T) -> T, level: seq<T>, next: seq<T>, i: nat) {
    Parents(h, level) == next + Parents(h, From(level, i))
  }

  lemma PairedFirst<T>(h: (T, T) -> T, level: seq<T>)
    ensures Paired(h, level, [], 0)
  {
    assert level[0..] == level;
  }

  lemma PairedNext<T>(h: (T, T) -> T, level: seq<T>, next: seq<T>, i: nat)
    requires i < |level| && Paired(h, level, next, i)
    ensures var right := if i + 1 < |level| then level[i + 1] else level[i];
            Paired(h, level, next + [h(level[i], right)], i + 2)
  {
    PairOff(h, level, i);
  }

  lemma PairedLast<T>(h: (T, T) -> T, level: seq<T>, next: seq<T>, i: nat)
    requires i >= |level| && Paired(h, level, next, i)
    ensures next == Parents(h, level)
  {
  }

  /** Pairs off one level. */
  method NextLevel<T>(h: (T, T) -> T, level: seq<T>) returns (next: seq<T>)
    ensures next == Parents(h, level)
  {
    next := [];
    var i := 0;
    PairedFirst(h, level);
    while i < |level|
      invariant i >= 0 && Paired(h, level, next, i)
    {
      PairedNext(h, level, next, i);
      var left := level[i];
      var right := if i + 1 < |level| then level[i + 1] else left;
      next := next + [h(left, right)];
      i := i + 2;
    }
    PairedLast(h, level, next, i);
  }

  /** The level-by-level loop. */
  method MerkleRoot<T>(h: (T, T) -> T, genesis: T, leaves: seq<T>) returns (root: T)
    ensures root == Root(h, genesis, leaves)
  {
    if |leaves| == 0 {
      return genesis;
    }
    var level := leaves;
    while |level| > 1
      invariant |level| >= 1
      invariant Root(h, genesis, level) == Root(h, genesis, leaves)
      decreases |level|
    {
      var next := NextLevel(h, level);
      RootOfParents(h, genesis, level);
      level := next;
    }
    return level[0];
  }

  /** The pairs a tree of height `k` hashes. */
  ghost function Hashed<T(!new)>(h: (T, T) -> T, leaves: seq<T>, k: nat): set<(T, T)>
    requires 1 <= |leaves| <= Pow2(k)
    decreases k
  {
    if k == 0 then {}
    else
      var half := Pow2(k - 1);
      if |leaves| <= half then
        var left := Tree(h, leaves, k - 1);
        Hashed(h, leaves, k - 1) + {(left, left)}
      else
        Hashed(h, leaves[..half], k - 1) + Hashed(h, leaves[half..], k - 1)
        + {(Tree(h, leaves[..half], k - 1), Tree(h, leaves[half..], k - 1))}
  }

  ghost predicate NoCollisions<T(!new)>(h: (T, T) -> T, pairs: set<(T, T)>) {
    forall p, q :: p in pairs && q in pairs && h(p.0, p.1) == h(q.0, q.1) ==> p == q
  }

  lemma FewerCollide<T(!new)>(h: (T, T) -> T, few: set<(T, T)>, pairs: set<(T, T)>)
    requires few <= pairs && NoCollisions(h, pairs)
    ensures NoCollisions(h, few)
  {
  }

  /** A node with a repeated half binds that half. */
  lemma RepeatBinds<T(!new)>(h: (T, T) -> T, a: seq<T>, b: seq<T>, k: nat)
    requires k > 0 && 1 <= |a| == |b| <= Pow2(k - 1)
    requires NoCollisions(h, Hashed(h, a, k) + Hashed(h, b, k)) && Tree(h, a, k) == Tree(h, b, k)
    ensures Tree(h, a, k - 1) == Tree(h, b, k - 1)
    ensures NoCollisions(h, Hashed(h, a, k - 1) + Hashed(h, b, k - 1))
  {
    var pairs := Hashed(h, a, k) + Hashed(h, b, k);
    var p, q := (Tree(h, a, k - 1), Tree(h, a, k - 1)), (Tree(h, b, k - 1), Tree(h, b, k - 1));
    assert p in pairs && q in pairs;
    FewerCollide(h, Hashed(h, a, k - 1) + Hashed(h, b, k - 1), pairs);
  }

  /** A full node binds both halves. */
  lemma NodeBinds<T(!new)>(h: (T, T) -> T, a: seq<T>, b: seq<T>, k: nat)
    requires k > 0 && Pow2(k - 1) < |a| == |b| <= Pow2(k)
    requires NoCollisions(h, Hashed(h, a, k) + Hashed(h, b, k)) && Tree(h, a, k) == Tree(h, b, k)
    ensures var half := Pow2(k - 1);
            && Tree(h, a[..half], k - 1) == Tree(h, b[..half], k - 1)
            && Tree(h, a[half..], k - 1) == Tree(h, b[half..], k - 1)
  {
    var half, pairs := Pow2(k - 1), Hashed(h, a, k) + Hashed(h, b, k);
    var p := (Tree(h, a[..half], k - 1), Tree(h, a[half..], k - 1));
    var q := (Tree(h, b[..half], k - 1), Tree(h, b[half..], k - 1));
    assert p in pairs && q in pairs;
  }

  lemma LeftsCollideLess<T(!new)>(h: (T, T) -> T, a: seq<T>, b: seq<T>, k: nat)
    requires k > 0 && Pow2(k - 1) < |a| == |b| <= Pow2(k)
    requires NoCollisions(h, Hashed(h, a, k) + Hashed(h, b, k))
    ensures var half := Pow2(k - 1); NoCollisions(h, Hashed(h, a[..half], k - 1) + Hashed(h, b[..half], k - 1))
  {
    var half := Pow2(k - 1);
    FewerCollide(h, Hashed(h, a[..half], k - 1) + Hashed(h, b[..half], k - 1), Hashed(h, a, k) + Hashed(h, b, k));
  }

  lemma RightsCollideLess<T(!new)>(h: (T, T) -> T, a: seq<T>, b: seq<T>, k: nat)
    requires k > 0 && Pow2(k - 1) < |a| == |b| <= Pow2(k)
    requires NoCollisions(h, Hashed(h, a, k) + Hashed(h, b, k))
    ensures var half := Pow2(k - 1); NoCollisions(h, Hashed(h, a[half..], k - 1) + Hashed(h, b[half..], k - 1))
  {
    var half := Pow2(k - 1);
    FewerCollide(h, Hashed(h, a[half..], k - 1) + Hashed(h, b[half..], k - 1), Hashed(h, a, k) + Hashed(h, b, k));
  }

  lemma {:induction false} TreeBinds<T(!new)>(h: (T, T) -> T, a: seq<T>, b: seq<T>, k: nat)
    requires 1 <= |a| == |b| <= Pow2(k)
    requires NoCollisions(h, Hashed(h, a, k) + Hashed(h, b, k))
    requires Tree(h, a, k) == Tree(h, b, k)
    ensures a == b
    decreases k
  {
    if k > 0 {
      var half := Pow2(k - 1);
      if |a| <= half {
        RepeatBinds(h, a, b, k);
        TreeBinds(h, a, b, k - 1);
      } else {
        NodeBinds(h, a, b, k);
        LeftsCollideLess(h, a, b, k);
        RightsCollideLess(h, a, b, k);
        TreeBinds(h, a[..half], b[..half], k - 1);
        TreeBinds(h, a[half..], b[half..], k - 1);
        assert a == a[..half] + a[half..] && b == b[..half] + b[half..];
      }
    }
  }

  /** The pairs hashed while computing the root of `leaves`. */
  ghost function RootHashed<T(!new)>(h: (T, T) -> T, leaves: seq<T>): set<(T, T)> {
    if leaves == [] then {} else Hashed(h, leaves, Height(|leaves|))
  }

  /** Equal length and equal root fix every leaf, unless two hashed pairs collide. */
  lemma RootBinds<T(!new)>(h: (T, T) -> T, genesis: T, a: seq<T>, b: seq<T>)
    requires |a| == |b|
    requires NoCollisions(h, RootHashed(h, a) + RootHashed(h, b))
    requires Root(h, genesis, a) == Root(h, genesis, b)
    ensures a == b
  {
    if |a| > 0 {
      TreeBinds(h, a, b, Height(|a|));
    }
  }

  lemma {:induction false} ParentsRepeatLast<T>(h: (T, T) -> T, leaves: seq<T>)
    requires |leaves| % 2 == 1
    ensures Parents(h, leaves + [leaves[|leaves| - 1]]) == Parents(h, leaves)
  {
    var longer := leaves + [leaves[|leaves| - 1]];
    if |leaves| == 1 {
      assert longer[2..] == [];
    } else {
      ParentsRepeatLast(h, leaves[2..]);
      assert longer[2..] == leaves[2..] + [leaves[2..][|leaves[2..]| - 1]];
    }
  }

  /**
   * Repeating the last leaf of an odd list keeps the root, whatever the hash:
   * the number of rows has to be stored beside the root.
   */
  lemma OddListRepeatsLast<T>(h: (T, T) -> T, genesis: T, leaves: seq<T>)
    requires |leaves| >= 3 && |leaves| % 2 == 1
    ensures Root(h, genesis, leaves + [leaves[|leaves| - 1]]) == Root(h, genesis, leaves)
  {
    var longer := leaves + [leaves[|leaves| - 1]];
    ParentsRepeatLast(h, leaves);
    RootOfParents(h, genesis, leaves);
    RootOfParents(h, genesis, longer);
  }
}
