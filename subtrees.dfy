/** Subtrees of the entity hierarchy, as values: the order in which the
    recursive walks of Entity.cpp (`serialize`), Scene.cpp (`removeEntity`)
    and SceneUtils.cpp (`removeMeshReference`) visit entities.

    The walks recurse into each child in turn, following `first` and
    `next`; they terminate only when the hierarchy has no cycle. `rank`
    witnesses that: every child ranks below its parent. */
module Subtrees {
  import opened Components
  import opened SiblingLists

  /** Every child is an entity with its own list and ranks below its
      parent. */
  ghost predicate Ranked(k: Children, rank: map<nat, nat>)
  {
    forall p, c | p in k && c in k[p] :: c in k && p in rank && c in rank && rank[c] < rank[p]
  }

  /** No entity is on two lists. */
  ghost predicate UniqueParents(k: Children)
  {
    forall p, q, x | p in k && q in k && x in k[p] && x in k[q] :: p == q
  }

  /** The entities of `e`'s subtree in the order a walk visits them:
      `e`, then each child's subtree, first child first. */
  ghost function PreOrder(k: Children, rank: map<nat, nat>, e: nat): seq<nat>
    requires Ranked(k, rank) && e in k && e in rank
    decreases rank[e], 1
  {
    [e] + PreOrderAll(k, rank, e, k[e])
  }

  /** The subtrees of the entities `s`, children of `e`, one after
      another. */
  ghost function PreOrderAll(k: Children, rank: map<nat, nat>, e: nat, s: seq<nat>): seq<nat>
    requires Ranked(k, rank) && e in rank
    requires forall c | c in s :: c in k && c in rank && rank[c] < rank[e]
    decreases rank[e], 0, |s|
  {
    if s == [] then [] else PreOrderAll(k, rank, e, s[..|s| - 1]) + PreOrder(k, rank, Last(s))
  }

  /** An entity is in the subtrees of `s` iff it is in the subtree of one of
      them. */
  lemma {:induction false} InPreOrderAll(k: Children, rank: map<nat, nat>, e: nat, s: seq<nat>, x: nat)
    requires Ranked(k, rank) && e in rank
    requires forall c | c in s :: c in k && c in rank && rank[c] < rank[e]
    ensures x in PreOrderAll(k, rank, e, s) <==> exists i | 0 <= i < |s| :: x in PreOrder(k, rank, s[i])
    decreases |s|
  {
    if s != [] {
      var t := s[..|s| - 1];
      InPreOrderAll(k, rank, e, t, x);
      if x in PreOrderAll(k, rank, e, s) {
        if x in PreOrderAll(k, rank, e, t) {
          var i :| 0 <= i < |t| && x in PreOrder(k, rank, t[i]);
          assert s[i] == t[i];
        } else {
          assert x in PreOrder(k, rank, s[|s| - 1]);
        }
      }
      if exists i | 0 <= i < |s| :: x in PreOrder(k, rank, s[i]) {
        var i :| 0 <= i < |s| && x in PreOrder(k, rank, s[i]);
        if i < |s| - 1 {
          assert t[i] == s[i];
        }
      }
    }
  }

  /** The subtrees of a list grow by one subtree per child. */
  lemma PreOrderAllSnoc(k: Children, rank: map<nat, nat>, e: nat, s: seq<nat>, j: nat)
    requires Ranked(k, rank) && e in k && e in rank && s == k[e] && j < |s|
    ensures PreOrderAll(k, rank, e, s[..j + 1]) == PreOrderAll(k, rank, e, s[..j]) + PreOrder(k, rank, s[j])
  {
    assert s[..j + 1][..j] == s[..j];
    assert Last(s[..j + 1]) == s[j];
  }

  /** Everything in `e`'s subtree is an entity ranked at most as high as
      `e`. */
  lemma {:induction false} PreOrderRank(k: Children, rank: map<nat, nat>, e: nat, x: nat)
    requires Ranked(k, rank) && e in k && e in rank
    ensures x in PreOrder(k, rank, e) ==> x in k && x in rank && rank[x] <= rank[e]
    decreases rank[e]
  {
    if x in PreOrder(k, rank, e) && x != e {
      InPreOrderAll(k, rank, e, k[e], x);
      var i :| 0 <= i < |k[e]| && x in PreOrder(k, rank, k[e][i]);
      PreOrderRank(k, rank, k[e][i], x);
    }
  }

  /** An entity of `e`'s subtree other than `e` is on the list of another
      entity of the subtree. */
  lemma {:induction false} PreOrderParent(k: Children, rank: map<nat, nat>, e: nat, x: nat) returns (q: nat)
    requires Ranked(k, rank) && e in k && e in rank && x in PreOrder(k, rank, e) && x != e
    ensures q in k && x in k[q] && q in PreOrder(k, rank, e)
    decreases rank[e]
  {
    InPreOrderAll(k, rank, e, k[e], x);
    var i :| 0 <= i < |k[e]| && x in PreOrder(k, rank, k[e][i]);
    var c := k[e][i];
    if x == c {
      q := e;
    } else {
      q := PreOrderParent(k, rank, c, x);
      InPreOrderAll(k, rank, e, k[e], q);
    }
  }

  /** With unique parents, the subtree of `b` holds an entity on `q`'s list
      only together with `q`, unless that entity is `b` itself. */
  lemma ParentInSubtree(k: Children, rank: map<nat, nat>, b: nat, x: nat, q: nat)
    requires Ranked(k, rank) && UniqueParents(k) && b in k && b in rank && q in k && x in k[q]
    ensures x in PreOrder(k, rank, b) && x != b ==> q in PreOrder(k, rank, b)
  {
    if x in PreOrder(k, rank, b) && x != b {
      var q' := PreOrderParent(k, rank, b, x);
    }
  }

  /** Two subtrees neither of whose roots lies in the other are disjoint. */
  lemma {:induction false} PreOrderDisjoint(k: Children, rank: map<nat, nat>, a: nat, b: nat, x: nat)
    requires Ranked(k, rank) && UniqueParents(k) && a in k && a in rank && b in k && b in rank
    requires a !in PreOrder(k, rank, b) && b !in PreOrder(k, rank, a)
    requires x in PreOrder(k, rank, a) && x in rank && rank[x] <= rank[a]
    ensures x !in PreOrder(k, rank, b)
    decreases rank[a] - rank[x]
  {
    if x != a {
      var q := PreOrderParent(k, rank, a, x);
      PreOrderRank(k, rank, a, q);
      PreOrderDisjoint(k, rank, a, b, q);
      ParentInSubtree(k, rank, b, x, q);
    }
  }

  /** The subtrees of two different children of `e` are disjoint, and
      neither holds `e`. */
  lemma SiblingsDisjoint(k: Children, rank: map<nat, nat>, e: nat, i: nat, j: nat)
    requires Ranked(k, rank) && UniqueParents(k) && e in k && e in rank && Distinct(k[e])
    requires i < |k[e]| && j < |k[e]| && i != j
    ensures e !in PreOrder(k, rank, k[e][i])
    ensures forall x | x in PreOrder(k, rank, k[e][i]) :: x !in PreOrder(k, rank, k[e][j])
  {
    var a := k[e][i];
    var b := k[e][j];
    PreOrderRank(k, rank, a, e);
    PreOrderRank(k, rank, b, e);
    ParentInSubtree(k, rank, a, b, e);
    ParentInSubtree(k, rank, b, a, e);
    forall x | x in PreOrder(k, rank, a)
      ensures x !in PreOrder(k, rank, b)
    {
      PreOrderRank(k, rank, a, x);
      PreOrderDisjoint(k, rank, a, b, x);
    }
  }

  /** A subtree depends only on the lists of its own entities. */
  lemma {:induction false} PreOrderFrame(k: Children, k': Children, rank: map<nat, nat>, e: nat)
    requires Ranked(k, rank) && Ranked(k', rank) && e in k && e in rank
    requires forall x | x in PreOrder(k, rank, e) :: x in k && x in k' && k'[x] == k[x]
    ensures e in k' && PreOrder(k', rank, e) == PreOrder(k, rank, e)
    decreases rank[e], 1
  {
    assert e in PreOrder(k, rank, e);
    PreOrderAllFrame(k, k', rank, e, k[e]);
  }

  lemma {:induction false} PreOrderAllFrame(k: Children, k': Children, rank: map<nat, nat>, e: nat, s: seq<nat>)
    requires Ranked(k, rank) && Ranked(k', rank) && e in rank
    requires forall c | c in s :: c in k && c in rank && rank[c] < rank[e]
    requires forall x | x in PreOrderAll(k, rank, e, s) :: x in k && x in k' && k'[x] == k[x]
    ensures (forall c | c in s :: c in k') && PreOrderAll(k', rank, e, s) == PreOrderAll(k, rank, e, s)
    decreases rank[e], 0, |s|
  {
    if s != [] {
      var t := s[..|s| - 1];
      var c := Last(s);
      PreOrderAllFrame(k, k', rank, e, t);
      PreOrderFrame(k, k', rank, c);
      forall x | x in s
        ensures x in k'
      {
        if x != c {
          assert x in t;
        }
      }
    }
  }

  /** Lists that only lose entries, over entities that only disappear, keep
      the ranking. */
  lemma RankedShrink(k: Children, k': Children, rank: map<nat, nat>)
    requires Ranked(k, rank)
    requires forall p | p in k' :: p in k && forall c | c in k'[p] :: c in k[p]
    requires forall p, c | p in k' && c in k'[p] :: c in k'
    ensures Ranked(k', rank)
  {
    forall p, c | p in k' && c in k'[p]
      ensures c in k' && p in rank && c in rank && rank[c] < rank[p]
    {
      assert p in k && c in k[p];
    }
  }

  /** The subtree of the `j`-th child of `e` holds neither `e` nor any
      entity of the subtrees of the children before it. */
  lemma WalkStep(k: Children, rank: map<nat, nat>, e: nat, j: nat)
    requires Ranked(k, rank) && UniqueParents(k) && e in k && e in rank && Distinct(k[e]) && j < |k[e]|
    ensures forall x | x in PreOrder(k, rank, k[e][j]) :: x != e && x !in PreOrderAll(k, rank, e, k[e][..j])
  {
    var s := k[e];
    forall x | x in PreOrder(k, rank, s[j])
      ensures x != e && x !in PreOrderAll(k, rank, e, s[..j])
    {
      PreOrderRank(k, rank, s[j], x);
      InPreOrderAll(k, rank, e, s[..j], x);
      forall i | 0 <= i < j
        ensures x !in PreOrder(k, rank, s[..j][i])
      {
        SiblingsDisjoint(k, rank, e, j, i);
        assert s[..j][i] == s[i];
      }
    }
  }

  /** Two lists without repeats and with no entity in common make one
      without repeats. */
  lemma DistinctConcat(a: seq<nat>, b: seq<nat>)
    requires Distinct(a) && Distinct(b) && forall x | x in b :: x !in a
    ensures Distinct(a + b)
  {
    forall i, j | 0 <= i < j < |a + b|
      ensures (a + b)[i] != (a + b)[j]
    {
      if j < |a| {
        assert (a + b)[i] == a[i] && (a + b)[j] == a[j];
      } else if i < |a| {
        assert (a + b)[j] == b[j - |a|] && (a + b)[i] == a[i] && a[i] in a;
      } else {
        assert (a + b)[i] == b[i - |a|] && (a + b)[j] == b[j - |a|];
      }
    }
  }

  /** A walk visits every entity of a subtree once: no entity comes twice. */
  lemma {:induction false} PreOrderDistinct(k: Children, rank: map<nat, nat>, e: nat)
    requires Ranked(k, rank) && UniqueParents(k) && AllDistinct(k) && e in k && e in rank
    ensures Distinct(PreOrder(k, rank, e))
    decreases rank[e], 1
  {
    PreOrderAllDistinct(k, rank, e, |k[e]|);
    assert k[e][..|k[e]|] == k[e];
    DistinctConcat([e], PreOrderAll(k, rank, e, k[e]));
  }

  /** The subtrees of the first `j` children of `e` hold no entity twice,
      and not `e`. */
  lemma {:induction false} PreOrderAllDistinct(k: Children, rank: map<nat, nat>, e: nat, j: nat)
    requires Ranked(k, rank) && UniqueParents(k) && AllDistinct(k) && e in k && e in rank && j <= |k[e]|
    ensures Distinct(PreOrderAll(k, rank, e, k[e][..j])) && e !in PreOrderAll(k, rank, e, k[e][..j])
    decreases rank[e], 0, j
  {
    var s := k[e];
    if j > 0 {
      PreOrderAllDistinct(k, rank, e, j - 1);
      PreOrderAllSnoc(k, rank, e, s, j - 1);
      PreOrderDistinct(k, rank, s[j - 1]);
      WalkStep(k, rank, e, j - 1);
      DistinctConcat(PreOrderAll(k, rank, e, s[..j - 1]), PreOrder(k, rank, s[j - 1]));
    } else {
      assert s[..0] == [];
    }
  }

  /** `m` without the entries of the entities in `s`. */
  function Drop<V>(m: map<nat, V>, s: seq<nat>): map<nat, V>
  {
    map x | x in m && x !in s :: m[x]
  }

  /** The lists once `e` has left the list of its parent, if it has one. */
  function Unlist(k: Children, parent: EntityHandle, e: nat): Children
  {
    if parent.Handle? && parent.id in k then k[parent.id := Without(k[parent.id], e)] else k
  }

  /** Taking `e` off its parent's list and then destroying it keeps the
      ranking. */
  lemma UnlistKeepsRanked(k: Children, rank: map<nat, nat>, parent: EntityHandle, e: nat, h: Links)
    requires Ranked(k, rank)
    requires Lists(h, Unlist(k, parent, e) - {e}, NullHandle)
    ensures Ranked(Unlist(k, parent, e) - {e}, rank)
  {
    var k' := Unlist(k, parent, e) - {e};
    ListsClosed(h, k', NullHandle);
    if parent.Handle? && parent.id in k {
      WithoutSub(k[parent.id], e);
    }
    RankedShrink(k, k', rank);
  }

  /** The state of the `removeEntity` walk over the children of `e` once the
      subtrees of the first `j` are gone: `e`'s list holds the others. */
  ghost predicate WalkAt<V>(k0: Children, c0: map<nat, V>, rank: map<nat, nat>, e: nat, j: nat, kb: Children, cb: map<nat, V>)
    requires Ranked(k0, rank) && e in k0 && e in rank && j <= |k0[e]|
  {
    && kb == Drop(k0, PreOrderAll(k0, rank, e, k0[e][..j]))[e := k0[e][j..]]
    && cb == Drop(c0, PreOrderAll(k0, rank, e, k0[e][..j]))
  }

  /** During the walk, the next child's subtree is the one it had at the
      start. */
  lemma WalkFrame<V>(k0: Children, c0: map<nat, V>, rank: map<nat, nat>, e: nat, j: nat, kb: Children, cb: map<nat, V>)
    requires Ranked(k0, rank) && UniqueParents(k0) && e in k0 && e in rank && Distinct(k0[e]) && j < |k0[e]|
    requires Ranked(kb, rank) && WalkAt(k0, c0, rank, e, j, kb, cb)
    ensures k0[e][j] in kb && k0[e][j] in rank
    ensures PreOrder(kb, rank, k0[e][j]) == PreOrder(k0, rank, k0[e][j])
    ensures e !in PreOrder(k0, rank, k0[e][j])
  {
    var c := k0[e][j];
    WalkStep(k0, rank, e, j);
    forall x | x in PreOrder(k0, rank, c)
      ensures x in k0 && x in kb && kb[x] == k0[x]
    {
      PreOrderRank(k0, rank, c, x);
    }
    PreOrderFrame(k0, kb, rank, c);
  }

  /** One turn of the walk: removing the subtree of child `j` leaves the
      state of the walk one child further on. */
  lemma RemoveWalkStep<V>(k0: Children, c0: map<nat, V>, rank: map<nat, nat>, e: nat, j: nat, kb: Children, cb: map<nat, V>)
    requires Ranked(k0, rank) && UniqueParents(k0) && e in k0 && e in rank && Distinct(k0[e]) && j < |k0[e]|
    requires Ranked(kb, rank) && WalkAt(k0, c0, rank, e, j, kb, cb)
    ensures k0[e][j] in rank
    ensures WalkAt(k0, c0, rank, e, j + 1,
                   Unlist(Drop(kb, PreOrder(k0, rank, k0[e][j])), Handle(e), k0[e][j]),
                   Drop(cb, PreOrder(k0, rank, k0[e][j])))
  {
    var s := k0[e];
    var done := PreOrderAll(k0, rank, e, s[..j]);
    var sub := PreOrder(k0, rank, s[j]);
    WalkFrame(k0, c0, rank, e, j, kb, cb);
    PreOrderAllSnoc(k0, rank, e, s, j);
    assert PreOrderAll(k0, rank, e, s[..j + 1]) == done + sub;
    DropDrop(c0, done, sub);
    WalkLists(k0, e, s, j, done, sub, kb);
  }

  /** The lists after one turn of the walk: `e`'s list loses its head,
      and the turn's subtree joins the dropped entities. */
  lemma WalkLists(k0: Children, e: nat, s: seq<nat>, j: nat, done: seq<nat>, sub: seq<nat>, kb: Children)
    requires j < |s| && Distinct(s) && e !in sub
    requires kb == Drop(k0, done)[e := s[j..]]
    ensures Unlist(Drop(kb, sub), Handle(e), s[j]) == Drop(k0, done + sub)[e := s[j + 1..]]
  {
    DropDrop(k0, done, sub);
    DropUpdate(Drop(k0, done), e, s[j..], sub);
    assert Distinct(s[j..]);
    WithoutAt(s[j..], 0);
    assert s[j..][..0] + s[j..][1..] == s[j + 1..];
  }

  /** Dropping two runs of keys one after the other drops both. */
  lemma DropDrop<V>(m: map<nat, V>, a: seq<nat>, b: seq<nat>)
    ensures Drop(Drop(m, a), b) == Drop(m, a + b)
  {
    assert forall x :: x in a + b <==> x in a || x in b;
  }

  /** Dropping keys other than `e` commutes with setting `e`. */
  lemma DropUpdate<V>(m: map<nat, V>, e: nat, v: V, b: seq<nat>)
    requires e !in b
    ensures Drop(m[e := v], b) == Drop(m, b)[e := v]
  {
  }

  /** The end of the `removeEntity` walk: with every child's subtree gone,
      leaving the parent's list and destroying `e` removes exactly `e`'s
      subtree. */
  lemma RemoveWalkEnd<V>(k0: Children, c0: map<nat, V>, rank: map<nat, nat>, e: nat, parent: EntityHandle, kl: Children, cl: map<nat, V>)
    requires Ranked(k0, rank) && e in k0 && e in rank
    requires parent.Handle? ==> parent.id in k0 && e in k0[parent.id]
    requires WalkAt(k0, c0, rank, e, |k0[e]|, kl, cl)
    ensures Unlist(kl, parent, e) - {e} == Unlist(Drop(k0, PreOrder(k0, rank, e)), parent, e)
    ensures cl - {e} == Drop(c0, PreOrder(k0, rank, e))
  {
    var all := PreOrder(k0, rank, e);
    assert k0[e][..|k0[e]|] == k0[e];
    if parent.Handle? {
      PreOrderRank(k0, rank, e, parent.id);
      assert parent.id !in all;
    }
    assert cl - {e} == Drop(c0, all);
    assert Drop(k0, PreOrderAll(k0, rank, e, k0[e]))[e := []] - {e} == Drop(k0, all);
  }
}
