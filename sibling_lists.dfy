/** The intrusive child lists of HierarchyComponent.cpp, as values.

    `h` maps each entity that has a HierarchyComponent to its links; `k` is
    the abstract list of its children, first to last. `Lists(h, k, d)` says
    the links spell out exactly those lists. The entity `d`, if not null,
    has just been unlinked by `removeChild`: it is on no list and its own
    links are stale.

    The lemmas here state what each branch of `removeChild` and `addChild`
    does to the lists; `SceneGraph.Scene` performs the same field writes on
    its pool and appeals to them. */
module SiblingLists {
  import opened Components

  type Links = map<nat, Hierarchy>
  type Children = map<nat, seq<nat>>

  /** The first element of a list, or the null handle. */
  function HeadOf(s: seq<nat>): EntityHandle
  {
    if |s| == 0 then NullHandle else Handle(s[0])
  }

  /** The `prev` link element `i` of a list must hold. */
  function PrevIn(s: seq<nat>, i: nat): EntityHandle
    requires i < |s|
  {
    if i == 0 then NullHandle else Handle(s[i - 1])
  }

  /** The `next` link element `i` of a list must hold. */
  function NextIn(s: seq<nat>, i: nat): EntityHandle
    requires i < |s|
  {
    if i == |s| - 1 then NullHandle else Handle(s[i + 1])
  }

  /** The last element of a non-empty list. */
  function Last(s: seq<nat>): nat
    requires |s| > 0
  {
    s[|s| - 1]
  }

  predicate Distinct(s: seq<nat>)
  {
    forall i, j :: 0 <= i < j < |s| ==> s[i] != s[j]
  }

  /** `s` without the element `x`. */
  function Without(s: seq<nat>, x: nat): seq<nat>
  {
    if |s| == 0 then []
    else if s[0] == x then Without(s[1..], x)
    else [s[0]] + Without(s[1..], x)
  }

  lemma {:induction false} WithoutAbsent(s: seq<nat>, x: nat)
    requires x !in s
    ensures Without(s, x) == s
  {
    if |s| > 0 {
      WithoutAbsent(s[1..], x);
    }
  }

  /** Removing an element keeps only entries of the list. */
  lemma {:induction false} WithoutSub(s: seq<nat>, x: nat)
    ensures forall c | c in Without(s, x) :: c in s
  {
    if |s| > 0 {
      WithoutSub(s[1..], x);
    }
  }

  /** Removing the element at `i` of a list without repeats removes exactly
      that position. */
  lemma {:induction false} WithoutAt(s: seq<nat>, i: nat)
    requires Distinct(s) && i < |s|
    ensures Without(s, s[i]) == s[..i] + s[i + 1..]
  {
    if i == 0 {
      assert s[0] !in s[1..];
      WithoutAbsent(s[1..], s[0]);
    } else {
      WithoutAt(s[1..], i - 1);
      assert s[1..][..i - 1] == s[1..i];
      assert s[1..][i..] == s[i + 1..];
      assert s[..i] == [s[0]] + s[1..i];
    }
  }


  /** Entry `i` of `p`'s list `s` carries the links the list demands. */
  ghost predicate Linked(h: Links, p: nat, s: seq<nat>, i: nat, d: EntityHandle)
    requires i < |s|
  {
    && s[i] in h
    && Handle(s[i]) != d
    && h[s[i]].parent == Handle(p)
    && h[s[i]].prev == PrevIn(s, i)
    && h[s[i]].next == NextIn(s, i)
  }

  /** An entity's parent link names a list the entity is on. */
  ghost predicate Listed(h: Links, k: Children, c: nat)
    requires c in h
  {
    h[c].parent != NullHandle ==> h[c].parent.id in k && c in k[h[c].parent.id]
  }

  /** Every parent's `first` is the head of its list. */
  ghost predicate Heads(h: Links, k: Children)
    requires k.Keys <= h.Keys
  {
    forall p | p in k :: h[p].first == HeadOf(k[p])
  }

  ghost predicate AllLinked(h: Links, k: Children, d: EntityHandle)
  {
    forall p, i | p in k && 0 <= i < |k[p]| :: Linked(h, p, k[p], i, d)
  }

  ghost predicate AllDistinct(k: Children)
  {
    forall p | p in k :: Distinct(k[p])
  }

  ghost predicate AllListed(h: Links, k: Children, d: EntityHandle)
  {
    forall c {:trigger Listed(h, k, c)} | c in h && Handle(c) != d :: Listed(h, k, c)
  }

  ghost predicate Lists(h: Links, k: Children, d: EntityHandle)
  {
    && k.Keys == h.Keys
    && Heads(h, k)
    && AllLinked(h, k, d)
    && AllDistinct(k)
    && AllListed(h, k, d)
  }

  /** Only the sibling links may differ between `h` and `h'`: the key set,
      every `parent` and every `parentID` agree. */
  ghost predicate SameParents(h: Links, h': Links)
  {
    h'.Keys == h.Keys &&
    forall x | x in h :: h'[x].parent == h[x].parent && h'[x].parentID == h[x].parentID
  }

  /** An entity whose parent link is null is on no list, so the lists also
      hold with it regarded as detached. */
  lemma DetachUnparented(h: Links, k: Children, c: nat)
    requires Lists(h, k, NullHandle) && c in h && h[c].parent == NullHandle
    ensures Lists(h, k, Handle(c))
  {
    forall p, i | p in k && 0 <= i < |k[p]|
      ensures Linked(h, p, k[p], i, Handle(c))
    {
      assert Linked(h, p, k[p], i, NullHandle);
    }
  }

  /** Every entity on `p`'s list has a HierarchyComponent whose parent is
      `p`, and so do its neighbours. */
  lemma ListedChild(h: Links, k: Children, p: nat, c: nat) returns (i: nat)
    requires Lists(h, k, NullHandle) && p in k && c in k[p]
    ensures i < |k[p]| && k[p][i] == c
    ensures c in h && h[c].parent == Handle(p)
    ensures h[c].prev == PrevIn(k[p], i) && h[c].next == NextIn(k[p], i)
    ensures (h[c].prev.Handle? ==> h[c].prev.id in h) && (h[c].next.Handle? ==> h[c].next.id in h)
    ensures h[p].first == Handle(c) <==> i == 0
  {
    i :| 0 <= i < |k[p]| && k[p][i] == c;
    assert Linked(h, p, k[p], i, NullHandle);
    if i > 0 {
      assert Linked(h, p, k[p], i - 1, NullHandle);
      assert k[p][0] != c;
    }
    if i < |k[p]| - 1 {
      assert Linked(h, p, k[p], i + 1, NullHandle);
    }
  }

  /** `p`, the child `c` and the child's neighbours all have
      HierarchyComponents: what `removeChild` needs to reach every component
      it writes. */
  predicate Neighboured(h: Links, p: nat, c: nat)
  {
    && p in h && c in h
    && (h[c].prev.Handle? ==> h[c].prev.id in h)
    && (h[c].next.Handle? ==> h[c].next.id in h)
  }

  /** The neighbours of a listed child have HierarchyComponents too. */
  lemma NeighboursPresent(h: Links, k: Children, p: nat, c: nat)
    requires Lists(h, k, NullHandle) && p in k && c in k[p]
    ensures Neighboured(h, p, c)
  {
    var _ := ListedChild(h, k, p, c);
  }

  /** The writes of `removeChild` when the child heads `p`'s list: the next
      sibling, if any, loses its `prev`, and `first` moves to the child's
      `next`. */
  function UnlinkHead(h: Links, p: nat, c: nat): Links
    requires p in h && c in h && (h[c].next.Handle? ==> h[c].next.id in h)
  {
    var n := h[c].next;
    var h1 := if n.Handle? then h[n.id := h[n.id].(prev := NullHandle)] else h;
    h1[p := h1[p].(first := h1[c].next)]
  }

  /** The writes of `removeChild` otherwise: the child's neighbours are
      linked to each other. */
  function UnlinkInner(h: Links, c: nat): Links
    requires c in h && (h[c].prev.Handle? ==> h[c].prev.id in h) && (h[c].next.Handle? ==> h[c].next.id in h)
  {
    var pr := h[c].prev;
    var n := h[c].next;
    var h1 := if pr.Handle? then h[pr.id := h[pr.id].(next := n)] else h;
    if n.Handle? then h1[n.id := h1[n.id].(prev := pr)] else h1
  }

  /** The writes of `addChild` at the front of `np`'s non-empty list, whose
      head is `f`. */
  function LinkFront(h: Links, np: nat, c: nat, f: nat): Links
    requires np in h && c in h && f in h
  {
    var h1 := h[f := h[f].(prev := Handle(c))];
    var h2 := h1[c := h1[c].(next := Handle(f))];
    var h3 := h2[c := h2[c].(prev := NullHandle)];
    h3[np := h3[np].(first := Handle(c))]
  }

  /** The writes of `addChild` at the back of a list whose last entry is
      `e`. */
  function LinkBack(h: Links, c: nat, e: nat): Links
    requires c in h && e in h
  {
    var h1 := h[e := h[e].(next := Handle(c))];
    var h2 := h1[c := h1[c].(next := NullHandle)];
    h2[c := h2[c].(prev := Handle(e))]
  }

  /** The writes of `addChild` to an empty list. */
  function LinkOnly(h: Links, np: nat, c: nat): Links
    requires np in h && c in h
  {
    var h1 := h[c := h[c].(prev := NullHandle)];
    var h2 := h1[c := h1[c].(next := NullHandle)];
    h2[np := h2[np].(first := Handle(c))]
  }

  /** The last two writes of `addChild`: the child's `parent` and
      `parentID`. */
  function Reparent(h: Links, c: nat, np: nat, pid: string): Links
    requires c in h
  {
    var h1 := h[c := h[c].(parent := Handle(np))];
    h1[c := h1[c].(parentID := pid)]
  }

  /** The writes of `removeChild` of `c` from `p`'s list. */
  function Unlinked(h: Links, p: nat, c: nat): Links
    requires Neighboured(h, p, c)
  {
    if h[p].first == Handle(c) then UnlinkHead(h, p, c) else UnlinkInner(h, c)
  }

  lemma RemoveHeadLinked(h: Links, k: Children, p: nat, c: nat)
    requires Lists(h, k, NullHandle) && p in k && |k[p]| > 0 && k[p][0] == c
    requires c in h && (h[c].next.Handle? ==> h[c].next.id in h)
    ensures AllLinked(UnlinkHead(h, p, c), k[p := k[p][1..]], Handle(c))
  {
    var h2 := UnlinkHead(h, p, c);
    var s := k[p];
    assert Linked(h, p, s, 0, NullHandle);
    var n := h[c].next;
    if n.Handle? {
      assert Linked(h, p, s, 1, NullHandle);
    }
    var k' := k[p := s[1..]];
    forall q, j | q in k' && 0 <= j < |k'[q]|
      ensures Linked(h2, q, k'[q], j, Handle(c))
    {
      if q == p {
        assert s[1..][j] == s[j + 1];
        assert Linked(h, p, s, j + 1, NullHandle);
      } else {
        assert Linked(h, q, k[q], j, NullHandle);
        assert n.Handle? ==> h[n.id].parent == Handle(p);
      }
    }
  }

  lemma RemoveHeadListed(h: Links, k: Children, p: nat, c: nat)
    requires Lists(h, k, NullHandle) && p in k && |k[p]| > 0 && k[p][0] == c
    requires c in h && (h[c].next.Handle? ==> h[c].next.id in h)
    ensures AllListed(UnlinkHead(h, p, c), k[p := k[p][1..]], Handle(c))
  {
    var h2 := UnlinkHead(h, p, c);
    var s := k[p];
    var k' := k[p := s[1..]];
    forall x | x in h2 && Handle(x) != Handle(c)
      ensures Listed(h2, k', x)
    {
      assert Listed(h, k, x);
      if h[x].parent == Handle(p) {
        var j :| 0 <= j < |s| && s[j] == x;
        assert s[1..][j - 1] == x;
      }
    }
  }

  /** `removeChild` of the head of `p`'s list takes it off the list, and
      leaves every parent link and the child's own links as they were. */
  lemma RemoveHeadKeepsLists(h: Links, k: Children, p: nat, c: nat)
    requires Lists(h, k, NullHandle) && p in k && |k[p]| > 0 && k[p][0] == c
    requires c in h && (h[c].next.Handle? ==> h[c].next.id in h)
    ensures Lists(UnlinkHead(h, p, c), k[p := k[p][1..]], Handle(c))
    ensures SameParents(h, UnlinkHead(h, p, c))
    ensures UnlinkHead(h, p, c)[c].prev == h[c].prev && UnlinkHead(h, p, c)[c].next == h[c].next
  {
    RemoveHeadLinked(h, k, p, c);
    RemoveHeadListed(h, k, p, c);
    var s := k[p];
    assert Linked(h, p, s, 0, NullHandle);
    if h[c].next.Handle? {
      assert Linked(h, p, s, 1, NullHandle);
    }
    assert Distinct(s);
  }

  lemma RemoveInnerLinked(h: Links, k: Children, p: nat, c: nat, i: nat)
    requires Lists(h, k, NullHandle) && p in k && 0 < i < |k[p]| && k[p][i] == c
    requires c in h && (h[c].prev.Handle? ==> h[c].prev.id in h) && (h[c].next.Handle? ==> h[c].next.id in h)
    ensures AllLinked(UnlinkInner(h, c), k[p := k[p][..i] + k[p][i + 1..]], Handle(c))
  {
    var h2 := UnlinkInner(h, c);
    var s := k[p];
    assert Linked(h, p, s, i, NullHandle);
    assert Linked(h, p, s, i - 1, NullHandle);
    var n := h[c].next;
    if n.Handle? {
      assert Linked(h, p, s, i + 1, NullHandle);
    }
    var t := s[..i] + s[i + 1..];
    var k' := k[p := t];
    forall q, j | q in k' && 0 <= j < |k'[q]|
      ensures Linked(h2, q, k'[q], j, Handle(c))
    {
      if q == p {
        if j < i {
          assert t[j] == s[j];
          assert Linked(h, p, s, j, NullHandle);
        } else {
          assert t[j] == s[j + 1];
          assert Linked(h, p, s, j + 1, NullHandle);
        }
      } else {
        assert Linked(h, q, k[q], j, NullHandle);
        assert h[s[i - 1]].parent == Handle(p);
        assert n.Handle? ==> h[n.id].parent == Handle(p);
      }
    }
  }

  lemma RemoveInnerListed(h: Links, k: Children, p: nat, c: nat, i: nat)
    requires Lists(h, k, NullHandle) && p in k && 0 < i < |k[p]| && k[p][i] == c
    requires c in h && (h[c].prev.Handle? ==> h[c].prev.id in h) && (h[c].next.Handle? ==> h[c].next.id in h)
    ensures AllListed(UnlinkInner(h, c), k[p := k[p][..i] + k[p][i + 1..]], Handle(c))
  {
    var h2 := UnlinkInner(h, c);
    var s := k[p];
    var t := s[..i] + s[i + 1..];
    var k' := k[p := t];
    forall x | x in h2 && Handle(x) != Handle(c)
      ensures Listed(h2, k', x)
    {
      assert Listed(h, k, x);
      if h[x].parent == Handle(p) {
        var j :| 0 <= j < |s| && s[j] == x;
        if j < i {
          assert t[j] == x;
        } else {
          assert t[j - 1] == x;
        }
      }
    }
  }

  /** Dropping one position of a list without repeats leaves a list
      without repeats. */
  lemma DistinctDropAt(s: seq<nat>, i: nat)
    requires Distinct(s) && i < |s|
    ensures Distinct(s[..i] + s[i + 1..])
  {
    var t := s[..i] + s[i + 1..];
    forall a, b | 0 <= a < b < |t|
      ensures t[a] != t[b]
    {
      var a' := if a < i then a else a + 1;
      var b' := if b < i then b else b + 1;
      assert t[a] == s[a'] && t[b] == s[b'];
    }
  }

  /** The splice of `removeChild` touches only the neighbours' sibling
      links. */
  lemma UnlinkInnerFrame(h: Links, k: Children, p: nat, c: nat, i: nat)
    requires Lists(h, k, NullHandle) && p in k && 0 < i < |k[p]| && k[p][i] == c
    requires c in h && (h[c].prev.Handle? ==> h[c].prev.id in h) && (h[c].next.Handle? ==> h[c].next.id in h)
    ensures SameParents(h, UnlinkInner(h, c))
    ensures UnlinkInner(h, c)[c] == h[c]
    ensures forall x | x in h :: UnlinkInner(h, c)[x].first == h[x].first
  {
    var s := k[p];
    assert Linked(h, p, s, i, NullHandle);
    assert Linked(h, p, s, i - 1, NullHandle);
    if h[c].next.Handle? {
      assert Linked(h, p, s, i + 1, NullHandle);
    }
    assert Distinct(s);
  }

  /** `removeChild` of an entity further down `p`'s list takes it off the
      list, and leaves every parent link, every `first` and the child's own
      links as they were. */
  lemma RemoveInnerKeepsLists(h: Links, k: Children, p: nat, c: nat, i: nat)
    requires Lists(h, k, NullHandle) && p in k && 0 < i < |k[p]| && k[p][i] == c
    requires c in h && (h[c].prev.Handle? ==> h[c].prev.id in h) && (h[c].next.Handle? ==> h[c].next.id in h)
    ensures Lists(UnlinkInner(h, c), k[p := k[p][..i] + k[p][i + 1..]], Handle(c))
    ensures SameParents(h, UnlinkInner(h, c))
    ensures UnlinkInner(h, c)[c] == h[c]
  {
    RemoveInnerLinked(h, k, p, c, i);
    RemoveInnerListed(h, k, p, c, i);
    UnlinkInnerFrame(h, k, p, c, i);
    DistinctDropAt(k[p], i);
    assert (k[p][..i] + k[p][i + 1..])[0] == k[p][0];
  }

  /** `removeChild` of any entity on `p`'s list takes it off the list,
      leaving every parent link and the child's own sibling links as they
      were. */
  lemma UnlinkedKeepsLists(h: Links, k: Children, p: nat, c: nat)
    requires Lists(h, k, NullHandle) && p in k && c in k[p]
    ensures Neighboured(h, p, c)
    ensures Lists(Unlinked(h, p, c), k[p := Without(k[p], c)], Handle(c))
    ensures SameParents(h, Unlinked(h, p, c))
    ensures Unlinked(h, p, c)[c].prev == h[c].prev && Unlinked(h, p, c)[c].next == h[c].next
  {
    var i := ListedChild(h, k, p, c);
    WithoutAt(k[p], i);
    if i == 0 {
      RemoveHeadKeepsLists(h, k, p, c);
      assert k[p][..0] + k[p][1..] == k[p][1..];
    } else {
      RemoveInnerKeepsLists(h, k, p, c, i);
    }
  }

  lemma InsertFrontLinked(h: Links, k: Children, np: nat, c: nat, pid: string)
    requires Lists(h, k, Handle(c)) && c in h && np in k && |k[np]| > 0 && k[np][0] in h
    ensures AllLinked(Reparent(LinkFront(h, np, c, k[np][0]), c, np, pid), k[np := [c] + k[np]], NullHandle)
  {
    var s := k[np];
    var f := s[0];
    assert Linked(h, np, s, 0, Handle(c));
    var h' := Reparent(LinkFront(h, np, c, f), c, np, pid);
    var t := [c] + s;
    var k' := k[np := t];
    forall q, j | q in k' && 0 <= j < |k'[q]|
      ensures Linked(h', q, k'[q], j, NullHandle)
    {
      if q == np {
        if j > 0 {
          assert t[j] == s[j - 1];
          assert Linked(h, np, s, j - 1, Handle(c));
        }
      } else {
        assert Linked(h, q, k[q], j, Handle(c));
        assert h[f].parent == Handle(np);
      }
    }
  }

  lemma InsertFrontListed(h: Links, k: Children, np: nat, c: nat, pid: string)
    requires Lists(h, k, Handle(c)) && c in h && np in k && |k[np]| > 0 && k[np][0] in h
    ensures AllListed(Reparent(LinkFront(h, np, c, k[np][0]), c, np, pid), k[np := [c] + k[np]], NullHandle)
  {
    var s := k[np];
    var h' := Reparent(LinkFront(h, np, c, s[0]), c, np, pid);
    var t := [c] + s;
    var k' := k[np := t];
    forall x | x in h'
      ensures Listed(h', k', x)
    {
      if x != c {
        assert Listed(h, k, x);
        if h[x].parent == Handle(np) {
          var j :| 0 <= j < |s| && s[j] == x;
          assert t[j + 1] == x;
        }
      } else {
        assert t[0] == c;
      }
    }
  }

  /** `addChild` at the front of a non-empty list, of a child that is on
      no list: the child heads the new parent's list. */
  lemma InsertFrontKeepsLists(h: Links, k: Children, np: nat, c: nat, pid: string)
    requires Lists(h, k, Handle(c)) && c in h && np in k && |k[np]| > 0 && k[np][0] in h
    ensures Lists(Reparent(LinkFront(h, np, c, k[np][0]), c, np, pid), k[np := [c] + k[np]], NullHandle)
  {
    InsertFrontLinked(h, k, np, c, pid);
    InsertFrontListed(h, k, np, c, pid);
    var s := k[np];
    forall j | 0 <= j < |s|
      ensures s[j] != c
    {
      assert Linked(h, np, s, j, Handle(c));
    }
    assert Distinct(s);
  }

  lemma InsertBackLinked(h: Links, k: Children, np: nat, c: nat, pid: string)
    requires Lists(h, k, Handle(c)) && c in h && np in k && |k[np]| > 0 && Last(k[np]) in h
    ensures AllLinked(Reparent(LinkBack(h, c, Last(k[np])), c, np, pid), k[np := k[np] + [c]], NullHandle)
  {
    var s := k[np];
    var e := Last(s);
    assert Linked(h, np, s, |s| - 1, Handle(c));
    var h' := Reparent(LinkBack(h, c, e), c, np, pid);
    var t := s + [c];
    var k' := k[np := t];
    forall q, j | q in k' && 0 <= j < |k'[q]|
      ensures Linked(h', q, k'[q], j, NullHandle)
    {
      if q == np {
        if j < |s| {
          assert t[j] == s[j];
          assert Linked(h, np, s, j, Handle(c));
        }
      } else {
        assert Linked(h, q, k[q], j, Handle(c));
        assert h[e].parent == Handle(np);
      }
    }
  }

  lemma InsertBackListed(h: Links, k: Children, np: nat, c: nat, pid: string)
    requires Lists(h, k, Handle(c)) && c in h && np in k && |k[np]| > 0 && Last(k[np]) in h
    ensures AllListed(Reparent(LinkBack(h, c, Last(k[np])), c, np, pid), k[np := k[np] + [c]], NullHandle)
  {
    var s := k[np];
    var h' := Reparent(LinkBack(h, c, Last(s)), c, np, pid);
    var t := s + [c];
    var k' := k[np := t];
    forall x | x in h'
      ensures Listed(h', k', x)
    {
      if x != c {
        assert Listed(h, k, x);
        if h[x].parent == Handle(np) {
          var j :| 0 <= j < |s| && s[j] == x;
          assert t[j] == x;
        }
      } else {
        assert t[|s|] == c;
      }
    }
  }

  /** `addChild` at the back of a non-empty list, of a child that is on no
      list: the child ends the new parent's list. */
  lemma InsertBackKeepsLists(h: Links, k: Children, np: nat, c: nat, pid: string)
    requires Lists(h, k, Handle(c)) && c in h && np in k && |k[np]| > 0 && Last(k[np]) in h
    ensures Lists(Reparent(LinkBack(h, c, Last(k[np])), c, np, pid), k[np := k[np] + [c]], NullHandle)
  {
    InsertBackLinked(h, k, np, c, pid);
    InsertBackListed(h, k, np, c, pid);
    var s := k[np];
    forall j | 0 <= j < |s|
      ensures s[j] != c
    {
      assert Linked(h, np, s, j, Handle(c));
    }
    assert Distinct(s);
    assert (s + [c])[0] == s[0];
  }

  /** `addChild` to an empty list, of a child that is on no list: the child
      is the only child. */
  lemma InsertOnlyKeepsLists(h: Links, k: Children, np: nat, c: nat, pid: string)
    requires Lists(h, k, Handle(c)) && c in h && np in k && k[np] == []
    ensures Lists(Reparent(LinkOnly(h, np, c), c, np, pid), k[np := [c]], NullHandle)
  {
    var h' := Reparent(LinkOnly(h, np, c), c, np, pid);
    var k' := k[np := [c]];
    forall q, j | q in k' && 0 <= j < |k'[q]|
      ensures Linked(h', q, k'[q], j, NullHandle)
    {
      if q != np {
        assert Linked(h, q, k[q], j, Handle(c));
      }
    }
    forall x | x in h'
      ensures Listed(h', k', x)
    {
      if x != c {
        assert Listed(h, k, x);
      }
    }
  }

  /** A new entity with a fresh HierarchyComponent is on no list and has no
      children. */
  lemma AddFreshKeepsLists(h: Links, k: Children, x: nat)
    requires Lists(h, k, NullHandle) && x !in h
    ensures Lists(h[x := NewHierarchy()], k[x := []], NullHandle)
  {
    var h' := h[x := NewHierarchy()];
    var k' := k[x := []];
    forall p, i | p in k' && 0 <= i < |k'[p]|
      ensures Linked(h', p, k'[p], i, NullHandle)
    {
      assert Linked(h, p, k[p], i, NullHandle);
    }
    forall c | c in h'
      ensures Listed(h', k', c)
    {
      if c != x {
        assert Listed(h, k, c);
      }
    }
  }

  /** `entityRegistry.destroy` of an entity that has been taken off every
      list and has no children left removes it from the lists. */
  lemma DestroyKeepsLists(h: Links, k: Children, e: nat)
    requires Lists(h, k, Handle(e)) && e in k && k[e] == []
    ensures Lists(h - {e}, k - {e}, NullHandle)
  {
    var h' := h - {e};
    var k' := k - {e};
    forall p, i | p in k' && 0 <= i < |k'[p]|
      ensures Linked(h', p, k'[p], i, NullHandle)
    {
      assert Linked(h, p, k[p], i, Handle(e));
    }
    forall c | c in h'
      ensures Listed(h', k', c)
    {
      assert Listed(h, k, c);
    }
  }

  /** Every entry of a list is itself an entity with a HierarchyComponent. */
  lemma ListsClosed(h: Links, k: Children, d: EntityHandle)
    requires Lists(h, k, d)
    ensures forall p, c | p in k && c in k[p] :: c in k
  {
    forall p, c | p in k && c in k[p]
      ensures c in k
    {
      var i :| 0 <= i < |k[p]| && k[p][i] == c;
      assert Linked(h, p, k[p], i, d);
    }
  }

  /** No entity is on two lists: its `parent` names the only one. */
  lemma ListsUniqueParents(h: Links, k: Children, d: EntityHandle)
    requires Lists(h, k, d)
    ensures forall p, q, x | p in k && q in k && x in k[p] && x in k[q] :: p == q
  {
    forall p, q, x | p in k && q in k && x in k[p] && x in k[q]
      ensures p == q
    {
      var i :| 0 <= i < |k[p]| && k[p][i] == x;
      var j :| 0 <= j < |k[q]| && k[q][j] == x;
      assert Linked(h, p, k[p], i, d);
      assert Linked(h, q, k[q], j, d);
    }
  }

  /** The links of a list that starts with `c`: `first` is `c`, `c` has no
      `prev`, its `next` is the former head and that entity points back to
      `c`. */
  lemma FrontLinks(h: Links, k: Children, np: nat, c: nat, rest: seq<nat>)
    requires Lists(h, k, NullHandle) && np in k && k[np] == [c] + rest
    ensures c in h && h[np].first == Handle(c) && h[c].parent == Handle(np)
    ensures h[c].prev == NullHandle && h[c].next == HeadOf(rest)
    ensures rest != [] ==> rest[0] in h && h[rest[0]].prev == Handle(c)
  {
    assert Linked(h, np, k[np], 0, NullHandle);
    if rest != [] {
      assert Linked(h, np, k[np], 1, NullHandle);
    }
  }

  /** The links of a list that ends with `c`: the entity before it points
      to it, and `c` points back to it and has no `next`. */
  lemma BackLinks(h: Links, k: Children, np: nat, c: nat, init: seq<nat>)
    requires Lists(h, k, NullHandle) && np in k && k[np] == init + [c]
    ensures c in h && h[c].parent == Handle(np) && h[c].next == NullHandle
    ensures init == [] ==> h[np].first == Handle(c) && h[c].prev == NullHandle
    ensures init != [] ==> Last(init) in h && h[Last(init)].next == Handle(c) && h[c].prev == Handle(Last(init))
  {
    var s := k[np];
    assert Linked(h, np, s, |s| - 1, NullHandle);
    if init != [] {
      assert Linked(h, np, s, |s| - 2, NullHandle);
    } else {
      assert s[0] == c;
    }
  }

  /** From `np`'s `first` along `next`, the links spell out `s`: what the
      walk of `addChild` to the last sibling relies on. */
  ghost predicate Chain(h: Links, np: nat, s: seq<nat>)
    requires np in h
  {
    && h[np].first == HeadOf(s)
    && forall j | 0 <= j < |s| :: s[j] in h && h[s[j]].next == NextIn(s, j)
  }

  lemma ListsChain(h: Links, k: Children, np: nat, d: EntityHandle)
    requires Lists(h, k, d) && np in k
    ensures Chain(h, np, k[np])
  {
    forall j | 0 <= j < |k[np]|
      ensures k[np][j] in h && h[k[np][j]].next == NextIn(k[np], j)
    {
      assert Linked(h, np, k[np], j, d);
    }
  }

  /** The sibling-link writes of `addChild` for a child `c` that is on no
      list, to `np`'s list `s`: at the front, at the back, or as the only
      child. */
  function Attach(h: Links, np: nat, c: nat, atStart: bool, s: seq<nat>): Links
    requires np in h && c in h && (s != [] ==> s[0] in h && Last(s) in h)
  {
    if s == [] then LinkOnly(h, np, c)
    else if atStart then LinkFront(h, np, c, s[0])
    else LinkBack(h, c, Last(s))
  }

  /** `addChild` changes the `parent` and `parentID` of the child only. */
  lemma AttachParents(h: Links, np: nat, c: nat, atStart: bool, s: seq<nat>, pid: string)
    requires np in h && c in h && (s != [] ==> s[0] in h && Last(s) in h)
    ensures Reparent(Attach(h, np, c, atStart, s), c, np, pid).Keys == h.Keys
    ensures Reparent(Attach(h, np, c, atStart, s), c, np, pid)[c].parent == Handle(np)
    ensures Reparent(Attach(h, np, c, atStart, s), c, np, pid)[c].parentID == pid
    ensures forall x | x in h && x != c ::
      Reparent(Attach(h, np, c, atStart, s), c, np, pid)[x].parent == h[x].parent &&
      Reparent(Attach(h, np, c, atStart, s), c, np, pid)[x].parentID == h[x].parentID
  {
  }

  /** `addChild` of a child that is on no list puts it at the front or the
      back of the new parent's list and nowhere else. */
  lemma AttachKeepsLists(h: Links, k: Children, np: nat, c: nat, atStart: bool, pid: string)
    requires Lists(h, k, Handle(c)) && c in h && np in k
    ensures k[np] != [] ==> k[np][0] in h && Last(k[np]) in h
    ensures Lists(Reparent(Attach(h, np, c, atStart, k[np]), c, np, pid),
                  k[np := if atStart then [c] + k[np] else k[np] + [c]], NullHandle)
  {
    var s := k[np];
    if s == [] {
      InsertOnlyKeepsLists(h, k, np, c, pid);
      assert [c] + s == s + [c] == [c];
    } else {
      assert Linked(h, np, s, 0, Handle(c));
      assert Linked(h, np, s, |s| - 1, Handle(c));
      if atStart {
        InsertFrontKeepsLists(h, k, np, c, pid);
      } else {
        InsertBackKeepsLists(h, k, np, c, pid);
      }
    }
  }

  /** The lists after `addChild`: the child leaves its old parent's list,
      if it had a parent, and joins the new parent's at the front or the
      back. */
  function Reattached(k: Children, h: Links, c: nat, np: nat, atStart: bool): (k': Children)
    requires c in h && np in k
    ensures k'.Keys == k.Keys
    ensures c in k'[np] && (atStart ==> k'[np][0] == c) && (!atStart ==> Last(k'[np]) == c)
  {
    var k1 := if h[c].parent.Handle? && h[c].parent.id in k then k[h[c].parent.id := Without(k[h[c].parent.id], c)] else k;
    k1[np := if atStart then [c] + k1[np] else k1[np] + [c]]
  }
}
