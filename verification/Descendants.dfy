// The tree of a block's descendants, src/blockindex_with_descendants.h: items in one array, linked to their parents and
// children by position, and a traversal that needs neither recursion nor a stack.
module Descendants {
  import opened BlockIndex
  import opened Wrappers

  // ---------------------------------------------------------------- trees

  datatype Tree = Tree(blocks: seq<Block>, parent: seq<Option<nat>>, children: seq<seq<nat>>)

  ghost predicate Distinct<T>(s: seq<T>) { forall i, j :: 0 <= i < j < |s| ==> s[i] != s[j] }

  lemma DistinctConcat<T>(a: seq<T>, b: seq<T>)
    requires Distinct(a) && Distinct(b) && forall x :: x in a ==> x !in b
    ensures Distinct(a + b)
  {
    var s := a + b;
    forall i, j | 0 <= i < j < |s| ensures s[i] != s[j] {
      if i < |a| <= j { assert s[i] in a && s[j] in b; }
    }
  }

  ghost predicate Shaped(t: Tree) { |t.parent| == |t.children| == |t.blocks| }

  /** Links between items are links between blocks, and each is kept at both ends, once. */
  ghost predicate Good(t: Tree) {
    && Shaped(t) && (forall i :: 0 <= i < |t.blocks| ==> Linked(t.blocks[i]))
    && (forall i :: 0 <= i < |t.blocks| ==> ParentOk(t, i))
    && (forall p, k :: 0 <= p < |t.blocks| && 0 <= k < |t.children[p]| ==>
         t.children[p][k] < |t.blocks| && t.parent[t.children[p][k]] == Some(p))
    && (forall p :: 0 <= p < |t.blocks| ==> Distinct(t.children[p]))
  }

  ghost predicate ParentOk(t: Tree, i: nat)
    requires Shaped(t) && i < |t.blocks|
  {
    match t.parent[i]
    case None => true
    case Some(p) => p < |t.blocks| && t.blocks[i].pprev == t.blocks[p] && i in t.children[p]
  }

  function H(t: Tree, i: nat): nat
    requires i < |t.blocks|
  {
    t.blocks[i].nHeight
  }

  /** Item x is item a or below it. */
  ghost predicate Under(t: Tree, x: nat, a: nat)
    requires Good(t) && x < |t.blocks|
    decreases H(t, x)
  {
    assert ParentOk(t, x);
    x == a || (t.parent[x].Some? && Under(t, t.parent[x].value, a))
  }

  lemma {:induction false} UnderHeight(t: Tree, x: nat, a: nat)
    requires Good(t) && x < |t.blocks| && a < |t.blocks| && Under(t, x, a)
    ensures H(t, a) <= H(t, x) && (H(t, a) == H(t, x) ==> x == a)
    decreases H(t, x)
  {
    assert ParentOk(t, x);
    if x != a { UnderHeight(t, t.parent[x].value, a); }
  }

  lemma {:induction false} UnderUnique(t: Tree, x: nat, a: nat, b: nat)
    requires Good(t) && x < |t.blocks| && a < |t.blocks| && b < |t.blocks|
    requires Under(t, x, a) && Under(t, x, b) && H(t, a) == H(t, b)
    ensures a == b
    decreases H(t, x)
  {
    assert ParentOk(t, x);
    UnderHeight(t, x, a);
    UnderHeight(t, x, b);
    if x != a && x != b { UnderUnique(t, t.parent[x].value, a, b); }
  }

  lemma {:induction false} UnderStep(t: Tree, x: nat, c: nat, p: nat)
    requires Good(t) && x < |t.blocks| && c < |t.blocks| && p < |t.blocks| && t.parent[c] == Some(p) && Under(t, x, c)
    ensures Under(t, x, p) && x != p
    decreases H(t, x)
  {
    assert ParentOk(t, x) && ParentOk(t, c);
    UnderHeight(t, x, c);
    if x != c { UnderStep(t, t.parent[x].value, c, p); }
  }

  lemma {:induction false} UnderChild(t: Tree, x: nat, i: nat) returns (k: nat)
    requires Good(t) && x < |t.blocks| && i < |t.blocks| && Under(t, x, i) && x != i
    ensures k < |t.children[i]| && Under(t, x, t.children[i][k])
    decreases H(t, x)
  {
    assert ParentOk(t, x);
    var p := t.parent[x].value;
    if p == i {
      k :| 0 <= k < |t.children[i]| && t.children[i][k] == x;
    } else {
      k := UnderChild(t, p, i);
    }
  }

  // ---------------------------------------------------------------- pre-order

  ghost predicate BoundedBy(t: Tree, top: nat) { forall i :: 0 <= i < |t.blocks| ==> H(t, i) <= top }

  /** An item, then everything below it, child by child. */
  ghost function PreOrder(t: Tree, i: nat, top: nat): seq<nat>
    requires Good(t) && BoundedBy(t, top) && i < |t.blocks|
    decreases top - H(t, i), |t.children[i]| + 1
  {
    [i] + PreList(t, i, 0, top)
  }

  ghost function PreList(t: Tree, p: nat, k: nat, top: nat): seq<nat>
    requires Good(t) && BoundedBy(t, top) && p < |t.blocks| && k <= |t.children[p]|
    decreases top - H(t, p), |t.children[p]| - k
  {
    if k == |t.children[p]| then []
    else
      assert ParentOk(t, t.children[p][k]);
      PreOrder(t, t.children[p][k], top) + PreList(t, p, k + 1, top)
  }

  ghost predicate InListBelow(t: Tree, x: nat, p: nat, k: nat)
    requires Good(t) && p < |t.blocks| && x < |t.blocks|
  {
    exists m :: k <= m < |t.children[p]| && Under(t, x, t.children[p][m])
  }

  /** The pre-order of an item lists exactly what is at or below it. */
  lemma {:induction false} PreOrderMembers(t: Tree, i: nat, top: nat)
    requires Good(t) && BoundedBy(t, top) && i < |t.blocks|
    ensures forall x: nat :: x in PreOrder(t, i, top) <==> x < |t.blocks| && Under(t, x, i)
    decreases top - H(t, i), |t.children[i]| + 1
  {
    PreListMembers(t, i, 0, top);
    forall x: nat ensures x in PreOrder(t, i, top) <==> x < |t.blocks| && Under(t, x, i) {
      if x in PreList(t, i, 0, top) {
        var m :| 0 <= m < |t.children[i]| && Under(t, x, t.children[i][m]);
        UnderStep(t, x, t.children[i][m], i);
      }
      if x < |t.blocks| && Under(t, x, i) && x != i {
        var k := UnderChild(t, x, i);
        assert InListBelow(t, x, i, 0);
      }
    }
  }

  lemma {:induction false} PreListMembers(t: Tree, p: nat, k: nat, top: nat)
    requires Good(t) && BoundedBy(t, top) && p < |t.blocks| && k <= |t.children[p]|
    ensures forall x: nat :: x in PreList(t, p, k, top) <==> x < |t.blocks| && InListBelow(t, x, p, k)
    decreases top - H(t, p), |t.children[p]| - k
  {
    if k < |t.children[p]| {
      assert ParentOk(t, t.children[p][k]);
      PreOrderMembers(t, t.children[p][k], top);
      PreListMembers(t, p, k + 1, top);
    }
  }

  /** No item is listed twice. */
  lemma {:induction false} PreOrderDistinct(t: Tree, i: nat, top: nat)
    requires Good(t) && BoundedBy(t, top) && i < |t.blocks|
    ensures Distinct(PreOrder(t, i, top))
    decreases top - H(t, i), |t.children[i]| + 1
  {
    PreListDistinct(t, i, 0, top);
    PreListMembers(t, i, 0, top);
    forall x: nat | x in PreList(t, i, 0, top) ensures x != i {
      var m :| 0 <= m < |t.children[i]| && Under(t, x, t.children[i][m]);
      UnderStep(t, x, t.children[i][m], i);
    }
    DistinctConcat([i], PreList(t, i, 0, top));
  }

  lemma {:induction false} PreListDistinct(t: Tree, p: nat, k: nat, top: nat)
    requires Good(t) && BoundedBy(t, top) && p < |t.blocks| && k <= |t.children[p]|
    ensures Distinct(PreList(t, p, k, top))
    decreases top - H(t, p), |t.children[p]| - k
  {
    if k < |t.children[p]| {
      var c := t.children[p][k];
      assert ParentOk(t, c);
      PreOrderDistinct(t, c, top);
      PreListDistinct(t, p, k + 1, top);
      PreOrderMembers(t, c, top);
      PreListMembers(t, p, k + 1, top);
      forall x: nat | x in PreOrder(t, c, top) ensures x !in PreList(t, p, k + 1, top) {
        if x in PreList(t, p, k + 1, top) {
          var m :| k + 1 <= m < |t.children[p]| && Under(t, x, t.children[p][m]);
          assert ParentOk(t, t.children[p][m]);
          UnderUnique(t, x, c, t.children[p][m]);
        }
      }
      DistinctConcat(PreOrder(t, c, top), PreList(t, p, k + 1, top));
    }
  }

  /** Every item but the first comes after its parent. */
  ghost predicate ParentsFirst(t: Tree, s: seq<nat>, p: nat) {
    forall j :: 0 <= j < |s| ==> ParentBefore(t, s, p, j)
  }

  ghost predicate ParentBefore(t: Tree, s: seq<nat>, p: nat, j: nat) {
    && j < |s| && s[j] < |t.parent|
    && (t.parent[s[j]] == Some(p) || exists m :: 0 <= m < j && t.parent[s[j]] == Some(s[m]))
  }

  lemma {:induction false} PreOrderParents(t: Tree, i: nat, top: nat)
    requires Good(t) && BoundedBy(t, top) && i < |t.blocks|
    ensures forall j :: 1 <= j < |PreOrder(t, i, top)| ==> ParentBefore(t, PreOrder(t, i, top), i, j)
    decreases top - H(t, i), |t.children[i]| + 1
  {
    PreListParents(t, i, 0, top);
    var s, l := PreOrder(t, i, top), PreList(t, i, 0, top);
    forall j | 1 <= j < |s| ensures ParentBefore(t, s, i, j) {
      assert ParentBefore(t, l, i, j - 1) && s[j] == l[j - 1];
      if t.parent[s[j]] != Some(i) {
        var m :| 0 <= m < j - 1 && t.parent[l[j - 1]] == Some(l[m]);
        assert s[m + 1] == l[m];
      }
    }
  }

  lemma {:induction false} PreListParents(t: Tree, p: nat, k: nat, top: nat)
    requires Good(t) && BoundedBy(t, top) && p < |t.blocks| && k <= |t.children[p]|
    ensures ParentsFirst(t, PreList(t, p, k, top), p)
    decreases top - H(t, p), |t.children[p]| - k
  {
    if k < |t.children[p]| {
      var c := t.children[p][k];
      assert ParentOk(t, c);
      PreOrderParents(t, c, top);
      PreListParents(t, p, k + 1, top);
      var a, b := PreOrder(t, c, top), PreList(t, p, k + 1, top);
      forall j | 0 <= j < |a + b| ensures ParentBefore(t, a + b, p, j) {
        if 1 <= j < |a| {
          ParentInHead(t, a, b, c, p, j);
        } else if j >= |a| {
          ParentInTail(t, a, b, p, j);
        }
      }
    }
  }

  lemma ParentInHead(t: Tree, a: seq<nat>, b: seq<nat>, c: nat, p: nat, j: nat)
    requires 1 <= j < |a| && a[0] == c && ParentBefore(t, a, c, j)
    ensures ParentBefore(t, a + b, p, j)
  {
    var m := if t.parent[a[j]] == Some(c) then 0 else var m :| 0 <= m < j && t.parent[a[j]] == Some(a[m]); m;
    assert (a + b)[j] == a[j] && (a + b)[m] == a[m];
  }

  lemma ParentInTail(t: Tree, a: seq<nat>, b: seq<nat>, p: nat, j: nat)
    requires |a| <= j < |a| + |b| && ParentBefore(t, b, p, j - |a|)
    ensures ParentBefore(t, a + b, p, j)
  {
    if t.parent[b[j - |a|]] != Some(p) {
      var m :| 0 <= m < j - |a| && t.parent[b[j - |a|]] == Some(b[m]);
      assert (a + b)[|a| + m] == b[m];
    }
  }

  // ---------------------------------------------------------------- the next item

  function IndexOf(s: seq<nat>, x: nat): (k: nat)
    requires x in s
    ensures k < |s| && s[k] == x && forall j :: 0 <= j < k ==> s[j] != x
  {
    if s[0] == x then 0 else 1 + IndexOf(s[1..], x)
  }

  /** The next sibling of an item, or of the nearest item above it that has one. */
  ghost function After(t: Tree, i: nat): Option<nat>
    requires Good(t) && i < |t.blocks|
    decreases H(t, i)
  {
    assert ParentOk(t, i);
    match t.parent[i]
    case None => None
    case Some(p) =>
      var k := IndexOf(t.children[p], i);
      if k + 1 < |t.children[p]| then Some(t.children[p][k + 1]) else After(t, p)
  }

  ghost function NextItem(t: Tree, i: nat): Option<nat>
    requires Good(t) && i < |t.blocks|
  {
    if t.children[i] != [] then Some(t.children[i][0]) else After(t, i)
  }

  /** Each item of the list is followed by the next one, and the last by what is given. */
  ghost predicate Follows(t: Tree, s: seq<nat>, last: Option<nat>)
    requires Good(t)
  {
    && |s| > 0
    && (forall j :: 0 <= j < |s| ==> FollowedBy(t, s, j, last))
  }

  ghost predicate FollowedBy(t: Tree, s: seq<nat>, j: nat, last: Option<nat>)
    requires Good(t) && j < |s|
  {
    s[j] < |t.blocks| && NextItem(t, s[j]) == if j + 1 == |s| then last else Some(s[j + 1])
  }

  lemma FollowsConcat(t: Tree, a: seq<nat>, b: seq<nat>, last: Option<nat>)
    requires Good(t) && |b| > 0 && Follows(t, a, Some(b[0])) && Follows(t, b, last)
    ensures Follows(t, a + b, last)
  {
    var s := a + b;
    forall j | 0 <= j < |s|
      ensures FollowedBy(t, s, j, last)
    {
      if j < |a| {
        assert FollowedBy(t, a, j, Some(b[0]));
      } else {
        assert FollowedBy(t, b, j - |a|, last);
      }
    }
  }

  lemma SiblingAfter(t: Tree, p: nat, k: nat)
    requires Good(t) && p < |t.blocks| && k < |t.children[p]|
    ensures After(t, t.children[p][k]) == if k + 1 < |t.children[p]| then Some(t.children[p][k + 1]) else After(t, p)
  {
    var c := t.children[p][k];
    assert ParentOk(t, c);
    assert IndexOf(t.children[p], c) == k;
  }

  /** Calling Next repeatedly runs through the pre-order. */
  lemma {:induction false} PreOrderFollows(t: Tree, i: nat, top: nat)
    requires Good(t) && BoundedBy(t, top) && i < |t.blocks|
    ensures Follows(t, PreOrder(t, i, top), After(t, i)) && PreOrder(t, i, top)[0] == i
    decreases top - H(t, i), |t.children[i]| + 1
  {
    if t.children[i] == [] {
      assert PreOrder(t, i, top) == [i];
    } else {
      PreListFollows(t, i, 0, top);
      var l := PreList(t, i, 0, top);
      assert Follows(t, [i], Some(l[0]));
      FollowsConcat(t, [i], l, After(t, i));
    }
  }

  lemma {:induction false} PreListFollows(t: Tree, p: nat, k: nat, top: nat)
    requires Good(t) && BoundedBy(t, top) && p < |t.blocks| && k < |t.children[p]|
    ensures Follows(t, PreList(t, p, k, top), After(t, p)) && PreList(t, p, k, top)[0] == t.children[p][k]
    decreases top - H(t, p), |t.children[p]| - k
  {
    var c := t.children[p][k];
    assert ParentOk(t, c);
    PreOrderFollows(t, c, top);
    SiblingAfter(t, p, k);
    var a := PreOrder(t, c, top);
    if k + 1 < |t.children[p]| {
      PreListFollows(t, p, k + 1, top);
      FollowsConcat(t, a, PreList(t, p, k + 1, top), After(t, p));
    } else {
      assert a + [] == a;
    }
  }

  /** Next, without recursion: climb until an item has a next sibling. */
  method Next(t: Tree, i: nat) returns (r: Option<nat>)
    requires Good(t) && i < |t.blocks|
    ensures r == NextItem(t, i)
  {
    if t.children[i] != [] { return Some(t.children[i][0]); }
    var item, p := i, t.parent[i];
    while p != None
      invariant item < |t.blocks| && p == t.parent[item] && After(t, item) == After(t, i)
      decreases H(t, item)
    {
      assert ParentOk(t, item);
      var k := FindIn(t.children[p.value], item);
      assert k < |t.children[p.value]|;
      if k + 1 < |t.children[p.value]| { return Some(t.children[p.value][k + 1]); }
      item := p.value;
      p := t.parent[item];
    }
    r := None;
  }

  method FindIn(s: seq<nat>, x: nat) returns (k: nat)
    ensures k <= |s| && (forall j :: 0 <= j < k ==> s[j] != x) && (k < |s| ==> s[k] == x)
    ensures x in s ==> k == IndexOf(s, x)
  {
    k := 0;
    while k < |s| && s[k] != x
      invariant k <= |s| && forall j :: 0 <= j < k ==> s[j] != x
    {
      k := k + 1;
    }
  }

  // ---------------------------------------------------------------- building the tree

  /** Above the root, each block's parent is in the container too, unless it has none. */
  ghost predicate Closed(index: seq<Block>, root: Block) {
    && root in index && Distinct(index) && (forall b :: b in index ==> Linked(b))
    && (forall b :: b in index && b.nHeight > root.nHeight && b.pprev != null ==> b.pprev in index)
  }

  predicate InRange(b: Block, root: Block, maxHeight: int) { root.nHeight < b.nHeight <= maxHeight }

  ghost predicate Collected(blocks: seq<Block>, index: seq<Block>, root: Block, maxHeight: int) {
    && |blocks| > 0 && blocks[0] == root && Distinct(blocks)
    && (forall b :: b in blocks ==> b == root || (b in index && InRange(b, root, maxHeight)))
    && (forall b :: b in index && InRange(b, root, maxHeight) ==> b in blocks)
  }

  /**
   * The items are the root and the blocks of the container above it up to the height; every parent link there can be
   * is there.
   */
  ghost predicate Built(t: Tree, index: seq<Block>, root: Block, maxHeight: int) {
    Good(t) && Collected(t.blocks, index, root, maxHeight) && forall i :: 0 <= i < |t.blocks| ==> LinkedUp(t, i)
  }

  ghost predicate LinkedUp(t: Tree, i: nat)
    requires Shaped(t) && i < |t.blocks|
  {
    t.parent[i] == None ==> forall p :: 0 <= p < |t.blocks| ==> t.blocks[i].pprev != t.blocks[p]
  }

  method Collect(root: Block, index: seq<Block>, maxHeight: int) returns (blocks: seq<Block>)
    requires Closed(index, root)
    ensures Collected(blocks, index, root, maxHeight)
  {
    blocks := [root];
    for n := 0 to |index|
      invariant Collected(blocks, index[..n], root, maxHeight)
    {
      assert index[..n + 1] == index[..n] + [index[n]];
      if root.nHeight < index[n].nHeight && index[n].nHeight <= maxHeight {
        assert index[n] !in index[..n];
        blocks := blocks + [index[n]];
      }
    }
    assert index[..|index|] == index;
  }

  /** Where each block is in the array. */
  ghost predicate Places(m: map<Block, nat>, blocks: seq<Block>, n: nat)
    requires n <= |blocks|
  {
    && (forall b :: b in m ==> m[b] < n && blocks[m[b]] == b)
    && (forall i :: 0 <= i < n ==> blocks[i] in m)
  }

  method IndexBlocks(blocks: seq<Block>) returns (m: map<Block, nat>)
    requires Distinct(blocks)
    ensures Places(m, blocks, |blocks|)
  {
    m := map[];
    for i := 0 to |blocks|
      invariant Places(m, blocks, i)
    {
      m := m[blocks[i] := i];
    }
  }

  /** The constructor: collect the blocks, then link each item to its parent; the assertions of Item_SetParent hold. */
  method Build(root: Block, index: seq<Block>, maxHeight: int) returns (t: Tree)
    requires Closed(index, root)
    ensures Built(t, index, root, maxHeight)
  {
    var blocks := Collect(root, index, maxHeight);
    var bi2item := IndexBlocks(blocks);
    t := Tree(blocks, seq(|blocks|, _ => None), seq(|blocks|, _ => []));
    for i := 0 to |blocks|
      invariant t.blocks == blocks && Good(t)
      invariant forall j :: 0 <= j < i ==> LinkedUp(t, j)
      invariant forall j :: i <= j < |blocks| ==> t.parent[j] == None
    {
      var prev := blocks[i].pprev;
      if prev != null && prev in bi2item {
        var p := bi2item[prev];
        assert t.parent[i] == None && p != i;
        ghost var before := t;
        t := Attach(t, i, p);
        forall j | 0 <= j < i ensures LinkedUp(t, j) { assert LinkedUp(before, j); }
      }
      assert LinkedUp(t, i);
    }
  }

  /** Item_SetParent keeps both ends of the link. */
  method Attach(t: Tree, i: nat, p: nat) returns (r: Tree)
    requires Good(t) && i < |t.blocks| && p < |t.blocks| && t.parent[i] == None && t.blocks[i].pprev == t.blocks[p]
    ensures Good(r) && r.blocks == t.blocks && r.parent == t.parent[i := Some(p)]
  {
    assert forall k :: 0 <= k < |t.children[p]| ==> t.children[p][k] != i;
    r := Tree(t.blocks, t.parent[i := Some(p)], t.children[p := t.children[p] + [i]]);
    forall j | 0 <= j < |t.blocks| ensures ParentOk(r, j) { assert ParentOk(t, j); }
  }

  // ---------------------------------------------------------------- what a traversal visits

  /** Under the root are exactly its descendants. */
  lemma {:induction false} UnderIsDescendant(t: Tree, index: seq<Block>, root: Block, maxHeight: int, i: nat)
    requires Closed(index, root) && Built(t, index, root, maxHeight) && i < |t.blocks|
    ensures Under(t, i, 0) <==> IsAncestor(root, t.blocks[i])
    decreases H(t, i)
  {
    var b := t.blocks[i];
    assert ParentOk(t, i) && LinkedUp(t, i) && b in t.blocks;
    if i != 0 {
      assert b != root && b in index && b.nHeight > root.nHeight && b.pprev != null;
      if t.parent[i].Some? {
        UnderIsDescendant(t, index, root, maxHeight, t.parent[i].value);
      } else {
        NotInRange(t, index, root, maxHeight, i);
      }
    }
  }

  lemma NotInRange(t: Tree, index: seq<Block>, root: Block, maxHeight: int, i: nat)
    requires Closed(index, root) && Built(t, index, root, maxHeight) && 0 < i < |t.blocks| && t.parent[i] == None
    ensures !IsAncestor(root, t.blocks[i])
  {
    var b := t.blocks[i];
    assert LinkedUp(t, i) && b in t.blocks && b != root;
    assert Ancestor(b, root.nHeight) == Ancestor(b.pprev, root.nHeight);
    assert t.blocks[0] == root;
  }

  /** A list of items from the root on, without repetition, in which every other item comes after its parent. */
  ghost predicate IsOrder(t: Tree, order: seq<nat>) {
    && |order| > 0 && order[0] == 0 && Distinct(order)
    && (forall j :: 0 <= j < |order| ==> order[j] < |t.blocks|)
    && (forall j :: 1 <= j < |order| ==> ParentBefore(t, order, 0, j))
  }

  /**
   * Starting at the root and calling Next until it gives nothing visits every descendant up to the height, once,
   * parents first.
   */
  lemma TraversalVisitsAll(t: Tree, index: seq<Block>, root: Block, maxHeight: int, top: nat) returns (order: seq<nat>)
    requires Closed(index, root) && Built(t, index, root, maxHeight) && BoundedBy(t, top)
    ensures Follows(t, order, None) && IsOrder(t, order)
    ensures forall i: nat :: i in order <==> i < |t.blocks| && IsAncestor(root, t.blocks[i])
  {
    order := PreOrder(t, 0, top);
    PreOrderFollows(t, 0, top);
    PreOrderDistinct(t, 0, top);
    PreOrderParents(t, 0, top);
    PreOrderMembers(t, 0, top);
    RootHasNoParent(t, index, root, maxHeight);
    forall i: nat | i < |t.blocks| ensures Under(t, i, 0) <==> IsAncestor(root, t.blocks[i]) {
      UnderIsDescendant(t, index, root, maxHeight, i);
    }
    forall j | 0 <= j < |order| ensures order[j] < |t.blocks| { assert order[j] in order; }
  }

  lemma RootHasNoParent(t: Tree, index: seq<Block>, root: Block, maxHeight: int)
    requires Closed(index, root) && Built(t, index, root, maxHeight)
    ensures t.parent[0] == None
  {
    assert ParentOk(t, 0);
    forall p | 0 <= p < |t.blocks| ensures t.blocks[0].pprev != t.blocks[p] { assert t.blocks[p] in t.blocks; }
  }
}
