/** The order in which a tree of spatial nodes is visited (webrender/src/clip_scroll_tree.rs). */
module SpatialOrders {
  import opened Options
  import opened SpatialTrees

  /** `j` is `i` or above it. */
  ghost predicate Ancestor(nodes: seq<SpatialNode>, j: nat, i: nat)
    requires TreeShape(nodes) && i < |nodes|
    decreases i
  {
    assert Placed(nodes, i);
    j == i || (nodes[i].parent.Some? && Ancestor(nodes, j, nodes[i].parent.value))
  }

  lemma {:induction false} AncestorIsOlder(nodes: seq<SpatialNode>, j: nat, i: nat)
    requires TreeShape(nodes) && i < |nodes| && Ancestor(nodes, j, i)
    ensures j <= i
    decreases i
  {
    assert Placed(nodes, i);
    if j != i {
      AncestorIsOlder(nodes, j, nodes[i].parent.value);
    }
  }

  lemma {:induction false} RootIsAboveAll(nodes: seq<SpatialNode>, i: nat)
    requires TreeShape(nodes) && i < |nodes|
    ensures Ancestor(nodes, 0, i)
    decreases i
  {
    assert Placed(nodes, i);
    if i != 0 {
      RootIsAboveAll(nodes, nodes[i].parent.value);
    }
  }

  lemma {:induction false} AncestorTransitive(nodes: seq<SpatialNode>, a: nat, b: nat, c: nat)
    requires TreeShape(nodes) && c < |nodes| && b < |nodes| && Ancestor(nodes, a, b) && Ancestor(nodes, b, c)
    ensures Ancestor(nodes, a, c)
    decreases c
  {
    assert Placed(nodes, c);
    if b != c {
      AncestorTransitive(nodes, a, b, nodes[c].parent.value);
    }
  }

  /** What is strictly below a node is below exactly one of its children. */
  lemma {:induction false} BelowAChild(nodes: seq<SpatialNode>, j: nat, i: nat) returns (c: nat)
    requires TreeShape(nodes) && i < |nodes| && Ancestor(nodes, j, i) && j != i
    ensures j < |nodes| && c in nodes[j].children && c < |nodes| && Ancestor(nodes, c, i)
    decreases i
  {
    assert Placed(nodes, i);
    var p := nodes[i].parent.value;
    if p == j {
      c := i;
    } else {
      c := BelowAChild(nodes, j, p);
    }
  }

  lemma {:induction false} ChildIsBelow(nodes: seq<SpatialNode>, j: nat, c: nat, i: nat)
    requires TreeShape(nodes) && i < |nodes| && j < |nodes| && c in nodes[j].children
    requires c < |nodes| && Ancestor(nodes, c, i)
    ensures Ancestor(nodes, j, i) && i != j
  {
    assert Placed(nodes, j);
    var k :| 0 <= k < |nodes[j].children| && nodes[j].children[k] == c;
    assert nodes[c].parent == Some(j) && j < c;
    assert Ancestor(nodes, j, c);
    AncestorTransitive(nodes, j, c, i);
    AncestorIsOlder(nodes, c, i);
  }

  lemma {:induction false} SiblingsApart(nodes: seq<SpatialNode>, c: nat, d: nat, i: nat)
    requires TreeShape(nodes) && i < |nodes| && c < d < |nodes| && nodes[c].parent == nodes[d].parent
    requires Ancestor(nodes, c, i) && Ancestor(nodes, d, i)
    ensures false
    decreases i
  {
    assert Placed(nodes, i) && Placed(nodes, c);
    if i == d {
      AncestorIsOlder(nodes, c, nodes[d].parent.value);
    } else if i == c {
      AncestorIsOlder(nodes, d, c);
    } else {
      SiblingsApart(nodes, c, d, nodes[i].parent.value);
    }
  }

  /** Some children of `p`, oldest first. */
  ghost predicate Siblings(nodes: seq<SpatialNode>, list: seq<nat>, p: nat) {
    && (forall k :: 0 <= k < |list| ==> p < list[k] < |nodes| && nodes[list[k]].parent == Some(p))
    && (forall j, k :: 0 <= j < k < |list| ==> list[j] < list[k])
  }

  ghost predicate Below(nodes: seq<SpatialNode>, list: seq<nat>, i: nat)
    requires TreeShape(nodes) && i < |nodes|
  {
    exists k :: 0 <= k < |list| && Ancestor(nodes, list[k], i)
  }

  ghost predicate Once(s: seq<nat>) {
    forall a, b :: 0 <= a < b < |s| ==> s[a] != s[b]
  }

  /** Every entry but those directly below `top` comes after its parent. */
  ghost predicate ParentsFirst(nodes: seq<SpatialNode>, s: seq<nat>, top: Option<nat>) {
    forall b :: 0 <= b < |s| ==> s[b] < |nodes| && (nodes[s[b]].parent == top || After(nodes, s, b))
  }

  ghost predicate After(nodes: seq<SpatialNode>, s: seq<nat>, b: nat)
    requires b < |s| && s[b] < |nodes|
  {
    exists a :: 0 <= a < b && nodes[s[b]].parent == Some(s[a])
  }

  /** A visit of node `i` reaches exactly the nodes below it, each once and after its parent. */
  lemma {:induction false} OrderExactly(nodes: seq<SpatialNode>, i: nat)
    requires TreeShape(nodes) && i < |nodes|
    ensures forall k: nat :: k in Order(nodes, i) <==> k < |nodes| && Ancestor(nodes, i, k)
    ensures Once(Order(nodes, i)) && ParentsFirst(nodes, Order(nodes, i), nodes[i].parent)
    decreases |nodes| - i, 0, 0
  {
    OrderUnfolds(nodes, i);
    assert Placed(nodes, i);
    var children := nodes[i].children;
    OrderListExactly(nodes, children, i);
    var rest := OrderList(nodes, children, i + 1);
    forall k: nat | k < |nodes| ensures Ancestor(nodes, i, k) <==> k == i || Below(nodes, children, k) {
      BelowChildren(nodes, i, k);
    }
    assert i in rest ==> Below(nodes, children, i);
    BelowChildren(nodes, i, i);
    FirstThen(nodes, i, rest);
  }

  lemma {:induction false} BelowChildren(nodes: seq<SpatialNode>, i: nat, k: nat)
    requires TreeShape(nodes) && i < |nodes| && k < |nodes|
    ensures Ancestor(nodes, i, k) <==> k == i || Below(nodes, nodes[i].children, k)
    ensures !Below(nodes, nodes[i].children, i)
  {
    var children := nodes[i].children;
    assert Placed(nodes, i);
    if Ancestor(nodes, i, k) && k != i {
      var c := BelowAChild(nodes, i, k);
      var j :| 0 <= j < |children| && children[j] == c;
    }
    if Below(nodes, children, k) {
      var j :| 0 <= j < |children| && Ancestor(nodes, children[j], k);
      ChildIsBelow(nodes, i, children[j], k);
    }
    if Below(nodes, children, i) {
      var j :| 0 <= j < |children| && Ancestor(nodes, children[j], i);
      AncestorIsOlder(nodes, children[j], i);
    }
  }

  lemma {:induction false} FirstThen(nodes: seq<SpatialNode>, i: nat, rest: seq<nat>)
    requires i < |nodes| && i !in rest && Once(rest) && ParentsFirst(nodes, rest, Some(i))
    ensures Once([i] + rest) && ParentsFirst(nodes, [i] + rest, nodes[i].parent)
  {
    var s := [i] + rest;
    forall b | 0 <= b < |s| ensures s[b] < |nodes| && (nodes[s[b]].parent == nodes[i].parent || After(nodes, s, b)) {
      if b > 0 {
        assert s[b] == rest[b - 1];
        if nodes[s[b]].parent == Some(i) {
          assert s[0] == i;
        } else {
          var a :| 0 <= a < b - 1 && nodes[rest[b - 1]].parent == Some(rest[a]);
          assert s[a + 1] == rest[a];
        }
      }
    }
  }

  lemma {:induction false} OrderListExactly(nodes: seq<SpatialNode>, list: seq<nat>, p: nat)
    requires TreeShape(nodes) && p < |nodes| && Siblings(nodes, list, p)
    ensures Listed(nodes, list, p + 1)
    ensures forall k: nat :: k in OrderList(nodes, list, p + 1) <==> k < |nodes| && Below(nodes, list, k)
    ensures Once(OrderList(nodes, list, p + 1)) && ParentsFirst(nodes, OrderList(nodes, list, p + 1), Some(p))
    decreases |nodes| - (p + 1), 1, |list|
  {
    if list != [] {
      var tail := list[1..];
      OrderExactly(nodes, list[0]);
      OrderListExactly(nodes, tail, p);
      var first, rest := Order(nodes, list[0]), OrderList(nodes, tail, p + 1);
      forall k: nat | k < |nodes| ensures Below(nodes, list, k) <==>
          Ancestor(nodes, list[0], k) || Below(nodes, tail, k) {
        BelowSplit(nodes, list, k);
      }
      forall k: nat | k in first && k in rest ensures false {
        assert Below(nodes, tail, k);
        var j :| 0 <= j < |tail| && Ancestor(nodes, tail[j], k);
        SiblingsApart(nodes, list[0], tail[j], k);
      }
      Joined(nodes, first, rest, Some(p));
    }
  }

  lemma {:induction false} BelowSplit(nodes: seq<SpatialNode>, list: seq<nat>, k: nat)
    requires TreeShape(nodes) && k < |nodes| && list != []
    ensures Below(nodes, list, k) <==> Ancestor(nodes, list[0], k) || Below(nodes, list[1..], k)
  {
    if j :| 0 <= j < |list[1..]| && Ancestor(nodes, list[1..][j], k) {
      assert list[j + 1] == list[1..][j];
    }
    if j :| 0 <= j < |list| && Ancestor(nodes, list[j], k) {
      assert j > 0 ==> list[1..][j - 1] == list[j];
    }
  }

  lemma {:induction false} Joined(nodes: seq<SpatialNode>, a: seq<nat>, b: seq<nat>, top: Option<nat>)
    requires Once(a) && Once(b) && ParentsFirst(nodes, a, top) && ParentsFirst(nodes, b, top)
    requires forall k: nat :: !(k in a && k in b)
    ensures Once(a + b) && ParentsFirst(nodes, a + b, top)
  {
    var s := a + b;
    forall i, j | 0 <= i < j < |s| ensures s[i] != s[j] {
      assert s[i] in (if i < |a| then a else b) && s[j] in (if j < |a| then a else b);
    }
    forall j | 0 <= j < |s| ensures s[j] < |nodes| && (nodes[s[j]].parent == top || After(nodes, s, j)) {
      if j < |a| {
        assert s[j] == a[j];
        if nodes[s[j]].parent != top {
          var i :| 0 <= i < j && nodes[a[j]].parent == Some(a[i]);
          assert s[i] == a[i];
        }
      } else {
        assert s[j] == b[j - |a|];
        if nodes[s[j]].parent != top {
          var i :| 0 <= i < j - |a| && nodes[b[j - |a|]].parent == Some(b[i]);
          assert s[i + |a|] == b[i];
        }
      }
    }
  }

  /** An update visits every node exactly once, and every node but the root after its parent. */
  lemma {:induction false} VisitsAllOnce(nodes: seq<SpatialNode>)
    requires TreeShape(nodes) && nodes != []
    ensures var s := Order(nodes, 0);
            && Once(s) && (forall k: nat :: k in s <==> k < |nodes|)
            && (forall b :: 0 < b < |s| ==> s[b] < |nodes| && After(nodes, s, b))
  {
    OrderExactly(nodes, 0);
    forall k: nat | k < |nodes| ensures Ancestor(nodes, 0, k) {
      RootIsAboveAll(nodes, k);
    }
    var s := Order(nodes, 0);
    OrderUnfolds(nodes, 0);
    assert Placed(nodes, 0) && s[0] == 0;
    forall b | 0 < b < |s| ensures s[b] < |nodes| && After(nodes, s, b) {
      assert s[b] in s && s[b] != s[0];
      assert Placed(nodes, s[b]);
    }
  }
}
