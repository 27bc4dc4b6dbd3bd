/** The step tree of a migration recording as a value: ordered trees with edits at a path, and
    the flat table of nodes that the recorders form on the heap. */
module StepTrees {
  import opened Optional

  datatype Status = Pending | Running | Completed | Failed | Skipped

  datatype Step = Step(name: string, description: string, status: Status, message: string, details: map<string, string>)

  /** An ordered tree of steps; only the root has none. */
  datatype Tree = Tree(step: Option<Step>, children: seq<Tree>)

  datatype Edit = AppendLeaf(leaf: Step) | SetStep(changed: Step)

  predicate IsPath(t: Tree, path: seq<nat>)
    decreases |path|
  {
    path == [] || (path[0] < |t.children| && IsPath(t.children[path[0]], path[1..]))
  }

  /** Edit the one node at a path; nothing else in the tree changes. */
  function EditAt(t: Tree, path: seq<nat>, e: Edit): Tree
    requires IsPath(t, path)
    decreases |path|
  {
    if path == [] then
      match e
      case AppendLeaf(leaf) => t.(children := t.children + [Tree(Some(leaf), [])])
      case SetStep(changed) => t.(step := Some(changed))
    else
      t.(children := t.children[path[0] := EditAt(t.children[path[0]], path[1..], e)])
  }

  /** What an edit does to the tree, node by node: the node at the path gets the new step, or the new
      leaf as its last child, and every other node keeps its step, its place and its children. */
  lemma {:induction false} EditIsExact(t: Tree, path: seq<nat>, e: Edit, other: seq<nat>)
    requires IsPath(t, path)
    ensures var after := EditAt(t, path, e);
            && (IsPath(t, other) ==>
                  && IsPath(after, other)
                  && At(after, other).step
                     == (if other == path && e.SetStep? then Some(e.changed) else At(t, other).step)
                  && |At(after, other).children|
                     == |At(t, other).children| + (if other == path && e.AppendLeaf? then 1 else 0))
            && (IsPath(after, other) && !IsPath(t, other) ==>
                  && e.AppendLeaf? && other == path + [|At(t, path).children|]
                  && At(after, other) == Tree(Some(e.leaf), []))
    decreases |path|
  {
    var after := EditAt(t, path, e);
    if path == [] {
      if other != [] {
        if other[0] < |t.children| {
          assert after.children[other[0]] == t.children[other[0]];
        } else if e.AppendLeaf? && other[0] == |t.children| {
          assert after.children[other[0]] == Tree(Some(e.leaf), []);
          LeafHasOnePath(e.leaf, other[1..]);
          assert other == [other[0]] + other[1..] && [] + [|t.children|] == [|t.children|];
        }
      }
    } else if other != [] {
      assert path == [path[0]] + path[1..] && other == [other[0]] + other[1..];
      if other[0] == path[0] {
        EditIsExact(t.children[path[0]], path[1..], e, other[1..]);
        assert (path + [|At(t, path).children|])[1..] == path[1..] + [|At(t, path).children|];
        assert [path[0]] + (path[1..] + [|At(t, path).children|]) == path + [|At(t, path).children|];
      }
    }
  }

  lemma LeafHasOnePath(leaf: Step, path: seq<nat>)
    ensures IsPath(Tree(Some(leaf), []), path) ==>
              path == [] && At(Tree(Some(leaf), []), path) == Tree(Some(leaf), [])
  {
  }

  function Size(t: Tree): nat { 1 + SizeAll(t.children) }

  function SizeAll(ts: seq<Tree>): nat {
    if ts == [] then 0 else Size(ts[0]) + SizeAll(ts[1..])
  }

  lemma {:induction false} SizeAllUpdate(ts: seq<Tree>, k: nat, t: Tree)
    requires k < |ts|
    ensures SizeAll(ts[k := t]) + Size(ts[k]) == SizeAll(ts) + Size(t)
  {
    if k == 0 {
      assert ts[0 := t][1..] == ts[1..];
    } else {
      assert ts[k := t][1..] == ts[1..][k - 1 := t];
      SizeAllUpdate(ts[1..], k - 1, t);
    }
  }

  lemma {:induction false} SizeAllAppend(ts: seq<Tree>, t: Tree)
    ensures SizeAll(ts + [t]) == SizeAll(ts) + Size(t)
  {
    if ts == [] {
      assert [] + [t] == [t];
    } else {
      assert (ts + [t])[1..] == ts[1..] + [t];
      SizeAllAppend(ts[1..], t);
    }
  }

  /** Appending a leaf adds exactly one step to the tree; changing a step adds none. */
  lemma {:induction false} EditSize(t: Tree, path: seq<nat>, e: Edit)
    requires IsPath(t, path)
    ensures Size(EditAt(t, path, e)) == Size(t) + if e.AppendLeaf? then 1 else 0
    decreases |path|
  {
    if path == [] {
      if e.AppendLeaf? {
        SizeAllAppend(t.children, Tree(Some(e.leaf), []));
      }
    } else {
      EditSize(t.children[path[0]], path[1..], e);
      SizeAllUpdate(t.children, path[0], EditAt(t.children[path[0]], path[1..], e));
    }
  }

  // ---- The table of nodes ----

  datatype Node = Node(step: Option<Step>, parent: int, children: seq<nat>)

  ghost predicate ParentsKnown(a: seq<Node>) {
    forall i :: 0 < i < |a| ==> 0 <= a[i].parent < i && a[i].step.Some? && i in a[a[i].parent].children
  }

  ghost predicate ChildrenKnown(a: seq<Node>) {
    forall i, k :: 0 <= i < |a| && 0 <= k < |a[i].children| ==>
      i < a[i].children[k] < |a| && a[a[i].children[k]].parent == i
  }

  ghost predicate ChildrenDistinct(a: seq<Node>) {
    forall i, k, l :: 0 <= i < |a| && 0 <= k < l < |a[i].children| ==> a[i].children[k] != a[i].children[l]
  }

  /** Nodes are numbered in order of creation; the root is the first. */
  ghost predicate WellFormed(a: seq<Node>) {
    |a| > 0 && a[0].step.None? && ParentsKnown(a) && ChildrenKnown(a) && ChildrenDistinct(a)
  }

  ghost function TreeOf(a: seq<Node>, i: nat): Tree
    requires WellFormed(a) && i < |a|
    decreases |a| - i
  {
    Tree(a[i].step,
         seq(|a[i].children|,
             k requires 0 <= k < |a[i].children| && i < a[i].children[k] < |a| => TreeOf(a, a[i].children[k])))
  }

  ghost predicate Above(a: seq<Node>, i: nat, p: nat)
    requires WellFormed(a) && p < |a|
    decreases p
  {
    i == p || (i < p && Above(a, i, a[p].parent))
  }

  /** The child of `i` on the way down to `p`. */
  ghost function Toward(a: seq<Node>, i: nat, p: nat): (c: nat)
    requires WellFormed(a) && p < |a| && Above(a, i, p) && i != p
    ensures i < c <= p && a[c].parent == i && Above(a, c, p)
    decreases p
  {
    if a[p].parent == i then p else Toward(a, i, a[p].parent)
  }

  lemma {:induction false} TowardIsUnique(a: seq<Node>, i: nat, c: nat, p: nat)
    requires WellFormed(a) && p < |a| && i < c <= p && a[c].parent == i && Above(a, c, p)
    ensures Above(a, i, p) && Toward(a, i, p) == c
    decreases p
  {
    if c == p {
      assert Above(a, i, i);
    } else {
      TowardIsUnique(a, i, c, a[p].parent);
      ParentsDecrease(a, i, c, p);
    }
  }

  /** Below a child of `i` nobody is a child of `i`. */
  lemma ParentsDecrease(a: seq<Node>, i: nat, c: nat, p: nat)
    requires WellFormed(a) && c < p < |a| && i < c && Above(a, c, a[p].parent)
    ensures a[p].parent != i
  {
  }

  ghost function IndexOf(cs: seq<nat>, c: nat): (k: nat)
    requires c in cs
    ensures k < |cs| && cs[k] == c
  {
    if cs[0] == c then 0 else 1 + IndexOf(cs[1..], c)
  }

  /** Where a node is found in the tree below another. */
  ghost function PathTo(a: seq<Node>, i: nat, p: nat): seq<nat>
    requires WellFormed(a) && p < |a| && Above(a, i, p)
    decreases p - i
  {
    if i == p then []
    else var c := Toward(a, i, p); [IndexOf(a[i].children, c)] + PathTo(a, c, p)
  }

  lemma {:induction false} RootIsAbove(a: seq<Node>, p: nat)
    requires WellFormed(a) && p < |a|
    ensures Above(a, 0, p)
    decreases p
  {
    if p > 0 {
      RootIsAbove(a, a[p].parent);
    }
  }

  lemma {:induction false} PathIsPath(a: seq<Node>, i: nat, p: nat)
    requires WellFormed(a) && p < |a| && Above(a, i, p)
    ensures IsPath(TreeOf(a, i), PathTo(a, i, p))
    decreases p - i
  {
    if i != p {
      var c := Toward(a, i, p);
      PathIsPath(a, c, p);
      var k := IndexOf(a[i].children, c);
      assert TreeOf(a, i).children[k] == TreeOf(a, c);
      assert PathTo(a, i, p)[1..] == PathTo(a, c, p);
    }
  }

  /** The same edit on the table of nodes. */
  function EditNode(a: seq<Node>, p: nat, e: Edit): seq<Node>
    requires p < |a|
  {
    match e
    case AppendLeaf(leaf) => a[p := a[p].(children := a[p].children + [|a|])] + [Node(Some(leaf), p, [])]
    case SetStep(changed) => a[p := a[p].(step := Some(changed))]
  }

  lemma AppendKeepsParents(a: seq<Node>, p: nat, leaf: Step)
    requires ParentsKnown(a) && p < |a|
    ensures ParentsKnown(EditNode(a, p, AppendLeaf(leaf)))
  {
    var b := EditNode(a, p, AppendLeaf(leaf));
    assert b[p].children[|a[p].children|] == |a|;
    forall i | 0 < i < |b|
      ensures 0 <= b[i].parent < i && b[i].step.Some? && i in b[b[i].parent].children
    {
      if i < |a| {
        var q := a[i].parent;
        assert i in a[q].children;
        assert b[q].children[..|a[q].children|] == a[q].children;
      }
    }
  }

  lemma AppendKeepsChildren(a: seq<Node>, p: nat, leaf: Step)
    requires ChildrenKnown(a) && ChildrenDistinct(a) && p < |a|
    ensures ChildrenKnown(EditNode(a, p, AppendLeaf(leaf)))
    ensures ChildrenDistinct(EditNode(a, p, AppendLeaf(leaf)))
  {
    var b := EditNode(a, p, AppendLeaf(leaf));
    forall i, k | 0 <= i < |b| && 0 <= k < |b[i].children|
      ensures i < b[i].children[k] < |b| && b[b[i].children[k]].parent == i
    {
      if i < |a| && k < |a[i].children| {
        assert b[i].children[k] == a[i].children[k];
      }
    }
    forall i, k, l | 0 <= i < |b| && 0 <= k < l < |b[i].children| ensures b[i].children[k] != b[i].children[l] {
      if i < |a| && l < |a[i].children| {
        assert b[i].children[k] == a[i].children[k] && b[i].children[l] == a[i].children[l];
      }
    }
  }

  lemma SetKeepsTable(a: seq<Node>, p: nat, changed: Step)
    requires WellFormed(a) && 0 < p < |a|
    ensures WellFormed(EditNode(a, p, SetStep(changed)))
  {
    var b := EditNode(a, p, SetStep(changed));
    assert forall i :: 0 <= i < |a| ==> b[i].parent == a[i].parent && b[i].children == a[i].children;
    assert ParentsKnown(b);
    assert ChildrenKnown(b);
    assert ChildrenDistinct(b);
  }

  lemma EditKeepsWellFormed(a: seq<Node>, p: nat, e: Edit)
    requires WellFormed(a) && p < |a| && (e.SetStep? ==> p > 0)
    ensures WellFormed(EditNode(a, p, e))
  {
    if e.AppendLeaf? {
      AppendKeepsParents(a, p, e.leaf);
      AppendKeepsChildren(a, p, e.leaf);
    } else {
      SetKeepsTable(a, p, e.changed);
    }
  }

  lemma {:induction false} AboveStays(a: seq<Node>, p: nat, e: Edit, i: nat, q: nat)
    requires WellFormed(a) && p < |a| && q < |a| && (e.SetStep? ==> p > 0) && WellFormed(EditNode(a, p, e))
    ensures Above(EditNode(a, p, e), i, q) <==> Above(a, i, q)
    ensures Above(a, i, q) && i != q ==> Toward(EditNode(a, p, e), i, q) == Toward(a, i, q)
    decreases q
  {
    if i < q {
      assert EditNode(a, p, e)[q].parent == a[q].parent;
      AboveStays(a, p, e, i, a[q].parent);
    }
  }

  /** An edit does not reach the subtrees that the edited node is not in. */
  lemma {:induction false} ElsewhereUnchanged(a: seq<Node>, p: nat, e: Edit, i: nat)
    requires WellFormed(a) && p < |a| && (e.SetStep? ==> p > 0) && WellFormed(EditNode(a, p, e))
    requires i < |a| && !Above(a, i, p)
    ensures TreeOf(EditNode(a, p, e), i) == TreeOf(a, i)
    decreases |a| - i
  {
    var b := EditNode(a, p, e);
    assert i != p && b[i] == a[i];
    forall k | 0 <= k < |a[i].children|
      ensures TreeOf(b, a[i].children[k]) == TreeOf(a, a[i].children[k])
    {
      var c := a[i].children[k];
      if Above(a, c, p) {
        AboveBelow(a, c, p);
        TowardIsUnique(a, i, c, p);
      }
      ElsewhereUnchanged(a, p, e, c);
    }
    assert TreeOf(b, i).children == TreeOf(a, i).children;
  }

  lemma AboveBelow(a: seq<Node>, i: nat, p: nat)
    requires WellFormed(a) && p < |a| && Above(a, i, p)
    ensures i <= p
  {
  }

  lemma SiblingUnchanged(a: seq<Node>, p: nat, e: Edit, i: nat, l: nat)
    requires WellFormed(a) && p < |a| && (e.SetStep? ==> p > 0) && WellFormed(EditNode(a, p, e))
    requires i < |a| && Above(a, i, p) && i != p && l < |a[i].children| && a[i].children[l] != Toward(a, i, p)
    ensures TreeOf(EditNode(a, p, e), a[i].children[l]) == TreeOf(a, a[i].children[l])
  {
    var d := a[i].children[l];
    if Above(a, d, p) {
      AboveBelow(a, d, p);
      TowardIsUnique(a, i, d, p);
    }
    ElsewhereUnchanged(a, p, e, d);
  }

  /** Editing a node of the table edits the tree at that node's path, and nowhere else. */
  lemma {:induction false} EditCommutes(a: seq<Node>, p: nat, e: Edit, i: nat)
    requires WellFormed(a) && p < |a| && (e.SetStep? ==> p > 0) && WellFormed(EditNode(a, p, e))
    requires i < |a| && Above(a, i, p)
    ensures IsPath(TreeOf(a, i), PathTo(a, i, p))
    ensures TreeOf(EditNode(a, p, e), i) == EditAt(TreeOf(a, i), PathTo(a, i, p), e)
    decreases p - i
  {
    PathIsPath(a, i, p);
    if i == p {
      EditHere(a, p, e);
    } else {
      var c := Toward(a, i, p);
      EditCommutes(a, p, e, c);
      OneChildEdited(a, p, e, i);
      assert PathTo(a, i, p)[1..] == PathTo(a, c, p);
    }
  }

  lemma RowEdited(a: seq<Node>, b: seq<Node>, i: nat, k: nat)
    requires WellFormed(a) && WellFormed(b) && i < |a| && i < |b| && b[i] == a[i] && k < |a[i].children|
    requires forall l :: 0 <= l < |a[i].children| && l != k ==>
               TreeOf(b, a[i].children[l]) == TreeOf(a, a[i].children[l])
    ensures TreeOf(b, i) == TreeOf(a, i).(children := TreeOf(a, i).children[k := TreeOf(b, a[i].children[k])])
  {
    assert TreeOf(b, i).children == TreeOf(a, i).children[k := TreeOf(b, a[i].children[k])];
  }

  lemma OneChildEdited(a: seq<Node>, p: nat, e: Edit, i: nat)
    requires WellFormed(a) && p < |a| && (e.SetStep? ==> p > 0) && WellFormed(EditNode(a, p, e))
    requires i < |a| && Above(a, i, p) && i != p
    ensures var c, b := Toward(a, i, p), EditNode(a, p, e);
            TreeOf(b, i) == TreeOf(a, i).(children := TreeOf(a, i).children[IndexOf(a[i].children, c) := TreeOf(b, c)])
  {
    var b := EditNode(a, p, e);
    var k := IndexOf(a[i].children, Toward(a, i, p));
    assert b[i] == a[i];
    forall l | 0 <= l < |a[i].children| && l != k
      ensures TreeOf(b, a[i].children[l]) == TreeOf(a, a[i].children[l])
    {
      SiblingUnchanged(a, p, e, i, l);
    }
    RowEdited(a, b, i, k);
  }

  lemma EditHere(a: seq<Node>, p: nat, e: Edit)
    requires WellFormed(a) && p < |a| && (e.SetStep? ==> p > 0) && WellFormed(EditNode(a, p, e))
    ensures TreeOf(EditNode(a, p, e), p) == EditAt(TreeOf(a, p), [], e)
  {
    var b := EditNode(a, p, e);
    ChildrenUnchanged(a, p, e);
    if e.AppendLeaf? {
      assert TreeOf(b, |a|) == Tree(Some(e.leaf), []);
      assert b[p].children == a[p].children + [|a|];
      assert TreeOf(b, p).children == TreeOf(a, p).children + [TreeOf(b, |a|)];
    } else {
      assert TreeOf(b, p).children == TreeOf(a, p).children;
    }
  }

  lemma ChildrenUnchanged(a: seq<Node>, p: nat, e: Edit)
    requires WellFormed(a) && p < |a| && (e.SetStep? ==> p > 0) && WellFormed(EditNode(a, p, e))
    ensures forall k :: 0 <= k < |a[p].children| ==>
      TreeOf(EditNode(a, p, e), a[p].children[k]) == TreeOf(a, a[p].children[k])
  {
    forall k | 0 <= k < |a[p].children|
      ensures TreeOf(EditNode(a, p, e), a[p].children[k]) == TreeOf(a, a[p].children[k])
    {
      ElsewhereUnchanged(a, p, e, a[p].children[k]);
    }
  }

  /** Whatever is recorded later, a node stays where it is. */
  lemma {:induction false} PathStays(a: seq<Node>, p: nat, e: Edit, i: nat, q: nat)
    requires WellFormed(a) && p < |a| && q < |a| && (e.SetStep? ==> p > 0) && WellFormed(EditNode(a, p, e))
    requires Above(a, i, q)
    ensures Above(EditNode(a, p, e), i, q) && PathTo(EditNode(a, p, e), i, q) == PathTo(a, i, q)
    decreases q - i
  {
    AboveStays(a, p, e, i, q);
    if i != q {
      var c := Toward(a, i, q);
      PathStays(a, p, e, c, q);
      IndexStays(a[i].children, EditNode(a, p, e)[i].children, c);
    }
  }

  lemma {:induction false} IndexStays(cs: seq<nat>, more: seq<nat>, c: nat)
    requires c in cs && cs <= more
    ensures IndexOf(more, c) == IndexOf(cs, c)
  {
    if cs[0] != c {
      IndexStays(cs[1..], more[1..], c);
    }
  }

  /** The node at a path. */
  function At(t: Tree, path: seq<nat>): Tree
    requires IsPath(t, path)
    decreases |path|
  {
    if path == [] then t else At(t.children[path[0]], path[1..])
  }

  lemma {:induction false} AtIsTreeOf(a: seq<Node>, i: nat, p: nat)
    requires WellFormed(a) && p < |a| && Above(a, i, p)
    ensures IsPath(TreeOf(a, i), PathTo(a, i, p)) && At(TreeOf(a, i), PathTo(a, i, p)) == TreeOf(a, p)
    decreases p - i
  {
    PathIsPath(a, i, p);
    if i != p {
      var c := Toward(a, i, p);
      AtIsTreeOf(a, c, p);
      assert PathTo(a, i, p)[1..] == PathTo(a, c, p);
    }
  }

  lemma {:induction false} PathThroughParent(a: seq<Node>, i: nat, q: nat)
    requires WellFormed(a) && 0 < q < |a| && i < q && Above(a, i, a[q].parent)
    ensures q in a[a[q].parent].children && Above(a, i, q)
    ensures PathTo(a, i, q) == PathTo(a, i, a[q].parent) + [IndexOf(a[a[q].parent].children, q)]
    decreases q - i
  {
    var p := a[q].parent;
    if i == p {
      assert Toward(a, i, q) == q && PathTo(a, q, q) == [];
    } else {
      var c := Toward(a, i, p);
      assert Toward(a, i, q) == c;
      PathThroughParent(a, c, q);
    }
  }

  lemma {:induction false} IndexOfLast(cs: seq<nat>, c: nat)
    requires c !in cs
    ensures IndexOf(cs + [c], c) == |cs|
  {
    if cs != [] {
      assert (cs + [c])[1..] == cs[1..] + [c];
      IndexOfLast(cs[1..], c);
    }
  }

  /** A new leaf is the last child of the node that it was appended to. */
  lemma LeafPath(a: seq<Node>, p: nat, leaf: Step)
    requires WellFormed(a) && p < |a| && WellFormed(EditNode(a, p, AppendLeaf(leaf)))
    ensures var b := EditNode(a, p, AppendLeaf(leaf));
            Above(a, 0, p) && Above(b, 0, |a|) && PathTo(b, 0, |a|) == PathTo(a, 0, p) + [|a[p].children|]
  {
    var b := EditNode(a, p, AppendLeaf(leaf));
    RootIsAbove(a, p);
    PathStays(a, p, AppendLeaf(leaf), 0, p);
    PathThroughParent(b, 0, |a|);
    IndexOfLast(a[p].children, |a|);
  }
}
