/** The step recorder: recorders on the heap, linked to their parents and children, together
    always show one ordered tree. */
module Recorder {
  import opened Optional
  import opened StepTrees

  /** All recorders that grew from one root. It exists for the proof only: it numbers the
      recorders in order of creation and keeps the table that they form. */
  class Recording {
    ghost var nodes: seq<StepRecorder>
    ghost var table: seq<Node>

    ghost constructor ()
      ensures nodes == [] && table == []
    {
      nodes, table := [], [];
    }

    /** Each recorder is linked to its parent and its children as the table says. */
    ghost predicate Linked()
      reads this, nodes
    {
      && |nodes| == |table|
      && (forall i, j :: 0 <= i < j < |nodes| ==> nodes[i] != nodes[j])
      && (forall i :: 0 <= i < |nodes| ==> nodes[i].Shows(nodes, table, i) && nodes[i].recording == this)
    }

    /** Besides, there are as many steps in the tree as recorders, the root counted. */
    ghost predicate Valid()
      reads this, nodes
    {
      Linked() && WellFormed(table) && Size(TreeOf(table, 0)) == |nodes|
    }

    /** The tree that the recorders show. */
    ghost function Whole(): Tree
      reads this, nodes
      requires Valid()
    {
      TreeOf(table, 0)
    }

    /** The position of every recorder in the tree. */
    ghost function Paths(): (paths: seq<seq<nat>>)
      reads this, nodes
      requires Valid()
      ensures |paths| == |nodes|
      ensures forall i :: 0 <= i < |nodes| ==> IsPath(Whole(), paths[i]) && At(Whole(), paths[i]) == TreeOf(table, i)
    {
      PathsLead(table);
      PathsIn(table)
    }
  }

  class StepRecorder {
    var step: Option<Step>
    var parent: StepRecorder?
    var children: seq<StepRecorder>
    ghost var id: nat
    ghost var recording: Recording

    /** This recorder is entry `i` of the table. */
    ghost predicate Shows(nodes: seq<StepRecorder>, table: seq<Node>, i: nat)
      reads this
    {
      && i < |table| <= |nodes| && id == i
      && step == table[i].step
      && (if i == 0 then parent == null else 0 <= table[i].parent < |nodes| && parent == nodes[table[i].parent])
      && |children| == |table[i].children|
      && forall k :: 0 <= k < |children| ==>
          table[i].children[k] < |nodes| && children[k] == nodes[table[i].children[k]]
    }

    /** A recorder whose entry is the same in a larger table shows the larger table, too. */
    lemma ShowsStill(nodes: seq<StepRecorder>, table: seq<Node>, more: seq<StepRecorder>, larger: seq<Node>, i: nat)
      requires Shows(nodes, table, i) && nodes <= more && |table| <= |larger| <= |more| && larger[i] == table[i]
      ensures Shows(more, larger, i)
    {
    }

    ghost predicate Valid()
      reads this, recording, recording.nodes
    {
      recording.Valid() && id < |recording.nodes| && recording.nodes[id] == this
    }

    constructor Root()
      ensures Valid() && fresh(recording) && id == 0 && recording.nodes == [this]
      ensures recording.Whole() == Tree(None, [])
      ensures step.None? && recording.Paths() == [[]]
    {
      step, parent, children := None, null, [];
      id := 0;
      ghost var r := new Recording();
      recording := r;
      new;
      recording.nodes := [this];
      recording.table := [Node(None, -1, [])];
    }

    constructor Below(step: Step, parent: StepRecorder, ghost id: nat, ghost recording: Recording)
      ensures this.step == Some(step) && this.parent == parent && children == []
      ensures this.id == id && this.recording == recording
    {
      this.step, this.parent, this.children := Some(step), parent, [];
      this.id, this.recording := id, recording;
    }

    ghost predicate IsLinked()
      reads this, recording, recording.nodes
    {
      recording.Linked() && id < |recording.nodes| && recording.nodes[id] == this
    }

    /** The links of a new recorder below this one, in both directions. */
    method Link(step: Step) returns (child: StepRecorder)
      requires IsLinked()
      modifies this`children, recording
      ensures IsLinked() && child.IsLinked() && fresh(child)
      ensures child.recording == recording && child.id == old(|recording.nodes|)
      ensures recording.nodes == old(recording.nodes) + [child]
      ensures recording.table == EditNode(old(recording.table), id, AppendLeaf(step))
    {
      ghost var r, nodes, table := recording, recording.nodes, recording.table;
      child := new StepRecorder.Below(step, this, |nodes|, r);
      children := children + [child];
      r.table := EditNode(table, id, AppendLeaf(step));
      r.nodes := nodes + [child];
      assert nodes <= r.nodes;
      assert child.Shows(r.nodes, r.table, |nodes|);
      assert Shows(r.nodes, r.table, id);
      forall i | 0 <= i < |r.nodes|
        ensures r.nodes[i].Shows(r.nodes, r.table, i) && r.nodes[i].recording == r
      {
        if i < |nodes| && i != id {
          assert nodes[i] != this && nodes[i].Shows(nodes, table, i);
          nodes[i].ShowsStill(nodes, table, r.nodes, r.table, i);
        }
      }
    }

    /** Appends one running leaf below this recorder's step; no other step changes or moves. */
    method Child(name: string, description: string) returns (child: StepRecorder)
      requires Valid()
      modifies this`children, recording
      ensures Valid() && child.Valid() && fresh(child)
      ensures child.recording == recording && child.id == old(|recording.nodes|)
      ensures recording.nodes == old(recording.nodes) + [child]
      ensures child.step == Some(NewStep(name, description)) == Some(Step(name, description, Running, "", map[]))
      ensures recording.Whole()
           == EditAt(old(recording.Whole()), old(recording.Paths()[id]), AppendLeaf(NewStep(name, description)))
      ensures recording.Paths() == old(recording.Paths())
           + [old(recording.Paths()[id]) + [|old(At(recording.Whole(), recording.Paths()[id])).children|]]
    {
      EditInTree(recording.table, id, AppendLeaf(NewStep(name, description)));
      child := Link(NewStep(name, description));
    }

    /** A new step for this recorder; the links stay. */
    method Relabel(changed: Step)
      requires IsLinked()
      modifies this`step, recording`table
      ensures IsLinked() && step == Some(changed)
      ensures recording.table == EditNode(old(recording.table), id, SetStep(changed))
    {
      ghost var r, nodes, table := recording, recording.nodes, recording.table;
      step := Some(changed);
      r.table := EditNode(table, id, SetStep(changed));
      assert Shows(nodes, r.table, id);
      forall i | 0 <= i < |nodes|
        ensures nodes[i].Shows(nodes, r.table, i) && nodes[i].recording == r
      {
        if i != id {
          assert nodes[i] != this && nodes[i].Shows(nodes, table, i);
          nodes[i].ShowsStill(nodes, table, nodes, r.table, i);
        }
      }
    }

    /** Replaces the step of this recorder, in the tree as well. */
    method Change(changed: Step)
      requires Valid() && step.Some?
      modifies this`step, recording`table
      ensures Valid() && step == Some(changed)
      ensures recording.Whole() == EditAt(old(recording.Whole()), old(recording.Paths()[id]), SetStep(changed))
      ensures recording.Paths() == old(recording.Paths())
    {
      EditInTree(recording.table, id, SetStep(changed));
      Relabel(changed);
    }

    /** Sets the status and the message of this recorder's step; the root has none to set. */
    method Complete(status: Status, message: string)
      requires Valid()
      modifies this`step, recording`table
      ensures Valid()
      ensures recording.Whole()
           == Edited(old(recording.Whole()), old(recording.Paths()[id]),
               (s: Step) => s.(status := status, message := message))
      ensures step == if old(step).None? then None
                      else Some(old(step).value.(status := status, message := message))
      ensures recording.Paths() == old(recording.Paths())
    {
      if step.Some? {
        Change(step.value.(status := status, message := message));
      }
    }

    method AddDetail(key: string, value: string)
      requires Valid()
      modifies this`step, recording`table
      ensures Valid()
      ensures recording.Whole()
           == Edited(old(recording.Whole()), old(recording.Paths()[id]),
               (s: Step) => s.(details := s.details[key := value]))
      ensures step == if old(step).None? then None
                      else Some(old(step).value.(details := old(step).value.details[key := value]))
      ensures recording.Paths() == old(recording.Paths())
    {
      if step.Some? {
        Change(step.value.(details := step.value.details[key := value]));
      }
    }

    /** Appends one leaf that is completed at once. */
    method Record(name: string, message: string, status: Status) returns (ghost leaf: StepRecorder)
      requires Valid()
      modifies this`children, recording
      ensures Valid()
      ensures recording.nodes == old(recording.nodes) + [leaf] && fresh(leaf)
      ensures leaf.step == Some(Step(name, message, status, message, map[]))
      ensures recording.Whole()
           == EditAt(old(recording.Whole()), old(recording.Paths()[id]),
                     AppendLeaf(DoneStep(name, message, status)))
      ensures recording.Paths() == old(recording.Paths())
           + [old(recording.Paths()[id]) + [|old(At(recording.Whole(), recording.Paths()[id])).children|]]
    {
      ghost var t, path := recording.Whole(), recording.Paths()[id];
      var child := Child(name, message);
      leaf := child;
      AppendThenSet(t, path, NewStep(name, message), DoneStep(name, message, status));
      assert recording.Whole() == EditAt(t, path, AppendLeaf(NewStep(name, message)));
      child.Complete(status, message);
      assert recording.Whole() == EditAt(t, path, AppendLeaf(DoneStep(name, message, status)));
    }

    method BuildSteps() returns (steps: seq<Tree>)
      requires Valid()
      ensures steps == TreeOf(recording.table, id).children
      decreases |recording.nodes| - id
    {
      steps := [];
      var i := 0;
      while i < |children|
        invariant i <= |children| && steps == TreeOf(recording.table, id).children[..i]
      {
        var child := children[i];
        assert child.id == recording.table[id].children[i];
        if child.step.Some? {
          var below := child.BuildSteps();
          steps := steps + [Tree(child.step, below)];
        }
        i := i + 1;
      }
    }

    /** The result shows every step recorded below the root, and nothing else. */
    method Build() returns (steps: seq<Tree>)
      requires Valid() && id == 0
      ensures steps == recording.Whole().children
      ensures SizeAll(steps) == |recording.nodes| - 1
    {
      steps := BuildSteps();
    }
  }

  function NewStep(name: string, description: string): Step {
    Step(name, description, Running, "", map[])
  }

  function DoneStep(name: string, message: string, status: Status): Step {
    Step(name, message, status, message, map[])
  }

  /** A change of the step at a path, if there is one. */
  function Edited(t: Tree, path: seq<nat>, change: Step -> Step): Tree
    requires IsPath(t, path)
  {
    match At(t, path).step
    case None => t
    case Some(s) => EditAt(t, path, SetStep(change(s)))
  }

  ghost function PathsIn(a: seq<Node>): (paths: seq<seq<nat>>)
    requires WellFormed(a)
    ensures |paths| == |a|
  {
    seq(|a|, i requires 0 <= i < |a| => RootIsAbove(a, i); PathTo(a, 0, i))
  }

  lemma PathsLead(a: seq<Node>)
    requires WellFormed(a)
    ensures forall i :: 0 <= i < |a| ==>
      IsPath(TreeOf(a, 0), PathsIn(a)[i]) && At(TreeOf(a, 0), PathsIn(a)[i]) == TreeOf(a, i)
  {
    forall i | 0 <= i < |a|
      ensures IsPath(TreeOf(a, 0), PathsIn(a)[i]) && At(TreeOf(a, 0), PathsIn(a)[i]) == TreeOf(a, i)
    {
      RootIsAbove(a, i);
      AtIsTreeOf(a, 0, i);
    }
  }

  lemma OldPathStays(a: seq<Node>, p: nat, e: Edit, i: nat)
    requires WellFormed(a) && p < |a| && (e.SetStep? ==> p > 0) && WellFormed(EditNode(a, p, e)) && i < |a|
    ensures PathsIn(EditNode(a, p, e))[i] == PathsIn(a)[i]
  {
    RootIsAbove(a, i);
    PathStays(a, p, e, 0, i);
  }

  lemma OldPathsStay(a: seq<Node>, p: nat, e: Edit)
    requires WellFormed(a) && p < |a| && (e.SetStep? ==> p > 0) && WellFormed(EditNode(a, p, e))
    ensures forall i :: 0 <= i < |a| ==> PathsIn(EditNode(a, p, e))[i] == PathsIn(a)[i]
  {
    forall i | 0 <= i < |a|
      ensures PathsIn(EditNode(a, p, e))[i] == PathsIn(a)[i]
    {
      OldPathStays(a, p, e, i);
    }
  }

  lemma NewPath(a: seq<Node>, p: nat, leaf: Step)
    requires WellFormed(a) && p < |a| && WellFormed(EditNode(a, p, AppendLeaf(leaf)))
    ensures PathsIn(EditNode(a, p, AppendLeaf(leaf)))[|a|] == PathsIn(a)[p] + [|a[p].children|]
  {
    LeafPath(a, p, leaf);
  }

  lemma Extended<T>(s: seq<T>, more: seq<T>, last: T)
    requires |more| == |s| + 1 && more[|s|] == last && forall i :: 0 <= i < |s| ==> more[i] == s[i]
    ensures more == s + [last]
  {
  }

  lemma AppendKeepsPlaces(a: seq<Node>, p: nat, leaf: Step)
    requires WellFormed(a) && p < |a| && WellFormed(EditNode(a, p, AppendLeaf(leaf)))
    ensures PathsIn(EditNode(a, p, AppendLeaf(leaf))) == PathsIn(a) + [PathsIn(a)[p] + [|a[p].children|]]
  {
    OldPathsStay(a, p, AppendLeaf(leaf));
    NewPath(a, p, leaf);
    Extended(PathsIn(a), PathsIn(EditNode(a, p, AppendLeaf(leaf))), PathsIn(a)[p] + [|a[p].children|]);
  }

  lemma SetKeepsPlaces(a: seq<Node>, p: nat, changed: Step)
    requires WellFormed(a) && 0 < p < |a| && WellFormed(EditNode(a, p, SetStep(changed)))
    ensures PathsIn(EditNode(a, p, SetStep(changed))) == PathsIn(a)
  {
    OldPathsStay(a, p, SetStep(changed));
  }

  /** An edit in the table is an edit in the tree, and moves no node. */
  lemma EditInTree(a: seq<Node>, p: nat, e: Edit)
    requires WellFormed(a) && p < |a| && (e.SetStep? ==> p > 0)
    ensures var b := EditNode(a, p, e);
            && WellFormed(b) && IsPath(TreeOf(a, 0), PathsIn(a)[p])
            && TreeOf(b, 0) == EditAt(TreeOf(a, 0), PathsIn(a)[p], e)
            && Size(TreeOf(b, 0)) == Size(TreeOf(a, 0)) + (if e.AppendLeaf? then 1 else 0)
            && PathsIn(b) == (if e.AppendLeaf? then PathsIn(a) + [PathsIn(a)[p] + [|a[p].children|]] else PathsIn(a))
  {
    EditKeepsWellFormed(a, p, e);
    RootIsAbove(a, p);
    EditCommutes(a, p, e, 0);
    EditSize(TreeOf(a, 0), PathTo(a, 0, p), e);
    if e.AppendLeaf? {
      AppendKeepsPlaces(a, p, e.leaf);
    } else {
      SetKeepsPlaces(a, p, e.changed);
    }
  }

  /** Appending a leaf and then changing it is appending the changed leaf. */
  lemma {:induction false} AppendThenSet(t: Tree, path: seq<nat>, leaf: Step, changed: Step)
    requires IsPath(t, path)
    ensures var appended, last := EditAt(t, path, AppendLeaf(leaf)), path + [|At(t, path).children|];
            && IsPath(appended, last) && At(appended, last) == Tree(Some(leaf), [])
            && EditAt(appended, last, SetStep(changed)) == EditAt(t, path, AppendLeaf(changed))
    decreases |path|
  {
    var appended, last := EditAt(t, path, AppendLeaf(leaf)), path + [|At(t, path).children|];
    if path == [] {
      assert last[1..] == [];
      assert appended.children[last[0] := Tree(Some(changed), [])] == t.children + [Tree(Some(changed), [])];
    } else {
      AppendThenSet(t.children[path[0]], path[1..], leaf, changed);
      assert last[1..] == path[1..] + [|At(t, path).children|];
    }
  }
}
