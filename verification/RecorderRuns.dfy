/** Whole recordings: after any sequence of calls, the recorders build the tree that the same
    calls make of an abstract tree. */
module RecorderRuns {
  import opened Optional
  import opened StepTrees
  import opened Recorder

  /** One call; `at` says on which of the recorders handed out so far (the first is the root). */
  datatype Call =
    | Child(at: nat, name: string, description: string)
    | Complete(at: nat, status: Status, message: string)
    | AddDetail(at: nat, key: string, value: string)
    | Record(at: nat, name: string, message: string, status: Status)

  /** The abstract tree, and where in it the recorders handed out so far write. */
  datatype Session = Session(tree: Tree, places: seq<seq<nat>>)

  ghost predicate Sound(s: Session) {
    forall i :: 0 <= i < |s.places| ==> IsPath(s.tree, s.places[i])
  }

  ghost function After(s: Session, c: Call): Session
    requires Sound(s) && c.at < |s.places|
  {
    var path := s.places[c.at];
    match c
    case Child(_, name, description) =>
      Session(EditAt(s.tree, path, AppendLeaf(NewStep(name, description))),
              s.places + [path + [|At(s.tree, path).children|]])
    case Complete(_, status, message) =>
      s.(tree := Edited(s.tree, path, (step: Step) => step.(status := status, message := message)))
    case AddDetail(_, key, value) =>
      s.(tree := Edited(s.tree, path, (step: Step) => step.(details := step.details[key := value])))
    case Record(_, name, message, status) =>
      s.(tree := EditAt(s.tree, path, AppendLeaf(DoneStep(name, message, status))))
  }

  /** No edit moves a node. */
  lemma {:induction false} EditKeepsPaths(t: Tree, path: seq<nat>, e: Edit, other: seq<nat>)
    requires IsPath(t, path) && IsPath(t, other)
    ensures IsPath(EditAt(t, path, e), other)
    decreases |path|
  {
    if path != [] && other != [] && path[0] == other[0] {
      EditKeepsPaths(t.children[path[0]], path[1..], e, other[1..]);
    } else if path == [] && other != [] {
      assert EditAt(t, path, e).children[other[0]] == t.children[other[0]];
    }
  }

  lemma AfterKeepsSound(s: Session, c: Call)
    requires Sound(s) && c.at < |s.places|
    ensures Sound(After(s, c))
    ensures |After(s, c).places| == |s.places| + if c.Child? then 1 else 0
  {
    var path, next := s.places[c.at], After(s, c);
    if c.Child? {
      AppendThenSet(s.tree, path, NewStep(c.name, c.description), NewStep(c.name, c.description));
    }
    forall i | 0 <= i < |s.places|
      ensures IsPath(next.tree, s.places[i])
    {
      if next.tree != s.tree {
        var e :| next.tree == EditAt(s.tree, path, e);
        EditKeepsPaths(s.tree, path, e, s.places[i]);
      }
    }
  }

  /** Recordf takes the lock once for the new leaf and once more to complete it. When another
      goroutine gets in between, the run is one of a Child call and a Complete call. */
  lemma RecordIsTwoCalls(s: Session, at: nat, name: string, message: string, status: Status)
    requires Sound(s) && at < |s.places|
    ensures var between := After(s, Child(at, name, message));
            && Sound(between) && |between.places| == |s.places| + 1
            && After(between, Complete(|s.places|, status, message)).tree
               == After(s, Record(at, name, message, status)).tree
  {
    AfterKeepsSound(s, Child(at, name, message));
    AppendThenSet(s.tree, s.places[at], NewStep(name, message), DoneStep(name, message, status));
  }

  /** How many recorders have been handed out, the root counted. */
  function Handed(calls: seq<Call>): nat {
    if calls == [] then 1 else Handed(calls[..|calls| - 1]) + if calls[|calls| - 1].Child? then 1 else 0
  }

  /** Each call is made on a recorder handed out before it. */
  predicate Possible(calls: seq<Call>) {
    calls == [] || (Possible(calls[..|calls| - 1]) && calls[|calls| - 1].at < Handed(calls[..|calls| - 1]))
  }

  lemma {:induction false} PossibleBefore(calls: seq<Call>, i: nat)
    requires Possible(calls) && i <= |calls|
    ensures Possible(calls[..i])
    decreases |calls|
  {
    if i < |calls| {
      assert calls[..|calls| - 1][..i] == calls[..i];
      PossibleBefore(calls[..|calls| - 1], i);
    } else {
      assert calls[..i] == calls;
    }
  }

  ghost function Replay(calls: seq<Call>): (s: Session)
    requires Possible(calls)
    ensures Sound(s) && |s.places| == Handed(calls)
  {
    if calls == [] then Session(Tree(None, []), [[]])
    else
      var s, c := Replay(calls[..|calls| - 1]), calls[|calls| - 1];
      AfterKeepsSound(s, c); After(s, c)
  }

  lemma ReplayNext(calls: seq<Call>, i: nat)
    requires Possible(calls) && i < |calls|
    ensures Possible(calls[..i]) && Possible(calls[..i + 1]) && calls[i].at < Handed(calls[..i])
    ensures Replay(calls[..i + 1]) == After(Replay(calls[..i]), calls[i])
  {
    PossibleBefore(calls, i + 1);
    assert calls[..i + 1][..i] == calls[..i];
  }

  /** The calls that add a step. */
  function Additions(calls: seq<Call>): nat {
    if calls == [] then 0
    else Additions(calls[..|calls| - 1]) + if calls[|calls| - 1].Child? || calls[|calls| - 1].Record? then 1 else 0
  }

  lemma AfterSize(s: Session, c: Call)
    requires Sound(s) && c.at < |s.places|
    ensures Size(After(s, c).tree) == Size(s.tree) + if c.Child? || c.Record? then 1 else 0
  {
    var path := s.places[c.at];
    match c {
      case Child(_, name, description) => {
        EditSize(s.tree, path, AppendLeaf(NewStep(name, description)));
      }
      case Record(_, name, message, status) => {
        EditSize(s.tree, path, AppendLeaf(DoneStep(name, message, status)));
      }
      case _ => {
        var next := After(s, c).tree;
        if At(s.tree, path).step.Some? {
          var changed :| next == EditAt(s.tree, path, SetStep(changed));
          EditSize(s.tree, path, SetStep(changed));
        }
      }
    }
  }

  /** Every Child and every Record call adds one step, and no other call adds or removes any. */
  lemma {:induction false} OneStepPerAddition(calls: seq<Call>)
    requires Possible(calls)
    ensures SizeAll(Replay(calls).tree.children) == Additions(calls)
  {
    if calls != [] {
      OneStepPerAddition(calls[..|calls| - 1]);
      AfterSize(Replay(calls[..|calls| - 1]), calls[|calls| - 1]);
    }
  }

  ghost predicate Places(ids: seq<nat>, paths: seq<seq<nat>>, places: seq<seq<nat>>) {
    |ids| == |places| && forall i :: 0 <= i < |ids| ==> ids[i] < |paths| && paths[ids[i]] == places[i]
  }

  lemma PlacesStay(ids: seq<nat>, paths: seq<seq<nat>>, places: seq<seq<nat>>, last: seq<nat>)
    requires Places(ids, paths, places)
    ensures Places(ids, paths + [last], places)
  {
  }

  lemma PlacesGrow(ids: seq<nat>, paths: seq<seq<nat>>, places: seq<seq<nat>>, last: seq<nat>)
    requires Places(ids, paths, places)
    ensures Places(ids + [|paths|], paths + [last], places + [last])
  {
  }

  /** The recorders handed out, each with its number, show the abstract session. */
  ghost predicate Mirrors(r: Recording, recorders: seq<StepRecorder>, ids: seq<nat>, s: Session)
    reads r, r.nodes
  {
    && r.Valid() && r.Whole() == s.tree && Places(ids, r.Paths(), s.places)
    && |recorders| == |ids|
    && forall i :: 0 <= i < |ids| ==> ids[i] < |r.nodes| && recorders[i] == r.nodes[ids[i]]
  }

  method PerformChild(recorders: seq<StepRecorder>, c: Call, ghost r: Recording, ghost ids: seq<nat>, ghost s: Session)
    returns (child: StepRecorder)
    requires Sound(s) && c.at < |recorders| && c.Child? && Mirrors(r, recorders, ids, s)
    modifies r, r.nodes
    ensures Mirrors(r, recorders + [child], ids + [|old(r.nodes)|], After(s, c))
    ensures r.nodes == old(r.nodes) + [child] && fresh(child)
  {
    var recorder := recorders[c.at];
    ghost var paths, next := r.Paths(), After(s, c);
    assert recorder.Valid() && recorder.recording == r && paths[recorder.id] == s.places[c.at];
    child := recorder.Child(c.name, c.description);
    assert r.Whole() == next.tree;
    PlacesGrow(ids, paths, s.places, r.Paths()[|paths|]);
    assert r.Paths() == paths + [r.Paths()[|paths|]];
    assert next.places == s.places + [r.Paths()[|paths|]];
  }

  method PerformComplete(recorders: seq<StepRecorder>, c: Call, ghost r: Recording, ghost ids: seq<nat>,
                         ghost s: Session)
    requires Sound(s) && c.at < |recorders| && c.Complete? && Mirrors(r, recorders, ids, s)
    modifies r, r.nodes
    ensures Mirrors(r, recorders, ids, After(s, c))
    ensures r.nodes == old(r.nodes)
  {
    assert recorders[c.at].Valid() && recorders[c.at].recording == r;
    recorders[c.at].Complete(c.status, c.message);
  }

  method PerformAddDetail(recorders: seq<StepRecorder>, c: Call, ghost r: Recording, ghost ids: seq<nat>,
                          ghost s: Session)
    requires Sound(s) && c.at < |recorders| && c.AddDetail? && Mirrors(r, recorders, ids, s)
    modifies r, r.nodes
    ensures Mirrors(r, recorders, ids, After(s, c))
    ensures r.nodes == old(r.nodes)
  {
    assert recorders[c.at].Valid() && recorders[c.at].recording == r;
    recorders[c.at].AddDetail(c.key, c.value);
  }

  method PerformRecord(recorders: seq<StepRecorder>, c: Call, ghost r: Recording, ghost ids: seq<nat>, ghost s: Session)
    returns (ghost leaf: StepRecorder)
    requires Sound(s) && c.at < |recorders| && c.Record? && Mirrors(r, recorders, ids, s)
    modifies r, r.nodes
    ensures Mirrors(r, recorders, ids, After(s, c))
    ensures r.nodes == old(r.nodes) + [leaf] && fresh(leaf)
  {
    var recorder := recorders[c.at];
    ghost var paths, place := r.Paths(), s.places[c.at];
    ghost var grown := EditAt(s.tree, place, AppendLeaf(DoneStep(c.name, c.message, c.status)));
    assert After(s, c) == Session(grown, s.places);
    assert recorder.Valid() && recorder.recording == r && paths[recorder.id] == place;
    leaf := recorder.Record(c.name, c.message, c.status);
    assert r.Whole() == grown;
    PlacesStay(ids, paths, s.places, r.Paths()[|paths|]);
    assert r.Paths() == paths + [r.Paths()[|paths|]];
  }

  /** One call on the recorders is the same call on the abstract tree. */
  method Perform(recorders: seq<StepRecorder>, c: Call, ghost r: Recording, ghost ids: seq<nat>, ghost s: Session)
    returns (handed: seq<StepRecorder>, ghost more: seq<nat>, ghost added: seq<StepRecorder>)
    requires Sound(s) && c.at < |recorders| && Mirrors(r, recorders, ids, s)
    modifies r, r.nodes
    ensures Mirrors(r, handed, more, After(s, c))
    ensures r.nodes == old(r.nodes) + added && fresh(added)
  {
    handed, more, added := recorders, ids, [];
    if c.Child? {
      more := ids + [|r.nodes|];
      var child := PerformChild(recorders, c, r, ids, s);
      handed, added := recorders + [child], [child];
    } else if c.Complete? {
      PerformComplete(recorders, c, r, ids, s);
    } else if c.AddDetail? {
      PerformAddDetail(recorders, c, r, ids, s);
    } else {
      ghost var leaf := PerformRecord(recorders, c, r, ids, s);
      added := [leaf];
    }
  }

  method Start() returns (root: StepRecorder)
    ensures fresh(root) && fresh(root.recording) && root.recording.nodes == [root]
    ensures Mirrors(root.recording, [root], [0], Replay([]))
  {
    root := new StepRecorder.Root();
  }

  /** Records the calls, and builds. */
  method Play(calls: seq<Call>) returns (steps: seq<Tree>)
    requires Possible(calls)
    ensures steps == Replay(calls).tree.children
    ensures SizeAll(steps) == Additions(calls)
  {
    var root := Start();
    ghost var r, ids, s, added := root.recording, [0], Replay([]), [];
    var recorders := [root];
    for i := 0 to |calls|
      invariant Possible(calls[..i]) && s == Replay(calls[..i])
      invariant Mirrors(r, recorders, ids, s)
      invariant |r.nodes| > 0 && r.nodes[0] == root && fresh(r) && fresh(r.nodes)
    {
      ReplayNext(calls, i);
      recorders, ids, added := Perform(recorders, calls[i], r, ids, s);
      s := After(s, calls[i]);
    }
    assert calls[..|calls|] == calls;
    OneStepPerAddition(calls);
    steps := Finish(root, r);
  }

  method Finish(root: StepRecorder, ghost r: Recording) returns (steps: seq<Tree>)
    requires r.Valid() && r.nodes[0] == root
    ensures steps == r.Whole().children
  {
    assert root.Valid() && root.recording == r;
    steps := root.Build();
  }
}
