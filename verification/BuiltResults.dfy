/** What a built result shows later on. The built steps are copies, but each shares its map of
    details with the recorder that it was copied from. */
module BuiltResults {
  import opened Optional
  import opened StepTrees
  import opened Recorder
  import opened RecorderRuns

  /** Every step of `built` is still where it was. */
  ghost predicate Grown(built: Tree, now: Tree) {
    && |built.children| <= |now.children| && (built.step.Some? <==> now.step.Some?)
    && forall i :: 0 <= i < |built.children| ==> Grown(built.children[i], now.children[i])
  }

  /** What was built, with the details that its steps have now. */
  ghost function Shown(built: Tree, now: Tree): Tree
    requires Grown(built, now)
  {
    Tree(
      match built.step
      case None => None
      case Some(step) => Some(step.(details := now.step.value.details)),
      seq(|built.children|, i requires 0 <= i < |built.children| => Shown(built.children[i], now.children[i])))
  }

  lemma {:induction false} ShownAtOnce(t: Tree)
    ensures Grown(t, t) && Shown(t, t) == t
  {
    forall i | 0 <= i < |t.children|
      ensures Grown(t.children[i], t.children[i]) && Shown(t.children[i], t.children[i]) == t.children[i]
    {
      ShownAtOnce(t.children[i]);
    }
    assert Shown(t, t).children == t.children;
  }

  lemma {:induction false} EditGrows(built: Tree, now: Tree, path: seq<nat>, e: Edit)
    requires Grown(built, now) && IsPath(now, path) && (e.SetStep? ==> At(now, path).step.Some?)
    ensures Grown(built, EditAt(now, path, e))
    decreases |path|
  {
    if path != [] && path[0] < |built.children| {
      EditGrows(built.children[path[0]], now.children[path[0]], path[1..], e);
    }
  }

  /** Of all edits a built result shows only new details of a step that was built. */
  lemma {:induction false} ShownAfterEdit(built: Tree, now: Tree, path: seq<nat>, e: Edit)
    requires Grown(built, now) && IsPath(now, path) && (e.SetStep? ==> At(now, path).step.Some?)
    requires Grown(built, EditAt(now, path, e))
    ensures e.AppendLeaf? || !IsPath(built, path) ==> Shown(built, EditAt(now, path, e)) == Shown(built, now)
    ensures e.SetStep? && IsPath(built, path) ==>
              && IsPath(Shown(built, now), path) && At(built, path).step.Some?
              && At(Shown(built, now), path).step
                 == Some(At(built, path).step.value.(details := At(now, path).step.value.details))
              && Shown(built, EditAt(now, path, e))
                 == EditAt(Shown(built, now), path, SetStep(At(built, path).step.value.(details := e.changed.details)))
    decreases |path|
  {
    var after := EditAt(now, path, e);
    if path == [] {
      assert forall i :: 0 <= i < |built.children| ==> after.children[i] == now.children[i];
      assert Shown(built, after).children == Shown(built, now).children;
    } else if path[0] < |built.children| {
      var k := path[0];
      ShownAfterEdit(built.children[k], now.children[k], path[1..], e);
      assert after.children == now.children[k := EditAt(now.children[k], path[1..], e)];
      assert Shown(built, after).children
          == Shown(built, now).children[k := Shown(built.children[k], after.children[k])];
    } else {
      assert forall i :: 0 <= i < |built.children| ==> after.children[i] == now.children[i];
      assert Shown(built, after).children == Shown(built, now).children;
    }
  }

  lemma {:induction false} SetStepChangesIff(t: Tree, path: seq<nat>, step: Step)
    requires IsPath(t, path)
    ensures EditAt(t, path, SetStep(step)) == t <==> At(t, path).step == Some(step)
    decreases |path|
  {
    if path != [] {
      var k := path[0];
      SetStepChangesIff(t.children[k], path[1..], step);
      var changed := EditAt(t.children[k], path[1..], SetStep(step));
      assert t.children[k := changed][k] == changed;
      if changed == t.children[k] {
        assert t.children[k := changed] == t.children;
      }
    }
  }

  /** The call adds a detail to a step of the built result, and one that it did not have. */
  ghost predicate AddsDetail(built: Tree, s: Session, c: Call)
    requires Sound(s) && c.at < |s.places| && Grown(built, s.tree)
  {
    && c.AddDetail? && IsPath(built, s.places[c.at])
    && match At(s.tree, s.places[c.at]).step
       case None => false
       case Some(step) => step.details[c.key := c.value] != step.details
  }

  lemma AppendIsNotShown(built: Tree, s: Session, c: Call)
    requires Sound(s) && c.at < |s.places| && Grown(built, s.tree) && (c.Child? || c.Record?)
    ensures Grown(built, After(s, c).tree) && Shown(built, After(s, c).tree) == Shown(built, s.tree)
  {
    var path := s.places[c.at];
    var leaf := if c.Child? then NewStep(c.name, c.description) else DoneStep(c.name, c.message, c.status);
    assert After(s, c).tree == EditAt(s.tree, path, AppendLeaf(leaf));
    EditGrows(built, s.tree, path, AppendLeaf(leaf));
    ShownAfterEdit(built, s.tree, path, AppendLeaf(leaf));
  }

  /** A changed step shows iff it was built and its details changed. */
  lemma ChangeShownIff(built: Tree, now: Tree, path: seq<nat>, changed: Step)
    requires Grown(built, now) && IsPath(now, path) && At(now, path).step.Some?
    ensures Grown(built, EditAt(now, path, SetStep(changed)))
    ensures Shown(built, EditAt(now, path, SetStep(changed))) == Shown(built, now)
            <==> !IsPath(built, path) || changed.details == At(now, path).step.value.details
  {
    EditGrows(built, now, path, SetStep(changed));
    ShownAfterEdit(built, now, path, SetStep(changed));
    if IsPath(built, path) {
      SetStepChangesIff(Shown(built, now), path, At(built, path).step.value.(details := changed.details));
    }
  }

  /** A call made after a build changes what the built result shows iff it adds a detail to one
      of its steps, and one that the step did not have. */
  lemma CallShownIff(built: Tree, s: Session, c: Call)
    requires Sound(s) && c.at < |s.places| && Grown(built, s.tree)
    ensures Grown(built, After(s, c).tree)
    ensures Shown(built, After(s, c).tree) == Shown(built, s.tree) <==> !AddsDetail(built, s, c)
  {
    if c.Child? || c.Record? {
      AppendIsNotShown(built, s, c);
    } else {
      var path := s.places[c.at];
      match At(s.tree, path).step {
        case None =>
        case Some(step) =>
          var changed := if c.Complete? then step.(status := c.status, message := c.message)
                         else step.(details := step.details[c.key := c.value]);
          ChangeShownIff(built, s.tree, path, changed);
      }
    }
  }

  /** None of these calls adds a new detail to a step of the built result. */
  ghost predicate NoneAddsDetail(built: Tree, s: Session, more: seq<Call>)
    requires Sound(s) && Grown(built, s.tree)
    decreases |more|
  {
    more == [] ||
    (more[0].at < |s.places| && !AddsDetail(built, s, more[0])
     && (AfterKeepsSound(s, more[0]);
         CallShownIff(built, s, more[0]);
         NoneAddsDetail(built, After(s, more[0]), more[1..])))
  }

  /** The session after more calls. */
  ghost function AfterAll(s: Session, more: seq<Call>): (t: Session)
    requires Sound(s)
    ensures Sound(t)
    decreases |more|
  {
    if more == [] || more[0].at >= |s.places| then s
    else
      AfterKeepsSound(s, more[0]);
      AfterAll(After(s, more[0]), more[1..])
  }

  /** Whatever else is recorded after a build, the result shows what was built. */
  lemma {:induction false} StaysAsBuilt(built: Tree, s: Session, more: seq<Call>)
    requires Sound(s) && Grown(built, s.tree) && NoneAddsDetail(built, s, more)
    ensures Grown(built, AfterAll(s, more).tree)
    ensures Shown(built, AfterAll(s, more).tree) == Shown(built, s.tree)
    decreases |more|
  {
    if more != [] {
      AfterKeepsSound(s, more[0]);
      CallShownIff(built, s, more[0]);
      StaysAsBuilt(built, After(s, more[0]), more[1..]);
    }
  }

  /** None of the later calls adds a new detail to a step of the result built after `calls`. */
  ghost predicate LeavesResultAlone(calls: seq<Call>, more: seq<Call>)
    requires Possible(calls)
  {
    ShownAtOnce(Replay(calls).tree);
    NoneAddsDetail(Replay(calls).tree, Replay(calls), more)
  }

  /** As long as no call adds a new detail to one of its steps, a built result shows the tree that
      was recorded when it was built. */
  lemma ResultStaysAsBuilt(calls: seq<Call>, more: seq<Call>)
    requires Possible(calls) && LeavesResultAlone(calls, more)
    ensures Grown(Replay(calls).tree, AfterAll(Replay(calls), more).tree)
    ensures Shown(Replay(calls).tree, AfterAll(Replay(calls), more).tree) == Replay(calls).tree
  {
    ShownAtOnce(Replay(calls).tree);
    StaysAsBuilt(Replay(calls).tree, Replay(calls), more);
  }
}
