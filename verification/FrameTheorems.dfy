/** What removing the TLS/OAuth components leaves alone in a whole document, and what it does to
    the parts that it touches. */
module FrameTheorems {
  import opened Sequences
  import opened Json
  import opened RayRewrite
  import opened ProcessTheorems
  import opened DetectorTheorems
  import opened Paths

  predicate Anything(path: seq<Edge>) { true }

  predicate InPodSpec(path: seq<Edge>) { path != [] && path[0].Key? && path[0].k in POD_SPEC_KEYS }

  /** Containers, init containers, volumes and service account of a group's pod spec. */
  function InGroup(): Paths { Under("template", Under("spec", InPodSpec)) }

  function InHead(): Paths { Either(Under("enableIngress", Anything), InGroup()) }

  /** In a worker group, as in the head; a worker group that is not a map is touched as a whole. */
  function InWorkers(ws: seq<Value>): Paths {
    (path: seq<Edge>) =>
      path != [] && path[0].Item? && ((path[0].i < |ws| && !ws[path[0].i].Map?) || InGroup()(path[1..]))
  }

  function InSpec(spec: Object): Paths {
    Either(Under("headGroupSpec", InHead()), Under("workerGroupSpecs", InWorkers(ListAt(spec, "workerGroupSpecs"))))
  }

  /** The paths into the parts of a document that the rewrite may touch. */
  function Touched(rc: Object): Paths { Under("spec", InSpec(MapAt(rc, "spec"))) }

  // ---- The frame ----

  lemma PodSpecAgrees(p: Object)
    ensures AgreesOutside(Map(p), Map(CleanPodSpec(p)), InPodSpec)
  {
    PodSpecLists(p);
    forall path: seq<Edge>
      ensures InPodSpec(path) || Alike(Walk(Map(CleanPodSpec(p)), path), Walk(Map(p), path))
    {
      AlikeSelf(Walk(Map(p), path));
      if path != [] && path[0].Key? && path[0].k !in POD_SPEC_KEYS {
        var k := path[0].k;
        assert k in CleanPodSpec(p) <==> k in p;
      }
    }
  }

  lemma GroupAgrees(g: Object)
    ensures AgreesOutside(Map(g), Map(CleanGroup(g)), InGroup())
  {
    var t := MapAt(g, "template");
    PodSpecAgrees(MapAt(t, "spec"));
    UpdateMapAgrees(t, "spec", CleanPodSpec, InPodSpec);
    UpdateMapAgrees(g, "template", CleanTemplate, Under("spec", InPodSpec));
  }

  lemma HeadAgrees(head: Object)
    ensures AgreesOutside(Map(head), Map(ProcessHead(head)), InHead())
  {
    var quiet := if GetBool(head, "enableIngress") then head["enableIngress" := Bool(false)] else head;
    if GetBool(head, "enableIngress") {
      SameAgrees(head["enableIngress"], Anything);
      assert quiet - {"enableIngress"} == head - {"enableIngress"};
      assert AgreesOutside(head["enableIngress"], quiet["enableIngress"], Anything);
      AgreesUnder(head, quiet, "enableIngress", Anything);
    } else {
      SameAgrees(Map(head), Under("enableIngress", Anything));
    }
    GroupAgrees(quiet);
    AgreesBoth(Map(head), Map(quiet), Map(ProcessHead(head)), Under("enableIngress", Anything), InGroup());
  }

  lemma WorkersAgree(ws: seq<Value>)
    ensures AgreesOutside(List(ws), List(ProcessWorkers(ws)), InWorkers(ws))
  {
    forall path: seq<Edge>
      ensures InWorkers(ws)(path) || Alike(Walk(List(ProcessWorkers(ws)), path), Walk(List(ws), path))
    {
      AlikeSelf(Walk(List(ws), path));
      if path != [] && path[0].Item? && path[0].i < |ws| && ws[path[0].i].Map? {
        var w := ws[path[0].i];
        GroupAgrees(w.fields);
        assert InGroup()(path[1..]) || Alike(Walk(Map(CleanGroup(w.fields)), path[1..]), Walk(w, path[1..]));
      }
    }
  }

  lemma SpecAgrees(spec: Object)
    ensures AgreesOutside(Map(spec), Map(ProcessSpec(spec)), InSpec(spec))
  {
    var key, ws := "workerGroupSpecs", ListAt(spec, "workerGroupSpecs");
    HeadAgrees(MapAt(spec, "headGroupSpec"));
    UpdateMapAgrees(spec, "headGroupSpec", ProcessHead, InHead());
    var mid := UpdateMap(spec, "headGroupSpec", ProcessHead);
    if key in mid {
      if mid[key].List? {
        WorkersAgree(ws);
      } else {
        SameAgrees(mid[key], InWorkers(ws));
      }
    }
    ListRewritten(mid, key, ProcessWorkers);
    AgreesUnder(mid, ProcessSpec(spec), key, InWorkers(ws));
    var inHead, inWorkers := Under("headGroupSpec", InHead()), Under(key, InWorkers(ws));
    AgreesBoth(Map(spec), Map(mid), Map(ProcessSpec(spec)), inHead, inWorkers);
  }

  /** For every document: what the rewrite does not look at stays as it is, down to the last
      scalar. */
  lemma ProcessTouchesOnly(rc: Object)
    ensures AgreesOutside(Map(rc), Map(Process(rc)), Touched(rc))
  {
    SpecAgrees(MapAt(rc, "spec"));
    UpdateMapAgrees(rc, "spec", ProcessSpec, InSpec(MapAt(rc, "spec")));
  }

  // ---- The parts that are touched ----

  lemma GroupRewritten(g: Object)
    ensures PodSpecOf(CleanGroup(g)) == CleanPodSpec(PodSpecOf(g))
  {
    assert CleanPodSpec(map[]) == map[];
  }

  /** Ingress is switched off if it was on, and left alone otherwise. */
  predicate IngressOff(before: Object, after: Object) {
    && ("enableIngress" in after <==> "enableIngress" in before)
    && ("enableIngress" in before ==>
          after["enableIngress"]
          == if before["enableIngress"] == Bool(true) then Bool(false) else before["enableIngress"])
  }

  lemma HeadRewritten(head: Object)
    ensures IngressOff(head, ProcessHead(head))
    ensures PodSpecOf(ProcessHead(head)) == CleanPodSpec(PodSpecOf(head))
  {
    var quiet := if GetBool(head, "enableIngress") then head["enableIngress" := Bool(false)] else head;
    GroupRewritten(quiet);
    assert "template" in quiet <==> "template" in head;
  }

  /** Each worker group is a map afterwards, with a rewritten pod spec; what was no map is empty. */
  predicate WorkersRewritten(before: seq<Value>, after: seq<Value>) {
    && |after| == |before|
    && forall i :: 0 <= i < |before| ==>
         && after[i].Map?
         && PodSpecOf(after[i].fields) == CleanPodSpec(PodSpecOf(AsObject(before[i])))
         && (!before[i].Map? ==> after[i] == Map(map[]))
  }

  lemma ProcessRewrites(rc: Object)
    ensures var spec, after := MapAt(rc, "spec"), MapAt(Process(rc), "spec");
            && IngressOff(MapAt(spec, "headGroupSpec"), MapAt(after, "headGroupSpec"))
            && PodSpecOf(MapAt(after, "headGroupSpec")) == CleanPodSpec(PodSpecOf(MapAt(spec, "headGroupSpec")))
            && WorkersRewritten(ListAt(spec, "workerGroupSpecs"), ListAt(after, "workerGroupSpecs"))
  {
    var spec, after := MapAt(rc, "spec"), MapAt(Process(rc), "spec");
    HeadRewritten(MapAt(spec, "headGroupSpec"));
    assert CleanPodSpec(map[]) == map[];
    var ws := ListAt(spec, "workerGroupSpecs");
    assert ListAt(after, "workerGroupSpecs") == ProcessWorkers(ws);
    forall i | 0 <= i < |ws|
      ensures PodSpecOf(AsObject(ProcessWorkers(ws)[i])) == CleanPodSpec(PodSpecOf(AsObject(ws[i])))
    {
      GroupRewritten(AsObject(ws[i]));
    }
    assert CleanGroup(map[]) == map[];
  }
}
