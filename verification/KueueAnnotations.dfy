/** Removal of the Kueue workload annotations before a cluster is created from a backup. */
module KueueAnnotations {
  import opened Sequences
  import opened Json
  import opened Paths

  const KUEUE_ANNOTATIONS: set<string> := {"kueue.x-k8s.io/workload", "kueue.x-k8s.io/podset"}

  function FromAnnotations(ann: Object): Object { ann - KUEUE_ANNOTATIONS }

  function FromMeta(meta: Object): Object { UpdateMap(meta, "annotations", FromAnnotations) }

  function FromTemplate(t: Object): Object { UpdateMap(t, "metadata", FromMeta) }

  function FromGroup(g: Object): Object { UpdateMap(g, "template", FromTemplate) }

  function FromWorker(w: Value): Value { if w.Map? then Map(FromGroup(w.fields)) else w }

  function FromWorkers(ws: seq<Value>): seq<Value> { MapSeq(ws, FromWorker) }

  function FromSpec(spec: Object): Object {
    UpdateList(UpdateMap(spec, "headGroupSpec", FromGroup), "workerGroupSpecs", FromWorkers)
  }

  /** The annotations of the cluster, of the head template and of every worker template. */
  function Remove(rc: Object): Object {
    UpdateMap(UpdateMap(rc, "metadata", FromMeta), "spec", FromSpec)
  }

  lemma FromMetaIdempotent(meta: Object)
    ensures FromMeta(FromMeta(meta)) == FromMeta(meta)
  {
    if "annotations" in meta && meta["annotations"].Map? {
      var ann := meta["annotations"].fields;
      assert FromAnnotations(FromAnnotations(ann)) == FromAnnotations(ann);
    }
  }

  lemma FromGroupIdempotent(g: Object)
    ensures FromGroup(FromGroup(g)) == FromGroup(g)
  {
    if "template" in g && g["template"].Map? {
      var t := g["template"].fields;
      if "metadata" in t && t["metadata"].Map? {
        FromMetaIdempotent(t["metadata"].fields);
      }
      assert FromTemplate(FromTemplate(t)) == FromTemplate(t);
    }
  }

  lemma FromSpecIdempotent(spec: Object)
    ensures FromSpec(FromSpec(spec)) == FromSpec(spec)
  {
    if "headGroupSpec" in spec && spec["headGroupSpec"].Map? {
      FromGroupIdempotent(spec["headGroupSpec"].fields);
    }
    if "workerGroupSpecs" in spec && spec["workerGroupSpecs"].List? {
      var ws := spec["workerGroupSpecs"].items;
      forall i | 0 <= i < |ws|
        ensures FromWorker(FromWorker(ws[i])) == FromWorker(ws[i])
      {
        if ws[i].Map? {
          FromGroupIdempotent(ws[i].fields);
        }
      }
      assert FromWorkers(FromWorkers(ws)) == FromWorkers(ws);
    }
  }

  /** Restoring the same in-memory backup again submits the same document. */
  lemma RemoveIdempotent(rc: Object)
    ensures Remove(Remove(rc)) == Remove(rc)
  {
    if "spec" in rc && rc["spec"].Map? {
      FromSpecIdempotent(rc["spec"].fields);
    }
    if "metadata" in rc && rc["metadata"].Map? {
      FromMetaIdempotent(rc["metadata"].fields);
    }
  }

  // ---- Exactly these annotations go ----

  predicate InAnnotations(path: seq<Edge>) { path != [] && path[0].Key? && path[0].k in KUEUE_ANNOTATIONS }

  function InMeta(): Paths { Under("annotations", InAnnotations) }

  function InTemplate(): Paths { Under("metadata", InMeta()) }

  function InGroup(): Paths { Under("template", InTemplate()) }

  predicate InWorkers(path: seq<Edge>) { path != [] && path[0].Item? && InGroup()(path[1..]) }

  function InSpec(): Paths { Either(Under("headGroupSpec", InGroup()), Under("workerGroupSpecs", InWorkers)) }

  /** The paths through a Kueue annotation of the cluster, of the head or of a worker group. */
  function InKueue(): Paths { Either(Under("metadata", InMeta()), Under("spec", InSpec())) }

  lemma AnnotationsDiffer(ann: Object)
    ensures DiffersBy(Map(ann), Map(FromAnnotations(ann)), InAnnotations)
  {
    forall path: seq<Edge>
      ensures Alike(Walk(Map(FromAnnotations(ann)), path), if InAnnotations(path)
          then Nothing else Walk(Map(ann), path))
    {
      AlikeSelf(Walk(Map(ann), path));
    }
  }

  lemma MetaDiffers(meta: Object)
    ensures DiffersBy(Map(meta), Map(FromMeta(meta)), InMeta())
  {
    if "annotations" in meta && meta["annotations"].Map? {
      AnnotationsDiffer(meta["annotations"].fields);
    }
    UpdateMapDiffers(meta, "annotations", FromAnnotations, InAnnotations);
  }

  lemma GroupDiffers(g: Object)
    ensures DiffersBy(Map(g), Map(FromGroup(g)), InGroup())
  {
    if "template" in g && g["template"].Map? {
      var t := g["template"].fields;
      if "metadata" in t && t["metadata"].Map? {
        MetaDiffers(t["metadata"].fields);
      }
      UpdateMapDiffers(t, "metadata", FromMeta, InMeta());
    }
    UpdateMapDiffers(g, "template", FromTemplate, InTemplate());
  }

  lemma WorkersDiffer(ws: seq<Value>)
    ensures DiffersBy(List(ws), List(FromWorkers(ws)), InWorkers)
  {
    forall path: seq<Edge>
      ensures Alike(Walk(List(FromWorkers(ws)), path), if InWorkers(path) then Nothing else Walk(List(ws), path))
    {
      AlikeSelf(Walk(List(ws), path));
      if path != [] && path[0].Item? && path[0].i < |ws| {
        WorkerDiffers(ws[path[0].i], path[1..]);
      }
    }
  }

  lemma WorkerDiffers(w: Value, path: seq<Edge>)
    ensures Alike(Walk(FromWorker(w), path), if InGroup()(path) then Nothing else Walk(w, path))
  {
    AlikeSelf(Walk(w, path));
    if w.Map? {
      GroupDiffers(w.fields);
    }
  }

  lemma SpecDiffers(spec: Object)
    ensures DiffersBy(Map(spec), Map(FromSpec(spec)), InSpec())
  {
    if "headGroupSpec" in spec && spec["headGroupSpec"].Map? {
      GroupDiffers(spec["headGroupSpec"].fields);
    }
    UpdateMapDiffers(spec, "headGroupSpec", FromGroup, InGroup());
    var mid := UpdateMap(spec, "headGroupSpec", FromGroup);
    if "workerGroupSpecs" in mid {
      if mid["workerGroupSpecs"].List? {
        WorkersDiffer(mid["workerGroupSpecs"].items);
      } else {
        SameDiffersBy(mid["workerGroupSpecs"], InWorkers);
      }
    }
    assert FromSpec(spec) - {"workerGroupSpecs"} == mid - {"workerGroupSpecs"};
    DiffersUnder(mid, FromSpec(spec), "workerGroupSpecs", InWorkers);
    DiffersByBoth(Map(spec), Map(mid), Map(FromSpec(spec)), Under("headGroupSpec", InGroup()),
        Under("workerGroupSpecs", InWorkers));
  }

  /** For every document: the Kueue annotations of the cluster, the head and every worker group
      are gone, and whatever any other path leads to is as before. */
  lemma RemovesExactlyKueueAnnotations(rc: Object)
    ensures DiffersBy(Map(rc), Map(Remove(rc)), InKueue())
  {
    if "metadata" in rc && rc["metadata"].Map? {
      MetaDiffers(rc["metadata"].fields);
    }
    UpdateMapDiffers(rc, "metadata", FromMeta, InMeta());
    var mid := UpdateMap(rc, "metadata", FromMeta);
    if "spec" in mid && mid["spec"].Map? {
      SpecDiffers(mid["spec"].fields);
    }
    UpdateMapDiffers(mid, "spec", FromSpec, InSpec());
    DiffersByBoth(Map(rc), Map(mid), Map(Remove(rc)), Under("metadata", InMeta()), Under("spec", InSpec()));
  }
}
