/** Stripping the autogenerated fields and removing the TLS/OAuth components commute. */
module CommutationTheorems {
  import opened Sequences
  import opened Json
  import opened RayRewrite
  import opened StripTheorems
  import ProcessTheorems

  lemma StripKeepsName(v: Value)
    ensures NameOf(StripItem(v)) == NameOf(v)
  {
    if v.Map? {
      StripField(v.fields, "name");
    }
  }

  /** A list rewrite commutes with stripping when it commutes on the stored list. */
  lemma UpdateListCommutes(m: Object, key: string, f: seq<Value> -> seq<Value>)
    requires key !in AUTOGENERATED_FIELDS
    requires f(MapSeq(ListAt(m, key), StripItem)) == MapSeq(f(ListAt(m, key)), StripItem)
    ensures UpdateList(Strip(m), key, f) == Strip(UpdateList(m, key, f))
    ensures UpdateListOrDelete(Strip(m), key, f) == Strip(UpdateListOrDelete(m, key, f))
  {
    StripField(m, key);
    if key in m && m[key].List? {
      StripList(m[key].items);
      StripList(f(m[key].items));
      StripUpdate(m, key, List(f(m[key].items)));
      StripDelete(m, key);
    }
  }

  lemma UpdateMapCommutes(m: Object, key: string, f: Object -> Object)
    requires key !in AUTOGENERATED_FIELDS
    requires key in m && m[key].Map? ==> f(Strip(m[key].fields)) == Strip(f(m[key].fields))
    ensures UpdateMap(Strip(m), key, f) == Strip(UpdateMap(m, key, f))
  {
    StripField(m, key);
    if key in m && m[key].Map? {
      StripUpdate(m, key, Map(f(m[key].fields)));
    }
  }

  lemma FilterCommutes(s: seq<Value>, keep: Value -> bool)
    requires forall v :: v in s ==> keep(StripItem(v)) == keep(v)
    ensures Filter(MapSeq(s, StripItem), keep) == MapSeq(Filter(s, keep), StripItem)
  {
    FilterOfMap(s, StripItem, keep);
  }

  lemma NamedFiltersCommute(s: seq<Value>)
    ensures KeptEnvs(MapSeq(s, StripItem)) == MapSeq(KeptEnvs(s), StripItem)
    ensures KeptMounts(MapSeq(s, StripItem)) == MapSeq(KeptMounts(s), StripItem)
    ensures KeptInits(MapSeq(s, StripItem)) == MapSeq(KeptInits(s), StripItem)
    ensures KeptVolumes(MapSeq(s, StripItem)) == MapSeq(KeptVolumes(s), StripItem)
    ensures Filter(MapSeq(s, StripItem), KeepContainer) == MapSeq(Filter(s, KeepContainer), StripItem)
  {
    forall v | v in s
      ensures NameOf(StripItem(v)) == NameOf(v)
    {
      StripKeepsName(v);
    }
    FilterCommutes(s, KeepEnv);
    FilterCommutes(s, KeepMount);
    FilterCommutes(s, KeepInit);
    FilterCommutes(s, KeepVolume);
    FilterCommutes(s, KeepContainer);
  }

  lemma CleanEnvCommutes(c: Object)
    ensures UpdateListOrDelete(Strip(c), "env", KeptEnvs) == Strip(UpdateListOrDelete(c, "env", KeptEnvs))
  {
    NamedFiltersCommute(ListAt(c, "env"));
    UpdateListCommutes(c, "env", KeptEnvs);
  }

  lemma CleanMountsCommutes(c: Object)
    ensures UpdateListOrDelete(Strip(c), "volumeMounts", KeptMounts)
        == Strip(UpdateListOrDelete(c, "volumeMounts", KeptMounts))
  {
    NamedFiltersCommute(ListAt(c, "volumeMounts"));
    UpdateListCommutes(c, "volumeMounts", KeptMounts);
  }

  lemma CleanContainerCommutes(c: Object)
    ensures CleanContainer(Strip(c)) == Strip(CleanContainer(c))
  {
    CleanEnvCommutes(c);
    CleanMountsCommutes(UpdateListOrDelete(c, "env", KeptEnvs));
  }

  lemma CleanContainerValueCommutes(v: Value)
    ensures CleanContainerValue(StripItem(v)) == StripItem(CleanContainerValue(v))
  {
    if v.Map? {
      CleanContainerCommutes(v.fields);
    }
  }

  lemma KeptContainersCommute(s: seq<Value>)
    ensures KeptContainers(MapSeq(s, StripItem)) == MapSeq(KeptContainers(s), StripItem)
  {
    NamedFiltersCommute(s);
    var kept := Filter(s, KeepContainer);
    forall v
      ensures CleanContainerValue(StripItem(v)) == StripItem(CleanContainerValue(v))
    {
      CleanContainerValueCommutes(v);
    }
    assert MapSeq(MapSeq(kept, StripItem), CleanContainerValue) == MapSeq(MapSeq(kept, CleanContainerValue), StripItem);
  }

  lemma SidecarSeenAfterStrip(p: Object)
    ensures HasSidecar(Strip(p)) <==> HasSidecar(p)
  {
    StripField(p, "containers");
    if "containers" in p && p["containers"].List? {
      var cs := p["containers"].items;
      StripList(cs);
      forall i | 0 <= i < |cs|
        ensures KeepContainer(MapSeq(cs, StripItem)[i]) == KeepContainer(cs[i])
      {
        StripKeepsName(cs[i]);
      }
      assert Strip(p)["containers"].items == MapSeq(cs, StripItem);
      forall c | c in cs ensures StripItem(c) in MapSeq(cs, StripItem) {
        var i :| 0 <= i < |cs| && cs[i] == c;
        assert MapSeq(cs, StripItem)[i] == StripItem(c);
      }
    }
  }

  lemma CleanPodSpecCommutes(p: Object)
    ensures CleanPodSpec(Strip(p)) == Strip(CleanPodSpec(p))
  {
    var p1 := UpdateList(p, "containers", KeptContainers);
    var p2 := UpdateListOrDelete(p1, "initContainers", KeptInits);
    var p3 := if HasSidecar(p) then p2 - {"serviceAccountName"} else p2;
    KeptContainersCommute(ListAt(p, "containers"));
    UpdateListCommutes(p, "containers", KeptContainers);
    NamedFiltersCommute(ListAt(p1, "initContainers"));
    UpdateListCommutes(p1, "initContainers", KeptInits);
    SidecarSeenAfterStrip(p);
    StripDelete(p2, "serviceAccountName");
    NamedFiltersCommute(ListAt(p3, "volumes"));
    UpdateListCommutes(p3, "volumes", KeptVolumes);
  }

  lemma CleanGroupCommutes(g: Object)
    ensures CleanGroup(Strip(g)) == Strip(CleanGroup(g))
  {
    if "template" in g && g["template"].Map? {
      var t := g["template"].fields;
      if "spec" in t && t["spec"].Map? {
        CleanPodSpecCommutes(t["spec"].fields);
      }
      UpdateMapCommutes(t, "spec", CleanPodSpec);
    }
    UpdateMapCommutes(g, "template", CleanTemplate);
  }

  lemma ProcessHeadCommutes(head: Object)
    ensures ProcessHead(Strip(head)) == Strip(ProcessHead(head))
  {
    StripField(head, "enableIngress");
    StripUpdate(head, "enableIngress", Bool(false));
    var quiet := if GetBool(head, "enableIngress") then head["enableIngress" := Bool(false)] else head;
    CleanGroupCommutes(quiet);
  }

  lemma ProcessWorkersCommute(s: seq<Value>)
    ensures ProcessWorkers(MapSeq(s, StripItem)) == MapSeq(ProcessWorkers(s), StripItem)
  {
    forall i | 0 <= i < |s|
      ensures ProcessWorker(StripItem(s[i])) == StripItem(ProcessWorker(s[i]))
    {
      CleanGroupCommutes(AsObject(s[i]));
      assert CleanGroup(map[]) == map[] && Strip(map[]) == map[];
    }
  }

  lemma ProcessSpecCommutes(spec: Object)
    ensures ProcessSpec(Strip(spec)) == Strip(ProcessSpec(spec))
  {
    var s1 := UpdateMap(spec, "headGroupSpec", ProcessHead);
    if "headGroupSpec" in spec && spec["headGroupSpec"].Map? {
      ProcessHeadCommutes(spec["headGroupSpec"].fields);
    }
    UpdateMapCommutes(spec, "headGroupSpec", ProcessHead);
    ProcessWorkersCommute(ListAt(s1, "workerGroupSpecs"));
    UpdateListCommutes(s1, "workerGroupSpecs", ProcessWorkers);
  }

  lemma ProcessCommutesWithStrip(rc: Object)
    ensures Process(Strip(rc)) == Strip(Process(rc))
  {
    if "spec" in rc && rc["spec"].Map? {
      ProcessSpecCommutes(rc["spec"].fields);
    }
    UpdateMapCommutes(rc, "spec", ProcessSpec);
  }

  /** The image that a live migration submits: applying it again changes nothing. */
  lemma MigrationImageIdempotent(rc: Object)
    ensures Process(Strip(Process(Strip(rc)))) == Process(Strip(rc))
  {
    ProcessCommutesWithStrip(Process(Strip(rc)));
    ProcessCommutesWithStrip(Strip(rc));
    ProcessTheorems.ProcessIdempotent(Strip(rc));
    StripIdempotent(Map(rc));
  }
}
