/** A cluster object whose document is rewritten in place, as the migration does it. */
module Unstructured {
  import opened Sequences
  import opened Json
  import opened RayRewrite
  import opened ProcessTheorems
  import opened DetectorTheorems
  import opened FrameTheorems
  import opened Paths
  import opened StripTheorems

  method KeepEntries(items: seq<Value>, keep: Value -> bool) returns (kept: seq<Value>)
    ensures kept == Filter(items, keep)
  {
    kept := [];
    for i := 0 to |items|
      invariant kept == Filter(items[..i], keep)
    {
      FilterAppend(items[..i], items[i], keep);
      assert items[..i + 1] == items[..i] + [items[i]];
      if keep(items[i]) {
        kept := kept + [items[i]];
      }
    }
    assert items[..|items|] == items;
  }

  method CleanContainerTLSComponents(container: Object) returns (c: Object)
    ensures c == CleanContainer(container)
  {
    c := container;
    if "env" in c && c["env"].List? {
      var kept := KeepEntries(c["env"].items, KeepEnv);
      c := if kept == [] then c - {"env"} else c["env" := List(kept)];
    }
    assert c == UpdateListOrDelete(container, "env", KeptEnvs);
    if "volumeMounts" in c && c["volumeMounts"].List? {
      var kept := KeepEntries(c["volumeMounts"].items, KeepMount);
      c := if kept == [] then c - {"volumeMounts"} else c["volumeMounts" := List(kept)];
    }
  }

  method CleanContainers(containers: seq<Value>) returns (kept: seq<Value>, removedOAuthProxy: bool)
    ensures kept == KeptContainers(containers)
    ensures removedOAuthProxy <==> exists c :: c in containers && !KeepContainer(c)
  {
    kept, removedOAuthProxy := [], false;
    for i := 0 to |containers|
      invariant kept == KeptContainers(containers[..i])
      invariant removedOAuthProxy <==> exists c :: c in containers[..i] && !KeepContainer(c)
    {
      var c := containers[i];
      assert containers[..i + 1] == containers[..i] + [c];
      FilterAppend(containers[..i], c, KeepContainer);
      MapSeqAppend(Filter(containers[..i], KeepContainer), c, CleanContainerValue);
      if NameOf(c) in CONTAINERS_TO_REMOVE {
        removedOAuthProxy := true;
        assert !KeepContainer(c);
      } else if c.Map? {
        var cleaned := CleanContainerTLSComponents(c.fields);
        kept := kept + [Map(cleaned)];
      } else {
        kept := kept + [c];
      }
    }
    assert containers[..|containers|] == containers;
  }

  method CleanPodSpecTLSComponents(podSpec: Object) returns (p: Object)
    ensures p == CleanPodSpec(podSpec)
  {
    p := podSpec;
    var removedOAuthProxy := false;
    if "containers" in p && p["containers"].List? {
      var kept, removed := CleanContainers(p["containers"].items);
      removedOAuthProxy := removed;
      p := p["containers" := List(kept)];
    }
    ghost var p1 := UpdateList(podSpec, "containers", KeptContainers);
    assert p == p1 && removedOAuthProxy == HasSidecar(podSpec);
    if "initContainers" in p && p["initContainers"].List? {
      var kept := KeepEntries(p["initContainers"].items, KeepInit);
      p := if kept == [] then p - {"initContainers"} else p["initContainers" := List(kept)];
    }
    assert p == UpdateListOrDelete(p1, "initContainers", KeptInits);
    if removedOAuthProxy {
      p := p - {"serviceAccountName"};
    }
    if "volumes" in p && p["volumes"].List? {
      var kept := KeepEntries(p["volumes"].items, KeepVolume);
      p := p["volumes" := List(kept)];
    }
  }

  method CleanGroupTemplate(group: Object) returns (g: Object)
    ensures g == CleanGroup(group)
  {
    g := group;
    if "template" in g && g["template"].Map? {
      var t := g["template"].fields;
      if "spec" in t && t["spec"].Map? {
        var cleaned := CleanPodSpecTLSComponents(t["spec"].fields);
        t := t["spec" := Map(cleaned)];
      }
      g := g["template" := Map(t)];
    }
  }

  /** Delete the autogenerated keys of a document, entry by entry, in any order. */
  method StripInPlace(v: Value) returns (r: Value)
    ensures r == StripValue(v) && DiffersBy(v, r, Autogenerated(v))
    decreases v
  {
    StripRemovesOnlyAutogenerated(v);
    match v {
      case Map(fields) =>
        var m, todo := fields, fields.Keys;
        while todo != {}
          invariant todo <= fields.Keys
          invariant forall k :: k in m <==> k in fields && (k in todo || k !in AUTOGENERATED_FIELDS)
          invariant forall k :: k in m ==> m[k] == if k in todo then fields[k] else StripValue(fields[k])
          decreases todo
        {
          var k :| k in todo;
          if k in AUTOGENERATED_FIELDS {
            m := m - {k};
          } else {
            var sub := StripInPlace(fields[k]);
            m := m[k := sub];
          }
          todo := todo - {k};
        }
        r := Map(m);
      case List(items) =>
        var out := items;
        for i := 0 to |items|
          invariant |out| == |items|
          invariant forall j :: 0 <= j < i ==> out[j] == StripItem(items[j])
          invariant forall j :: i <= j < |items| ==> out[j] == items[j]
        {
          if items[i].Map? {
            var sub := StripInPlace(items[i]);
            out := out[i := sub];
          }
        }
        assert List(out) == StripValue(v);
        r := List(out);
      case _ => r := v;
    }
  }

  lemma CheckContainersStep(containers: seq<Value>, i: nat, group: Group)
    requires i < |containers|
    ensures CheckContainers(containers[i..], group)
            == (if KeepContainer(containers[i]) then [] else [SidecarContainer(group)])
               + FirstTlsEnv(ListAt(AsObject(containers[i]), "env"), group)
               + CheckContainers(containers[i + 1..], group)
  {
    assert containers[i..][1..] == containers[i + 1..];
  }

  lemma Regroup<T>(done: seq<T>, a: seq<T>, b: seq<T>, rest: seq<T>)
    ensures done + (a + b + rest) == (done + a + b) + rest
  {
  }

  method ScanContainers(containers: seq<Value>, group: Group) returns (components: seq<Finding>)
    ensures components == CheckContainers(containers, group)
  {
    components := [];
    for i := 0 to |containers|
      invariant components + CheckContainers(containers[i..], group) == CheckContainers(containers, group)
    {
      var sidecar := if NameOf(containers[i]) in CONTAINERS_TO_REMOVE then [SidecarContainer(group)] else [];
      var tls := ScanEnvs(ListAt(AsObject(containers[i]), "env"), group);
      CheckContainersStep(containers, i, group);
      Regroup(components, sidecar, tls, CheckContainers(containers[i + 1..], group));
      components := components + sidecar + tls;
    }
  }

  method ScanInits(inits: seq<Value>, group: Group) returns (components: seq<Finding>)
    ensures components == CheckInits(inits, group)
  {
    components := [];
    for i := 0 to |inits|
      invariant components + CheckInits(inits[i..], group) == CheckInits(inits, group)
    {
      assert inits[i..][1..] == inits[i + 1..];
      if NameOf(inits[i]) in CODEFLARE_INIT_CONTAINERS {
        components := components + [CertInitContainer(group, NameOf(inits[i]))];
      }
    }
  }

  method ScanVolumes(volumes: seq<Value>, group: Group) returns (components: seq<Finding>)
    ensures components == CheckVolumes(volumes, group)
  {
    components := [];
    for i := 0 to |volumes|
      invariant components + CheckVolumes(volumes[i..], group) == CheckVolumes(volumes, group)
    {
      assert volumes[i..][1..] == volumes[i + 1..];
      if NameOf(volumes[i]) in VOLUMES_TO_REMOVE {
        components := components + [TlsVolume(group, NameOf(volumes[i]))];
      }
    }
  }

  method CheckPodSpecForTLSOAuth(podSpec: Object, group: Group) returns (components: seq<Finding>)
    ensures components == CheckPodSpec(podSpec, group)
    ensures components == [] <==> PlainPodSpec(podSpec)
  {
    PodSpecFoundIff(podSpec, group);
    var containers := ScanContainers(ListAt(podSpec, "containers"), group);
    var inits := ScanInits(ListAt(podSpec, "initContainers"), group);
    var volumes := ScanVolumes(ListAt(podSpec, "volumes"), group);
    components := containers + inits + volumes;
  }

  method ScanEnvs(envs: seq<Value>, group: Group) returns (found: seq<Finding>)
    ensures found == FirstTlsEnv(envs, group)
  {
    for i := 0 to |envs|
      invariant FirstTlsEnv(envs[i..], group) == FirstTlsEnv(envs, group)
    {
      assert envs[i..][1..] == envs[i + 1..];
      if NameOf(envs[i]) in TLS_ENV_VARS {
        return [TlsEnvVar(group, NameOf(envs[i]))];
      }
    }
    return [];
  }

  method CheckGroupForTLSOAuth(g: Object, group: Group) returns (components: seq<Finding>)
    ensures components == CheckGroup(g, group)
  {
    components := [];
    if "template" in g && g["template"].Map? {
      var t := g["template"].fields;
      if "spec" in t && t["spec"].Map? {
        components := CheckPodSpecForTLSOAuth(t["spec"].fields, group);
      }
    }
  }

  lemma CheckWorkersStep(workers: seq<Value>, i: nat)
    requires i < |workers|
    ensures CheckWorkers(workers[i..], i)
            == CheckGroup(AsObject(workers[i]), Worker(i)) + CheckWorkers(workers[i + 1..], i + 1)
  {
    var ws := workers[i..];
    assert ws[0] == workers[i] && ws[1..] == workers[i + 1..];
  }

  method ScanWorkers(workers: seq<Value>) returns (components: seq<Finding>)
    ensures components == CheckWorkers(workers, 0)
  {
    components := [];
    for i := 0 to |workers|
      invariant components + CheckWorkers(workers[i..], i) == CheckWorkers(workers, 0)
    {
      var found := CheckGroupForTLSOAuth(AsObject(workers[i]), Worker(i));
      CheckWorkersStep(workers, i);
      Regroup(components, found, [], CheckWorkers(workers[i + 1..], i + 1));
      assert found + [] == found && components + found + [] == components + found;
      components := components + found;
    }
  }

  method CleanWorkers(groups: seq<Value>) returns (workers: seq<Value>)
    ensures workers == ProcessWorkers(groups)
  {
    workers := groups;
    for i := 0 to |workers|
      invariant |workers| == |groups|
      invariant forall j :: 0 <= j < i ==> workers[j] == ProcessWorker(groups[j])
      invariant forall j :: i <= j < |workers| ==> workers[j] == groups[j]
    {
      var wm := CleanGroupTemplate(AsObject(workers[i]));
      workers := workers[i := Map(wm)];
    }
  }

  method CleanHead(headGroup: Object) returns (head: Object)
    ensures head == ProcessHead(headGroup)
  {
    head := headGroup;
    if GetBool(head, "enableIngress") {
      head := head["enableIngress" := Bool(false)];
    }
    head := CleanGroupTemplate(head);
  }

  method ScanHead(spec: Object) returns (components: seq<Finding>)
    ensures components == CheckHead(spec)
  {
    components := [];
    if "headGroupSpec" in spec && spec["headGroupSpec"].Map? {
      var head := spec["headGroupSpec"].fields;
      if GetBool(head, "enableIngress") {
        components := components + [IngressEnabled];
      }
      var found := CheckGroupForTLSOAuth(head, Head);
      components := components + found;
    }
  }

  class RayCluster {
    var doc: Object

    constructor (doc: Object)
      ensures this.doc == doc
    {
      this.doc := doc;
    }

    method RemoveAutogeneratedFields()
      modifies this
      ensures doc == Strip(old(doc))
      ensures DiffersBy(Map(old(doc)), Map(doc), Autogenerated(Map(old(doc))))
    {
      var stripped := StripInPlace(Map(doc));
      doc := stripped.fields;
    }

    /** The effect is the tree function, which touches only the parts it is about; the detector
        then finds nothing, a second call changes nothing, and a document without a `spec` map is
        not touched. */
    method ProcessRayClusterYAML()
      modifies this
      ensures doc == Process(old(doc))
      ensures AgreesOutside(Map(old(doc)), Map(doc), Touched(old(doc)))
      ensures TlsComponents(doc) == [] && Process(doc) == doc
      ensures !("spec" in old(doc) && old(doc)["spec"].Map?) ==> doc == old(doc)
    {
      ProcessTouchesOnly(doc);
      ProcessIsComplete(doc);
      ProcessIdempotent(doc);
      if !("spec" in doc && doc["spec"].Map?) {
        return;
      }
      var spec := doc["spec"].fields;
      if "headGroupSpec" in spec && spec["headGroupSpec"].Map? {
        var head := CleanHead(spec["headGroupSpec"].fields);
        spec := spec["headGroupSpec" := Map(head)];
      }
      if "workerGroupSpecs" in spec && spec["workerGroupSpecs"].List? {
        var workers := CleanWorkers(spec["workerGroupSpecs"].items);
        spec := spec["workerGroupSpecs" := List(workers)];
      }
      doc := doc["spec" := Map(spec)];
    }

    method HasTLSOAuthComponents() returns (has: bool, components: seq<Finding>)
      ensures components == TlsComponents(doc) && has == (components != [])
      ensures has <==> !Plain(doc)
    {
      DetectedIff(doc);
      if !("spec" in doc && doc["spec"].Map?) {
        return false, [];
      }
      var spec := doc["spec"].fields;
      var ofHead := ScanHead(spec);
      var ofWorkers := ScanWorkers(ListAt(spec, "workerGroupSpecs"));
      components := ofHead + ofWorkers;
      has := components != [];
    }
  }
}
