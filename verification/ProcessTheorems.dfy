/** What removing the TLS/OAuth components does to a document: completeness against the
    detector, idempotence, and independence from stripping the autogenerated fields. */
module ProcessTheorems {
  import opened Sequences
  import opened Json
  import opened RayRewrite
  import opened StripTheorems

  const POD_SPEC_KEYS: set<string> := {"containers", "initContainers", "volumes", "serviceAccountName"}

  // ---- Settled lists: what the rewrites leave behind ----

  /** A list rewrite touches no other key and leaves the rewritten list, if any. */
  lemma ListRewritten(m: Object, key: string, f: seq<Value> -> seq<Value>)
    requires f([]) == []
    ensures ListAt(UpdateList(m, key, f), key) == f(ListAt(m, key))
    ensures ListAt(UpdateListOrDelete(m, key, f), key) == f(ListAt(m, key))
    ensures UpdateList(m, key, f) - {key} == m - {key}
    ensures UpdateListOrDelete(m, key, f) - {key} == m - {key}
  {
    assert UpdateListOrDelete(m, key, f) - {key} == m - {key};
  }

  /** A list rewrite does nothing to a list that it would keep as it is. */
  lemma ListSettled(m: Object, key: string, f: seq<Value> -> seq<Value>)
    requires f(ListAt(m, key)) == ListAt(m, key)
    ensures UpdateList(m, key, f) == m
    ensures (key in m ==> m[key] != List([])) ==> UpdateListOrDelete(m, key, f) == m
  {
  }

  lemma SameOutside(m: Object, r: Object, key: string, k: string)
    requires r - {key} == m - {key} && k != key
    ensures k in r <==> k in m
    ensures k in r ==> r[k] == m[k]
  {
    assert k in r - {key} <==> k in r;
    assert k in m - {key} <==> k in m;
    assert k in m ==> (m - {key})[k] == m[k];
    assert k in r ==> (r - {key})[k] == r[k];
  }

  lemma CleanContainerSettles(c: Object)
    ensures var r := CleanContainer(c);
            && ListAt(r, "env") == KeptEnvs(ListAt(c, "env"))
            && ListAt(r, "volumeMounts") == KeptMounts(ListAt(c, "volumeMounts"))
            && CleanContainer(r) == r
            && GetString(r, "name") == GetString(c, "name")
  {
    var mid := UpdateListOrDelete(c, "env", KeptEnvs);
    var r := UpdateListOrDelete(mid, "volumeMounts", KeptMounts);
    ListRewritten(c, "env", KeptEnvs);
    ListRewritten(mid, "volumeMounts", KeptMounts);
    SameOutside(c, mid, "env", "volumeMounts");
    SameOutside(c, mid, "env", "name");
    SameOutside(mid, r, "volumeMounts", "env");
    SameOutside(mid, r, "volumeMounts", "name");
    FilterAll(KeptEnvs(ListAt(c, "env")), KeepEnv);
    FilterAll(KeptMounts(ListAt(c, "volumeMounts")), KeepMount);
    ListSettled(r, "env", KeptEnvs);
    ListSettled(r, "volumeMounts", KeptMounts);
  }

  lemma KeptContainersSettles(s: seq<Value>)
    ensures KeptContainers(KeptContainers(s)) == KeptContainers(s)
    ensures forall c :: c in KeptContainers(s) ==> KeepContainer(c)
  {
    var r := KeptContainers(s);
    forall i | 0 <= i < |r|
      ensures KeepContainer(r[i]) && CleanContainerValue(r[i]) == r[i]
    {
      var c := Filter(s, KeepContainer)[i];
      assert c in Filter(s, KeepContainer);
      CleanContainerSettles(AsObject(c));
    }
    FilterAll(r, KeepContainer);
    assert MapSeq(r, CleanContainerValue) == r;
  }

  lemma CleanPodSpecSettles(p: Object)
    ensures var r := CleanPodSpec(p);
            && ListAt(r, "containers") == KeptContainers(ListAt(p, "containers"))
            && ListAt(r, "initContainers") == KeptInits(ListAt(p, "initContainers"))
            && ListAt(r, "volumes") == KeptVolumes(ListAt(p, "volumes"))
            && CleanPodSpec(r) == r
  {
    var containers, inits, volumes := ListAt(p, "containers"), ListAt(p, "initContainers"), ListAt(p, "volumes");
    PodSpecLists(p);
    var r := CleanPodSpec(p);
    KeptContainersSettles(containers);
    FilterAll(KeptInits(inits), KeepInit);
    FilterAll(KeptVolumes(volumes), KeepVolume);
    ListSettled(r, "containers", KeptContainers);
    ListSettled(r, "initContainers", KeptInits);
    ListSettled(r, "volumes", KeptVolumes);
    assert !HasSidecar(r);
  }

  /** The rewrite of a pod spec touches four keys: three lists, and the service account,
      which goes iff a sidecar went from this very pod spec. */
  lemma PodSpecLists(p: Object)
    ensures var r := CleanPodSpec(p);
            && ListAt(r, "containers") == KeptContainers(ListAt(p, "containers"))
            && ListAt(r, "initContainers") == KeptInits(ListAt(p, "initContainers"))
            && ListAt(r, "volumes") == KeptVolumes(ListAt(p, "volumes"))
            && ("initContainers" in r ==> r["initContainers"] != List([]))
            && ("serviceAccountName" in r <==> "serviceAccountName" in p && !HasSidecar(p))
            && ("serviceAccountName" in r ==> r["serviceAccountName"] == p["serviceAccountName"])
    ensures forall k :: k !in POD_SPEC_KEYS ==>
              (k in CleanPodSpec(p) <==> k in p) && (k in p ==> CleanPodSpec(p)[k] == p[k])
  {
    var p1 := UpdateList(p, "containers", KeptContainers);
    var p2 := UpdateListOrDelete(p1, "initContainers", KeptInits);
    var p3 := if HasSidecar(p) then p2 - {"serviceAccountName"} else p2;
    var r := UpdateList(p3, "volumes", KeptVolumes);
    ListRewritten(p, "containers", KeptContainers);
    ListRewritten(p1, "initContainers", KeptInits);
    ListRewritten(p3, "volumes", KeptVolumes);
    forall k: string
      ensures k != "containers" ==> (k in p1 <==> k in p) && (k in p ==> p1[k] == p[k])
      ensures k != "initContainers" ==> (k in p2 <==> k in p1) && (k in p1 ==> p2[k] == p1[k])
      ensures k != "serviceAccountName" ==> (k in p3 <==> k in p2) && (k in p2 ==> p3[k] == p2[k])
      ensures k != "volumes" ==> (k in r <==> k in p3) && (k in p3 ==> r[k] == p3[k])
    {
      if k != "containers" { SameOutside(p, p1, "containers", k); }
      if k != "initContainers" { SameOutside(p1, p2, "initContainers", k); }
      if k != "volumes" { SameOutside(p3, r, "volumes", k); }
    }
  }

  // ---- Completeness: the detector finds nothing after the rewrite ----

  lemma {:induction false} NoTlsEnvFound(envs: seq<Value>, group: Group)
    requires forall e :: e in envs ==> KeepEnv(e)
    ensures FirstTlsEnv(envs, group) == []
  {
    if envs != [] {
      NoTlsEnvFound(envs[1..], group);
    }
  }

  lemma {:induction false} NoContainerFound(cs: seq<Value>, group: Group)
    requires forall c :: c in cs ==> KeepContainer(c) && forall e :: e in ListAt(AsObject(c), "env") ==> KeepEnv(e)
    ensures CheckContainers(cs, group) == []
  {
    if cs != [] {
      assert cs[0] in cs;
      NoTlsEnvFound(ListAt(AsObject(cs[0]), "env"), group);
      NoContainerFound(cs[1..], group);
    }
  }

  lemma {:induction false} NoInitFound(cs: seq<Value>, group: Group)
    requires forall c :: c in cs ==> KeepInit(c)
    ensures CheckInits(cs, group) == []
  {
    if cs != [] {
      NoInitFound(cs[1..], group);
    }
  }

  lemma {:induction false} NoVolumeFound(vs: seq<Value>, group: Group)
    requires forall v :: v in vs ==> KeepVolume(v)
    ensures CheckVolumes(vs, group) == []
  {
    if vs != [] {
      NoVolumeFound(vs[1..], group);
    }
  }

  lemma CleanPodSpecPassesCheck(p: Object, group: Group)
    ensures CheckPodSpec(CleanPodSpec(p), group) == []
  {
    CleanPodSpecSettles(p);
    var cs := ListAt(p, "containers");
    forall c | c in KeptContainers(cs)
      ensures KeepContainer(c) && forall e :: e in ListAt(AsObject(c), "env") ==> KeepEnv(e)
    {
      KeptContainersSettles(cs);
      var i :| 0 <= i < |KeptContainers(cs)| && KeptContainers(cs)[i] == c;
      CleanContainerSettles(AsObject(Filter(cs, KeepContainer)[i]));
    }
    NoContainerFound(KeptContainers(cs), group);
    NoInitFound(KeptInits(ListAt(p, "initContainers")), group);
    NoVolumeFound(KeptVolumes(ListAt(p, "volumes")), group);
  }

  lemma CleanGroupPassesCheck(g: Object, group: Group)
    ensures CheckGroup(CleanGroup(g), group) == []
  {
    if "template" in g && g["template"].Map? {
      var t := g["template"].fields;
      if "spec" in t && t["spec"].Map? {
        CleanPodSpecPassesCheck(t["spec"].fields, group);
      }
    }
  }

  lemma {:induction false} ProcessedWorkersPassCheck(ws: seq<Value>, from: nat)
    ensures CheckWorkers(ProcessWorkers(ws), from) == []
  {
    if ws != [] {
      CleanGroupPassesCheck(AsObject(ws[0]), Worker(from));
      ProcessedWorkersPassCheck(ws[1..], from + 1);
      assert ProcessWorkers(ws)[1..] == ProcessWorkers(ws[1..]);
    }
  }

  lemma ProcessedHeadPassesCheck(spec: Object)
    ensures CheckHead(ProcessSpec(spec)) == []
  {
    if "headGroupSpec" in spec && spec["headGroupSpec"].Map? {
      var head := spec["headGroupSpec"].fields;
      var quiet := if GetBool(head, "enableIngress") then head["enableIngress" := Bool(false)] else head;
      CleanGroupPassesCheck(quiet, Head);
      assert !GetBool(CleanGroup(quiet), "enableIngress");
    }
  }

  lemma ProcessIsComplete(rc: Object)
    ensures TlsComponents(Process(rc)) == []
  {
    if "spec" in rc && rc["spec"].Map? {
      var spec := rc["spec"].fields;
      ProcessedHeadPassesCheck(spec);
      ProcessedWorkersPassCheck(ListAt(spec, "workerGroupSpecs"), 0);
      assert ListAt(ProcessSpec(spec), "workerGroupSpecs") == ProcessWorkers(ListAt(spec, "workerGroupSpecs"));
    }
  }

  /** After the rewrite the only thing left to look at is the annotation, which the rewrite
      does not set: a rewritten cluster counts as migrated iff it was annotated before. */
  lemma MigratedAfterProcessIffAnnotated(rc: Object)
    ensures IsClusterMigrated(Process(rc)) <==> IsAnnotated(rc)
    ensures MigrationStatus(Process(rc)) == if IsAnnotated(rc) then Migrated else NeedsAnnotationOnly
  {
    ProcessIsComplete(rc);
  }

  // ---- Idempotence ----

  lemma CleanGroupIdempotent(g: Object)
    ensures CleanGroup(CleanGroup(g)) == CleanGroup(g)
  {
    if "template" in g && g["template"].Map? {
      var t := g["template"].fields;
      if "spec" in t && t["spec"].Map? {
        CleanPodSpecSettles(t["spec"].fields);
      }
      assert CleanTemplate(CleanTemplate(t)) == CleanTemplate(t);
    }
  }

  lemma ProcessHeadIdempotent(head: Object)
    ensures ProcessHead(ProcessHead(head)) == ProcessHead(head)
  {
    var quiet := if GetBool(head, "enableIngress") then head["enableIngress" := Bool(false)] else head;
    CleanGroupIdempotent(quiet);
    assert !GetBool(CleanGroup(quiet), "enableIngress");
  }

  lemma ProcessSpecIdempotent(spec: Object)
    ensures ProcessSpec(ProcessSpec(spec)) == ProcessSpec(spec)
  {
    var r := ProcessSpec(spec);
    if "headGroupSpec" in spec && spec["headGroupSpec"].Map? {
      ProcessHeadIdempotent(spec["headGroupSpec"].fields);
    }
    var ws := ListAt(spec, "workerGroupSpecs");
    forall i | 0 <= i < |ws|
      ensures ProcessWorker(ProcessWorker(ws[i])) == ProcessWorker(ws[i])
    {
      CleanGroupIdempotent(AsObject(ws[i]));
    }
    assert ProcessWorkers(ProcessWorkers(ws)) == ProcessWorkers(ws);
    assert UpdateMap(r, "headGroupSpec", ProcessHead) == r;
  }

  lemma ProcessIdempotent(rc: Object)
    ensures Process(Process(rc)) == Process(rc)
  {
    if "spec" in rc && rc["spec"].Map? {
      ProcessSpecIdempotent(rc["spec"].fields);
    }
  }
}
