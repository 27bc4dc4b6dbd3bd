/** What the detector of TLS/OAuth components reports, and for which documents it and the rewrite
    agree that there is nothing to do. */
module DetectorTheorems {
  import opened Sequences
  import opened Json
  import opened RayRewrite
  import opened ProcessTheorems
  import opened Paths

  // ---- What is detected ----

  /** Neither a sidecar nor a container with one of the TLS variables. */
  predicate PlainContainer(c: Value) {
    && NameOf(c) !in CONTAINERS_TO_REMOVE
    && forall e :: e in ListAt(AsObject(c), "env") ==> NameOf(e) !in TLS_ENV_VARS
  }

  predicate PlainPodSpec(p: Object) {
    && (forall c :: c in ListAt(p, "containers") ==> PlainContainer(c))
    && (forall c :: c in ListAt(p, "initContainers") ==> NameOf(c) !in CODEFLARE_INIT_CONTAINERS)
    && (forall v :: v in ListAt(p, "volumes") ==> NameOf(v) !in VOLUMES_TO_REMOVE)
  }

  function PodSpecOf(g: Object): Object { MapAt(MapAt(g, "template"), "spec") }

  predicate PlainHead(head: Object) { !GetBool(head, "enableIngress") && PlainPodSpec(PodSpecOf(head)) }

  /** No container, variable, init container or volume of the tables in the head or in a worker
      group, and no ingress. */
  predicate PlainSpec(spec: Object) {
    && PlainHead(MapAt(spec, "headGroupSpec"))
    && forall w :: w in ListAt(spec, "workerGroupSpecs") ==> PlainPodSpec(PodSpecOf(AsObject(w)))
  }

  predicate Plain(rc: Object) { PlainSpec(MapAt(rc, "spec")) }

  lemma {:induction false} TlsEnvFoundIff(envs: seq<Value>, group: Group)
    ensures FirstTlsEnv(envs, group) == [] <==> forall e :: e in envs ==> KeepEnv(e)
  {
    if envs != [] {
      assert envs[0] in envs;
      TlsEnvFoundIff(envs[1..], group);
    }
  }

  lemma {:induction false} ContainerFoundIff(cs: seq<Value>, group: Group)
    ensures CheckContainers(cs, group) == [] <==> forall c :: c in cs ==> PlainContainer(c)
  {
    if cs != [] {
      assert cs[0] in cs;
      TlsEnvFoundIff(ListAt(AsObject(cs[0]), "env"), group);
      ContainerFoundIff(cs[1..], group);
    }
  }

  lemma {:induction false} InitFoundIff(cs: seq<Value>, group: Group)
    ensures CheckInits(cs, group) == [] <==> forall c :: c in cs ==> KeepInit(c)
  {
    if cs != [] {
      assert cs[0] in cs;
      InitFoundIff(cs[1..], group);
    }
  }

  lemma {:induction false} VolumeFoundIff(vs: seq<Value>, group: Group)
    ensures CheckVolumes(vs, group) == [] <==> forall v :: v in vs ==> KeepVolume(v)
  {
    if vs != [] {
      assert vs[0] in vs;
      VolumeFoundIff(vs[1..], group);
    }
  }

  lemma PodSpecFoundIff(p: Object, group: Group)
    ensures CheckPodSpec(p, group) == [] <==> PlainPodSpec(p)
  {
    ContainerFoundIff(ListAt(p, "containers"), group);
    InitFoundIff(ListAt(p, "initContainers"), group);
    VolumeFoundIff(ListAt(p, "volumes"), group);
  }

  lemma GroupFoundIff(g: Object, group: Group)
    ensures CheckGroup(g, group) == [] <==> PlainPodSpec(PodSpecOf(g))
  {
    PodSpecFoundIff(PodSpecOf(g), group);
  }

  lemma {:induction false} WorkerFoundIff(ws: seq<Value>, from: nat)
    ensures CheckWorkers(ws, from) == [] <==> forall w :: w in ws ==> PlainPodSpec(PodSpecOf(AsObject(w)))
  {
    if ws != [] {
      assert ws[0] in ws;
      GroupFoundIff(AsObject(ws[0]), Worker(from));
      WorkerFoundIff(ws[1..], from + 1);
    }
  }

  /** The detector reports something iff the document has something to remove of what it looks
      for: it misses none and invents none. */
  lemma DetectedIff(rc: Object)
    ensures TlsComponents(rc) == [] <==> Plain(rc)
  {
    var spec := MapAt(rc, "spec");
    GroupFoundIff(MapAt(spec, "headGroupSpec"), Head);
    WorkerFoundIff(ListAt(spec, "workerGroupSpecs"), 0);
  }

  // ---- What exactly is reported ----

  /** The first TLS variable of an environment is called `name`. */
  predicate IsFirstTls(envs: seq<Value>, name: string) {
    exists i :: 0 <= i < |envs| && NameOf(envs[i]) == name && name in TLS_ENV_VARS
                && forall j :: 0 <= j < i ==> NameOf(envs[j]) !in TLS_ENV_VARS
  }

  predicate AnyNamed(s: seq<Value>, name: string) { exists v :: v in s && NameOf(v) == name }

  /** A finding about the pod spec `p` of a group, with its reason. */
  predicate InPodSpec(p: Object, group: Group, f: Finding) {
    match f
    case IngressEnabled => false
    case SidecarContainer(g) =>
      g == group && exists n :: n in CONTAINERS_TO_REMOVE && AnyNamed(ListAt(p, "containers"), n)
    case TlsEnvVar(g, n) =>
      g == group && exists c :: c in ListAt(p, "containers") && IsFirstTls(ListAt(AsObject(c), "env"), n)
    case CertInitContainer(g, n) =>
      g == group && n in CODEFLARE_INIT_CONTAINERS && AnyNamed(ListAt(p, "initContainers"), n)
    case TlsVolume(g, n) => g == group && n in VOLUMES_TO_REMOVE && AnyNamed(ListAt(p, "volumes"), n)
  }

  lemma {:induction false} EnvReported(envs: seq<Value>, group: Group, f: Finding)
    ensures f in FirstTlsEnv(envs, group) <==> f.TlsEnvVar? && f.group == group && IsFirstTls(envs, f.name)
  {
    if envs != [] {
      EnvReported(envs[1..], group, f);
      if f.TlsEnvVar? {
        FirstTlsStep(envs, f.name);
      }
    }
  }

  lemma FirstTlsStep(envs: seq<Value>, name: string)
    requires envs != []
    ensures IsFirstTls(envs, name)
            <==> if NameOf(envs[0]) in TLS_ENV_VARS then NameOf(envs[0]) == name else IsFirstTls(envs[1..], name)
  {
    if NameOf(envs[0]) !in TLS_ENV_VARS {
      if IsFirstTls(envs, name) {
        var i :| 0 <= i < |envs| && NameOf(envs[i]) == name && name in TLS_ENV_VARS
                 && forall j :: 0 <= j < i ==> NameOf(envs[j]) !in TLS_ENV_VARS;
        assert envs[1..][i - 1] == envs[i];
        assert forall j :: 0 <= j < i - 1 ==> envs[1..][j] == envs[j + 1];
      }
      if IsFirstTls(envs[1..], name) {
        var i :| 0 <= i < |envs[1..]| && NameOf(envs[1..][i]) == name && name in TLS_ENV_VARS
                 && forall j :: 0 <= j < i ==> NameOf(envs[1..][j]) !in TLS_ENV_VARS;
        assert envs[i + 1] == envs[1..][i];
        assert forall j :: 0 < j < i + 1 ==> envs[j] == envs[1..][j - 1];
      }
    }
  }

  lemma {:induction false} ContainersReported(cs: seq<Value>, group: Group, f: Finding)
    ensures f in CheckContainers(cs, group) <==>
              || (f == SidecarContainer(group) && exists c :: c in cs && NameOf(c) in CONTAINERS_TO_REMOVE)
              || (f.TlsEnvVar? && f.group == group
                  && exists c :: c in cs && IsFirstTls(ListAt(AsObject(c), "env"), f.name))
  {
    if cs != [] {
      EnvReported(ListAt(AsObject(cs[0]), "env"), group, f);
      ContainersReported(cs[1..], group, f);
      assert forall c :: c in cs <==> c == cs[0] || c in cs[1..];
    }
  }

  lemma {:induction false} InitsReported(cs: seq<Value>, group: Group, f: Finding)
    ensures f in CheckInits(cs, group) <==>
              f.CertInitContainer? && f.group == group && f.name in CODEFLARE_INIT_CONTAINERS && AnyNamed(cs, f.name)
  {
    if cs != [] {
      InitsReported(cs[1..], group, f);
      assert forall c :: c in cs <==> c == cs[0] || c in cs[1..];
    }
  }

  lemma {:induction false} VolumesReported(vs: seq<Value>, group: Group, f: Finding)
    ensures f in CheckVolumes(vs, group) <==>
              f.TlsVolume? && f.group == group && f.name in VOLUMES_TO_REMOVE && AnyNamed(vs, f.name)
  {
    if vs != [] {
      VolumesReported(vs[1..], group, f);
      assert forall v :: v in vs <==> v == vs[0] || v in vs[1..];
    }
  }

  lemma PodSpecReported(p: Object, group: Group, f: Finding)
    ensures f in CheckPodSpec(p, group) <==> InPodSpec(p, group, f)
  {
    var cs := ListAt(p, "containers");
    ContainersReported(cs, group, f);
    InitsReported(ListAt(p, "initContainers"), group, f);
    VolumesReported(ListAt(p, "volumes"), group, f);
    if c :| c in cs && NameOf(c) in CONTAINERS_TO_REMOVE {
      assert AnyNamed(cs, NameOf(c));
    }
  }

  lemma GroupReported(g: Object, group: Group, f: Finding)
    ensures f in CheckGroup(g, group) <==> InPodSpec(PodSpecOf(g), group, f)
  {
    PodSpecReported(PodSpecOf(g), group, f);
  }

  predicate InWorkerGroups(ws: seq<Value>, from: nat, f: Finding) {
    exists i :: 0 <= i < |ws| && InPodSpec(PodSpecOf(AsObject(ws[i])), Worker(from + i), f)
  }

  lemma {:induction false} WorkersReported(ws: seq<Value>, from: nat, f: Finding)
    ensures f in CheckWorkers(ws, from) <==> InWorkerGroups(ws, from, f)
  {
    if ws != [] {
      GroupReported(AsObject(ws[0]), Worker(from), f);
      WorkersReported(ws[1..], from + 1, f);
      if InWorkerGroups(ws, from, f) {
        var i :| 0 <= i < |ws| && InPodSpec(PodSpecOf(AsObject(ws[i])), Worker(from + i), f);
        if i > 0 {
          assert ws[1..][i - 1] == ws[i];
        }
      }
      if InWorkerGroups(ws[1..], from + 1, f) {
        var i :| 0 <= i < |ws[1..]| && InPodSpec(PodSpecOf(AsObject(ws[1..][i])), Worker(from + 1 + i), f);
        assert ws[i + 1] == ws[1..][i];
      }
      if InPodSpec(PodSpecOf(AsObject(ws[0])), Worker(from), f) {
        assert InPodSpec(PodSpecOf(AsObject(ws[0])), Worker(from + 0), f);
      }
    }
  }

  /** The report names exactly what there is, group by group: of a container's TLS variables the
      first one. */
  lemma ReportedIff(rc: Object, f: Finding)
    ensures var spec := MapAt(rc, "spec");
            f in TlsComponents(rc) <==>
              || (f == IngressEnabled && GetBool(MapAt(spec, "headGroupSpec"), "enableIngress"))
              || InPodSpec(PodSpecOf(MapAt(spec, "headGroupSpec")), Head, f)
              || InWorkerGroups(ListAt(spec, "workerGroupSpecs"), 0, f)
  {
    var spec := MapAt(rc, "spec");
    GroupReported(MapAt(spec, "headGroupSpec"), Head, f);
    WorkersReported(ListAt(spec, "workerGroupSpecs"), 0, f);
  }

  // ---- When a cluster counts as migrated ----

  /** The annotation is read off one path; the API shows none if another value is of a wrong type. */
  lemma AnnotatedIff(rc: Object)
    ensures IsAnnotated(rc) <==>
              && Walk(Map(rc), AnnotationPath(SECURE_NETWORK_ANNOTATION)) == At(Str("true"))
              && forall k: string :: IsText(Walk(Map(rc), AnnotationPath(k)))
  {
    var annotations := MapAt(MapAt(rc, "metadata"), "annotations");
    forall k: string
      ensures Walk(Map(rc), AnnotationPath(k)) == if k in annotations then At(annotations[k]) else Nothing
    {
      WalkThree(rc, "metadata", "annotations", k);
    }
    if forall k: string :: IsText(Walk(Map(rc), AnnotationPath(k))) {
      forall k | k in annotations ensures annotations[k].Str? || annotations[k].Null? {
        assert IsText(Walk(Map(rc), AnnotationPath(k)));
      }
    }
  }

  function AnnotationPath(k: string): seq<Edge> { [Key("metadata"), Key("annotations"), Key(k)] }

  predicate IsText(found: Found) { found.At? ==> found.v.Str? || found.v.Null? }

  /** The four verdicts, by annotation and by what there is to remove. */
  lemma StatusIff(rc: Object)
    ensures MigrationStatus(rc) ==
            if IsAnnotated(rc) then (if Plain(rc) then Migrated else PartiallyMigrated)
            else if Plain(rc) then NeedsAnnotationOnly else NeedsMigration
    ensures IsClusterMigrated(rc) <==> IsAnnotated(rc) && Plain(rc)
  {
    DetectedIff(rc);
  }

  // ---- When the rewrite has nothing to do ----

  /** What the rewrite tidies up in a container though the detector does not look for it. */
  predicate TidyContainer(c: Value) {
    c.Map? ==>
      && (forall m :: m in ListAt(c.fields, "volumeMounts") ==> NameOf(m) !in VOLUME_MOUNTS_TO_REMOVE)
      && ("volumeMounts" in c.fields ==> c.fields["volumeMounts"] != List([]))
      && ("env" in c.fields ==> c.fields["env"] != List([]))
  }

  predicate TidyPodSpec(p: Object) {
    && (forall c :: c in ListAt(p, "containers") ==> TidyContainer(c))
    && ("initContainers" in p ==> p["initContainers"] != List([]))
  }

  predicate TidyWorker(w: Value) { w.Map? && TidyPodSpec(PodSpecOf(w.fields)) }

  /** No container mounts a volume of the tables, none has an empty list of variables or mounts,
      no pod spec has an empty list of init containers, and worker groups are maps. */
  predicate Tidy(rc: Object) {
    var spec := MapAt(rc, "spec");
    && TidyPodSpec(PodSpecOf(MapAt(spec, "headGroupSpec")))
    && forall w :: w in ListAt(spec, "workerGroupSpecs") ==> TidyWorker(w)
  }

  lemma FilterKeepsAllIff(s: seq<Value>, keep: Value -> bool)
    ensures Filter(s, keep) == s <==> forall x :: x in s ==> keep(x)
  {
    if forall x :: x in s ==> keep(x) {
      FilterAll(s, keep);
    }
  }

  lemma DeleteOrKeepIff(m: Object, key: string, f: seq<Value> -> seq<Value>)
    requires f([]) == []
    ensures UpdateListOrDelete(m, key, f) == m
            <==> f(ListAt(m, key)) == ListAt(m, key) && (key in m ==> m[key] != List([]))
  {
    ListRewritten(m, key, f);
  }

  lemma UpdateMapKeepsIff(m: Object, key: string, f: Object -> Object)
    ensures UpdateMap(m, key, f) == m <==> (key in m && m[key].Map? ==> f(m[key].fields) == m[key].fields)
  {
  }

  /** A rewrite made of two rewrites of different keys changes nothing iff neither does. */
  lemma TwoKeysKeepIff(m: Object, mid: Object, r: Object, key: string, other: string)
    requires mid - {key} == m - {key} && r - {other} == mid - {other} && key != other
    ensures r == m <==> mid == m && r == mid
  {
    if r == m {
      forall k
        ensures k in mid <==> k in m
        ensures k in m ==> mid[k] == m[k]
      {
        if k != key {
          SameOutside(m, mid, key, k);
        } else {
          SameOutside(mid, r, other, k);
        }
      }
      assert mid == m;
    }
  }

  lemma ContainerKeptIff(c: Object)
    ensures CleanContainer(c) == c
            <==> (forall e :: e in ListAt(c, "env") ==> KeepEnv(e)) && TidyContainer(Map(c))
  {
    var mid := UpdateListOrDelete(c, "env", KeptEnvs);
    var r := UpdateListOrDelete(mid, "volumeMounts", KeptMounts);
    ListRewritten(c, "env", KeptEnvs);
    ListRewritten(mid, "volumeMounts", KeptMounts);
    TwoKeysKeepIff(c, mid, r, "env", "volumeMounts");
    DeleteOrKeepIff(c, "env", KeptEnvs);
    DeleteOrKeepIff(mid, "volumeMounts", KeptMounts);
    FilterKeepsAllIff(ListAt(c, "env"), KeepEnv);
    FilterKeepsAllIff(ListAt(c, "volumeMounts"), KeepMount);
  }

  lemma ContainersKeptIff(cs: seq<Value>)
    ensures KeptContainers(cs) == cs <==> forall c :: c in cs ==> PlainContainer(c) && TidyContainer(c)
  {
    FilterKeepsAllIff(cs, KeepContainer);
    forall c
      ensures CleanContainerValue(c) == c
              <==> (forall e :: e in ListAt(AsObject(c), "env") ==> KeepEnv(e)) && TidyContainer(c)
    {
      if c.Map? {
        ContainerKeptIff(c.fields);
      }
    }
    if KeptContainers(cs) == cs {
      KeptContainersSettles(cs);
      forall c | c in cs
        ensures PlainContainer(c) && TidyContainer(c)
      {
        var i :| 0 <= i < |cs| && cs[i] == c;
        assert MapSeq(cs, CleanContainerValue)[i] == c;
      }
    }
    if forall c :: c in cs ==> PlainContainer(c) && TidyContainer(c) {
      assert forall i :: 0 <= i < |cs| ==> cs[i] in cs;
      assert MapSeq(cs, CleanContainerValue) == cs;
    }
  }

  lemma PodSpecKeptIff(p: Object)
    ensures CleanPodSpec(p) == p <==> PlainPodSpec(p) && TidyPodSpec(p)
  {
    var cs, inits, volumes := ListAt(p, "containers"), ListAt(p, "initContainers"), ListAt(p, "volumes");
    ContainersKeptIff(cs);
    FilterKeepsAllIff(inits, KeepInit);
    FilterKeepsAllIff(volumes, KeepVolume);
    PodSpecLists(p);
    if PlainPodSpec(p) && TidyPodSpec(p) {
      ListSettled(p, "containers", KeptContainers);
      ListSettled(p, "initContainers", KeptInits);
      ListSettled(p, "volumes", KeptVolumes);
      assert !HasSidecar(p);
    }
  }

  lemma GroupKeptIff(g: Object)
    ensures CleanGroup(g) == g <==> PlainPodSpec(PodSpecOf(g)) && TidyPodSpec(PodSpecOf(g))
  {
    UpdateMapKeepsIff(g, "template", CleanTemplate);
    UpdateMapKeepsIff(MapAt(g, "template"), "spec", CleanPodSpec);
    PodSpecKeptIff(PodSpecOf(g));
  }

  lemma HeadKeptIff(head: Object)
    ensures ProcessHead(head) == head <==> PlainHead(head) && TidyPodSpec(PodSpecOf(head))
  {
    if GetBool(head, "enableIngress") {
      assert ProcessHead(head)["enableIngress"] == Bool(false);
    } else {
      GroupKeptIff(head);
    }
  }

  predicate WorkerKept(w: Value) { TidyWorker(w) && PlainPodSpec(PodSpecOf(AsObject(w))) }

  lemma WorkersKeptIff(ws: seq<Value>)
    ensures ProcessWorkers(ws) == ws <==> forall w :: w in ws ==> WorkerKept(w)
  {
    forall w
      ensures ProcessWorker(w) == w <==> WorkerKept(w)
    {
      GroupKeptIff(AsObject(w));
    }
    if ProcessWorkers(ws) == ws {
      forall w | w in ws
        ensures WorkerKept(w)
      {
        var i :| 0 <= i < |ws| && ws[i] == w;
        assert ProcessWorkers(ws)[i] == ProcessWorker(w);
      }
    }
    if forall w :: w in ws ==> WorkerKept(w) {
      assert forall i :: 0 <= i < |ws| ==> ws[i] in ws;
      assert ProcessWorkers(ws) == ws;
    }
  }

  lemma SpecKeptIff(spec: Object)
    ensures ProcessSpec(spec) == spec
            <==> && PlainHead(MapAt(spec, "headGroupSpec")) && TidyPodSpec(PodSpecOf(MapAt(spec, "headGroupSpec")))
                 && forall w :: w in ListAt(spec, "workerGroupSpecs") ==> WorkerKept(w)
  {
    var mid := UpdateMap(spec, "headGroupSpec", ProcessHead);
    var r := UpdateList(mid, "workerGroupSpecs", ProcessWorkers);
    assert mid - {"headGroupSpec"} == spec - {"headGroupSpec"};
    ListRewritten(mid, "workerGroupSpecs", ProcessWorkers);
    TwoKeysKeepIff(spec, mid, r, "headGroupSpec", "workerGroupSpecs");
    UpdateMapKeepsIff(spec, "headGroupSpec", ProcessHead);
    HeadKeptIff(MapAt(spec, "headGroupSpec"));
    WorkersKeptIff(ListAt(mid, "workerGroupSpecs"));
    ListSettledIff(mid, "workerGroupSpecs", ProcessWorkers);
  }

  lemma ListSettledIff(m: Object, key: string, f: seq<Value> -> seq<Value>)
    requires f([]) == []
    ensures UpdateList(m, key, f) == m <==> f(ListAt(m, key)) == ListAt(m, key)
  {
  }

  /** The rewrite leaves a document as it is iff the detector finds nothing and the document is
      tidy: an empty report alone does not say that there is nothing to do. */
  lemma NothingToDoIff(rc: Object)
    ensures Process(rc) == rc <==> TlsComponents(rc) == [] && Tidy(rc)
  {
    DetectedIff(rc);
    UpdateMapKeepsIff(rc, "spec", ProcessSpec);
    SpecKeptIff(MapAt(rc, "spec"));
  }

  /** A cluster that counts as migrated is skipped; the rewrite would change it iff it is untidy. */
  lemma SkippedUnchangedIff(rc: Object)
    requires IsClusterMigrated(rc)
    ensures Process(rc) == rc <==> Tidy(rc)
  {
    NothingToDoIff(rc);
  }

  /** An annotated cluster with nothing but a head with this pod spec. */
  function AnnotatedCluster(pod: Object): Object {
    map["metadata" := Map(map["annotations" := Map(map[SECURE_NETWORK_ANNOTATION := Str("true")])]),
        "spec" := Map(map["headGroupSpec" := Map(HeadWith(pod))])]
  }

  function HeadWith(pod: Object): Object { map["template" := Map(map["spec" := Map(pod)])] }

  lemma HeadOfCluster(pod: Object)
    ensures MapAt(MapAt(AnnotatedCluster(pod), "spec"), "headGroupSpec") == HeadWith(pod)
    ensures ListAt(MapAt(AnnotatedCluster(pod), "spec"), "workerGroupSpecs") == []
    ensures PodSpecOf(HeadWith(pod)) == pod
  {
    var template := map["spec" := Map(pod)];
    assert MapAt(HeadWith(pod), "template") == template && MapAt(template, "spec") == pod;
  }

  lemma AnnotatedClusterIsAnnotated(pod: Object)
    ensures IsAnnotated(AnnotatedCluster(pod))
  {
    var ann := map[SECURE_NETWORK_ANNOTATION := Str("true")];
    assert AnnotatedCluster(pod)["metadata"] == Map(map["annotations" := Map(ann)]);
  }

  const MOUNT := Map(map["name" := Str("ca-vol")])
  const HEAD_CONTAINER := Map(map["name" := Str("ray-head"), "volumeMounts" := List([MOUNT])])
  const UNTIDY_POD: Object := map["containers" := List([HEAD_CONTAINER])]

  lemma UntidyPodSpec()
    ensures PlainPodSpec(UNTIDY_POD) && !TidyPodSpec(UNTIDY_POD)
  {
    assert NameOf(MOUNT) == "ca-vol" && NameOf(HEAD_CONTAINER) == "ray-head";
    assert MOUNT in ListAt(HEAD_CONTAINER.fields, "volumeMounts");
    assert PlainContainer(HEAD_CONTAINER) && !TidyContainer(HEAD_CONTAINER);
    assert HEAD_CONTAINER in ListAt(UNTIDY_POD, "containers");
  }

  /** A cluster that is skipped though its head still mounts a volume of the tables. */
  lemma SkippedUntidyExample()
    ensures IsClusterMigrated(AnnotatedCluster(UNTIDY_POD))
    ensures Process(AnnotatedCluster(UNTIDY_POD)) != AnnotatedCluster(UNTIDY_POD)
  {
    UntidyPodSpec();
    HeadOfCluster(UNTIDY_POD);
    AnnotatedClusterIsAnnotated(UNTIDY_POD);
    DetectedIff(AnnotatedCluster(UNTIDY_POD));
    SkippedUnchangedIff(AnnotatedCluster(UNTIDY_POD));
  }
}
