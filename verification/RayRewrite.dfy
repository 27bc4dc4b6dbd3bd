/** The two rewrites that the RayCluster migration applies to a cluster document, and the
    independent detector of TLS/OAuth components, as functions on document trees. */
module RayRewrite {
  import opened Sequences
  import opened Json

  const SECURE_NETWORK_ANNOTATION := "odh.ray.io/secure-trusted-network"

  const TLS_ENV_VARS: set<string> :=
    {"RAY_USE_TLS", "RAY_TLS_SERVER_CERT", "RAY_TLS_SERVER_KEY", "RAY_TLS_CA_CERT"}

  const VOLUMES_TO_REMOVE: set<string> := {"ca-vol", "proxy-tls-secret", "server-cert"}

  const VOLUME_MOUNTS_TO_REMOVE: set<string> := {"ca-vol", "server-cert"}

  const CONTAINERS_TO_REMOVE: set<string> := {"oauth-proxy"}

  const CODEFLARE_INIT_CONTAINERS: set<string> := {"create-cert"}

  const AUTOGENERATED_FIELDS: set<string> :=
    {"creationTimestamp", "resourceVersion", "uid", "selfLink", "managedFields", "finalizers",
     "generation", "status", "workload.codeflare.dev/user", "workload.codeflare.dev/userid",
     "podSetInfos"}

  // ---- RemoveAutogeneratedFields ----

  /** The document with every autogenerated key deleted. Maps are descended, and so are the
      maps that sit directly in a list; a list inside a list is kept as it is. */
  function StripValue(v: Value): Value {
    match v
    case Map(fields) =>
      Map(map k | k in fields && k !in AUTOGENERATED_FIELDS :: StripValue(fields[k]))
    case List(items) =>
      List(seq(|items|, i requires 0 <= i < |items| => if items[i].Map? then StripValue(items[i]) else items[i]))
    case _ => v
  }

  function Strip(m: Object): Object {
    StripValue(Map(m)).fields
  }

  /** What stripping does to one list entry. */
  function StripItem(v: Value): Value {
    if v.Map? then StripValue(v) else v
  }

  // ---- ProcessRayClusterYAML ----

  predicate KeepEnv(v: Value) { NameOf(v) !in TLS_ENV_VARS }

  predicate KeepMount(v: Value) { NameOf(v) !in VOLUME_MOUNTS_TO_REMOVE }

  predicate KeepContainer(v: Value) { NameOf(v) !in CONTAINERS_TO_REMOVE }

  predicate KeepInit(v: Value) { NameOf(v) !in CODEFLARE_INIT_CONTAINERS }

  predicate KeepVolume(v: Value) { NameOf(v) !in VOLUMES_TO_REMOVE }

  function KeptEnvs(s: seq<Value>): seq<Value> { Filter(s, KeepEnv) }

  function KeptMounts(s: seq<Value>): seq<Value> { Filter(s, KeepMount) }

  function KeptInits(s: seq<Value>): seq<Value> { Filter(s, KeepInit) }

  function KeptVolumes(s: seq<Value>): seq<Value> { Filter(s, KeepVolume) }

  function CleanContainer(c: Object): Object {
    UpdateListOrDelete(UpdateListOrDelete(c, "env", KeptEnvs), "volumeMounts", KeptMounts)
  }

  function CleanContainerValue(v: Value): Value {
    if v.Map? then Map(CleanContainer(v.fields)) else v
  }

  function KeptContainers(s: seq<Value>): seq<Value> {
    MapSeq(Filter(s, KeepContainer), CleanContainerValue)
  }

  /** Some entry of `containers` is an oauth-proxy sidecar. */
  predicate HasSidecar(p: Object) {
    "containers" in p && p["containers"].List?
    && exists c :: c in p["containers"].items && !KeepContainer(c)
  }

  function CleanPodSpec(p: Object): Object {
    var withoutSidecars := UpdateList(p, "containers", KeptContainers);
    var withoutInits := UpdateListOrDelete(withoutSidecars, "initContainers", KeptInits);
    var withAccount := if HasSidecar(p) then withoutInits - {"serviceAccountName"} else withoutInits;
    UpdateList(withAccount, "volumes", KeptVolumes)
  }

  function CleanTemplate(t: Object): Object { UpdateMap(t, "spec", CleanPodSpec) }

  function CleanGroup(g: Object): Object { UpdateMap(g, "template", CleanTemplate) }

  function ProcessHead(head: Object): Object {
    CleanGroup(if GetBool(head, "enableIngress") then head["enableIngress" := Bool(false)] else head)
  }

  /** An entry of `workerGroupSpecs` that is not a map is replaced by an empty one. */
  function ProcessWorker(w: Value): Value { Map(CleanGroup(AsObject(w))) }

  function ProcessWorkers(s: seq<Value>): seq<Value> { MapSeq(s, ProcessWorker) }

  function ProcessSpec(spec: Object): Object {
    UpdateList(UpdateMap(spec, "headGroupSpec", ProcessHead), "workerGroupSpecs", ProcessWorkers)
  }

  function Process(rc: Object): Object { UpdateMap(rc, "spec", ProcessSpec) }

  // ---- HasTLSOAuthComponents ----

  datatype Group = Head | Worker(index: nat)

  datatype Finding =
    | IngressEnabled
    | SidecarContainer(group: Group)
    | TlsEnvVar(group: Group, name: string)
    | CertInitContainer(group: Group, name: string)
    | TlsVolume(group: Group, name: string)

  function ListAt(m: Object, key: string): seq<Value> {
    if key in m && m[key].List? then m[key].items else []
  }

  /** The first TLS variable of a container's environment; the scan stops there. */
  function FirstTlsEnv(envs: seq<Value>, group: Group): seq<Finding> {
    if envs == [] then []
    else if !KeepEnv(envs[0]) then [TlsEnvVar(group, NameOf(envs[0]))]
    else FirstTlsEnv(envs[1..], group)
  }

  function CheckContainers(cs: seq<Value>, group: Group): seq<Finding> {
    if cs == [] then []
    else
      (if KeepContainer(cs[0]) then [] else [SidecarContainer(group)])
      + FirstTlsEnv(ListAt(AsObject(cs[0]), "env"), group)
      + CheckContainers(cs[1..], group)
  }

  function CheckInits(cs: seq<Value>, group: Group): seq<Finding> {
    if cs == [] then []
    else (if KeepInit(cs[0]) then [] else [CertInitContainer(group, NameOf(cs[0]))]) + CheckInits(cs[1..], group)
  }

  function CheckVolumes(vs: seq<Value>, group: Group): seq<Finding> {
    if vs == [] then []
    else (if KeepVolume(vs[0]) then [] else [TlsVolume(group, NameOf(vs[0]))]) + CheckVolumes(vs[1..], group)
  }

  function CheckPodSpec(p: Object, group: Group): seq<Finding> {
    CheckContainers(ListAt(p, "containers"), group)
    + CheckInits(ListAt(p, "initContainers"), group)
    + CheckVolumes(ListAt(p, "volumes"), group)
  }

  function CheckGroup(g: Object, group: Group): seq<Finding> {
    if "template" in g && g["template"].Map? then
      var t := g["template"].fields;
      if "spec" in t && t["spec"].Map? then CheckPodSpec(t["spec"].fields, group) else []
    else []
  }

  function CheckWorkers(ws: seq<Value>, from: nat): seq<Finding> {
    if ws == [] then []
    else CheckGroup(AsObject(ws[0]), Worker(from)) + CheckWorkers(ws[1..], from + 1)
  }

  function CheckHead(spec: Object): seq<Finding> {
    if "headGroupSpec" in spec && spec["headGroupSpec"].Map? then
      var head := spec["headGroupSpec"].fields;
      (if GetBool(head, "enableIngress") then [IngressEnabled] else []) + CheckGroup(head, Head)
    else []
  }

  /** The TLS/OAuth components of a document; the detector answers yes when there is one. */
  function TlsComponents(rc: Object): seq<Finding> {
    if "spec" in rc && rc["spec"].Map? then
      CheckHead(rc["spec"].fields) + CheckWorkers(ListAt(rc["spec"].fields, "workerGroupSpecs"), 0)
    else []
  }

  // ---- IsClusterMigrated ----

  datatype Status = Migrated | PartiallyMigrated | NeedsAnnotationOnly | NeedsMigration

  /** `GetAnnotations` answers with no annotation at all when one of the values is neither
      a string nor null. */
  predicate IsAnnotated(rc: Object) {
    "metadata" in rc && rc["metadata"].Map? &&
    var meta := rc["metadata"].fields;
    "annotations" in meta && meta["annotations"].Map? &&
    var ann := meta["annotations"].fields;
    (forall k :: k in ann ==> ann[k].Str? || ann[k].Null?)
    && GetString(ann, SECURE_NETWORK_ANNOTATION) == "true"
  }

  function MigrationStatus(rc: Object): Status {
    var hasTls := TlsComponents(rc) != [];
    if IsAnnotated(rc) then (if hasTls then PartiallyMigrated else Migrated)
    else if hasTls then NeedsMigration else NeedsAnnotationOnly
  }

  predicate IsClusterMigrated(rc: Object) { MigrationStatus(rc).Migrated? }
}
