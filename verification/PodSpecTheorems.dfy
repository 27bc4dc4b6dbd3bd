/** What the rewrite keeps of a pod spec, position by position, and when the mounts it keeps
    still name a volume it keeps. */
module PodSpecTheorems {
  import opened Sequences
  import opened Json
  import opened RayRewrite
  import opened ProcessTheorems

  // ---- Frame ----

  /** Every list that is rewritten becomes the order-preserving sublist of exactly the
      positions whose name is not on the removal table; containers are cleaned one by one. */
  lemma PodSpecListsAreSublists(p: Object)
    returns (keptContainers: seq<Value>, cs: seq<nat>, inits: seq<nat>, vols: seq<nat>)
    ensures var r := CleanPodSpec(p);
            && PicksOut(keptContainers, cs, ListAt(p, "containers"), KeepContainer)
            && |ListAt(r, "containers")| == |keptContainers|
            && (forall j :: 0 <= j < |keptContainers| ==>
                  ListAt(r, "containers")[j]
                  == if keptContainers[j].Map? then Map(CleanContainer(keptContainers[j].fields))
                     else keptContainers[j])
            && PicksOut(ListAt(r, "initContainers"), inits, ListAt(p, "initContainers"), KeepInit)
            && PicksOut(ListAt(r, "volumes"), vols, ListAt(p, "volumes"), KeepVolume)
  {
    PodSpecLists(p);
    keptContainers := Filter(ListAt(p, "containers"), KeepContainer);
    cs := FilterPicksOut(ListAt(p, "containers"), KeepContainer);
    inits := FilterPicksOut(ListAt(p, "initContainers"), KeepInit);
    vols := FilterPicksOut(ListAt(p, "volumes"), KeepVolume);
  }

  /** Which of the four keys are there afterwards: the service account goes iff some container is
      called oauth-proxy, an emptied list of init containers goes with its key, and nothing that
      is not a list is touched. */
  lemma PodSpecKeys(p: Object)
    ensures var r := CleanPodSpec(p);
            && ("containers" in r <==> "containers" in p) && ("volumes" in r <==> "volumes" in p)
            && ("initContainers" in r <==>
                  "initContainers" in p
                  && (p["initContainers"].List? ==> exists c :: c in p["initContainers"].items && KeepInit(c)))
            && (forall k :: k in {"containers", "initContainers", "volumes"} && k in p && !p[k].List? ==>
                  k in r && r[k] == p[k])
            && ("serviceAccountName" in p ==>
                  ("serviceAccountName" !in r <==>
                     exists c :: c in ListAt(p, "containers") && NameOf(c) == "oauth-proxy"))
  {
    PodSpecLists(p);
    var p1 := UpdateList(p, "containers", KeptContainers);
    var p2 := UpdateListOrDelete(p1, "initContainers", KeptInits);
    ListRewritten(p, "containers", KeptContainers);
    ListRewritten(p1, "initContainers", KeptInits);
    assert forall c :: KeepContainer(c) <==> NameOf(c) != "oauth-proxy";
    if "initContainers" in p && p["initContainers"].List? {
      var kept := KeptInits(p["initContainers"].items);
      assert p1["initContainers"] == p["initContainers"];
      if kept != [] {
        assert kept[0] in kept;
      }
    }
  }

  /** A kept container changes in its `env` and `volumeMounts` alone, and there it keeps the
      sublist of exactly the other entries; an emptied list takes its key with it. */
  lemma ContainerFrame(c: Object) returns (envs: seq<nat>, mounts: seq<nat>)
    ensures var r := CleanContainer(c);
            && PicksOut(ListAt(r, "env"), envs, ListAt(c, "env"), KeepEnv)
            && PicksOut(ListAt(r, "volumeMounts"), mounts, ListAt(c, "volumeMounts"), KeepMount)
            && ("env" in r <==> "env" in c && (c["env"].List? ==> envs != []))
            && ("volumeMounts" in r <==> "volumeMounts" in c && (c["volumeMounts"].List? ==> mounts != []))
            && (forall k :: k in c && !c[k].List? ==> k in r && r[k] == c[k])
            && (forall k :: k !in {"env", "volumeMounts"} ==> (k in r <==> k in c) && (k in c ==> r[k] == c[k]))
  {
    CleanContainerSettles(c);
    envs := FilterPicksOut(ListAt(c, "env"), KeepEnv);
    mounts := FilterPicksOut(ListAt(c, "volumeMounts"), KeepMount);
    var mid := UpdateListOrDelete(c, "env", KeptEnvs);
    var r := CleanContainer(c);
    assert "volumeMounts" in mid <==> "volumeMounts" in c;
    assert "env" in r <==> "env" in mid;
    assert forall k :: k !in {"env", "volumeMounts"} ==> (k in mid <==> k in c) && (k in c ==> mid[k] == c[k]);
  }

  // ---- Referential integrity ----

  /** Some container that `keep` retains mounts `name`. */
  ghost predicate Mounts(p: Object, keep: Value -> bool, name: string) {
    exists c, m :: c in ListAt(p, "containers") && keep(c) && m in ListAt(AsObject(c), "volumeMounts")
        && NameOf(m) == name
  }

  predicate HasVolume(p: Object, name: string) {
    exists v :: v in ListAt(p, "volumes") && NameOf(v) == name
  }

  predicate AnyContainer(v: Value) { true }

  /** Every container mount names a volume of the pod spec. */
  ghost predicate MountsResolved(p: Object) {
    forall name :: Mounts(p, AnyContainer, name) ==> HasVolume(p, name)
  }

  /** The containers after the rewrite are the kept ones, with the kept mounts. */
  lemma KeptContainerMounts(cs: seq<Value>, i: nat)
    requires i < |Filter(cs, KeepContainer)|
    ensures var c := Filter(cs, KeepContainer)[i];
            && c in cs && KeepContainer(c)
            && KeptContainers(cs)[i] in KeptContainers(cs)
            && ListAt(AsObject(KeptContainers(cs)[i]), "volumeMounts")
                == KeptMounts(ListAt(AsObject(c), "volumeMounts"))
  {
    var c := Filter(cs, KeepContainer)[i];
    assert c in Filter(cs, KeepContainer);
    CleanContainerSettles(AsObject(c));
  }

  lemma KeptMountSurvives(p: Object, name: string)
    requires Mounts(p, KeepContainer, name) && name !in VOLUME_MOUNTS_TO_REMOVE
    ensures Mounts(CleanPodSpec(p), AnyContainer, name)
  {
    PodSpecLists(p);
    var cs := ListAt(p, "containers");
    var c, m :| c in cs && KeepContainer(c) && m in ListAt(AsObject(c), "volumeMounts") && NameOf(m) == name;
    var i :| 0 <= i < |Filter(cs, KeepContainer)| && Filter(cs, KeepContainer)[i] == c;
    KeptContainerMounts(cs, i);
    var r := KeptContainers(cs)[i];
    assert KeepMount(m);
    assert m in KeptMounts(ListAt(AsObject(c), "volumeMounts"));
    assert r in ListAt(CleanPodSpec(p), "containers") && AnyContainer(r) && m in ListAt(AsObject(r), "volumeMounts");
  }

  lemma SurvivingMountWasKept(p: Object, name: string)
    requires Mounts(CleanPodSpec(p), AnyContainer, name)
    ensures Mounts(p, KeepContainer, name) && name !in VOLUME_MOUNTS_TO_REMOVE
  {
    PodSpecLists(p);
    var cs := ListAt(p, "containers");
    var r, m :| r in ListAt(CleanPodSpec(p), "containers") && AnyContainer(r)
                && m in ListAt(AsObject(r), "volumeMounts") && NameOf(m) == name;
    var i :| 0 <= i < |KeptContainers(cs)| && KeptContainers(cs)[i] == r;
    KeptContainerMounts(cs, i);
    var c := Filter(cs, KeepContainer)[i];
    assert m in KeptMounts(ListAt(AsObject(c), "volumeMounts"));
    assert c in cs && KeepContainer(c) && m in ListAt(AsObject(c), "volumeMounts");
  }

  lemma MountsAfterClean(p: Object, name: string)
    ensures Mounts(CleanPodSpec(p), AnyContainer, name)
            <==> Mounts(p, KeepContainer, name) && name !in VOLUME_MOUNTS_TO_REMOVE
  {
    if Mounts(p, KeepContainer, name) && name !in VOLUME_MOUNTS_TO_REMOVE {
      KeptMountSurvives(p, name);
    }
    if Mounts(CleanPodSpec(p), AnyContainer, name) {
      SurvivingMountWasKept(p, name);
    }
  }

  lemma VolumesAfterClean(p: Object, name: string)
    ensures HasVolume(CleanPodSpec(p), name) <==> HasVolume(p, name) && name !in VOLUMES_TO_REMOVE
  {
    PodSpecLists(p);
    if HasVolume(p, name) && name !in VOLUMES_TO_REMOVE {
      var v :| v in ListAt(p, "volumes") && NameOf(v) == name;
      assert v in KeptVolumes(ListAt(p, "volumes"));
    }
  }

  /** The removal tables for volumes and for mounts differ in `proxy-tls-secret`, so resolved
      mounts stay resolved exactly when no container that is kept mounts that volume. */
  lemma MountsStayResolvedIff(p: Object)
    requires MountsResolved(p)
    ensures MountsResolved(CleanPodSpec(p)) <==> !Mounts(p, KeepContainer, "proxy-tls-secret")
  {
    forall name
      ensures Mounts(CleanPodSpec(p), AnyContainer, name)
              <==> Mounts(p, KeepContainer, name) && name !in VOLUME_MOUNTS_TO_REMOVE
      ensures HasVolume(CleanPodSpec(p), name) <==> HasVolume(p, name) && name !in VOLUMES_TO_REMOVE
    {
      MountsAfterClean(p, name);
      VolumesAfterClean(p, name);
    }
    forall name | Mounts(p, KeepContainer, name)
      ensures HasVolume(p, name)
    {
      var c, m :| c in ListAt(p, "containers") && KeepContainer(c)
                  && m in ListAt(AsObject(c), "volumeMounts") && NameOf(m) == name;
      assert AnyContainer(c);
      assert Mounts(p, AnyContainer, name);
    }
    if !Mounts(p, KeepContainer, "proxy-tls-secret") {
      forall name | Mounts(CleanPodSpec(p), AnyContainer, name)
        ensures HasVolume(CleanPodSpec(p), name)
      {
        assert name != "proxy-tls-secret";
      }
    }
  }

  /** A pod spec whose resolved mount dangles after the rewrite. */
  lemma DanglingMountExample()
    ensures var mount := Map(map["name" := Str("proxy-tls-secret")]);
            var head := Map(map["name" := Str("ray-head"), "volumeMounts" := List([mount])]);
            var p := map["containers" := List([head]), "volumes" := List([mount])];
            MountsResolved(p) && !MountsResolved(CleanPodSpec(p))
  {
    var mount := Map(map["name" := Str("proxy-tls-secret")]);
    var head := Map(map["name" := Str("ray-head"), "volumeMounts" := List([mount])]);
    var p := map["containers" := List([head]), "volumes" := List([mount])];
    assert NameOf(mount) == "proxy-tls-secret" && NameOf(head) == "ray-head";
    assert mount in ListAt(p, "volumes");
    assert head in ListAt(p, "containers") && KeepContainer(head) && mount in ListAt(AsObject(head), "volumeMounts");
    assert Mounts(p, KeepContainer, "proxy-tls-secret");
    MountsStayResolvedIff(p);
  }
}
