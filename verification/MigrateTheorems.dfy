/** The document that a live migration submits, and what the server ends up storing. */
module MigrateTheorems {
  import opened Json
  import opened RayRewrite
  import opened StripTheorems
  import opened ProcessTheorems
  import opened ApiServer
  import opened FrameTheorems
  import opened Paths
  import CommutationTheorems

  function Image(doc: Object): Object { Process(Strip(doc)) }

  /** The image of the fetched document, carrying back its version and uid when it had any. */
  function Submission(latest: Object): Object {
    var versioned := if VersionOf(latest) != "" then SetMeta(Image(latest), "resourceVersion", VersionOf(latest))
                     else Image(latest);
    if UidOf(latest) != "" then SetMeta(versioned, "uid", UidOf(latest)) else versioned
  }

  predicate HasMeta(doc: Object) { "metadata" in doc && doc["metadata"].Map? }

  lemma ImageMeta(doc: Object)
    ensures HasMeta(Image(doc)) <==> HasMeta(doc)
    ensures "metadata" in Image(doc) <==> "metadata" in doc
    ensures HasMeta(doc) ==> Image(doc)["metadata"] == Map(Strip(doc["metadata"].fields))
    ensures VersionOf(Image(doc)) == "" && UidOf(Image(doc)) == ""
  {
    StripField(doc, "metadata");
  }

  lemma SubmissionMeta(latest: Object)
    ensures VersionOf(Submission(latest)) == VersionOf(latest)
    ensures UidOf(Submission(latest)) == UidOf(latest)
    ensures Submission(latest) - {"metadata"} == Image(latest) - {"metadata"}
    ensures HasMeta(Submission(latest)) <==> HasMeta(latest)
    ensures HasMeta(latest) ==>
              Strip(Submission(latest)["metadata"].fields) == Strip(latest["metadata"].fields)
  {
    ImageMeta(latest);
    if HasMeta(latest) {
      StripMeta(latest["metadata"].fields, VersionOf(latest), UidOf(latest));
    }
  }

  /** The version and the uid are autogenerated fields, so stripping does not see them. */
  lemma StripMeta(meta: Object, version: string, uid: string)
    ensures var m1 := if version != "" then Strip(meta)["resourceVersion" := Str(version)] else Strip(meta);
            var m2 := if uid != "" then m1["uid" := Str(uid)] else m1;
            Strip(m2) == Strip(meta) && forall v :: Strip(m2["resourceVersion" := Str(v)]) == Strip(meta)
  {
    StripIdempotent(Map(meta));
    assert forall k :: k in Strip(meta) ==> StripValue(Strip(meta)[k]) == Strip(meta)[k];
  }

  lemma StripSetVersion(doc: Object, v: string)
    requires HasMeta(doc)
    ensures Strip(SetMeta(doc, "resourceVersion", v)) == Strip(doc)
  {
    var meta := doc["metadata"].fields;
    StripDelete(meta, "resourceVersion");
    assert Strip(meta["resourceVersion" := Str(v)]) == Strip(meta);
    var stamped := SetMeta(doc, "resourceVersion", v);
    StripField(doc, "metadata");
    StripField(stamped, "metadata");
    StripUpdate(doc, "metadata", stamped["metadata"]);
    assert StripValue(stamped["metadata"]) == StripValue(doc["metadata"]);
    assert Strip(doc)["metadata" := StripValue(doc["metadata"])] == Strip(doc);
  }

  /** Only the version and the uid tell the submission from the image. */
  lemma SubmissionStripsToImage(latest: Object)
    requires HasMeta(latest)
    ensures Strip(Submission(latest)) == Image(latest)
  {
    SubmissionMeta(latest);
    ImageMeta(latest);
    var sub, image := Submission(latest), Image(latest);
    CommutationTheorems.ProcessCommutesWithStrip(Strip(latest));
    StripIdempotent(Map(latest));
    assert Strip(image) == image;
    StripDelete(sub, "metadata");
    StripDelete(image, "metadata");
    StripField(sub, "metadata");
    StripField(image, "metadata");
    assert Strip(sub) - {"metadata"} == Strip(image) - {"metadata"};
    assert Strip(sub)["metadata"] == Strip(image)["metadata"];
    forall k
      ensures k in Strip(sub) <==> k in Strip(image)
      ensures k in Strip(sub) ==> Strip(sub)[k] == Strip(image)[k]
    {
      if k != "metadata" {
        SameOutside(Strip(image), Strip(sub), "metadata", k);
      }
    }
  }

  /** What is stored after an accepted submission is, but for the fields that the server
      generates, the strip-then-process image; nothing is left for the detector. */
  lemma StoredIsImage(latest: Object, v: string)
    requires HasMeta(latest)
    ensures var stored := SetMeta(Submission(latest), "resourceVersion", v);
            Strip(stored) == Process(Strip(latest)) && TlsComponents(stored) == []
  {
    SubmissionMeta(latest);
    SubmissionStripsToImage(latest);
    StripSetVersion(Submission(latest), v);
    SameOutside(Image(latest), SetMeta(Submission(latest), "resourceVersion", v), "metadata", "spec");
    ProcessIsComplete(Strip(latest));
  }

  /** So every path of the fetched document that is neither autogenerated nor touched by the rewrite
      leads to the same in the stored one, unless it is autogenerated there. */
  lemma MigrationKeepsRest(latest: Object, v: string, path: seq<Edge>)
    requires HasMeta(latest)
    requires !ThroughAutogenerated(Map(latest), path) && !Touched(Strip(latest))(path)
    ensures var stored := Map(SetMeta(Submission(latest), "resourceVersion", v));
            ThroughAutogenerated(stored, path) || Alike(Walk(stored, path), Walk(Map(latest), path))
  {
    StoredIsImage(latest, v);
    var stored := SetMeta(Submission(latest), "resourceVersion", v);
    StrippedPath(Map(latest), path);
    StrippedPath(Map(stored), path);
    ProcessTouchesOnly(Strip(latest));
    assert StripValue(Map(latest)) == Map(Strip(latest)) && StripValue(Map(stored)) == Map(Strip(stored));
    assert Alike(Walk(Map(Process(Strip(latest))), path), Walk(Map(Strip(latest)), path));
  }

  /** The annotations that the migration stores are the fetched ones without the autogenerated
      keys: it sets none of its own. */
  lemma AnnotationsCarriedOver(latest: Object, v: string)
    requires HasMeta(latest)
    ensures IsAnnotated(SetMeta(Submission(latest), "resourceVersion", v)) <==> IsAnnotated(Strip(latest))
  {
    ImageMeta(latest);
    StripField(latest, "metadata");
    var kept := Strip(latest["metadata"].fields);
    var stored := SetMeta(Submission(latest), "resourceVersion", v)["metadata"].fields;
    assert "annotations" in stored <==> "annotations" in kept;
    assert "annotations" in kept ==> stored["annotations"] == kept["annotations"];
  }

  /** After an accepted migration the cluster counts as migrated iff the stripped document was
      annotated before. */
  lemma MigratedAfterMigrationIff(latest: Object, v: string)
    requires HasMeta(latest)
    ensures IsClusterMigrated(SetMeta(Submission(latest), "resourceVersion", v)) <==> IsAnnotated(Strip(latest))
  {
    StoredIsImage(latest, v);
    AnnotationsCarriedOver(latest, v);
  }

  /** Stripping loses no secure-network annotation that could be read before. */
  lemma AnnotatedAfterStrip(doc: Object)
    requires IsAnnotated(doc)
    ensures IsAnnotated(Strip(doc))
  {
    var meta := doc["metadata"].fields;
    StripField(doc, "metadata");
    StripField(meta, "annotations");
    var ann := meta["annotations"].fields;
    forall k
      ensures k in Strip(ann) ==> k in ann && Strip(ann)[k] == StripValue(ann[k])
    {
      StripField(ann, k);
    }
    StripField(ann, SECURE_NETWORK_ANNOTATION);
  }

  /** It can make one readable: a key called "uid" that holds a number hides all annotations
      until it is stripped. */
  lemma AnnotationUnhidden(ann: Object)
    requires ann == map[SECURE_NETWORK_ANNOTATION := Str("true"), "uid" := Num(1)]
    ensures var doc := map["metadata" := Map(map["annotations" := Map(ann)])];
            !IsAnnotated(doc) && IsAnnotated(Strip(doc))
  {
    var meta := map["annotations" := Map(ann)];
    var doc := map["metadata" := Map(meta)];
    assert ann["uid"] == Num(1);
    StripField(doc, "metadata");
    StripField(meta, "annotations");
    StripField(ann, SECURE_NETWORK_ANNOTATION);
    forall k
      ensures k in Strip(ann) ==> k == SECURE_NETWORK_ANNOTATION
    {
      StripField(ann, k);
    }
  }

  lemma AnnotationUnhiddenExample()
    ensures var ann := map[SECURE_NETWORK_ANNOTATION := Str("true"), "uid" := Num(1)];
            var doc := map["metadata" := Map(map["annotations" := Map(ann)])];
            !IsAnnotated(doc) && IsClusterMigrated(SetMeta(Submission(doc), "resourceVersion", "2"))
  {
    var ann := map[SECURE_NETWORK_ANNOTATION := Str("true"), "uid" := Num(1)];
    AnnotationUnhidden(ann);
    MigratedAfterMigrationIff(map["metadata" := Map(map["annotations" := Map(ann)])], "2");
  }

  /** A document without annotations is still to be migrated after its migration, though nothing
      is left to remove from it. */
  lemma UnannotatedExample()
    ensures var doc: Object := map["metadata" := Map(map[])];
            var stored := SetMeta(Submission(doc), "resourceVersion", "2");
            MigrationStatus(stored) == NeedsAnnotationOnly && !IsClusterMigrated(stored)
  {
    var meta: Object := map[];
    var doc: Object := map["metadata" := Map(meta)];
    StripField(doc, "metadata");
    StripField(meta, "annotations");
    assert !IsAnnotated(Strip(doc));
    StoredIsImage(doc, "2");
    MigratedAfterMigrationIff(doc, "2");
  }

  /** The server compares versions for the migration exactly when the fetched document had
      one; otherwise a write made after the fetch is overwritten unseen. */
  lemma GuardedIffVersioned(latest: Object)
    ensures (forall store: Store, id: Id ::
               Accepts(store, id, Submission(latest)) ==> VersionOf(store[id]) == VersionOf(latest))
            <==> VersionOf(latest) != ""
  {
    SubmissionMeta(latest);
    if VersionOf(latest) == "" {
      var other: Object := map["metadata" := Map(map["resourceVersion" := Str("2"), "uid" := Str(UidOf(latest))])];
      assert other["metadata"].fields["resourceVersion"] == Str("2");
      assert VersionOf(other) == "2" && UidOf(other) == UidOf(latest);
      var id := Id("default", "ray");
      var store: Store := map[id := other];
      assert Accepts(store, id, Submission(latest)) && VersionOf(store[id]) != VersionOf(latest);
    }
  }
}
