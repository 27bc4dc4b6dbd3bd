/** What deleting the autogenerated keys does to a document. */
module StripTheorems {
  import opened Sequences
  import opened Json
  import opened Paths
  import opened RayRewrite

  /** The subdocument that a path of map edges and map-in-list edges leads to. */
  function Resolve(v: Value, path: seq<Edge>): Found
    decreases |path|
  {
    if path == [] then At(v)
    else match path[0]
      case Key(k) =>
        if v.Map? && k in v.fields then Resolve(v.fields[k], path[1..]) else Nothing
      case Item(i) =>
        if v.List? && i < |v.items| && v.items[i].Map? then Resolve(v.items[i], path[1..]) else Nothing
  }

  predicate AvoidsAutogenerated(path: seq<Edge>) {
    forall i :: 0 <= i < |path| && path[i].Key? ==> path[i].k !in AUTOGENERATED_FIELDS
  }

  /** Exactly the paths through an autogenerated key are gone, and every surviving path ends
      at the stripped image of what it used to end at. */
  lemma {:induction false} StripRemovesExactlyAutogenerated(v: Value, path: seq<Edge>)
    ensures Resolve(StripValue(v), path) ==
            if Resolve(v, path).At? && AvoidsAutogenerated(path)
            then At(StripValue(Resolve(v, path).v))
            else Nothing
    decreases |path|
  {
    if path != [] {
      match path[0]
      case Key(k) =>
        if v.Map? && k in v.fields {
          StripRemovesExactlyAutogenerated(v.fields[k], path[1..]);
          assert AvoidsAutogenerated(path) <==> k !in AUTOGENERATED_FIELDS && AvoidsAutogenerated(path[1..]);
        }
      case Item(i) =>
        if v.List? && i < |v.items| && v.items[i].Map? {
          StripRemovesExactlyAutogenerated(v.items[i], path[1..]);
          assert AvoidsAutogenerated(path) <==> AvoidsAutogenerated(path[1..]);
        }
    }
  }

  lemma NoAutogeneratedKeyReachable(v: Value, path: seq<Edge>)
    requires Resolve(StripValue(v), path).At?
    ensures AvoidsAutogenerated(path)
  {
    StripRemovesExactlyAutogenerated(v, path);
  }

  // ---- What stripping leaves alone ----

  /** The path leads through an autogenerated key that is reached by map edges and map-in-list
      edges only. */
  predicate ThroughAutogenerated(v: Value, path: seq<Edge>)
    decreases |path|
  {
    path != [] &&
    match path[0]
    case Key(k) =>
      v.Map? && k in v.fields && (k in AUTOGENERATED_FIELDS || ThroughAutogenerated(v.fields[k], path[1..]))
    case Item(i) =>
      v.List? && i < |v.items| && v.items[i].Map? && ThroughAutogenerated(v.items[i], path[1..])
  }

  function Autogenerated(v: Value): Paths { (path: seq<Edge>) => ThroughAutogenerated(v, path) }

  /** Along every path, lists in lists included: what an autogenerated key leads to is gone, and
      everything else is as before, down to the last scalar. */
  lemma StripRemovesOnlyAutogenerated(v: Value)
    ensures DiffersBy(v, StripValue(v), Autogenerated(v))
  {
    forall path: seq<Edge>
      ensures Alike(Walk(StripValue(v), path), if Autogenerated(v)(path) then Nothing else Walk(v, path))
    {
      StrippedPath(v, path);
    }
  }

  lemma {:induction false} StrippedPath(v: Value, path: seq<Edge>)
    ensures Alike(Walk(StripValue(v), path), if ThroughAutogenerated(v, path) then Nothing else Walk(v, path))
    decreases |path|
  {
    AlikeSelf(Walk(v, path));
    if path != [] {
      match path[0]
      case Key(k) =>
        if v.Map? && k in v.fields && k !in AUTOGENERATED_FIELDS {
          StrippedPath(v.fields[k], path[1..]);
        }
      case Item(i) =>
        if v.List? && i < |v.items| {
          if v.items[i].Map? {
            StrippedPath(v.items[i], path[1..]);
          } else {
            AlikeSelf(Walk(v.items[i], path[1..]));
          }
        }
    }
  }

  // ---- When nothing autogenerated is left at all ----

  /** No autogenerated key anywhere, lists in lists included. */
  predicate Clean(v: Value) {
    match v
    case Map(fields) => forall k :: k in fields ==> k !in AUTOGENERATED_FIELDS && Clean(fields[k])
    case List(items) => forall i :: 0 <= i < |items| ==> Clean(items[i])
    case _ => true
  }

  /** Whatever sits in a list below the kept keys and is not a map has no autogenerated key in it:
      the stripper does not look there. */
  predicate NestedClean(v: Value) {
    match v
    case Map(fields) => forall k :: k in fields && k !in AUTOGENERATED_FIELDS ==> NestedClean(fields[k])
    case List(items) =>
      forall i :: 0 <= i < |items| ==> if items[i].Map? then NestedClean(items[i]) else Clean(items[i])
    case _ => true
  }

  /** Stripping removes every autogenerated key iff none hides in a list directly in a list. */
  lemma {:induction false} StripCleansIff(v: Value)
    ensures Clean(StripValue(v)) <==> NestedClean(v)
  {
    match v
    case Map(fields) =>
      var r := StripValue(v).fields;
      forall k | k in fields && k !in AUTOGENERATED_FIELDS
        ensures k in r && Clean(r[k]) == NestedClean(fields[k])
      {
        StripCleansIff(fields[k]);
      }
    case List(items) =>
      var r := StripValue(v).items;
      forall i | 0 <= i < |items|
        ensures Clean(r[i]) == if items[i].Map? then NestedClean(items[i]) else Clean(items[i])
      {
        if items[i].Map? {
          StripCleansIff(items[i]);
        }
      }
    case _ =>
  }

  /** A document for which the condition fails: the key of the inner list survives. */
  lemma NestedListsAreKept()
    ensures var hidden := Map(map["uid" := Str("1")]);
            && StripValue(List([List([hidden]), hidden])) == List([List([hidden]), Map(map[])])
            && !NestedClean(List([List([hidden]), hidden]))
  {
    var hidden := Map(map["uid" := Str("1")]);
    var v := List([List([hidden]), hidden]);
    assert StripValue(hidden) == Map(map[]);
    assert StripValue(v).items[0] == List([hidden]);
    assert StripValue(v).items[1] == Map(map[]);
    assert "uid" in hidden.fields && !Clean(hidden);
    assert v.items[0].items[0] == hidden && !Clean(v.items[0]);
  }

  lemma {:induction false} StripIdempotent(v: Value)
    ensures StripValue(StripValue(v)) == StripValue(v)
  {
    match v
    case Map(fields) =>
      forall k | k in fields
        ensures StripValue(StripValue(fields[k])) == StripValue(fields[k])
      {
        StripIdempotent(fields[k]);
      }
      var m := StripValue(v).fields;
      assert StripValue(Map(m)).fields == m;
    case List(items) =>
      forall i | 0 <= i < |items|
        ensures StripValue(StripValue(items[i])) == StripValue(items[i])
      {
        StripIdempotent(items[i]);
      }
      assert StripValue(StripValue(v)).items == StripValue(v).items;
    case _ =>
  }

  /** Stripping a list is stripping its entries one by one. */
  lemma StripList(items: seq<Value>)
    ensures StripValue(List(items)) == List(MapSeq(items, StripItem))
  {
    assert StripValue(List(items)).items == MapSeq(items, StripItem);
  }

  lemma StripField(m: Object, k: string)
    ensures k in Strip(m) <==> k in m && k !in AUTOGENERATED_FIELDS
    ensures k in Strip(m) ==> Strip(m)[k] == StripValue(m[k])
  {
  }

  lemma StripUpdate(m: Object, k: string, v: Value)
    requires k !in AUTOGENERATED_FIELDS
    ensures Strip(m[k := v]) == Strip(m)[k := StripValue(v)]
  {
    assert Strip(m[k := v]).Keys == Strip(m)[k := StripValue(v)].Keys;
  }

  lemma StripDelete(m: Object, k: string)
    ensures Strip(m - {k}) == Strip(m) - {k}
  {
    assert Strip(m - {k}).Keys == (Strip(m) - {k}).Keys;
  }
}
