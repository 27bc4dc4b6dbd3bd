/** Comparing documents path by path. */
module Paths {
  import opened Json

  datatype Edge = Key(k: string) | Item(i: nat)

  datatype Found = Nothing | At(v: Value)

  /** The subdocument at a path of map keys and list positions. */
  function Walk(v: Value, path: seq<Edge>): Found
    decreases |path|
  {
    if path == [] then At(v)
    else match path[0]
      case Key(k) => if v.Map? && k in v.fields then Walk(v.fields[k], path[1..]) else Nothing
      case Item(i) => if v.List? && i < |v.items| then Walk(v.items[i], path[1..]) else Nothing
  }

  /** Both are missing, or both are maps, or lists of one length, or one and the same scalar. */
  predicate Alike(x: Found, y: Found) {
    match (x, y)
    case (Nothing, Nothing) => true
    case (At(Map(_)), At(Map(_))) => true
    case (At(List(s)), At(List(t))) => |s| == |t|
    case (At(v), At(w)) => v == w
    case _ => false
  }

  lemma AlikeSelf(x: Found)
    ensures Alike(x, x)
  {
  }

  /** A choice of paths. */
  type Paths = seq<Edge> -> bool

  function Under(key: string, inner: Paths): Paths {
    (path: seq<Edge>) => path != [] && path[0] == Key(key) && inner(path[1..])
  }

  function Either(a: Paths, b: Paths): Paths { (path: seq<Edge>) => a(path) || b(path) }

  function MapAt(m: Object, key: string): Object {
    if key in m && m[key].Map? then m[key].fields else map[]
  }

  lemma WalkKey(m: Object, k: string, rest: seq<Edge>)
    ensures Walk(Map(m), [Key(k)] + rest) == if k in m then Walk(m[k], rest) else Nothing
    ensures rest != [] && rest[0].Key? ==>
              Walk(Map(m), [Key(k)] + rest) == if k in m && m[k].Map? then Walk(Map(MapAt(m, k)), rest) else Nothing
  {
    assert ([Key(k)] + rest)[1..] == rest;
  }

  lemma WalkThree(m: Object, a: string, b: string, k: string)
    ensures var inner := MapAt(MapAt(m, a), b);
            Walk(Map(m), [Key(a), Key(b), Key(k)]) == if k in inner then At(inner[k]) else Nothing
  {
    assert [Key(a), Key(b), Key(k)] == [Key(a)] + ([Key(b)] + ([Key(k)] + []));
    WalkKey(m, a, [Key(b)] + ([Key(k)] + []));
    WalkKey(MapAt(m, a), b, [Key(k)] + []);
    WalkKey(MapAt(MapAt(m, a), b), k, []);
  }

  lemma WalkTwo(m: Object, a: string, k: string)
    ensures Walk(Map(m), [Key(a), Key(k)]) == if k in MapAt(m, a) then At(MapAt(m, a)[k]) else Nothing
  {
    assert [Key(a), Key(k)] == [Key(a)] + ([Key(k)] + []);
    WalkKey(m, a, [Key(k)] + []);
    WalkKey(MapAt(m, a), k, []);
  }

  // ---- What was removed ----

  /** `after` is `before` without what the paths in `gone` lead to. */
  ghost predicate DiffersBy(before: Value, after: Value, gone: Paths) {
    forall path: seq<Edge> :: Alike(Walk(after, path), if gone(path) then Nothing else Walk(before, path))
  }

  lemma SameDiffersBy(v: Value, gone: Paths)
    requires forall path: seq<Edge> :: gone(path) ==> Walk(v, path) == Nothing
    ensures DiffersBy(v, v, gone)
  {
    forall path: seq<Edge>
      ensures Alike(Walk(v, path), if gone(path) then Nothing else Walk(v, path))
    {
      AlikeSelf(Walk(v, path));
    }
  }

  lemma DiffersByBoth(a: Value, b: Value, c: Value, first: Paths, second: Paths)
    requires DiffersBy(a, b, first) && DiffersBy(b, c, second)
    ensures DiffersBy(a, c, Either(first, second))
  {
    forall path: seq<Edge>
      ensures Alike(Walk(c, path), if Either(first, second)(path) then Nothing else Walk(a, path))
    {
      assert Alike(Walk(b, path), if first(path) then Nothing else Walk(a, path));
      assert Alike(Walk(c, path), if second(path) then Nothing else Walk(b, path));
    }
  }

  /** A change below one key of a map. */
  lemma DiffersUnder(m: Object, r: Object, key: string, inner: Paths)
    requires r - {key} == m - {key} && (key in r <==> key in m)
    requires key in m ==> DiffersBy(m[key], r[key], inner)
    ensures DiffersBy(Map(m), Map(r), Under(key, inner))
  {
    forall path: seq<Edge>
      ensures Alike(Walk(Map(r), path), if Under(key, inner)(path) then Nothing else Walk(Map(m), path))
    {
      AlikeSelf(Walk(Map(m), path));
      if path != [] && path[0].Key? {
        var k := path[0].k;
        if k == key && k in m {
          assert Alike(Walk(r[k], path[1..]), if inner(path[1..]) then Nothing else Walk(m[k], path[1..]));
        } else {
          assert k in r - {key} <==> k in m - {key};
          assert k in r - {key} ==> (r - {key})[k] == (m - {key})[k];
        }
      }
    }
  }

  lemma UpdateMapDiffers(m: Object, key: string, f: Object -> Object, inner: Paths)
    requires key in m && m[key].Map? ==> DiffersBy(m[key], Map(f(m[key].fields)), inner)
    requires forall path: seq<Edge> :: inner(path) ==> path != [] && path[0].Key?
    ensures DiffersBy(Map(m), Map(UpdateMap(m, key, f)), Under(key, inner))
  {
    if key in m && !m[key].Map? {
      SameDiffersBy(m[key], inner);
    }
    assert UpdateMap(m, key, f) - {key} == m - {key};
    DiffersUnder(m, UpdateMap(m, key, f), key, inner);
  }

  // ---- What was left alone ----

  /** But for the paths in `touched`, `after` is as `before`. */
  ghost predicate AgreesOutside(before: Value, after: Value, touched: Paths) {
    forall path: seq<Edge> :: touched(path) || Alike(Walk(after, path), Walk(before, path))
  }

  lemma SameAgrees(v: Value, touched: Paths)
    ensures AgreesOutside(v, v, touched)
  {
    forall path: seq<Edge>
      ensures touched(path) || Alike(Walk(v, path), Walk(v, path))
    {
      AlikeSelf(Walk(v, path));
    }
  }

  lemma AgreesBoth(a: Value, b: Value, c: Value, first: Paths, second: Paths)
    requires AgreesOutside(a, b, first) && AgreesOutside(b, c, second)
    ensures AgreesOutside(a, c, Either(first, second))
  {
    forall path: seq<Edge>
      ensures Either(first, second)(path) || Alike(Walk(c, path), Walk(a, path))
    {
      assert first(path) || Alike(Walk(b, path), Walk(a, path));
      assert second(path) || Alike(Walk(c, path), Walk(b, path));
    }
  }

  lemma AgreesUnder(m: Object, r: Object, key: string, inner: Paths)
    requires r - {key} == m - {key}
    requires if key in m && key in r then AgreesOutside(m[key], r[key], inner)
             else (key in m || key in r) ==> forall path: seq<Edge> :: inner(path)
    ensures AgreesOutside(Map(m), Map(r), Under(key, inner))
  {
    forall path: seq<Edge>
      ensures Under(key, inner)(path) || Alike(Walk(Map(r), path), Walk(Map(m), path))
    {
      AlikeSelf(Walk(Map(m), path));
      if path != [] && path[0].Key? {
        var k := path[0].k;
        if k != key {
          assert k in r - {key} <==> k in m - {key};
          assert k in r - {key} ==> (r - {key})[k] == (m - {key})[k];
        } else if k in m && k in r {
          assert inner(path[1..]) || Alike(Walk(r[k], path[1..]), Walk(m[k], path[1..]));
        }
      }
    }
  }

  lemma UpdateMapAgrees(m: Object, key: string, f: Object -> Object, inner: Paths)
    requires key in m && m[key].Map? ==> AgreesOutside(m[key], Map(f(m[key].fields)), inner)
    ensures AgreesOutside(Map(m), Map(UpdateMap(m, key, f)), Under(key, inner))
  {
    if key in m && !m[key].Map? {
      SameAgrees(m[key], inner);
    }
    assert UpdateMap(m, key, f) - {key} == m - {key};
    AgreesUnder(m, UpdateMap(m, key, f), key, inner);
  }
}
