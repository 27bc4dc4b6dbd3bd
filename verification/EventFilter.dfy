/** Filtering events by component: the cached parallel lookup against looking up each event's
    object directly. */
module EventFilter {
  import opened Sequences
  import opened LabelFetch

  const COMPONENT_LABEL_KEY := "app.kubernetes.io/part-of"

  const KINDS: set<string> :=
    {"Pod", "Deployment", "ReplicaSet", "StatefulSet", "DaemonSet", "Service", "ConfigMap", "Secret", "Job"}

  /** The object that an event is about. */
  datatype Lookup = Lookup(namespace: string, kind: string, name: string)

  datatype EventInfo = EventInfo(namespace: string, kind: string, name: string, reason: string, message: string)

  datatype Fetch = Labels(labels: map<string, string>) | NotFound | Failure

  function LookupOf(e: EventInfo): Lookup { Lookup(e.namespace, e.kind, e.name) }

  /** `api` is what fetching an object would answer; kinds without a mapping are not fetched. */
  function CheckObject(api: Lookup -> Fetch, l: Lookup, target: string): Answer {
    if l.kind !in KINDS then Label(false)
    else match api(l)
      case NotFound => Label(false)
      case Failure => Error
      case Labels(labels) =>
        Label((if COMPONENT_LABEL_KEY in labels then labels[COMPONENT_LABEL_KEY] else "") == target)
  }

  /** The event's object is of a mapped kind and carries the component's label; a missing label reads
      as the empty one. */
  predicate IsLabelled(api: Lookup -> Fetch, target: string, e: EventInfo) {
    && e.kind in KINDS
    && var answer := api(Lookup(e.namespace, e.kind, e.name));
       answer.Labels?
       && if COMPONENT_LABEL_KEY in answer.labels then answer.labels[COMPONENT_LABEL_KEY] == target else target == ""
  }

  /** The event's object is of a mapped kind, and the API fails to answer. */
  predicate LookupFails(api: Lookup -> Fetch, e: EventInfo) {
    e.kind in KINDS && api(Lookup(e.namespace, e.kind, e.name)).Failure?
  }

  lemma CheckedIff(api: Lookup -> Fetch, target: string, e: EventInfo)
    ensures CheckObject(api, LookupOf(e), target) == Label(true) <==> IsLabelled(api, target, e)
    ensures CheckObject(api, LookupOf(e), target) == Error <==> LookupFails(api, e)
  {
  }

  function CacheKey(target: string, l: Lookup): string {
    target + "/" + l.namespace + "/" + l.kind + "/" + l.name
  }

  // ---- The naive filter ----

  /** Look up the event's own object, every time. */
  function Belongs(api: Lookup -> Fetch, target: string): EventInfo -> bool {
    (e: EventInfo) => CheckObject(api, LookupOf(e), target) == Label(true)
  }

  // ---- The cache key ----

  predicate SlashFree(s: string) { '/' !in s }

  lemma {:induction false} CutAtSlash(a: string, b: string, x: string, y: string)
    requires SlashFree(a) && SlashFree(b) && a + "/" + x == b + "/" + y
    ensures a == b && x == y
  {
    var l, r := a + "/" + x, b + "/" + y;
    if a == [] || b == [] {
      assert l[0] == r[0];
      assert a == [] && b == [];
      assert l[1..] == x && r[1..] == y;
    } else {
      assert l[0] == a[0] && r[0] == b[0];
      assert l[1..] == a[1..] + "/" + x && r[1..] == b[1..] + "/" + y;
      CutAtSlash(a[1..], b[1..], x, y);
      assert a == [a[0]] + a[1..] && b == [b[0]] + b[1..];
    }
  }

  /** Keys of one component differ for different objects when namespaces and kinds have no
      slash; the name may have some. */
  lemma CacheKeyInjective(target: string, l: Lookup, r: Lookup)
    requires SlashFree(l.namespace) && SlashFree(l.kind) && SlashFree(r.namespace) && SlashFree(r.kind)
    requires CacheKey(target, l) == CacheKey(target, r)
    ensures l == r
  {
    var lt, rt := l.kind + "/" + l.name, r.kind + "/" + r.name;
    assert CacheKey(target, l) == (target + "/") + (l.namespace + "/" + lt);
    assert CacheKey(target, r) == (target + "/") + (r.namespace + "/" + rt);
    assert CacheKey(target, l)[|target| + 1..] == l.namespace + "/" + lt;
    assert CacheKey(target, r)[|target| + 1..] == r.namespace + "/" + rt;
    CutAtSlash(l.namespace, r.namespace, lt, rt);
    CutAtSlash(l.kind, r.kind, l.name, r.name);
  }

  /** Objects that share a key were answered alike. */
  ghost predicate KeysAgree(api: Lookup -> Fetch, target: string, events: seq<EventInfo>) {
    forall e, f :: e in events && f in events && CacheKey(target, LookupOf(e)) == CacheKey(target, LookupOf(f)) ==>
      CheckObject(api, LookupOf(e), target) == CheckObject(api, LookupOf(f), target)
  }

  lemma SlashFreeKeysTellApart(target: string, events: seq<EventInfo>)
    requires forall e :: e in events ==> SlashFree(e.namespace) && SlashFree(e.kind)
    ensures KeysTellApart(target, events)
  {
    forall e, f | e in events && f in events && CacheKey(target, LookupOf(e)) == CacheKey(target, LookupOf(f))
      ensures LookupOf(e) == LookupOf(f)
    {
      CacheKeyInjective(target, LookupOf(e), LookupOf(f));
    }
  }

  // ---- Against a real API ----

  /** A real API answers no fetch of a name with a slash in it. */
  ghost predicate RefusesSlashes(api: Lookup -> Fetch) {
    forall l: Lookup :: !SlashFree(l.name) ==> api(l).Failure?
  }

  /** Where one side shows that there is a single slash, both sides are cut there. */
  lemma OneSlash(a: string, b: string, x: string, y: string)
    requires SlashFree(a) && SlashFree(x) && a + "/" + x == b + "/" + y
    ensures a == b && x == y
  {
    var l, r := a + "/" + x, b + "/" + y;
    forall i | 0 <= i < |l| && i != |a| ensures l[i] != '/' {
      if i < |a| {
        assert l[i] == a[i];
      } else {
        assert l[i] == x[i - |a| - 1];
      }
    }
    assert l[|b|] == r[|b|] == '/';
    assert l[..|a|] == a && r[..|b|] == b;
    assert l[|a| + 1..] == x && r[|b| + 1..] == y;
  }

  lemma KindsAreSlashFree(kind: string)
    requires kind in KINDS
    ensures SlashFree(kind)
  {
  }

  /** A looked-up object whose fetch does not fail shares its key with no other object. */
  lemma LookedUpKeyIsUnique(api: Lookup -> Fetch, target: string, l: Lookup, r: Lookup)
    requires RefusesSlashes(api) && SlashFree(l.namespace) && SlashFree(r.namespace)
    requires l.kind in KINDS && !CheckObject(api, l, target).Error?
    requires CacheKey(target, l) == CacheKey(target, r)
    ensures l == r
  {
    var lt, rt := l.kind + "/" + l.name, r.kind + "/" + r.name;
    assert CacheKey(target, l) == (target + "/") + (l.namespace + "/" + lt);
    assert CacheKey(target, r) == (target + "/") + (r.namespace + "/" + rt);
    assert CacheKey(target, l)[|target| + 1..] == l.namespace + "/" + lt;
    assert CacheKey(target, r)[|target| + 1..] == r.namespace + "/" + rt;
    CutAtSlash(l.namespace, r.namespace, lt, rt);
    KindsAreSlashFree(l.kind);
    OneSlash(l.kind, r.kind, l.name, r.name);
  }

  /** So for the events of a cluster, whose namespaces have no slash, keys agree whatever the
      kinds are, unless a lookup fails. */
  lemma RealApiAgrees(api: Lookup -> Fetch, target: string, events: seq<EventInfo>)
    requires RefusesSlashes(api) && NoLookupFails(api, target, events)
    requires forall e :: e in events ==> SlashFree(e.namespace)
    ensures KeysAgree(api, target, events)
  {
    forall e, f | e in events && f in events && CacheKey(target, LookupOf(e)) == CacheKey(target, LookupOf(f))
      ensures CheckObject(api, LookupOf(e), target) == CheckObject(api, LookupOf(f), target)
    {
      if e.kind in KINDS {
        LookedUpKeyIsUnique(api, target, LookupOf(e), LookupOf(f));
      } else if f.kind in KINDS {
        LookedUpKeyIsUnique(api, target, LookupOf(f), LookupOf(e));
      }
    }
  }

  // ---- The filter ----

  /** Each object that some event is about, once. */
  method CollectLookups(events: seq<EventInfo>) returns (lookups: seq<Lookup>)
    ensures forall i, j :: 0 <= i < j < |lookups| ==> lookups[i] != lookups[j]
    ensures forall l :: l in lookups <==> exists e :: e in events && LookupOf(e) == l
  {
    lookups := [];
    var seen: set<Lookup> := {};
    for i := 0 to |events|
      invariant forall l :: l in seen <==> l in lookups
      invariant forall j, k :: 0 <= j < k < |lookups| ==> lookups[j] != lookups[k]
      invariant forall l :: l in lookups <==> exists e :: e in events[..i] && LookupOf(e) == l
    {
      assert events[..i + 1] == events[..i] + [events[i]];
      var key := LookupOf(events[i]);
      if key !in seen {
        seen := seen + {key};
        lookups := lookups + [key];
      }
    }
    assert events[..|events|] == events;
  }

  function KeysOf(target: string, lookups: seq<Lookup>): seq<string> {
    seq(|lookups|, i requires 0 <= i < |lookups| => CacheKey(target, lookups[i]))
  }

  function AnswersOf(api: Lookup -> Fetch, target: string, lookups: seq<Lookup>): seq<Answer> {
    seq(|lookups|, i requires 0 <= i < |lookups| => CheckObject(api, lookups[i], target))
  }

  /** A cache that a fetch over the objects of the events may end with. */
  ghost predicate CacheCovers(api: Lookup -> Fetch, target: string, events: seq<EventInfo>, cache: map<string, bool>) {
    && (forall e :: e in events ==> CacheKey(target, LookupOf(e)) in cache)
    && (forall key :: key in cache ==>
          exists e :: e in events && CacheKey(target, LookupOf(e)) == key
                      && CheckObject(api, LookupOf(e), target) == Label(cache[key]))
  }

  function InCache(target: string, cache: map<string, bool>): EventInfo -> bool {
    (e: EventInfo) => var key := CacheKey(target, LookupOf(e)); key in cache && cache[key]
  }

  function FetchOf(api: Lookup -> Fetch, target: string, lookups: seq<Lookup>): Config {
    Config(KeysOf(target, lookups), AnswersOf(api, target, lookups))
  }

  /** The objects that the lookups asked the API for, in the order asked; an object of a kind
      without a mapping costs no request. */
  function Requests(lookups: seq<Lookup>, queried: seq<nat>): seq<Lookup> {
    if queried == [] then []
    else
      var i := queried[|queried| - 1];
      Requests(lookups, queried[..|queried| - 1])
      + if i < |lookups| && lookups[i].kind in KINDS then [lookups[i]] else []
  }

  /** The requests that a filtering made; there is no run of the pool without an event. */
  ghost predicate Requested(api: Lookup -> Fetch, target: string, lookups: seq<Lookup>,
                            states: seq<State>, steps: seq<Step>,
                            cache: map<string, bool>, failed: bool, requests: seq<Lookup>)
  {
    if lookups == [] then requests == []
    else
      && IsFetch(FetchOf(api, target, lookups), states, steps, cache, failed)
      && requests == Requests(lookups, states[|steps|].queried)
  }

  /** Each object of a mapped kind that some event is about, exactly once, and nothing else. */
  ghost predicate EachObjectOnce(requests: seq<Lookup>, events: seq<EventInfo>) {
    && (forall i, j :: 0 <= i < j < |requests| ==> requests[i] != requests[j])
    && (forall l :: l in requests <==> l.kind in KINDS && exists e :: e in events && LookupOf(e) == l)
  }

  ghost predicate QueriedFor(lookups: seq<Lookup>, queried: seq<nat>, l: Lookup) {
    exists i :: i in queried && i < |lookups| && lookups[i] == l
  }

  lemma {:induction false} RequestsAreQueried(lookups: seq<Lookup>, queried: seq<nat>)
    requires forall i, j :: 0 <= i < j < |lookups| ==> lookups[i] != lookups[j]
    requires forall i, j :: 0 <= i < j < |queried| ==> queried[i] != queried[j]
    ensures var r := Requests(lookups, queried);
            && (forall i, j :: 0 <= i < j < |r| ==> r[i] != r[j])
            && forall l :: l in r <==> l.kind in KINDS && QueriedFor(lookups, queried, l)
  {
    if queried != [] {
      var front, x := queried[..|queried| - 1], queried[|queried| - 1];
      assert queried == front + [x];
      RequestsAreQueried(lookups, front);
      assert forall i :: i in queried <==> i in front || i == x;
      assert forall k :: 0 <= k < |front| ==> front[k] != x;
    }
  }

  lemma QueriedAll(queried: seq<nat>, n: nat)
    requires forall i: nat :: multiset(queried)[i] == if i < n then 1 else 0
    ensures forall i, j :: 0 <= i < j < |queried| ==> queried[i] != queried[j]
    ensures forall i: nat :: i in queried <==> i < n
  {
    forall i, j | 0 <= i < j < |queried| ensures queried[i] != queried[j] {
      RepeatedCounts(queried, i, j);
    }
    forall i: nat ensures i in queried <==> i < n {
      assert i in queried <==> multiset(queried)[i] > 0;
    }
  }

  lemma RequestsOnce(lookups: seq<Lookup>, queried: seq<nat>, events: seq<EventInfo>)
    requires forall i, j :: 0 <= i < j < |lookups| ==> lookups[i] != lookups[j]
    requires forall l :: l in lookups <==> exists e :: e in events && LookupOf(e) == l
    requires forall i: nat :: multiset(queried)[i] == if i < |lookups| then 1 else 0
    ensures EachObjectOnce(Requests(lookups, queried), events)
  {
    QueriedAll(queried, |lookups|);
    RequestsAreQueried(lookups, queried);
    forall l
      ensures QueriedFor(lookups, queried, l) <==> l in lookups
    {
      if l in lookups {
        var i :| 0 <= i < |lookups| && lookups[i] == l;
        assert i in queried;
      }
    }
  }

  /** For every schedule: each object is asked for exactly once; the filter fails iff some lookup
      fails; otherwise it is by a cache that covers the events, and it is the naive one when
      objects that share a key were answered alike. */
  method FilterEventsByComponent(api: Lookup -> Fetch, target: string, events: seq<EventInfo>)
    returns (filtered: seq<EventInfo>, failed: bool, ghost cache: map<string, bool>,
             ghost lookups: seq<Lookup>, ghost states: seq<State>, ghost steps: seq<Step>, ghost requests: seq<Lookup>)
    ensures Requested(api, target, lookups, states, steps, cache, failed, requests)
    ensures EachObjectOnce(requests, events)
    ensures failed <==> exists e :: e in events && LookupFails(api, e)
    ensures !failed ==> CacheCovers(api, target, events, cache) && filtered == Filter(events, InCache(target, cache))
    ensures !failed && KeysAgree(api, target, events) ==>
              && filtered == Filter(events, Belongs(api, target))
              && forall e :: e in filtered <==> e in events && IsLabelled(api, target, e)
  {
    var found := CollectLookups(events);
    var fetched: map<string, bool> := map[];
    failed := false;
    lookups, states, steps, requests := found, [], [], [];
    forall e
      ensures CheckObject(api, LookupOf(e), target) == Label(true) <==> IsLabelled(api, target, e)
      ensures CheckObject(api, LookupOf(e), target) == Error <==> LookupFails(api, e)
    {
      CheckedIff(api, target, e);
    }
    if found != [] {
      var c := FetchOf(api, target, found);
      fetched, failed, states, steps := FetchInParallel(c);
      requests := Requests(found, states[|steps|].queried);
      RequestsOnce(found, states[|steps|].queried, events);
      FetchedCovers(api, target, events, found, c, fetched, failed);
    } else {
      NothingToLookUp(events, found);
    }
    cache := fetched;
    if failed {
      filtered := [];
      return;
    }
    filtered := FilterByCache(target, events, fetched);
    if KeysAgree(api, target, events) {
      CachedFilterIsNaive(api, target, events, cache);
    }
  }

  lemma NothingToLookUp(events: seq<EventInfo>, lookups: seq<Lookup>)
    requires forall l :: l in lookups <==> exists e :: e in events && LookupOf(e) == l
    ensures lookups == [] ==> events == []
  {
    if events != [] {
      assert LookupOf(events[0]) in lookups;
    }
  }

  method FilterByCache(target: string, events: seq<EventInfo>, cache: map<string, bool>)
    returns (filtered: seq<EventInfo>)
    ensures filtered == Filter(events, InCache(target, cache))
  {
    filtered := [];
    for i := 0 to |events|
      invariant filtered == Filter(events[..i], InCache(target, cache))
    {
      FilterPrefix(events, i, InCache(target, cache));
      var key := CacheKey(target, LookupOf(events[i]));
      if key in cache && cache[key] {
        filtered := filtered + [events[i]];
      }
    }
    assert events[..|events|] == events;
  }

  lemma FetchedCovers(api: Lookup -> Fetch, target: string, events: seq<EventInfo>, lookups: seq<Lookup>,
                      c: Config, cache: map<string, bool>, failed: bool)
    requires c == Config(KeysOf(target, lookups), AnswersOf(api, target, lookups))
    requires forall l :: l in lookups <==> exists e :: e in events && LookupOf(e) == l
    requires failed <==> Error in c.answers
    requires !failed ==>
               && (forall i :: 0 <= i < c.Size() ==> c.keys[i] in cache)
               && (forall key :: key in cache ==>
                     exists i :: 0 <= i < c.Size() && c.keys[i] == key && c.answers[i] == Label(cache[key]))
    ensures failed <==> exists e :: e in events && CheckObject(api, LookupOf(e), target).Error?
    ensures !failed ==> CacheCovers(api, target, events, cache)
  {
    forall e | e in events
      ensures exists i :: 0 <= i < |lookups| && lookups[i] == LookupOf(e)
    {
      assert LookupOf(e) in lookups;
    }
    if failed {
      var i :| 0 <= i < |c.answers| && c.answers[i] == Error;
      assert lookups[i] in lookups;
    } else {
      forall e | e in events
        ensures CacheKey(target, LookupOf(e)) in cache && !CheckObject(api, LookupOf(e), target).Error?
      {
        var i :| 0 <= i < |lookups| && lookups[i] == LookupOf(e);
        assert c.keys[i] in cache && c.answers[i] in c.answers;
      }
      forall key | key in cache
        ensures exists e :: e in events && CacheKey(target, LookupOf(e)) == key
                            && CheckObject(api, LookupOf(e), target) == Label(cache[key])
      {
        var i :| 0 <= i < c.Size() && c.keys[i] == key && c.answers[i] == Label(cache[key]);
        assert lookups[i] in lookups;
      }
    }
  }

  // ---- When the cached filter is the naive one ----

  lemma {:induction false} FilterSame(events: seq<EventInfo>, p: EventInfo -> bool, q: EventInfo -> bool)
    ensures (Filter(events, p) == Filter(events, q)) <==> forall e :: e in events ==> p(e) == q(e)
  {
    if forall e :: e in events ==> p(e) == q(e) {
      FilterAgrees(events, p, q);
    } else {
      var e :| e in events && p(e) != q(e);
      assert e in Filter(events, p) <==> p(e);
      assert e in Filter(events, q) <==> q(e);
    }
  }

  lemma {:induction false} FilterAgrees(events: seq<EventInfo>, p: EventInfo -> bool, q: EventInfo -> bool)
    requires forall e :: e in events ==> p(e) == q(e)
    ensures Filter(events, p) == Filter(events, q)
  {
    if events != [] {
      FilterAgrees(events[1..], p, q);
    }
  }

  lemma CachedFilterIsNaive(api: Lookup -> Fetch, target: string, events: seq<EventInfo>, cache: map<string, bool>)
    requires CacheCovers(api, target, events, cache) && KeysAgree(api, target, events)
    ensures Filter(events, InCache(target, cache)) == Filter(events, Belongs(api, target))
  {
    forall e | e in events ensures InCache(target, cache)(e) == Belongs(api, target)(e) {
      var key := CacheKey(target, LookupOf(e));
      assert key in cache;
      var f :| f in events && CacheKey(target, LookupOf(f)) == key
          && CheckObject(api, LookupOf(f), target) == Label(cache[key]);
      assert CheckObject(api, LookupOf(e), target) == CheckObject(api, LookupOf(f), target);
    }
    FilterSame(events, InCache(target, cache), Belongs(api, target));
  }

  /** With no failing lookup, whatever cache the schedule leaves, the filter is the naive one
      iff objects that share a key were answered alike. */
  lemma NaiveIffKeysAgree(api: Lookup -> Fetch, target: string, events: seq<EventInfo>, cache: map<string, bool>)
    requires CacheCovers(api, target, events, cache)
    requires NoLookupFails(api, target, events)
    ensures Filter(events, InCache(target, cache)) == Filter(events, Belongs(api, target))
            <==> KeysAgree(api, target, events)
  {
    if KeysAgree(api, target, events) {
      CachedFilterIsNaive(api, target, events, cache);
    } else {
      var e, f :| e in events && f in events && CacheKey(target, LookupOf(e)) == CacheKey(target, LookupOf(f))
                  && CheckObject(api, LookupOf(e), target) != CheckObject(api, LookupOf(f), target);
      assert InCache(target, cache)(e) == InCache(target, cache)(f);
      assert Belongs(api, target)(e) != Belongs(api, target)(f);
      FilterSame(events, InCache(target, cache), Belongs(api, target));
    }
  }

  // ---- When the cached filter is the naive one, whatever the API answers ----

  /** Events that share a key are about one object, or about objects that nobody looks up. */
  predicate KeysTellApart(target: string, events: seq<EventInfo>) {
    forall e, f :: e in events && f in events && CacheKey(target, LookupOf(e)) == CacheKey(target, LookupOf(f)) ==>
      LookupOf(e) == LookupOf(f) || (e.kind !in KINDS && f.kind !in KINDS)
  }

  predicate NoLookupFails(api: Lookup -> Fetch, target: string, events: seq<EventInfo>) {
    forall e :: e in events ==> !CheckObject(api, LookupOf(e), target).Error?
  }

  lemma TellingApartAgrees(api: Lookup -> Fetch, target: string, events: seq<EventInfo>)
    requires KeysTellApart(target, events)
    ensures KeysAgree(api, target, events)
  {
  }

  /** An API at which only the object `l` carries the component's label. */
  function OnlyLabelled(l: Lookup, target: string): Lookup -> Fetch {
    (k: Lookup) => if k == l then Labels(map[COMPONENT_LABEL_KEY := target]) else NotFound
  }

  lemma OnlyLabelledDisagrees(target: string, events: seq<EventInfo>, e: EventInfo, f: EventInfo)
    requires e in events && f in events && CacheKey(target, LookupOf(e)) == CacheKey(target, LookupOf(f))
    requires LookupOf(e) != LookupOf(f) && e.kind in KINDS
    ensures var api := OnlyLabelled(LookupOf(e), target);
            NoLookupFails(api, target, events) && !KeysAgree(api, target, events)
  {
    var api := OnlyLabelled(LookupOf(e), target);
    assert CheckObject(api, LookupOf(e), target) == Label(true);
    assert CheckObject(api, LookupOf(f), target) == Label(false);
  }

  /** If keys do not tell objects apart, the API may answer so that no cache is right. */
  lemma ConfusingApi(target: string, events: seq<EventInfo>) returns (api: Lookup -> Fetch)
    requires !KeysTellApart(target, events)
    ensures NoLookupFails(api, target, events) && !KeysAgree(api, target, events)
  {
    var e, f :| e in events && f in events && CacheKey(target, LookupOf(e)) == CacheKey(target, LookupOf(f))
                && LookupOf(e) != LookupOf(f) && (e.kind in KINDS || f.kind in KINDS);
    if e.kind in KINDS {
      api := OnlyLabelled(LookupOf(e), target);
      OnlyLabelledDisagrees(target, events, e, f);
    } else {
      api := OnlyLabelled(LookupOf(f), target);
      OnlyLabelledDisagrees(target, events, f, e);
    }
  }

  /** Whatever the API answers, there is a cache that a fetch may end with. */
  lemma {:induction false} SomeCacheCovers(api: Lookup -> Fetch, target: string, events: seq<EventInfo>)
    returns (cache: map<string, bool>)
    requires NoLookupFails(api, target, events)
    ensures CacheCovers(api, target, events, cache)
  {
    if events == [] {
      cache := map[];
    } else {
      var front, e := events[..|events| - 1], events[|events| - 1];
      assert events == front + [e];
      var earlier := SomeCacheCovers(api, target, front);
      cache := earlier[CacheKey(target, LookupOf(e)) := CheckObject(api, LookupOf(e), target).has];
      forall key | key in cache
        ensures exists f :: f in events && CacheKey(target, LookupOf(f)) == key
                            && CheckObject(api, LookupOf(f), target) == Label(cache[key])
      {
        if key == CacheKey(target, LookupOf(e)) {
          assert e in events;
        } else {
          var f :| f in front && CacheKey(target, LookupOf(f)) == key
                   && CheckObject(api, LookupOf(f), target) == Label(earlier[key]);
          assert f in events;
        }
      }
    }
  }

  /** The filter by this cache is the naive one. */
  ghost predicate FiltersRight(api: Lookup -> Fetch, target: string, events: seq<EventInfo>, cache: map<string, bool>) {
    Filter(events, InCache(target, cache)) == Filter(events, Belongs(api, target))
  }

  /** The cached filter is the naive one for every API at which no lookup fails, and for every
      cache that a schedule may leave, iff keys tell the looked-up objects of the events apart. */
  lemma AlwaysNaiveIffKeysTellApart(target: string, events: seq<EventInfo>)
    ensures (forall api: Lookup -> Fetch, cache: map<string, bool> ::
               NoLookupFails(api, target, events) && CacheCovers(api, target, events, cache) ==>
                 FiltersRight(api, target, events, cache))
            <==> KeysTellApart(target, events)
  {
    if KeysTellApart(target, events) {
      forall api: Lookup -> Fetch, cache: map<string, bool>
        | NoLookupFails(api, target, events) && CacheCovers(api, target, events, cache)
        ensures FiltersRight(api, target, events, cache)
      {
        TellingApartAgrees(api, target, events);
        NaiveIffKeysAgree(api, target, events, cache);
      }
    } else {
      var api := ConfusingApi(target, events);
      var cache := SomeCacheCovers(api, target, events);
      NaiveIffKeysAgree(api, target, events, cache);
      assert !FiltersRight(api, target, events, cache);
    }
  }

  const POD := EventInfo("a", "Pod", "Pod/b", "", "")
  const OTHER_POD := EventInfo("a/Pod", "Pod", "b", "", "")

  lemma CacheKeyCollision()
    ensures LookupOf(POD) != LookupOf(OTHER_POD) && POD.kind in KINDS && OTHER_POD.kind in KINDS
    ensures CacheKey("ray", LookupOf(POD)) == CacheKey("ray", LookupOf(OTHER_POD))
  {
    assert CacheKey("ray", LookupOf(POD)) == "ray/a/Pod/Pod/b";
    assert CacheKey("ray", LookupOf(OTHER_POD)) == "ray/a/Pod/Pod/b";
  }

  /** Two pods with one key, of which only the first belongs to the component: no cache that a
      schedule may leave filters them right. A cluster has no such namespace; see RealApiAgrees. */
  lemma CollidingPodsExample(cache: map<string, bool>)
    requires CacheCovers(OnlyLabelled(LookupOf(POD), "ray"), "ray", [POD, OTHER_POD], cache)
    ensures !FiltersRight(OnlyLabelled(LookupOf(POD), "ray"), "ray", [POD, OTHER_POD], cache)
  {
    CacheKeyCollision();
    var events := [POD, OTHER_POD];
    assert POD == events[0] && OTHER_POD == events[1];
    OnlyLabelledDisagrees("ray", events, POD, OTHER_POD);
    NaiveIffKeysAgree(OnlyLabelled(LookupOf(POD), "ray"), "ray", events, cache);
  }
}
