/** The dependency manifest as a graph: what a dependency needs, directly or not, and who
    needs it. The graph may have cycles and edges to names the manifest does not define. */
module DependencyGraph {
  import opened Strings

  /** A manifest value that switches an edge on or off. */
  datatype Setting = BoolSetting(b: bool) | StrSetting(s: string) | OtherSetting

  predicate IsEnabled(v: Setting) {
    match v
    case BoolSetting(b) => b
    case StrSetting(s) => s == "true" || s == "auto"
    case OtherSetting => false
  }

  type Edges = map<string, Setting>

  datatype Manifest = Manifest(dependencies: map<string, Edges>, components: map<string, Edges>)

  predicate HasEdge(owners: map<string, Edges>, a: string, b: string) {
    a in owners && b in owners[a] && IsEnabled(owners[a][b])
  }

  /** An edge is there iff the manifest lists it with true, "true" or "auto". */
  lemma EdgeIff(owners: map<string, Edges>, a: string, b: string)
    ensures HasEdge(owners, a, b) <==>
              a in owners && b in owners[a]
              && owners[a][b] in {BoolSetting(true), StrSetting("true"), StrSetting("auto")}
  {
  }

  // ---- Reachability ----

  /** A path of enabled edges from `a` to `b` that stays clear of `avoid`. */
  ghost predicate IsPath(m: Manifest, p: seq<string>, a: string, b: string, avoid: set<string>) {
    && |p| > 0 && p[0] == a && p[|p| - 1] == b
    && (forall i :: 0 <= i < |p| - 1 ==> HasEdge(m.dependencies, p[i], p[i + 1]))
    && (forall i :: 0 <= i < |p| ==> p[i] !in avoid)
  }

  ghost predicate Reaches(m: Manifest, a: string, b: string, avoid: set<string>) {
    exists p :: IsPath(m, p, a, b, avoid)
  }

  lemma ReachesSelf(m: Manifest, a: string, avoid: set<string>)
    requires a !in avoid
    ensures Reaches(m, a, a, avoid)
  {
    assert IsPath(m, [a], a, a, avoid);
  }

  lemma ReachesVia(m: Manifest, a: string, t: string, b: string, avoid: set<string>, more: set<string>)
    requires HasEdge(m.dependencies, a, t) && a !in avoid && avoid <= more && Reaches(m, t, b, more)
    ensures Reaches(m, a, b, avoid)
  {
    var p :| IsPath(m, p, t, b, more);
    assert IsPath(m, [a] + p, a, b, avoid);
  }

  lemma ReachesOn(m: Manifest, a: string, x: string, y: string, avoid: set<string>)
    requires Reaches(m, a, x, avoid) && HasEdge(m.dependencies, x, y) && y !in avoid
    ensures Reaches(m, a, y, avoid)
  {
    var p :| IsPath(m, p, a, x, avoid);
    assert IsPath(m, p + [y], a, y, avoid);
  }

  ghost predicate ClosedOutside(m: Manifest, s: set<string>, avoid: set<string>) {
    forall x, y :: x in s && x !in avoid && HasEdge(m.dependencies, x, y) ==> y in s
  }

  /** A path that avoids a set cannot leave a superset that is closed outside of it. */
  lemma {:induction false} ClosedHoldsPath(m: Manifest, s: set<string>, avoid: set<string>, p: seq<string>,
                                           a: string, b: string)
    requires ClosedOutside(m, s, avoid) && a in s && IsPath(m, p, a, b, avoid)
    ensures b in s
    decreases |p|
  {
    if |p| > 1 {
      assert HasEdge(m.dependencies, p[0], p[1]);
      assert IsPath(m, p[1..], p[1], b, avoid);
      ClosedHoldsPath(m, s, avoid, p[1..], p[1], b);
    }
  }

  // ---- Depth-first search ----

  /** Every name the search can come across. */
  function Names(m: Manifest): set<string> {
    m.dependencies.Keys + (set a, b | a in m.dependencies && b in m.dependencies[a] :: b)
  }

  /** The `visited` map, shared by all calls of one search. */
  class Visited {
    var marked: set<string>

    constructor ()
      ensures marked == {}
    {
      marked := {};
    }
  }

  /** Marks exactly what `name` reaches by paths that avoid the names marked before, whether
      or not the graph has cycles and whatever order the edges are tried in. */
  method CollectTransitiveDeps(m: Manifest, name: string, visited: Visited, ghost universe: set<string>)
    requires name in universe && Names(m) <= universe
    modifies visited
    ensures forall x :: x in visited.marked <==> x in old(visited.marked) || Reaches(m, name, x, old(visited.marked))
    decreases universe - visited.marked
  {
    ghost var before := visited.marked;
    if name in visited.marked {
      return;
    }
    visited.marked := visited.marked + {name};
    ReachesSelf(m, name, before);
    if name in m.dependencies {
      var edges := m.dependencies[name];
      var todo := edges.Keys;
      while todo != {}
        invariant todo <= edges.Keys
        invariant before + {name} <= visited.marked
        invariant forall x :: x in visited.marked ==> x in before || Reaches(m, name, x, before)
        invariant ClosedOutside(m, visited.marked, before + {name})
        invariant forall t :: HasEdge(m.dependencies, name, t) && t !in todo ==> t in visited.marked
        decreases todo
      {
        var t :| t in todo;
        todo := todo - {t};
        if IsEnabled(edges[t]) {
          ghost var middle := visited.marked;
          CollectTransitiveDeps(m, t, visited, universe);
          SearchStep(m, name, t, before, middle, visited.marked);
        }
      }
    }
    assert ClosedOutside(m, visited.marked, before);
    forall x | Reaches(m, name, x, before) ensures x in visited.marked {
      var p :| IsPath(m, p, name, x, before);
      ClosedHoldsPath(m, visited.marked, before, p, name, x);
    }
  }

  /** What one edge of the search adds is reachable, and leaves the rest closed. */
  lemma SearchStep(m: Manifest, name: string, t: string, before: set<string>, middle: set<string>, after: set<string>)
    requires HasEdge(m.dependencies, name, t) && name !in before && before + {name} <= middle
    requires forall x :: x in after <==> x in middle || Reaches(m, t, x, middle)
    requires ClosedOutside(m, middle, before + {name})
    ensures middle <= after && t in after
    ensures forall x :: x in after && x !in middle ==> Reaches(m, name, x, before)
    ensures ClosedOutside(m, after, before + {name})
  {
    if t !in middle {
      ReachesSelf(m, t, middle);
    }
    forall x | x in after && x !in middle ensures Reaches(m, name, x, before) {
      ReachesVia(m, name, t, x, before, middle);
    }
    forall x, y | x in after && x !in before + {name} && HasEdge(m.dependencies, x, y) ensures y in after {
      if x !in middle && y !in middle {
        ReachesOn(m, t, x, y, middle);
      }
    }
  }

  // ---- buildDepMap ----

  function DisplayName(display: map<string, string>, name: string): string {
    if name in display then display[name] else name
  }

  function DisplayNames(display: map<string, string>, names: seq<string>): seq<string> {
    if names == [] then [] else [DisplayName(display, names[0])] + DisplayNames(display, names[1..])
  }

  ghost predicate Enumerates(names: seq<string>, s: set<string>) {
    && (forall i, j :: 0 <= i < j < |names| ==> names[i] != names[j])
    && (forall x :: x in names <==> x in s)
  }

  /** The display names of a set, sorted; a display name shared by two names is listed twice. */
  ghost predicate Lists(display: map<string, string>, list: seq<string>, s: set<string>) {
    Sorted(list) && exists names :: Enumerates(names, s) && multiset(list) == multiset(DisplayNames(display, names))
  }

  /** Everything a dependency needs, directly or not, but itself. */
  ghost function NeedsOf(m: Manifest, name: string): set<string> {
    set x | x in Names(m) && x != name && Reaches(m, name, x, {})
  }

  lemma ReachedIsNamed(m: Manifest, a: string, b: string)
    requires Reaches(m, a, b, {}) && b != a
    ensures b in Names(m)
  {
    var p :| IsPath(m, p, a, b, {});
    assert HasEdge(m.dependencies, p[|p| - 2], p[|p| - 2 + 1]);
  }

  lemma {:induction false} DisplayNamesAppend(display: map<string, string>, names: seq<string>, x: string)
    ensures DisplayNames(display, names + [x]) == DisplayNames(display, names) + [DisplayName(display, x)]
  {
    if names == [] {
      assert [] + [x] == [x];
    } else {
      assert (names + [x])[1..] == names[1..] + [x];
      DisplayNamesAppend(display, names[1..], x);
    }
  }

  lemma EnumeratesMore(names: seq<string>, s: set<string>, x: string)
    requires Enumerates(names, s) && x !in s
    ensures Enumerates(names + [x], s + {x})
  {
  }

  method ListDisplayNames(display: map<string, string>, s: set<string>) returns (list: seq<string>)
    ensures Lists(display, list, s)
  {
    var todo, unsorted := s, [];
    ghost var names: seq<string> := [];
    while todo != {}
      invariant todo <= s
      invariant Enumerates(names, s - todo)
      invariant unsorted == DisplayNames(display, names)
      decreases todo
    {
      var x :| x in todo;
      DisplayNamesAppend(display, names, x);
      EnumeratesMore(names, s - todo, x);
      assert s - (todo - {x}) == s - todo + {x};
      unsorted := unsorted + [DisplayName(display, x)];
      names := names + [x];
      todo := todo - {x};
    }
    list := Sort(unsorted);
  }

  /** The full transitive closure, one sorted list per dependency. */
  method BuildDepMap(m: Manifest, display: map<string, string>) returns (depMap: map<string, seq<string>>)
    ensures depMap.Keys == m.dependencies.Keys
    ensures forall name :: name in depMap ==> Lists(display, depMap[name], NeedsOf(m, name))
  {
    depMap := map[];
    var todo := m.dependencies.Keys;
    while todo != {}
      invariant todo <= m.dependencies.Keys && depMap.Keys == m.dependencies.Keys - todo
      invariant forall name :: name in depMap ==> Lists(display, depMap[name], NeedsOf(m, name))
      decreases todo
    {
      var name :| name in todo;
      var visited := new Visited();
      CollectTransitiveDeps(m, name, visited, Names(m));
      var needs := visited.marked - {name};
      forall x ensures x in needs <==> x in NeedsOf(m, name) {
        if x in needs {
          ReachedIsNamed(m, name, x);
        }
      }
      assert needs == NeedsOf(m, name);
      var list := ListDisplayNames(display, needs);
      depMap := depMap[name := list];
      todo := todo - {name};
    }
  }

  // ---- The listing does not depend on the order of map iteration ----

  lemma {:induction false} DisplayNamesSplit(display: map<string, string>, a: seq<string>, b: seq<string>)
    ensures DisplayNames(display, a + b) == DisplayNames(display, a) + DisplayNames(display, b)
  {
    if a == [] {
      assert a + b == b;
    } else {
      assert (a + b)[1..] == a[1..] + b;
      DisplayNamesSplit(display, a[1..], b);
    }
  }

  lemma NothingEnumerated(a: seq<string>, s: set<string>)
    requires Enumerates(a, s)
    ensures s == {} ==> a == []
  {
    if a != [] {
      assert a[0] in s;
    }
  }

  lemma {:induction false} EnumerationsAgree(display: map<string, string>, a: seq<string>, b: seq<string>,
                                             s: set<string>)
    requires Enumerates(a, s) && Enumerates(b, s)
    ensures multiset(DisplayNames(display, a)) == multiset(DisplayNames(display, b))
    decreases |a|
  {
    if a == [] {
      assert s == {};
      NothingEnumerated(b, s);
    } else {
      assert a[0] in b;
      var j :| 0 <= j < |b| && b[j] == a[0];
      EnumeratesRest(a, s, 0);
      EnumeratesRest(b, s, j);
      assert a[..0] + a[1..] == a[1..];
      EnumerationsAgree(display, a[1..], b[..j] + b[j + 1..], s - {a[0]});
      DisplayNamesPull(display, a, 0);
      DisplayNamesPull(display, b, j);
    }
  }

  lemma DisplayNamesPull(display: map<string, string>, a: seq<string>, j: nat)
    requires j < |a|
    ensures multiset(DisplayNames(display, a))
            == multiset{DisplayName(display, a[j])} + multiset(DisplayNames(display, a[..j] + a[j + 1..]))
  {
    var front, back := a[..j], a[j + 1..];
    assert a == front + ([a[j]] + back);
    DisplayNamesSplit(display, front, [a[j]] + back);
    DisplayNamesSplit(display, [a[j]], back);
    DisplayNamesSplit(display, front, back);
    assert DisplayNames(display, [a[j]]) == [DisplayName(display, a[j])];
  }

  lemma EnumeratesRest(a: seq<string>, s: set<string>, j: nat)
    requires Enumerates(a, s) && j < |a|
    ensures Enumerates(a[..j] + a[j + 1..], s - {a[j]})
  {
    var r := a[..j] + a[j + 1..];
    forall x ensures x in r <==> x in s - {a[j]} {
      if x in s - {a[j]} {
        var i :| 0 <= i < |a| && a[i] == x;
        assert r[if i < j then i else i - 1] == x;
      }
      if x in r {
        var i :| 0 <= i < |r| && r[i] == x;
        assert a[if i < j then i else i + 1] == x;
      }
    }
  }

  lemma ListingIsUnique(display: map<string, string>, a: seq<string>, b: seq<string>, s: set<string>)
    requires Lists(display, a, s) && Lists(display, b, s)
    ensures a == b
  {
    var names :| Enumerates(names, s) && multiset(a) == multiset(DisplayNames(display, names));
    var others :| Enumerates(others, s) && multiset(b) == multiset(DisplayNames(display, others));
    EnumerationsAgree(display, names, others, s);
    SortedIsUnique(a, b);
  }

  lemma {:induction false} DisplayedIff(display: map<string, string>, names: seq<string>, d: string)
    ensures d in DisplayNames(display, names)
            <==> exists x :: x in names && d == if x in display then display[x] else x
  {
    if names != [] {
      DisplayedIff(display, names[1..], d);
      assert forall x :: x in names <==> x == names[0] || x in names[1..];
    }
  }

  /** A listing shows something iff it is what some member is called: its display name if the table
      has one, else its own. */
  lemma ListingShowsIff(display: map<string, string>, list: seq<string>, s: set<string>, d: string)
    requires Lists(display, list, s)
    ensures d in list <==> exists x :: x in s && d == if x in display then display[x] else x
  {
    var names :| Enumerates(names, s) && multiset(list) == multiset(DisplayNames(display, names));
    DisplayedIff(display, names, d);
    SameMembers(list, DisplayNames(display, names));
    SameMembers(DisplayNames(display, names), list);
  }

  // ---- buildRequiredByMap ----

  predicate Has(sets: map<string, set<string>>, key: string, d: string) {
    key in sets && d in sets[key]
  }

  /** Some owner with display name `d` has an enabled edge to `key`. */
  ghost predicate OwnedAs(display: map<string, string>, owners: map<string, Edges>, key: string, d: string) {
    exists o :: HasEdge(owners, o, key) && DisplayName(display, o) == d
  }

  ghost predicate NoneEmpty(sets: map<string, set<string>>) {
    forall key :: key in sets ==> sets[key] != {}
  }

  method AddOwner(before: map<string, set<string>>, edges: Edges, d: string) returns (sets: map<string, set<string>>)
    requires NoneEmpty(before)
    ensures NoneEmpty(sets)
    ensures forall key, e :: Has(sets, key, e) <==>
              Has(before, key, e) || (e == d && key in edges && IsEnabled(edges[key]))
  {
    sets := before;
    var todo := edges.Keys;
    while todo != {}
      invariant todo <= edges.Keys && NoneEmpty(sets)
      invariant forall key, e :: Has(sets, key, e) <==>
                  Has(before, key, e) || (e == d && key in edges && key !in todo && IsEnabled(edges[key]))
      decreases todo
    {
      var key :| key in todo;
      if IsEnabled(edges[key]) {
        var entry := if key in sets then sets[key] else {};
        sets := sets[key := entry + {d}];
      }
      todo := todo - {key};
    }
  }

  method AddOwners(before: map<string, set<string>>, owners: map<string, Edges>, display: map<string, string>)
    returns (sets: map<string, set<string>>)
    requires NoneEmpty(before)
    ensures NoneEmpty(sets)
    ensures forall key, d :: Has(sets, key, d) <==> Has(before, key, d) || OwnedAs(display, owners, key, d)
  {
    sets := before;
    var todo := owners.Keys;
    ghost var seen: map<string, Edges> := map[];
    while todo != {}
      invariant todo <= owners.Keys && NoneEmpty(sets)
      invariant seen == map o | o in owners && o !in todo :: owners[o]
      invariant forall key, d :: Has(sets, key, d) <==> Has(before, key, d) || OwnedAs(display, seen, key, d)
      decreases todo
    {
      var o :| o in todo;
      ghost var middle, seenBefore := sets, seen;
      sets := AddOwner(sets, owners[o], DisplayName(display, o));
      todo := todo - {o};
      seen := map o | o in owners && o !in todo :: owners[o];
      forall key, d
        ensures OwnedAs(display, seen, key, d) <==>
                OwnedAs(display, seenBefore, key, d)
                || (d == DisplayName(display, o) && key in owners[o] && IsEnabled(owners[o][key]))
      {
        OwnerAdded(display, owners, seenBefore, seen, o, key, d);
      }
    }
    assert seen == owners;
  }

  lemma OwnerAdded(display: map<string, string>, owners: map<string, Edges>, before: map<string, Edges>,
                   after: map<string, Edges>, o: string, key: string, d: string)
    requires o in owners && o !in before && after == before[o := owners[o]]
    ensures OwnedAs(display, after, key, d) <==>
            OwnedAs(display, before, key, d)
            || (d == DisplayName(display, o) && key in owners[o] && IsEnabled(owners[o][key]))
  {
    if OwnedAs(display, before, key, d) {
      var p :| HasEdge(before, p, key) && DisplayName(display, p) == d;
      assert HasEdge(after, p, key);
    }
    if d == DisplayName(display, o) && key in owners[o] && IsEnabled(owners[o][key]) {
      assert HasEdge(after, o, key);
    }
    if OwnedAs(display, after, key, d) {
      var p :| HasEdge(after, p, key) && DisplayName(display, p) == d;
      assert p == o || HasEdge(before, p, key);
    }
  }

  /** A component or a dependency shown as `d` needs `key` directly. */
  ghost predicate RequiredAs(m: Manifest, display: map<string, string>, key: string, d: string) {
    OwnedAs(display, m.components, key, d) || OwnedAs(display, m.dependencies, key, d)
  }

  /** The inverse of the enabled edges: a key for every name that something needs, with the
      display names of exactly the owners that need it, strictly ascending. */
  ghost predicate InvertsEdges(m: Manifest, display: map<string, string>, requiredBy: map<string, seq<string>>) {
    && (forall key :: key in requiredBy ==> StrictlySorted(requiredBy[key]) && requiredBy[key] != [])
    && (forall key, d :: (key in requiredBy && d in requiredBy[key]) <==> RequiredAs(m, display, key, d))
  }

  /** A name is required by what some owner with an edge to it is called. */
  lemma RequiredByIff(m: Manifest, display: map<string, string>, requiredBy: map<string, seq<string>>,
                      key: string, d: string)
    requires InvertsEdges(m, display, requiredBy)
    ensures (key in requiredBy && d in requiredBy[key]) <==>
              exists o :: (HasEdge(m.components, o, key) || HasEdge(m.dependencies, o, key))
                          && d == if o in display then display[o] else o
  {
    assert (key in requiredBy && d in requiredBy[key]) <==> RequiredAs(m, display, key, d);
  }

  method BuildRequiredByMap(m: Manifest, display: map<string, string>) returns (requiredBy: map<string, seq<string>>)
    ensures InvertsEdges(m, display, requiredBy)
  {
    var sets: map<string, set<string>> := map[];
    sets := AddOwners(sets, m.components, display);
    sets := AddOwners(sets, m.dependencies, display);
    requiredBy := map[];
    var todo := sets.Keys;
    while todo != {}
      invariant todo <= sets.Keys && requiredBy.Keys == sets.Keys - todo
      invariant forall key :: key in requiredBy ==>
                  StrictlySorted(requiredBy[key]) && forall d :: d in requiredBy[key] <==> d in sets[key]
      decreases todo
    {
      var key :| key in todo;
      var list := SortedList(sets[key]);
      requiredBy := requiredBy[key := list];
      todo := todo - {key};
    }
    forall key | key in requiredBy ensures requiredBy[key] != [] {
      var d :| d in sets[key];
      assert d in requiredBy[key];
    }
    forall key, d
      ensures (key in requiredBy && d in requiredBy[key]) <==> RequiredAs(m, display, key, d)
    {
      assert (key in requiredBy && d in requiredBy[key]) <==> Has(sets, key, d);
    }
  }

  /** The two printed views agree: an enabled edge between two different dependencies shows up
      among what the one depends on and among what the other is required by. */
  lemma EdgeShowsInBothViews(m: Manifest, display: map<string, string>, a: string, b: string,
                             depMap: map<string, seq<string>>, requiredBy: map<string, seq<string>>)
    requires a in depMap && Lists(display, depMap[a], NeedsOf(m, a)) && InvertsEdges(m, display, requiredBy)
    requires HasEdge(m.dependencies, a, b) && a != b
    ensures DisplayName(display, b) in depMap[a]
    ensures b in requiredBy && DisplayName(display, a) in requiredBy[b]
  {
    assert IsPath(m, [a, b], a, b, {});
    ReachedIsNamed(m, a, b);
    ListingShowsIff(display, depMap[a], NeedsOf(m, a), DisplayName(display, b));
    assert OwnedAs(display, m.dependencies, b, DisplayName(display, a));
    assert RequiredAs(m, display, b, DisplayName(display, a));
  }
}
