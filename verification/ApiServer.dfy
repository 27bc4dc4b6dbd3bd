/** The cluster API as the migration sees it: an object store shared with other writers,
    with optimistic concurrency on resource versions, and a log of the requests it served. */
module ApiServer {
  import opened Json

  datatype Id = Id(ns: string, name: string)

  datatype Answer = Found(doc: Object) | Missing | Unavailable

  type Store = map<Id, Object>

  /** A served request. Update and Create record the store right before and right after. */
  datatype Call =
    | Get(id: Id, answer: Answer)
    | Update(id: Id, doc: Object, before: Store, after: Store, ok: bool)
    | Delete(id: Id, ok: bool)
    | Create(id: Id, doc: Object, ok: bool)
    | ListAccounts(ns: string, names: seq<string>)
    | DeleteAccount(ns: string, name: string)

  function MetaString(doc: Object, key: string): string {
    if "metadata" in doc && doc["metadata"].Map? then GetString(doc["metadata"].fields, key) else ""
  }

  function VersionOf(doc: Object): string { MetaString(doc, "resourceVersion") }

  function UidOf(doc: Object): string { MetaString(doc, "uid") }

  /** `SetResourceVersion` and `SetUID`: the empty string removes the field, and a missing
      `metadata` map is created unless something else is stored there. */
  function SetMeta(doc: Object, key: string, value: string): Object {
    if value == "" then
      if "metadata" in doc && doc["metadata"].Map? then doc["metadata" := Map(doc["metadata"].fields - {key})] else doc
    else if "metadata" !in doc then doc["metadata" := Map(map[key := Str(value)])]
    else if doc["metadata"].Map? then doc["metadata" := Map(doc["metadata"].fields[key := Str(value)])]
    else doc
  }

  /** The server refuses an update of a missing object, and one that carries a version or a
      uid other than the stored one; an update that carries none is unconditional. */
  predicate Accepts(store: Store, id: Id, doc: Object) {
    && id in store
    && (VersionOf(doc) != "" ==> VersionOf(doc) == VersionOf(store[id]))
    && (UidOf(doc) != "" ==> UidOf(doc) == UidOf(store[id]))
  }

  /** The store after an accepted update that is given version `v`. */
  function AfterUpdate(store: Store, id: Id, doc: Object, v: string): Store {
    store[id := SetMeta(doc, "resourceVersion", v)]
  }

  class Server {
    var store: Store
    var history: map<(Id, string), Object>  // the document that each version of an object named
    ghost var calls: seq<Call>

    /** A non-empty version names one document. */
    predicate Consistent(s: Store, h: map<(Id, string), Object>) {
      forall id :: id in s && VersionOf(s[id]) != "" ==>
        (id, VersionOf(s[id])) in h && h[(id, VersionOf(s[id]))] == s[id]
    }

    predicate Grows(h: map<(Id, string), Object>, h': map<(Id, string), Object>) {
      forall k :: k in h ==> k in h' && h'[k] == h[k]
    }

    ghost predicate Valid()
      reads this
    {
      Consistent(store, history)
    }

    /** Other writers may do anything to the store that does not reuse a version. */
    method Interfere()
      requires Valid()
      modifies this`store, this`history
      ensures Valid() && Grows(old(history), history)
    {
      var s: Store, h: map<(Id, string), Object> := *, *;
      if Consistent(s, h) && Grows(history, h) {
        store, history := s, h;
      }
    }

    method GetObject(id: Id) returns (answer: Answer)
      requires Valid()
      modifies this
      ensures Valid() && Grows(old(history), history)
      ensures calls == old(calls) + [Get(id, answer)]
      ensures answer.Found? && VersionOf(answer.doc) != "" ==>
                (id, VersionOf(answer.doc)) in history && history[(id, VersionOf(answer.doc))] == answer.doc
    {
      Interfere();
      if * {
        answer := Unavailable;
      } else {
        answer := if id in store then Found(store[id]) else Missing;
      }
      calls := calls + [Get(id, answer)];
    }

    /** An accepted update replaces the document under a version never used before, or keeps the
        stored version when it changes nothing. */
    method UpdateObject(id: Id, doc: Object) returns (ok: bool, ghost before: Store, ghost after: Store)
      requires Valid()
      modifies this
      ensures Valid() && Grows(old(history), history)
      ensures calls == old(calls) + [Update(id, doc, before, after, ok)]
      ensures ok ==> Accepts(before, id, doc) && exists v :: after == AfterUpdate(before, id, doc, v)
      ensures !ok ==> after == before
      ensures id in before && VersionOf(before[id]) != "" ==>
                (id, VersionOf(before[id])) in history && history[(id, VersionOf(before[id]))] == before[id]
    {
      Interfere();
      before := store;
      ok := false;
      if Accepts(store, id, doc) {
        var v: string := *;
        if SetMeta(doc, "resourceVersion", VersionOf(store[id])) == store[id] {
          ok := true;
          assert AfterUpdate(before, id, doc, VersionOf(store[id])) == store;
        } else if VersionOf(SetMeta(doc, "resourceVersion", v)) == v && (id, v) !in history {
          // a `metadata` that is not a map cannot carry the new version: the server rejects it
          store := AfterUpdate(store, id, doc, v);
          if v != "" {
            history := history[(id, v) := store[id]];
          }
          ok := true;
        }
      }
      after := store;
      calls := calls + [Update(id, doc, before, after, ok)];
    }

    /** A deletion that is accepted may complete later. */
    method DeleteObject(id: Id) returns (ok: bool)
      requires Valid()
      modifies this
      ensures Valid() && calls == old(calls) + [Delete(id, ok)]
    {
      Interfere();
      var completed: bool;
      ok, completed := *, *;
      if ok && completed {
        store := store - {id};
      }
      calls := calls + [Delete(id, ok)];
    }

    method CreateObject(id: Id, doc: Object) returns (ok: bool)
      requires Valid()
      modifies this
      ensures Valid() && calls == old(calls) + [Create(id, doc, ok)]
    {
      Interfere();
      ok := *;
      var v: string := *;
      var stored := SetMeta(doc, "resourceVersion", v);
      ok := ok && id !in store && VersionOf(stored) == v && (id, v) !in history;
      if ok {
        store := store[id := stored];
        if v != "" {
          history := history[(id, v) := stored];
        }
      }
      calls := calls + [Create(id, doc, ok)];
    }

    /** A listing that fails answers with no accounts. */
    method ListServiceAccounts(ns: string) returns (names: seq<string>)
      modifies this`calls
      ensures calls == old(calls) + [ListAccounts(ns, names)]
    {
      names := *;
      calls := calls + [ListAccounts(ns, names)];
    }

    method DeleteServiceAccount(ns: string, name: string)
      modifies this`calls
      ensures calls == old(calls) + [DeleteAccount(ns, name)]
    {
      calls := calls + [DeleteAccount(ns, name)];
    }
  }
}
