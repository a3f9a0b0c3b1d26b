/** The tagged object registry of the memory manager: objects stored under string identifiers,
    each registered with a set of tags, with a tag index for lookup and release by tag.
    The PHP registry is process-wide static state; here it is one `Manager` instance. */
module MemoryManager {
  import opened Wrappers

  /** ManagerException, with the reason it is thrown. */
  datatype ManagerError = NotRegistered(identifier: string) | UnknownTag(tag: string)

  /** The identifiers whose registration carried `tag`. */
  ghost function Carriers(registrations: map<string, set<string>>, tag: string): set<string> {
    set identifier | identifier in registrations && tag in registrations[identifier]
  }

  /** The index agrees with the registrations: every bucket holds exactly the identifiers
      registered with its tag, no bucket is empty, and every tag in use has a bucket. The
      registered identifiers are those with an object. */
  ghost predicate Consistent<T>(objects: map<string, T>, registrations: map<string, set<string>>,
                                index: map<string, set<string>>)
  {
    && objects.Keys == registrations.Keys
    && (forall tag | tag in index :: index[tag] != {} && index[tag] == Carriers(registrations, tag))
    && (forall identifier, tag | identifier in registrations && tag in registrations[identifier] :: tag in index)
  }

  /** The index with `identifiers` taken out of every bucket and emptied buckets dropped. */
  function Unindex(index: map<string, set<string>>, identifiers: set<string>): map<string, set<string>> {
    map tag | tag in index && index[tag] - identifiers != {} :: index[tag] - identifiers
  }

  /** The index with `identifier` added to the bucket of each of `tags`. */
  function AddToIndex(index: map<string, set<string>>, identifier: string, tags: set<string>): map<string, set<string>> {
    map tag | tag in index.Keys + tags :: (if tag in index then index[tag] else {}) + (if tag in tags then {identifier} else {})
  }

  /** Re-registering an identifier replaces its tags: it leaves every other bucket and joins
      exactly the buckets of its new tags. */
  lemma CarriersAfterRegister(registrations: map<string, set<string>>, identifier: string, tags: set<string>, tag: string)
    ensures Carriers(registrations[identifier := tags], tag)
         == (Carriers(registrations, tag) - {identifier}) + (if tag in tags then {identifier} else {})
  {
  }

  /** Freeing identifiers takes them out of every tag's carriers and nothing else. */
  lemma CarriersAfterFree(registrations: map<string, set<string>>, identifiers: set<string>, tag: string)
    ensures Carriers(registrations - identifiers, tag) == Carriers(registrations, tag) - identifiers
  {
  }

  /** Registering keeps the index consistent. */
  lemma RegisterKeepsConsistent<T>(objects: map<string, T>, registrations: map<string, set<string>>,
                                   index: map<string, set<string>>, identifier: string, obj: T, tags: set<string>)
    requires Consistent(objects, registrations, index)
    ensures Consistent(objects[identifier := obj], registrations[identifier := tags],
                       AddToIndex(Unindex(index, {identifier}), identifier, tags))
  {
    var registrations' := registrations[identifier := tags];
    var index' := AddToIndex(Unindex(index, {identifier}), identifier, tags);
    forall tag | tag in index'
      ensures index'[tag] != {} && index'[tag] == Carriers(registrations', tag)
    {
      CarriersAfterRegister(registrations, identifier, tags, tag);
    }
    forall other, tag | other in registrations' && tag in registrations'[other]
      ensures tag in index'
    {
      if other != identifier {
        CarriersAfterRegister(registrations, identifier, tags, tag);
        assert other in Carriers(registrations', tag);
      }
    }
  }

  /** Freeing a set of identifiers keeps the index consistent. */
  lemma FreeKeepsConsistent<T>(objects: map<string, T>, registrations: map<string, set<string>>,
                               index: map<string, set<string>>, identifiers: set<string>)
    requires Consistent(objects, registrations, index)
    ensures Consistent(objects - identifiers, registrations - identifiers, Unindex(index, identifiers))
  {
    var registrations' := registrations - identifiers;
    var index' := Unindex(index, identifiers);
    forall tag | tag in index'
      ensures index'[tag] == Carriers(registrations', tag)
    {
      CarriersAfterFree(registrations, identifiers, tag);
    }
    forall other, tag | other in registrations' && tag in registrations'[other]
      ensures tag in index'
    {
      CarriersAfterFree(registrations, identifiers, tag);
      assert other in Carriers(registrations', tag);
    }
  }

  /** The registry. `registrations` records, for each registered identifier, the tags it was
      registered with; `tagIndex` is the stored secondary index derived from it. */
  class Manager<T> {
    var objects: map<string, T>
    var tagIndex: map<string, set<string>>
    ghost var registrations: map<string, set<string>>

    ghost predicate Valid()
      reads this
    {
      Consistent(objects, registrations, tagIndex)
    }

    constructor()
      ensures Valid()
      ensures objects == map[] && registrations == map[] && tagIndex == map[]
    {
      objects := map[];
      tagIndex := map[];
      registrations := map[];
    }

    /** registerObject: stores `obj` under `identifier`, replacing any earlier object and
        its tags, and files the identifier under each of `tags`. */
    method RegisterObject(obj: T, identifier: string, tags: set<string>)
      requires Valid()
      modifies this
      ensures Valid()
      ensures objects == old(objects)[identifier := obj]
      ensures registrations == old(registrations)[identifier := tags]
      ensures tagIndex == AddToIndex(Unindex(old(tagIndex), {identifier}), identifier, tags)
    {
      RegisterKeepsConsistent(objects, registrations, tagIndex, identifier, obj, tags);
      objects := objects[identifier := obj];
      registrations := registrations[identifier := tags];
      tagIndex := AddToIndex(Unindex(tagIndex, {identifier}), identifier, tags);
    }

    /** getObject: the object registered under `identifier`, or FALSE (None). */
    function GetObject(identifier: string): (r: Option<T>)
      reads this
      requires Valid()
      ensures r.None? <==> identifier !in registrations
      ensures r.Some? ==> identifier in objects && r.value == objects[identifier]
    {
      if identifier in objects then Some(objects[identifier]) else None
    }

    /** hasObject: whether an object is registered under `identifier`. */
    function HasObject(identifier: string): (r: bool)
      reads this
      requires Valid()
      ensures r <==> identifier in registrations
      ensures r <==> GetObject(identifier).Some?
    {
      identifier in objects
    }

    /** free: removes the object and every tag membership of `identifier`; throws when nothing
        is registered under it, and then changes nothing. */
    method Free(identifier: string) returns (outcome: Outcome<ManagerError>)
      requires Valid()
      modifies this
      ensures Valid()
      ensures outcome.Pass? <==> identifier in old(registrations)
      ensures outcome.Fail? ==>
        && outcome.error == NotRegistered(identifier)
        && objects == old(objects) && registrations == old(registrations) && tagIndex == old(tagIndex)
      ensures outcome.Pass? ==>
        && objects == old(objects) - {identifier}
        && registrations == old(registrations) - {identifier}
        && tagIndex == Unindex(old(tagIndex), {identifier})
    {
      if identifier !in objects {
        return Fail(NotRegistered(identifier));
      }
      FreeKeepsConsistent(objects, registrations, tagIndex, {identifier});
      objects := objects - {identifier};
      registrations := registrations - {identifier};
      tagIndex := Unindex(tagIndex, {identifier});
      return Pass;
    }

    /** getIdentifiersByTag: the identifiers registered with `tag`. A tag no object carries
        throws, unless `graceful`, which gives the empty set. */
    function GetIdentifiersByTag(tag: string, graceful: bool): (r: Result<set<string>, ManagerError>)
      reads this
      requires Valid()
      ensures r.Success? ==> r.value == Carriers(registrations, tag)
      ensures r.Failure? <==> !graceful && Carriers(registrations, tag) == {}
      ensures r.Failure? ==> r.error == UnknownTag(tag)
    {
      if tag in tagIndex then Success(tagIndex[tag])
      else if graceful then Success({})
      else Failure(UnknownTag(tag))
    }

    /** getObjectsByTag: the objects registered with `tag`, keyed by identifier; empty for a tag
        no object carries. */
    function GetObjectsByTag(tag: string): (r: map<string, T>)
      reads this
      requires Valid()
      ensures r.Keys == Carriers(registrations, tag)
      ensures forall identifier | identifier in r :: identifier in objects && r[identifier] == objects[identifier]
    {
      if tag in tagIndex then
        assert forall identifier | identifier in tagIndex[tag] :: identifier in registrations;
        map identifier | identifier in tagIndex[tag] :: objects[identifier]
      else map[]
    }

    /** freeObjectsByTag: frees every object registered with `tag`, removing each from the
        buckets of all its tags, and returns their identifiers. */
    method FreeObjectsByTag(tag: string) returns (freed: set<string>)
      requires Valid()
      modifies this
      ensures Valid()
      ensures freed == Carriers(old(registrations), tag)
      ensures objects == old(objects) - freed
      ensures registrations == old(registrations) - freed
      ensures tagIndex == Unindex(old(tagIndex), freed)
      ensures Carriers(registrations, tag) == {}
      ensures forall other | other in tagIndex :: tagIndex[other] !! freed
    {
      freed := if tag in tagIndex then tagIndex[tag] else {};
      FreeKeepsConsistent(objects, registrations, tagIndex, freed);
      CarriersAfterFree(registrations, freed, tag);
      objects := objects - freed;
      registrations := registrations - freed;
      tagIndex := Unindex(tagIndex, freed);
    }

    /** freeAll: forgets every object and every tag. */
    method FreeAll()
      modifies this
      ensures Valid()
      ensures objects == map[] && registrations == map[] && tagIndex == map[]
      ensures forall identifier :: !HasObject(identifier)
    {
      objects := map[];
      registrations := map[];
      tagIndex := map[];
    }

    /** cleanup: buckets are pruned as soon as they empty, so there is nothing left to reclaim. */
    method Cleanup()
      requires Valid()
      ensures Valid()
      ensures unchanged(this)
    {
    }
  }

  /** An object registered under an identifier is what getObject returns for it, and it is
      among the objects of each of its tags. */
  method RegisterThenGet<T>(manager: Manager<T>, obj: T, identifier: string, tags: set<string>)
    returns (found: Option<T>, byTag: map<string, map<string, T>>)
    requires manager.Valid()
    modifies manager
    ensures manager.Valid()
    ensures found == Some(obj)
    ensures byTag.Keys == tags
    ensures forall tag | tag in tags :: identifier in byTag[tag] && byTag[tag][identifier] == obj
  {
    manager.RegisterObject(obj, identifier, tags);
    found := manager.GetObject(identifier);
    byTag := map tag | tag in tags :: manager.GetObjectsByTag(tag);
    forall tag | tag in tags
      ensures identifier in byTag[tag]
    {
      assert identifier in Carriers(manager.registrations, tag);
    }
  }

  /** Register `k1` with tags `t1` and `t2`, look up `t1`, free `k1`, then look up `t1`
      gracefully and strictly: the emptied bucket is gone, so the strict lookup throws. */
  method TagLifecycle<T>(obj: T)
    returns (byTag: map<string, T>, graceful: Result<set<string>, ManagerError>, strict: Result<set<string>, ManagerError>)
    ensures byTag == map["k1" := obj]
    ensures graceful == Success({})
    ensures strict == Failure(UnknownTag("t1"))
  {
    var manager := new Manager<T>();
    manager.RegisterObject(obj, "k1", {"t1", "t2"});
    assert Carriers(manager.registrations, "t1") == {"k1"};
    byTag := manager.GetObjectsByTag("t1");
    var outcome := manager.Free("k1");
    assert manager.registrations == map[];
    graceful := manager.GetIdentifiersByTag("t1", true);
    strict := manager.GetIdentifiersByTag("t1", false);
  }
}
