/** The DID manager over the in-memory store, on the heap: records, lists and key objects shared by reference. */
module DidManager {
  import opened Results
  import opened DidRecords

  /** A JavaScript array of keys, shared by every copy of an identifier. */
  class KeyList {
    var items: seq<Key>

    constructor (items: seq<Key>)
      ensures this.items == items
    {
      this.items := items;
    }
  }

  class ServiceList {
    var items: seq<Service>

    constructor (items: seq<Service>)
      ensures this.items == items
    {
      this.items := items;
    }
  }

  class Identifier {
    const did: string
    const provider: string
    var alias: Option<string>
    var keys: KeyList
    var services: ServiceList

    constructor (did: string, provider: string, alias: Option<string>, keys: KeyList, services: ServiceList)
      ensures this.did == did && this.provider == provider && this.alias == alias
      ensures this.keys == keys && this.services == services
    {
      this.did, this.provider, this.alias, this.keys, this.services := did, provider, alias, keys, services;
    }

    ghost function Value(): Record
      reads this, keys, services
    {
      Record(provider, alias, multiset(keys.items), services.items)
    }
  }

  /** No private half that `importDID` would have removed: JavaScript takes the empty string for a missing one. */
  predicate Public(k: Key)
    reads k
  {
    !Named(k.privateKeyHex)
  }

  predicate IsWanted(i: Identifier, alias: Option<string>, provider: Option<string>)
    reads i
  {
    (Named(alias) ==> i.alias == alias) && (Named(provider) ==> i.provider == provider.value)
  }

  class MemoryDidStore {
    var identifiers: map<string, Identifier>

    constructor ()
      ensures Valid() && View() == map[]
    {
      identifiers := map[];
    }

    ghost function Lists(): set<object>
      reads this, identifiers.Values
    {
      (set r | r in identifiers.Values :: r.keys) + (set r | r in identifiers.Values :: r.services)
    }

    /** The keys of the records, some left aside. */
    ghost function StoredKeys(except: set<string>): set<Key>
      reads this, identifiers.Values, Lists()
    {
      set d, k | d in identifiers && d !in except && k in identifiers[d].keys.items :: k
    }

    /** Records sit under their own DID, and different records share no list. */
    ghost predicate Separate()
      reads this, identifiers.Values
    {
      && (forall d | d in identifiers :: identifiers[d].did == d)
      && (forall d, e | d in identifiers && e in identifiers && d != e ::
            identifiers[d].keys != identifiers[e].keys && identifiers[d].services != identifiers[e].services)
    }

    /** Moreover no stored key holds its private half. */
    ghost predicate Valid()
      reads this, identifiers.Values, Lists(), StoredKeys({})
    {
      Separate() && forall k | k in StoredKeys({}) :: Public(k)
    }

    ghost function View(): Contents
      reads this, identifiers.Values, Lists()
    {
      map d | d in identifiers :: identifiers[d].Value()
    }

    /** `getDID({ did })` */
    function GetByDid(did: string): Result<Identifier, Failure>
      reads this
    {
      if did == "" then Err(InvalidArgument)
      else if did !in identifiers then Err(NotFound)
      else Ok(identifiers[did])
    }

    /** `getDID({ alias })`: the first record with that alias in the object's key order, whatever that is. */
    method GetByAlias(alias: string) returns (r: Result<Identifier, Failure>)
      requires Valid()
      ensures Valid() && View() == old(View())
      ensures r.Ok? <==> AliasKnown(View(), alias)
      ensures r.Ok? ==> var did := r.value.did;
                did in identifiers && identifiers[did] == r.value && HasAlias(View(), did, alias)
    {
      if alias == "" {
        return Err(InvalidArgument);
      }
      var rest := identifiers.Keys;
      while rest != {}
        invariant rest <= identifiers.Keys
        invariant forall d | d in identifiers && d !in rest :: !HasAlias(View(), d, alias)
        decreases rest
      {
        var did :| did in rest;
        if identifiers[did].alias == Some(alias) {
          assert HasAlias(View(), did, alias);
          return Ok(identifiers[did]);
        }
        rest := rest - {did};
      }
      return Err(NotFound);
    }

    /** `listDIDs`: an empty argument does not restrict. */
    method ListDids(alias: Option<string>, provider: Option<string>) returns (r: seq<Identifier>)
      requires Separate()
      ensures forall i :: i in r <==> i in identifiers.Values
                                      && (alias.Some? && alias.value != "" ==> i.alias == alias)
                                      && (provider.Some? && provider.value != "" ==> i.provider == provider.value)
      ensures forall a, b | 0 <= a < b < |r| :: r[a].did != r[b].did
    {
      r := [];
      var rest := identifiers.Keys;
      while rest != {}
        invariant rest <= identifiers.Keys
        invariant forall i | i in r :: i.did in identifiers && i.did !in rest && identifiers[i.did] == i
        invariant forall i :: i in r <==> i in identifiers.Values && i.did !in rest && IsWanted(i, alias, provider)
        invariant forall a, b | 0 <= a < b < |r| :: r[a].did != r[b].did
        decreases rest
      {
        var did :| did in rest;
        var i := identifiers[did];
        if IsWanted(i, alias, provider) {
          r := r + [i];
        }
        rest := rest - {did};
      }
    }

    method DeleteDid(did: string)
      requires Valid()
      modifies `identifiers
      ensures Valid() && View() == old(View()) - {did}
    {
      identifiers := identifiers - {did};
    }

    /** Strips the private halves of the listed keys, in place. */
    method StripKeys(keys: KeyList)
      modifies keys.items`privateKeyHex
      ensures forall k | k in keys.items :: k.privateKeyHex.None? || k.privateKeyHex == Some("")
      ensures forall k | k in keys.items :: k.privateKeyHex.None? || k.privateKeyHex == old(k.privateKeyHex)
      ensures forall k: Key | old(allocated(k)) && old(Public(k)) :: Public(k)
    {
      for i := 0 to |keys.items|
        invariant forall j | 0 <= j < i :: Public(keys.items[j])
        invariant forall k | k in keys.items :: k.privateKeyHex.None? || k.privateKeyHex == old(k.privateKeyHex)
        invariant forall k: Key | old(allocated(k)) && old(Public(k)) :: Public(k)
      {
        var key := keys.items[i];
        if Named(key.privateKeyHex) {
          key.privateKeyHex := None;
        }
      }
    }

    /** Ready to take a record with these lists: the other records are in order and share no list with it. */
    ghost predicate Accepts(did: string, keys: KeyList, services: ServiceList)
      reads this, identifiers.Values, Lists(), StoredKeys({did})
    {
      && Separate()
      && (forall k | k in StoredKeys({did}) :: Public(k))
      && (forall d | d in identifiers && d != did :: identifiers[d].keys != keys && identifiers[d].services != services)
    }

    /** Stores a shallow copy: it shares its lists and keys with `args`. */
    method ImportDid(args: Identifier)
      requires Accepts(args.did, args.keys, args.services)
      modifies `identifiers, args.keys.items`privateKeyHex
      ensures Valid()
      ensures View() == old(View())[args.did := old(args.Value())]
      ensures args.did in identifiers && fresh(identifiers[args.did])
      ensures identifiers == old(identifiers)[args.did := identifiers[args.did]]
    {
      hide Identifier.Value, Valid, View, Accepts, StoredKeys, Separate, Public;
      var identifier := new Identifier(args.did, args.provider, args.alias, args.keys, args.services);
      StripKeys(identifier.keys);
      StrippedArePublic(identifier.keys);
      identifiers := identifiers[args.did := identifier];
      ViewAfterImport(args, identifier);
      ValidAfterImport(args, identifier);
    }

    /** All that differs is the new entry and that keys may have lost their private halves. */
    twostate predicate Imported(args: Identifier, new copy: Identifier)
      reads *
    {
      && identifiers == old(identifiers)[args.did := copy]
      && copy.did == args.did && copy.provider == args.provider && copy.alias == old(args.alias)
      && copy.keys == old(args.keys) && copy.services == old(args.services)
      && copy.keys.items == old(args.keys.items) && copy.services.items == old(args.services.items)
      && forall r | r in old(identifiers.Values) :: Untouched(r)
    }

    twostate predicate Untouched(r: Identifier)
      reads *
    {
      && r.alias == old(r.alias) && r.keys == old(r.keys) && r.services == old(r.services)
      && r.keys.items == old(r.keys.items) && r.services.items == old(r.services.items)
    }

    twostate lemma ViewAfterImport(args: Identifier, new copy: Identifier)
      requires Imported(args, copy)
      ensures View() == old(View())[args.did := old(args.Value())]
    {
      hide Identifier.Value;
      forall d | d in identifiers
        ensures identifiers[d].Value() == old(View())[args.did := old(args.Value())][d]
      {
        if d == args.did {
          CopiedValue(args, copy);
        } else {
          assert Untouched(identifiers[d]);
          CopiedValue(identifiers[d], identifiers[d]);
        }
      }
    }

    twostate lemma CopiedValue(i: Identifier, new copy: Identifier)
      requires old(i.keys) == copy.keys && old(i.services) == copy.services && old(i.alias) == copy.alias
      requires i.provider == copy.provider
      requires multiset(old(i.keys.items)) == multiset(copy.keys.items) && old(i.services.items) == copy.services.items
      ensures copy.Value() == old(i.Value())
    {
    }

    twostate lemma ValidAfterImport(args: Identifier, new copy: Identifier)
      requires Imported(args, copy)
      requires old(Accepts(args.did, args.keys, args.services))
      requires forall k | k in copy.keys.items :: Public(k)
      requires forall k: Key | old(allocated(k)) && old(Public(k)) :: Public(k)
      ensures Valid()
    {
      forall k | k in StoredKeys({}) ensures Public(k) {
        var d :| d in identifiers && k in identifiers[d].keys.items;
        if d != args.did {
          assert Untouched(identifiers[d]);
          assert k in old(StoredKeys({args.did}));
        }
      }
      forall d, e | d in identifiers && e in identifiers && d != e 
        ensures identifiers[d].keys != identifiers[e].keys && identifiers[d].services != identifiers[e].services
      {
        assert d != args.did ==> Untouched(identifiers[d]);
        assert e != args.did ==> Untouched(identifiers[e]);
      }
    }

    /** Only one record was touched, and only its own fields and lists. */
    twostate lemma ViewAfterTouch(did: string)
      requires Separate() && did in identifiers && identifiers == old(identifiers)
      requires forall d | d in identifiers && d != did :: Untouched(identifiers[d])
      ensures View() == old(View())[did := identifiers[did].Value()]
    {
      hide Identifier.Value;
      forall d | d in identifiers && d != did ensures identifiers[d].Value() == old(View())[d] {
        assert Untouched(identifiers[d]);
        CopiedValue(identifiers[d], identifiers[d]);
      }
    }

    lemma StrippedArePublic(keys: KeyList)
      requires forall k | k in keys.items :: k.privateKeyHex.None? || k.privateKeyHex == Some("")
      ensures forall k | k in keys.items :: Public(k)
    {
    }

    /** No record of a valid store holds a private key. */
    lemma NoPrivateKeys(did: string, k: Key)
      requires Valid() && did in identifiers && k in identifiers[did].keys.items
      ensures k.privateKeyHex.None? || k.privateKeyHex == Some("")
    {
      assert k in StoredKeys({});
    }

    lemma ValidMeans(did: string)
      requires Valid()
      ensures Separate()
      ensures did in identifiers <==> did in View()
      ensures did in identifiers ==>
        View()[did] == identifiers[did].Value() && View()[did].provider == identifiers[did].provider
    {
    }

    /** Allocation and reading leave the store as it was. */
    twostate lemma StoreUntouched()
      requires old(Valid()) && identifiers == old(identifiers)
      requires forall d | d in identifiers :: Untouched(identifiers[d])
      requires forall k: Key | old(allocated(k)) :: k.privateKeyHex == old(k.privateKeyHex)
      ensures Valid() && View() == old(View()) && Lists() == old(Lists())
    {
      forall d | d in identifiers
        ensures Untouched(identifiers[d]) && identifiers[d].Value() == old(identifiers[d].Value())
      {
        assert Untouched(identifiers[d]);
        CopiedValue(identifiers[d], identifiers[d]);
      }
      forall r | r in identifiers.Values ensures Untouched(r) {
        var d :| d in identifiers && identifiers[d] == r;
      }
      forall k | k in StoredKeys({}) ensures k in old(StoredKeys({})) {
        var d :| d in identifiers && k in identifiers[d].keys.items;
        assert Untouched(identifiers[d]);
      }
    }

    lemma AcceptsNew(did: string, keys: KeyList, services: ServiceList)
      requires Valid() && keys !in Lists() && services !in Lists()
      ensures Accepts(did, keys, services)
    {
      forall k | k in StoredKeys({did}) ensures Public(k) {
        assert k in StoredKeys({});
      }
    }

    /** If it still has its own lists, or new ones, it can be imported. */
    twostate lemma AcceptsAfterTouch(did: string)
      requires old(Valid()) && did in identifiers && identifiers == old(identifiers)
      requires forall d | d in identifiers && d != did :: Untouched(identifiers[d])
      requires forall k: Key | old(allocated(k)) :: k.privateKeyHex == old(k.privateKeyHex)
      requires identifiers[did].keys == old(identifiers[did].keys) || fresh(identifiers[did].keys)
      requires identifiers[did].services == old(identifiers[did].services) || fresh(identifiers[did].services)
      ensures Accepts(did, identifiers[did].keys, identifiers[did].services) && identifiers[did].did == did
    {
      forall d | d in identifiers && d != did
        ensures identifiers[d].keys != identifiers[did].keys && identifiers[d].services != identifiers[did].services
      {
        assert Untouched(identifiers[d]);
      }
      forall k | k in StoredKeys({did}) ensures Public(k) {
        var d :| d in identifiers && d != did && k in identifiers[d].keys.items;
        assert Untouched(identifiers[d]);
        assert k in old(StoredKeys({}));
      }
      forall d, e | d in identifiers && e in identifiers && d != e
        ensures identifiers[d].keys != identifiers[e].keys && identifiers[d].services != identifiers[e].services
      {
        assert d != did ==> Untouched(identifiers[d]);
        assert e != did ==> Untouched(identifiers[e]);
      }
    }
  }

  /** What `createIdentifier` returns: an identifier without its provider, with arrays of its own. */
  datatype Partial = Partial(did: string, alias: Option<string>, keys: KeyList, services: ServiceList)

  ghost function Given(answer: Option<Partial>): Option<Supplied>
    reads if answer.Some? then {answer.value.keys, answer.value.services} else {}
  {
    match answer
    case None => None
    case Some(p) => Some(Supplied(p.did, p.alias, multiset(p.keys.items), p.services.items))
  }

  ghost function Values(imported: seq<Option<Key>>): seq<Key>
    requires None !in imported
  {
    seq(|imported|, i requires 0 <= i < |imported| && imported[i].Some? => imported[i].value)
  }

  /** All keys, unless the KMS rejects one. */
  ghost function Collected(imported: seq<Option<Key>>): Option<multiset<Key>> {
    if None in imported then None else Some(multiset(Values(imported)))
  }

  /** The imported keys are those the KMS answered with, one for each, if it rejected none. */
  lemma CollectedIs(imported: seq<Option<Key>>, keys: seq<Key>)
    requires |keys| == |imported| && forall i | 0 <= i < |keys| :: imported[i] == Some(keys[i])
    ensures Collected(imported) == Some(multiset(keys))
  {
    assert Values(imported) == keys;
  }

  lemma NoneCollected(imported: seq<Option<Key>>)
    ensures Collected(imported).None? <==> exists i | 0 <= i < |imported| :: imported[i].None?
  {
  }

  class DidManager {
    const store: MemoryDidStore
    const providers: Providers

    constructor (providers: Providers)
      ensures this.providers == providers && fresh(store) && store.Valid() && store.View() == map[]
    {
      this.providers := providers;
      store := new MemoryDidStore();
    }

    /** A provider is handed the record itself: it may sort the key list in place, as ION's does, and then reject. */
    method CallProvider(identifier: Identifier)
      modifies identifier.keys`items
      ensures multiset(identifier.keys.items) == multiset(old(identifier.keys.items))
    {
      var order: seq<Key> := *;
      if multiset(order) == multiset(identifier.keys.items) {
        identifier.keys.items := order;
      }
    }

    /** What the operations on a stored identifier begin with: `getDID`, `getProvider`, and the provider's answer. */
    method Ask(did: string, agrees: bool) returns (r: Result<Identifier, Failure>)
      requires store.Valid()
      modifies set l | l in store.Lists()
      ensures store.Valid() && store.View() == old(store.View()) && store.identifiers == old(store.identifiers)
      ensures forall k: Key | old(allocated(k)) :: k.privateKeyHex == old(k.privateKeyHex)
      ensures r.Err? <==> Refusal(providers, store.View(), did, agrees).Some?
      ensures r.Err? ==> Refusal(providers, store.View(), did, agrees) == Some(r.error)
      ensures r.Ok? ==> did in store.identifiers && r.value == store.identifiers[did]
      ensures r.Ok? ==> forall k | k in r.value.keys.items :: k in old(store.StoredKeys({}))
    {
      hide MemoryDidStore.Accepts, MemoryDidStore.StoredKeys, MemoryDidStore.Valid, Public, Identifier.Value;
      store.ValidMeans(did);
      var identifier :- store.GetByDid(did);
      var _ :- providers.Get(identifier.provider);
      CallProvider(identifier);
      store.CopiedValue(identifier, identifier);
      store.ViewAfterTouch(did);
      PermutedStaysValid(did);
      if !agrees {
        return Err(ProviderFailed);
      }
      StoredBefore(did);
      return Ok(identifier);
    }

    twostate lemma StoredBefore(did: string)
      requires did in store.identifiers && store.identifiers == old(store.identifiers)
      requires multiset(store.identifiers[did].keys.items) == multiset(old(store.identifiers[did].keys.items))
      ensures forall k | k in store.identifiers[did].keys.items :: k in old(store.StoredKeys({}))
    {
      forall k | k in store.identifiers[did].keys.items ensures k in old(store.StoredKeys({})) {
        assert k in multiset(store.identifiers[did].keys.items);
        assert k in multiset(old(store.identifiers[did].keys.items));
        assert k in old(store.identifiers[did].keys.items);
      }
    }

    twostate lemma PermutedStaysValid(did: string)
      requires old(store.Valid()) && did in store.identifiers && store.identifiers == old(store.identifiers)
      requires forall d | d in store.identifiers && d != did :: store.Untouched(store.identifiers[d])
      requires forall k: Key | old(allocated(k)) :: k.privateKeyHex == old(k.privateKeyHex)
      requires var r := store.identifiers[did];
               r.keys == old(r.keys) && r.services == old(r.services)
               && multiset(r.keys.items) == multiset(old(r.keys.items))
      ensures store.Valid()
    {
      store.AcceptsAfterTouch(did);
      forall k | k in store.StoredKeys({}) ensures Public(k) {
        var d :| d in store.identifiers && k in store.identifiers[d].keys.items;
        if d == did {
          StoredBefore(did);
        } else {
          assert k in store.StoredKeys({did});
        }
      }
    }

    /** An accepted operation has changed its record, which is now to be stored again. */
    twostate lemma Touched(i: Identifier, new op: Op, new c: Contents)
      requires OnRecord(op) && old(store.Valid()) && c == old(store.View())
      requires op.did in store.identifiers && store.identifiers[op.did] == i
      requires store.identifiers == old(store.identifiers)
      requires forall d | d in store.identifiers && d != op.did :: store.Untouched(store.identifiers[d])
      requires forall k: Key | old(allocated(k)) :: k.privateKeyHex == old(k.privateKeyHex)
      requires i.keys == old(i.keys) || fresh(i.keys)
      requires i.services == old(i.services) || fresh(i.services)
      requires Refusal(providers, c, op.did, op.agrees).None?
      requires Changes(op, c[op.did], i.Value())
      ensures store.Accepts(op.did, i.keys, i.services) && i.did == op.did
      ensures store.View() == c[op.did := i.Value()]
      ensures Step(providers, c, op, Done, c[op.did := i.Value()])
    {
      hide Step, Changes, Identifier.Value;
      store.AcceptsAfterTouch(op.did);
      store.ViewAfterTouch(op.did);
      AcceptedStep(providers, c, op, i.Value());
    }

    /** `didManagerAddKey` */
    method AddKey(did: string, key: Key, agrees: bool) returns (reply: Reply)
      requires store.Valid()
      modifies store, store.identifiers.Values, store.Lists(), store.StoredKeys({}), key
      ensures store.Valid()
      ensures Step(providers, old(store.View()), DidRecords.AddKey(did, key, agrees), reply, store.View())
    {
      hide MemoryDidStore.Accepts, MemoryDidStore.StoredKeys, MemoryDidStore.Valid, MemoryDidStore.View, Public, Step;
      ghost var c := store.View();
      var asked := Ask(did, agrees);
      ghost var op := DidRecords.AddKey(did, key, agrees);
      if asked.Err? {
        RefusedStep(providers, c, op, asked.error);
        return Failed(asked.error);
      }
      var identifier := asked.value;
      store.ValidMeans(did);
      label Asked:
      identifier.keys.items := identifier.keys.items + [key];
      ghost var record := identifier.Value();
      assert record.keys == c[did].keys + multiset{key};
      Touched@Asked(identifier, op, c);
      store.ImportDid(identifier);
      assert store.View() == c[did := record];
      return Done;
    }

    /** `didManagerRemoveKey` */
    method RemoveKey(did: string, kid: string, agrees: bool) returns (reply: Reply)
      requires store.Valid()
      modifies store, store.identifiers.Values, store.Lists(), store.StoredKeys({})
      ensures store.Valid()
      ensures Step(providers, old(store.View()), DidRecords.RemoveKey(did, kid, agrees), reply, store.View())
    {
      hide KeepKeys, WithoutKid, Public, Step, KeepServices, Providers.Get;
      hide MemoryDidStore.Accepts, MemoryDidStore.StoredKeys, MemoryDidStore.Valid, MemoryDidStore.View;
      ghost var c := store.View();
      var asked := Ask(did, agrees);
      ghost var op := DidRecords.RemoveKey(did, kid, agrees);
      if asked.Err? {
        RefusedStep(providers, c, op, asked.error);
        return Failed(asked.error);
      }
      var identifier := asked.value;
      store.ValidMeans(did);
      label Asked:
      var kept := KeepKeys(identifier.keys.items, kid);
      KeepKeysIsWithout(identifier.keys.items, kid);
      identifier.keys := new KeyList(kept);
      ghost var record := identifier.Value();
      assert WithoutKid(c[did].keys, kid, record.keys);
      Touched@Asked(identifier, op, c);
      store.ImportDid(identifier);
      assert store.View() == c[did := record];
      return Done;
    }

    /** `didManagerAddService` */
    method AddService(did: string, service: Service, agrees: bool) returns (reply: Reply)
      requires store.Valid()
      modifies store, store.identifiers.Values, store.Lists(), store.StoredKeys({})
      ensures store.Valid()
      ensures Step(providers, old(store.View()), DidRecords.AddService(did, service, agrees), reply, store.View())
    {
      hide MemoryDidStore.Accepts, MemoryDidStore.StoredKeys, MemoryDidStore.Valid, MemoryDidStore.View, Public, Step;
      ghost var c := store.View();
      var asked := Ask(did, agrees);
      ghost var op := DidRecords.AddService(did, service, agrees);
      if asked.Err? {
        RefusedStep(providers, c, op, asked.error);
        return Failed(asked.error);
      }
      var identifier := asked.value;
      store.ValidMeans(did);
      label Asked:
      identifier.services.items := identifier.services.items + [service];
      ghost var record := identifier.Value();
      assert record.services == c[did].services + [service];
      Touched@Asked(identifier, op, c);
      store.ImportDid(identifier);
      assert store.View() == c[did := record];
      return Done;
    }

    /** `didManagerRemoveService` */
    method RemoveService(did: string, id: string, agrees: bool) returns (reply: Reply)
      requires store.Valid()
      modifies store, store.identifiers.Values, store.Lists(), store.StoredKeys({})
      ensures store.Valid()
      ensures Step(providers, old(store.View()), DidRecords.RemoveService(did, id, agrees), reply, store.View())
    {
      hide MemoryDidStore.Accepts, MemoryDidStore.StoredKeys, MemoryDidStore.Valid, MemoryDidStore.View, Public, Step;
      hide KeepServices, Providers.Get, WithoutKid;
      ghost var c := store.View();
      var asked := Ask(did, agrees);
      ghost var op := DidRecords.RemoveService(did, id, agrees);
      if asked.Err? {
        RefusedStep(providers, c, op, asked.error);
        return Failed(asked.error);
      }
      var identifier := asked.value;
      store.ValidMeans(did);
      label Asked:
      identifier.services := new ServiceList(KeepServices(identifier.services.items, id));
      ghost var record := identifier.Value();
      assert record.services == KeepServices(c[did].services, id);
      Touched@Asked(identifier, op, c);
      store.ImportDid(identifier);
      assert store.View() == c[did := record];
      return Done;
    }

    /**
     * `didManagerCreate`, given what `createIdentifier` will answer. The alias is looked up before the provider is
     * asked, and a failed lookup is what lets the call go on.
     */
    method Create(alias: Option<string>, provider: Option<string>, answer: Option<Partial>)
      returns (reply: Reply, identifier: Identifier?)
      requires store.Valid()
      requires answer.Some? ==> answer.value.keys !in store.Lists() && answer.value.services !in store.Lists()
      modifies store, if answer.Some? then set k | k in answer.value.keys.items else {}
      ensures store.Valid()
      ensures CreateStep(providers, old(store.View()), alias, provider, old(Given(answer)), reply, store.View())
      ensures (reply.Made? <==> identifier != null) && (reply.Failed? <==> identifier == null)
      ensures identifier != null ==> identifier.did == reply.did && reply.did in store.View()
      ensures identifier != null ==> identifier.Value() == store.View()[reply.did]
      ensures identifier != null ==>
        && answer.Some? && reply == Made(answer.value.did)
        && identifier.keys == answer.value.keys && identifier.services == answer.value.services
        && identifier.provider == (if provider.Some? && provider.value != "" then provider.value
                                   else providers.fallback)
        && identifier.alias == if alias.Some? && alias.value != "" then alias else answer.value.alias
    {
      hide MemoryDidStore.Valid, MemoryDidStore.View, AliasKnown, HasAlias;
      store.ValidMeans("");
      identifier := null;
      var name := providers.Choose(provider);
      if alias.Some? {
        var existing := store.GetByAlias(alias.value);
        if existing.Ok? {
          return Failed(AliasTaken), null;
        }
      }
      var chosen := providers.Get(name);
      if chosen.Err? {
        return Failed(NoProvider), null;
      }
      if answer.None? {
        return Failed(ProviderFailed), null;
      }
      var made := answer.value;
      identifier := Keep(name, if Named(alias) then alias else made.alias, made);
      return Made(made.did), identifier;
    }

    /** The new identifier and its stored copy share the provider's lists. */
    method Keep(name: string, alias: Option<string>, made: Partial) returns (identifier: Identifier)
      requires store.Valid() && made.keys !in store.Lists() && made.services !in store.Lists()
      modifies store, set k | k in made.keys.items
      ensures store.Valid()
      ensures store.View()
              == old(store.View())[made.did := Record(name, alias, multiset(old(made.keys.items)),
                                                      old(made.services.items))]
      ensures identifier.did == made.did && identifier.Value() == store.View()[made.did]
      ensures identifier.provider == name && identifier.alias == alias
      ensures identifier.keys == made.keys && identifier.services == made.services
    {
      hide MemoryDidStore.Valid, MemoryDidStore.View, MemoryDidStore.Accepts, MemoryDidStore.StoredKeys;
      identifier := new Identifier(made.did, name, alias, made.keys, made.services);
      store.StoreUntouched();
      store.AcceptsNew(made.did, made.keys, made.services);
      store.ImportDid(identifier);
    }

    /** `didManagerImport`, given what the KMS will answer for each key: the aliases in use are not looked at. */
    method Import(did: string, name: string, alias: Option<string>, imported: seq<Option<Key>>, services: seq<Service>)
      returns (reply: Reply)
      requires store.Valid()
      modifies store, set k | k in imported && k.Some? :: k.value
      ensures store.Valid()
      ensures Step(providers, old(store.View()), DidRecords.Import(did, name, alias, Collected(imported), services),
                   reply, store.View())
    {
      hide MemoryDidStore.Valid, MemoryDidStore.View, MemoryDidStore.StoredKeys;
      var keys: seq<Key> := [];
      for i := 0 to |imported|
        invariant |keys| == i && forall j | 0 <= j < i :: imported[j] == Some(keys[j])
      {
        if imported[i].None? {
          return Failed(KmsFailed);
        }
        keys := keys + [imported[i].value];
      }
      CollectedIs(imported, keys);
      var keyList := new KeyList(keys);
      var serviceList := new ServiceList(services);
      store.StoreUntouched();
      var _ := Keep(name, alias, Partial(did, alias, keyList, serviceList));
      reply := Done;
    }

    /** `didManagerGetOrCreate` */
    method GetOrCreate(alias: string, provider: Option<string>, answer: Option<Partial>)
      returns (reply: Reply, identifier: Identifier?)
      requires store.Valid()
      requires answer.Some? ==> answer.value.keys !in store.Lists() && answer.value.services !in store.Lists()
      modifies store, if answer.Some? then set k | k in answer.value.keys.items else {}
      ensures store.Valid()
      ensures GetOrCreateStep(providers, old(store.View()), alias, provider, old(Given(answer)), reply, store.View())
      ensures reply.Failed? <==> identifier == null
      ensures identifier != null ==> reply.Made? || reply.Found?
      ensures identifier != null ==> identifier.did == reply.did && reply.did in store.View()
      ensures identifier != null ==> identifier.Value() == store.View()[reply.did]
      ensures reply.Found? ==> reply.did in store.identifiers && identifier == store.identifiers[reply.did]
    {
      hide MemoryDidStore.Valid, MemoryDidStore.View, AliasKnown, HasAlias, Public, MemoryDidStore.StoredKeys;
      hide CreateStep;
      store.ValidMeans("");
      var existing := store.GetByAlias(alias);
      if existing.Err? {
        reply, identifier := Create(Some(alias), Some(providers.Choose(provider)), answer);
        return;
      }
      identifier := existing.value;
      store.ValidMeans(identifier.did);
      assert HasAlias(store.View(), identifier.did, alias);
      if Named(provider) && identifier.provider != provider.value {
        var own := providers.Get(identifier.provider);
        if own.Err? {
          return Failed(own.error), null;
        }
        var other := providers.Get(provider.value);
        if other.Err? {
          return Failed(other.error), null;
        }
        if own.value != other.value {
          return Failed(ProviderMismatch), null;
        }
      }
      return Found(identifier.did), identifier;
    }

    /** `didManagerDelete` */
    method Delete(did: string, agrees: bool) returns (reply: Reply)
      requires store.Valid()
      modifies store, store.identifiers.Values, store.Lists(), store.StoredKeys({})
      ensures store.Valid()
      ensures Step(providers, old(store.View()), DidRecords.Delete(did, agrees), reply, store.View())
    {
      hide MemoryDidStore.Accepts, MemoryDidStore.StoredKeys, MemoryDidStore.Valid, MemoryDidStore.View, Public;
      var asked := Ask(did, agrees);
      if asked.Err? {
        return Failed(asked.error);
      }
      store.DeleteDid(did);
      return Done;
    }

    /** `didManagerSetAlias`: the stored record itself is changed, then imported again. */
    method SetAlias(did: string, alias: string) returns (reply: Reply)
      requires store.Valid()
      modifies store, store.identifiers.Values, store.Lists(), store.StoredKeys({})
      ensures store.Valid()
      ensures Step(providers, old(store.View()), DidRecords.SetAlias(did, alias), reply, store.View())
    {
      hide MemoryDidStore.Accepts, MemoryDidStore.Valid, MemoryDidStore.View, Public;
      ghost var c := store.View();
      store.ValidMeans(did);
      var asked := store.GetByDid(did);
      if asked.Err? {
        return Failed(asked.error);
      }
      var identifier := asked.value;
      StoredBefore(did);
      label Asked:
      identifier.alias := Some(alias);
      store.ViewAfterTouch@Asked(did);
      store.AcceptsAfterTouch@Asked(did);
      ghost var record := identifier.Value();
      assert record == c[did].(alias := Some(alias));
      store.ImportDid(identifier);
      assert store.View() == c[did := record];
      return Done;
    }
  }

  function KeepKeys(items: seq<Key>, kid: string): (r: seq<Key>)
    ensures forall k | k in r :: k in items && k.kid != kid
  {
    if items == [] then [] else (if items[0].kid != kid then [items[0]] else []) + KeepKeys(items[1..], kid)
  }

  lemma {:induction false} KeepKeysIsWithout(items: seq<Key>, kid: string)
    ensures WithoutKid(multiset(items), kid, multiset(KeepKeys(items, kid)))
  {
    if items != [] {
      KeepKeysIsWithout(items[1..], kid);
      assert items == [items[0]] + items[1..];
    }
  }
}
