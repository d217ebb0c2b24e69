/** Key rotation of the ION provider (packages/did-provider-ion): commit, reveal, and cleaning up after a failure. */
module IonRotation {
  import opened Results

  // ---------------------------------------------------------------- keys and commitments, symbolically

  datatype Point = Point(x: string, y: string)

  /** Hex encodings of a secp256k1 public key; the KMS that holds the key chooses. */
  datatype PublicKeyHex = Compressed(point: Point) | Uncompressed(point: Point)

  /** The private key of the public point `point`. */
  datatype Secret = Secret(point: Point)

  datatype Jwk = Jwk(point: Point)

  /** A commitment text: the Sidetree hash of a JWK, injective, or any other text. */
  datatype Commitment = Hash(jwk: Jwk) | Text(text: string)

  const GENESIS := Text("genesis")

  datatype Relation = RECOVERY | UPDATE | DID

  datatype IonMeta = IonMeta(relation: Relation, commitment: Option<Commitment>)

  /** `key.meta`: missing, without an `ion` part, or with one. */
  datatype Meta = Missing | Plain | Ion(ion: IonMeta)

  datatype Kid = Given(kid: string) | Derived(publicKeyHex: PublicKeyHex)

  datatype IonKey = IonKey(kid: Kid, publicKeyHex: PublicKeyHex, meta: Meta)

  datatype Failure = Unresolved | TypeError | NoPrivateKey | KmsFailed | RequestFailed | AnchorFailed | OptionsMissing

  /** Both encodings of a point give the same JWK. */
  function ToIonPublicKeyJwk(hex: PublicKeyHex): Jwk {
    Jwk(hex.point)
  }

  function CommitmentOf(key: IonKey): Commitment {
    Hash(ToIonPublicKeyJwk(key.publicKeyHex))
  }

  // ---------------------------------------------------------------- selecting keys

  /** A commitment that the first filter looks at: neither missing, nor empty, nor 'genesis'. */
  predicate Specific(commitment: Option<Commitment>) {
    commitment.Some? && commitment.value != Text("") && commitment.value != GENESIS
  }

  function FilterByCommitment(keys: seq<IonKey>, commitment: Option<Commitment>): Result<seq<IonKey>, Failure> {
    if keys == [] then Ok([])
    else if Specific(commitment) && keys[0].meta.Plain? then Err(TypeError)
    else
      var rest :- FilterByCommitment(keys[1..], commitment);
      Ok((if MayHave(keys[0], commitment) then [keys[0]] else []) + rest)
  }

  /** A key without a commitment of its own passes for every commitment. */
  predicate MayHave(key: IonKey, commitment: Option<Commitment>) {
    Specific(commitment) && key.meta.Ion? && key.meta.ion.commitment.Some? && key.meta.ion.commitment.value != Text("")
    ==> key.meta.ion.commitment == commitment
  }

  function FilterByRelation(keys: seq<IonKey>, relation: Relation): Result<seq<IonKey>, Failure> {
    if keys == [] then Ok([])
    else if keys[0].meta.Plain? then Err(TypeError)
    else
      var rest :- FilterByRelation(keys[1..], relation);
      Ok((if keys[0].meta.Ion? && keys[0].meta.ion.relation == relation then [keys[0]] else []) + rest)
  }

  function Selected(keys: seq<IonKey>, relation: Relation, commitment: Option<Commitment>)
    : Result<seq<IonKey>, Failure>
  {
    var possible :- FilterByCommitment(keys, commitment);
    FilterByRelation(possible, relation)
  }

  predicate Selectable(key: IonKey, relation: Relation, commitment: Option<Commitment>) {
    key.meta.Ion? && key.meta.ion.relation == relation && MayHave(key, commitment)
  }

  predicate IsPlain(key: IonKey) {
    key.meta.Plain?
  }

  lemma {:induction false} FilterByCommitmentIs(keys: seq<IonKey>, commitment: Option<Commitment>)
    ensures var r := FilterByCommitment(keys, commitment);
      && (r.Err? <==> Specific(commitment) && exists k | k in keys :: IsPlain(k))
      && (r.Err? ==> r == Err(TypeError))
      && (r.Ok? ==> forall k :: k in r.value <==> k in keys && MayHave(k, commitment))
  {
    if keys != [] {
      FilterByCommitmentIs(keys[1..], commitment);
      assert keys == [keys[0]] + keys[1..];
      assert IsPlain(keys[0]) == keys[0].meta.Plain?;
    }
  }

  lemma {:induction false} FilterByRelationIs(keys: seq<IonKey>, relation: Relation)
    ensures var r := FilterByRelation(keys, relation);
      && (r.Err? <==> exists k | k in keys :: IsPlain(k))
      && (r.Err? ==> r == Err(TypeError))
      && (r.Ok? ==> forall k :: k in r.value <==> k in keys && k.meta.Ion? && k.meta.ion.relation == relation)
  {
    if keys != [] {
      FilterByRelationIs(keys[1..], relation);
      assert keys == [keys[0]] + keys[1..];
      assert IsPlain(keys[0]) == keys[0].meta.Plain?;
    }
  }

  /** The last of the selected keys, or the first when 'genesis' is asked for. */
  predicate IsChosen(selected: Result<seq<IonKey>, Failure>, commitment: Option<Commitment>, key: IonKey) {
    && selected.Ok? && selected.value != []
    && key == selected.value[if commitment == Some(GENESIS) then 0 else |selected.value| - 1]
  }

  /** The lookup throws exactly when some key has metadata without an ION part, whatever else is asked for. */
  lemma SelectedIs(keys: seq<IonKey>, relation: Relation, commitment: Option<Commitment>)
    ensures var r := Selected(keys, relation, commitment);
      && (r.Err? <==> exists k | k in keys :: IsPlain(k))
      && (r.Err? ==> r == Err(TypeError))
      && (r.Ok? ==> forall k :: k in r.value <==> k in keys && Selectable(k, relation, commitment))
  {
    FilterByCommitmentIs(keys, commitment);
    var possible := FilterByCommitment(keys, commitment);
    if possible.Ok? {
      FilterByRelationIs(possible.value, relation);
      forall k | k in keys && IsPlain(k) ensures k in possible.value {
        assert MayHave(k, commitment);
      }
    }
  }

  // ---------------------------------------------------------------- what lookups need, and what two of them give

  ghost predicate Searchable(keys: multiset<IonKey>) {
    forall k | k in keys :: !IsPlain(k)
  }

  ghost predicate CanSelect(keys: multiset<IonKey>, relation: Relation, commitment: Option<Commitment>) {
    exists k | k in keys :: Selectable(k, relation, commitment)
  }

  /** The keys of that relation carry the commitment to themselves, as `importProvidedOrGeneratedKey` sees to. */
  ghost predicate OwnCommitments(keys: multiset<IonKey>, relation: Relation) {
    forall k | k in keys && k.meta.Ion? && k.meta.ion.relation == relation ::
      k.meta.ion.commitment == Some(CommitmentOf(k))
  }

  /** `current` was found by the commitment recomputed from a first find. */
  ghost predicate FoundTwice(keys: multiset<IonKey>, commitment: Option<Commitment>, current: IonKey) {
    exists first | first in keys ::
      && Selectable(first, UPDATE, commitment)
      && current in keys && Selectable(current, UPDATE, Some(CommitmentOf(first)))
  }

  /** Both lookups succeed exactly when the first does: that commitment is the one of some update key. */
  lemma SecondLookupSucceeds(keys: multiset<IonKey>, commitment: Option<Commitment>)
    requires OwnCommitments(keys, UPDATE)
    ensures (exists current :: FoundTwice(keys, commitment, current)) <==> CanSelect(keys, UPDATE, commitment)
    ensures Specific(commitment) ==>
      (CanSelect(keys, UPDATE, commitment)
       <==> exists k | k in keys :: k.meta.Ion? && k.meta.ion.relation == UPDATE && CommitmentOf(k) == commitment.value)
  {
    if CanSelect(keys, UPDATE, commitment) {
      var k :| k in keys && Selectable(k, UPDATE, commitment);
      assert k.meta.ion.commitment == Some(CommitmentOf(k));
      assert Selectable(k, UPDATE, Some(CommitmentOf(k)));
      assert FoundTwice(keys, commitment, k);
    }
    if Specific(commitment) {
      if k :| k in keys && k.meta.Ion? && k.meta.ion.relation == UPDATE && CommitmentOf(k) == commitment.value {
        assert Selectable(k, UPDATE, commitment);
      }
    }
  }

  predicate IsUpdate(key: IonKey) {
    key.meta.Ion? && key.meta.ion.relation == UPDATE
  }

  /** An update key without a commitment: it passes the filter for every commitment. */
  predicate Uncommitted(key: IonKey) {
    IsUpdate(key) && (key.meta.ion.commitment.None? || key.meta.ion.commitment.value == Text(""))
  }

  /** No update key carries a commitment to another key. */
  ghost predicate OwnOrNone(keys: multiset<IonKey>) {
    forall k | k in keys && IsUpdate(k) && !Uncommitted(k) :: k.meta.ion.commitment == Some(CommitmentOf(k))
  }

  /** The update keys that lack their commitment are, if any, the committed key itself. */
  ghost predicate NoStranger(keys: multiset<IonKey>, commitment: Commitment) {
    forall k | k in keys && Uncommitted(k) :: CommitmentOf(k) == commitment
  }

  /**
   * A rotation discloses the committed key, whatever order the keys are in at each lookup, exactly when no update key
   * that lacks its commitment is another key.
   */
  lemma DisclosesCommittedIff(keys: multiset<IonKey>, commitment: Commitment)
    requires OwnOrNone(keys) && Specific(Some(commitment))
    ensures (forall current | FoundTwice(keys, Some(commitment), current) :: CommitmentOf(current) == commitment)
            <==> NoStranger(keys, commitment)
  {
    if NoStranger(keys, commitment) {
      forall current | FoundTwice(keys, Some(commitment), current) ensures CommitmentOf(current) == commitment {
        var first :| first in keys && Selectable(first, UPDATE, Some(commitment))
                     && Selectable(current, UPDATE, Some(CommitmentOf(first)));
        assert !Uncommitted(first) ==> first.meta.ion.commitment == Some(CommitmentOf(first));
        assert !Uncommitted(current) ==> current.meta.ion.commitment == Some(CommitmentOf(current));
      }
    } else {
      var k :| k in keys && Uncommitted(k) && CommitmentOf(k) != commitment;
      assert Selectable(k, UPDATE, Some(commitment)) && Selectable(k, UPDATE, Some(CommitmentOf(k)));
      assert FoundTwice(keys, Some(commitment), k);
    }
  }

  /** The keys that `importProvidedOrGeneratedKey` makes meet both conditions for every commitment. */
  lemma OwnCommitmentsSuffice(keys: multiset<IonKey>, commitment: Commitment)
    requires OwnCommitments(keys, UPDATE)
    ensures OwnOrNone(keys) && NoStranger(keys, commitment)
  {
    assert forall k | k in keys && IsUpdate(k) :: !Uncommitted(k);
  }

  /**
   * The key that is disclosed hashes to the commitment of the resolved document, although it is found by a recomputed
   * commitment and the keys may have been reordered in between.
   */
  lemma DisclosesCommitted(keys: multiset<IonKey>, commitment: Option<Commitment>, current: IonKey)
    requires OwnCommitments(keys, UPDATE) && FoundTwice(keys, commitment, current) && Specific(commitment)
    ensures CommitmentOf(current) == commitment.value
  {
    OwnCommitmentsSuffice(keys, commitment.value);
    DisclosesCommittedIff(keys, commitment.value);
  }

  // ---------------------------------------------------------------- the provider at work

  class KeyArray {
    var items: seq<IonKey>

    constructor (items: seq<IonKey>)
      ensures this.items == items
    {
      this.items := items;
    }
  }

  /** How the world answers during one operation. */
  datatype World = World(
    resolved: Option<Resolution>, generated: Secret, encoding: bool, imports: bool, requests: bool, anchors: bool,
    deletes: bool)

  datatype Resolution = Resolution(updateCommitment: Option<Commitment>, recoveryCommitment: Option<Commitment>)

  /** `KeyOpts`: a kid to assign, and a key to import, with or without its private half. */
  datatype KeyOpts = KeyOpts(kid: Option<string>, key: Option<Option<Secret>>)

  datatype Rotation = Rotation(currentVeramoKey: IonKey, currentJwk: Jwk, nextVeramoKey: IonKey, nextJwk: Jwk)

  datatype Patch =
    | KeyAdded(key: IonKey) | ServiceAdded(service: string) | KeyRemoved(kid: string) | ServiceRemoved(id: string)

  datatype Request = Request(updatePublicKey: Jwk, nextUpdatePublicKey: Jwk, signer: Kid, patch: Patch)

  datatype UpdateOpts = UpdateOpts(anchor: Option<bool>)

  function Encode(point: Point, compressed: bool): PublicKeyHex {
    if compressed then Compressed(point) else Uncompressed(point)
  }

  class IonDidProvider {
    /** The keys held by the agent's key manager. */
    var kms: map<Kid, IonKey>

    constructor (kms: map<Kid, IonKey>)
      ensures this.kms == kms
    {
      this.kms := kms;
    }

    /** `keyManagerImport` */
    method ImportKey(kid: Option<string>, secret: Secret, meta: IonMeta, w: World) returns (r: Result<IonKey, Failure>)
      modifies this
      ensures !w.imports ==> r == Err(KmsFailed) && kms == old(kms)
      ensures w.imports ==> r.Ok? && kms == old(kms)[r.value.kid := r.value]
      ensures r.Ok? ==> r.value.publicKeyHex.point == secret.point && r.value.meta == Ion(meta)
      ensures r.Ok? && kid.Some? && kid.value != "" ==> r.value.kid == Given(kid.value)
    {
      if !w.imports {
        return Err(KmsFailed);
      }
      var hex := Encode(secret.point, w.encoding);
      var key := IonKey(if kid.Some? && kid.value != "" then Given(kid.value) else Derived(hex), hex, Ion(meta));
      kms := kms[key.kid := key];
      return Ok(key);
    }

    /** The commitment is computed from a copy of the key held in memory, whose encoding need not be the KMS's. */
    method ImportProvidedOrGeneratedKey(relation: Relation, options: KeyOpts, w: World)
      returns (r: Result<IonKey, Failure>)
      modifies this
      ensures r.Err? ==> kms == old(kms)
      ensures r.Ok? ==> kms == old(kms)[r.value.kid := r.value]
      ensures r.Ok? <==> options.key != Some(None) && w.imports
      ensures r.Err? ==> r == Err(if options.key == Some(None) then NoPrivateKey else KmsFailed)
      ensures r.Ok? ==>
        r.value.publicKeyHex.point == (if options.key.Some? then options.key.value.value else w.generated).point
      ensures r.Ok? ==>
        r.value.meta == Ion(IonMeta(relation, if relation == DID then None else Some(CommitmentOf(r.value))))
    {
      var secret := w.generated;
      if options.key.Some? {
        if options.key.value.None? {
          return Err(NoPrivateKey);
        }
        secret := options.key.value.value;
      }
      var commitment := None;
      if relation == RECOVERY || relation == UPDATE {
        var inMemory := Encode(secret.point, false);
        commitment := Some(Hash(ToIonPublicKeyJwk(inMemory)));
      }
      r := ImportKey(options.kid, secret, IonMeta(relation, commitment), w);
    }

    /** `getVeramoUpdateKey`, `getVeramoRecoveryKey`: the caller's array is sorted in place, in an order left open. */
    method GetVeramoKey(keys: KeyArray, relation: Relation, commitment: Option<Commitment>)
      returns (r: Result<IonKey, Failure>)
      modifies keys
      ensures multiset(keys.items) == multiset(old(keys.items))
      ensures r.Ok? ==> r.value in multiset(keys.items) && Selectable(r.value, relation, commitment)
      ensures r.Ok? <==> Searchable(multiset(keys.items)) && CanSelect(multiset(keys.items), relation, commitment)
      ensures r.Err? ==> r == Err(TypeError)
      ensures r.Ok? ==> IsChosen(Selected(keys.items, relation, commitment), commitment, r.value)
    {
      var sorted: seq<IonKey> := *;
      if multiset(sorted) == multiset(keys.items) {
        keys.items := sorted;
      }
      SelectedIs(keys.items, relation, commitment);
      assert forall k :: k in keys.items <==> k in multiset(keys.items);
      var typed := Selected(keys.items, relation, commitment);
      if typed.Err? || typed.value == [] {
        assert typed.Ok? ==> forall k | k in multiset(keys.items) :: !Selectable(k, relation, commitment) by {
          assert typed.Ok? ==> forall k | k in keys.items && Selectable(k, relation, commitment) :: k in typed.value;
        }
        return Err(TypeError);
      }
      var key := if commitment == Some(GENESIS) then typed.value[0] else typed.value[|typed.value| - 1];
      assert key in typed.value;
      return Ok(key);
    }

    /** `rotateVeramoKey` with `rotateUpdateOrRecoveryKey`: two lookups, then a new key. */
    method RotateVeramoKey(keys: KeyArray, w: World) returns (r: Result<Rotation, Failure>)
      modifies this, keys
      ensures multiset(keys.items) == multiset(old(keys.items))
      ensures r.Err? ==> kms == old(kms)
      ensures r.Ok? ==> RotatesFrom(multiset(keys.items), w, r.value)
      ensures r.Ok? ==> kms == old(kms)[r.value.nextVeramoKey.kid := r.value.nextVeramoKey]
      ensures r.Err? ==> MayFailToRotate(multiset(keys.items), w, r.error)
      ensures r.Ok? ==> CanRotate(multiset(keys.items), w)
      ensures OwnCommitments(multiset(keys.items), UPDATE) ==>
        (r.Ok? <==> CanRotate(multiset(keys.items), w))
    {
      if w.resolved.None? {
        return Err(Unresolved);
      }
      var first :- GetVeramoKey(keys, UPDATE, w.resolved.value.updateCommitment);
      var commitment := CommitmentOf(first);
      if OwnCommitments(multiset(keys.items), UPDATE) {
        assert first.meta.ion.commitment == Some(commitment);
        assert Selectable(first, UPDATE, Some(commitment));
      }
      var current :- GetVeramoKey(keys, UPDATE, Some(commitment));
      var next :- ImportProvidedOrGeneratedKey(UPDATE, KeyOpts(None, None), w);
      return Ok(Rotation(current, ToIonPublicKeyJwk(current.publicKeyHex), next, ToIonPublicKeyJwk(next.publicKeyHex)));
    }

    /** The next key is an update key that commits to itself; the current one was found twice. */
    ghost predicate RotatesFrom(keys: multiset<IonKey>, w: World, r: Rotation) {
      && w.resolved.Some?
      && FoundTwice(keys, w.resolved.value.updateCommitment, r.currentVeramoKey)
      && Hash(r.currentJwk) == CommitmentOf(r.currentVeramoKey)
      && Hash(r.nextJwk) == CommitmentOf(r.nextVeramoKey)
      && r.nextVeramoKey.meta == Ion(IonMeta(UPDATE, Some(CommitmentOf(r.nextVeramoKey))))
    }

    /**
     * What the four update operations have in common: rotate, build and sign the request, anchor it, and delete the
     * new key again when anchoring fails. A request that cannot be built leaves the new key behind.
     */
    method Update(keys: KeyArray, patch: Patch, anchor: Option<bool>, w: World)
      returns (r: Result<Request, Failure>, ghost next: Option<IonKey>)
      modifies this, keys
      ensures multiset(keys.items) == multiset(old(keys.items))
      ensures UpdateEffect(multiset(keys.items), patch, anchor, w, old(kms), next, r, kms)
    {
      next := None;
      var rotation :- RotateVeramoKey(keys, w);
      next := Some(rotation.nextVeramoKey);
      if !w.requests || rotation.currentVeramoKey.kid !in kms {
        return Err(RequestFailed), next;
      }
      var request := Request(rotation.currentJwk, rotation.nextJwk, rotation.currentVeramoKey.kid, patch);
      if anchor != Some(false) && !w.anchors {
        if w.deletes {
          kms := kms - {rotation.nextVeramoKey.kid};
        }
        return Err(AnchorFailed), next;
      }
      return Ok(request), next;
    }

    /** `addKey` */
    method AddKey(keys: KeyArray, key: IonKey, options: Option<UpdateOpts>, w: World)
      returns (r: Result<Request, Failure>, ghost next: Option<IonKey>)
      modifies this, keys
      ensures multiset(keys.items) == multiset(old(keys.items))
      ensures options.None? ==> r == Err(OptionsMissing) && kms == old(kms)
      ensures options.Some? ==>
        UpdateEffect(multiset(keys.items), KeyAdded(key), options.value.anchor, w, old(kms), next, r, kms)
    {
      if options.None? {
        return Err(OptionsMissing), None;
      }
      r, next := Update(keys, KeyAdded(key), options.value.anchor, w);
    }

    /** `addService` */
    method AddService(keys: KeyArray, service: string, options: Option<UpdateOpts>, w: World)
      returns (r: Result<Request, Failure>, ghost next: Option<IonKey>)
      modifies this, keys
      ensures multiset(keys.items) == multiset(old(keys.items))
      ensures UpdateEffect(multiset(keys.items), ServiceAdded(service), AnchorOf(options), w, old(kms), next, r, kms)
    {
      r, next := Update(keys, ServiceAdded(service), AnchorOf(options), w);
    }

    /** `removeKey` */
    method RemoveKey(keys: KeyArray, kid: string, options: Option<UpdateOpts>, w: World)
      returns (r: Result<Request, Failure>, ghost next: Option<IonKey>)
      modifies this, keys
      ensures multiset(keys.items) == multiset(old(keys.items))
      ensures UpdateEffect(multiset(keys.items), KeyRemoved(Truncated(kid)), AnchorOf(options), w, old(kms), next, r,
                           kms)
    {
      r, next := Update(keys, KeyRemoved(Truncated(kid)), AnchorOf(options), w);
    }

    /** `removeService` */
    method RemoveService(keys: KeyArray, id: string, options: Option<UpdateOpts>, w: World)
      returns (r: Result<Request, Failure>, ghost next: Option<IonKey>)
      modifies this, keys
      ensures multiset(keys.items) == multiset(old(keys.items))
      ensures UpdateEffect(multiset(keys.items), ServiceRemoved(Truncated(id)), AnchorOf(options), w, old(kms), next, r,
                           kms)
    {
      r, next := Update(keys, ServiceRemoved(Truncated(id)), AnchorOf(options), w);
    }

    /** `deleteIdentifier`: the recovery key that is disclosed hashes to the resolved recovery commitment. */
    method DeleteIdentifier(keys: KeyArray, w: World) returns (r: Result<Jwk, Failure>)
      modifies keys
      ensures multiset(keys.items) == multiset(old(keys.items))
      ensures r.Ok? ==> w.resolved.Some?
      ensures r.Ok? ==> exists k | k in multiset(keys.items) ::
        && Selectable(k, RECOVERY, w.resolved.value.recoveryCommitment)
        && k.kid in kms && r.value == Jwk(k.publicKeyHex.point) && w.requests && w.anchors
      ensures r.Err? ==> MayFailToDelete(multiset(keys.items), w, kms.Keys)
      ensures r.Ok? && OwnCommitments(multiset(keys.items), RECOVERY) && Specific(w.resolved.value.recoveryCommitment)
              ==> Hash(r.value) == w.resolved.value.recoveryCommitment.value
    {
      if w.resolved.None? {
        return Err(Unresolved);
      }
      var key :- GetVeramoKey(keys, RECOVERY, w.resolved.value.recoveryCommitment);
      if !w.requests || key.kid !in kms {
        return Err(RequestFailed);
      }
      if !w.anchors {
        return Err(AnchorFailed);
      }
      return Ok(ToIonPublicKeyJwk(key.publicKeyHex));
    }

    /** `createIdentifier`: its update and recovery keys carry their own commitments, and none lacks ION metadata. */
    method CreateIdentifier(recoveryKey: KeyOpts, updateKey: KeyOpts, methods: seq<KeyOpts>, anchor: Option<bool>,
        secrets: seq<Secret>, w: World) returns (r: Result<KeyArray, Failure>)
      requires |secrets| == |methods| + 2
      modifies this
      ensures r.Ok? <==>
        && w.imports && (anchor == Some(false) || w.anchors) && recoveryKey.key != Some(None)
        && updateKey.key != Some(None) && forall m | m in methods :: m.key != Some(None)
      ensures r.Ok? ==> |r.value.items| == |methods| + 2
      ensures r.Ok? ==> forall i | 0 <= i < |r.value.items| ::
        var options := if i == 0 then recoveryKey else if i == 1 then updateKey else methods[i - 2];
        MadeFrom(r.value.items[i], if i == 0 then RECOVERY else if i == 1 then UPDATE else DID, options, secrets[i])
      ensures r.Ok? ==> fresh(r.value) && Searchable(multiset(r.value.items))
      ensures r.Ok? ==> forall k | k in r.value.items :: k.kid in kms
      ensures r.Ok? ==>
        OwnCommitments(multiset(r.value.items), UPDATE) && CanSelect(multiset(r.value.items), UPDATE, None)
      ensures r.Ok? ==>
        OwnCommitments(multiset(r.value.items), RECOVERY) && CanSelect(multiset(r.value.items), RECOVERY, None)
    {
      var recovery :- ImportProvidedOrGeneratedKey(RECOVERY, recoveryKey, w.(generated := secrets[0]));
      var update :- ImportProvidedOrGeneratedKey(UPDATE, updateKey, w.(generated := secrets[1]));
      var veramoKeys := [recovery, update];
      for i := 0 to |methods|
        invariant |veramoKeys| == i + 2 && veramoKeys[0] == recovery && veramoKeys[1] == update
        invariant forall k | k in veramoKeys :: k.kid in kms
        invariant forall j | 2 <= j < |veramoKeys| :: veramoKeys[j].meta == Ion(IonMeta(DID, None))
        invariant forall j | 0 <= j < i :: methods[j].key != Some(None)
        invariant forall j | 2 <= j < |veramoKeys| :: MadeFrom(veramoKeys[j], DID, methods[j - 2], secrets[j])
      {
        var key :- ImportProvidedOrGeneratedKey(DID, methods[i], w.(generated := secrets[i + 2]));
        veramoKeys := veramoKeys + [key];
      }
      if anchor != Some(false) && !w.anchors {
        return Err(AnchorFailed);
      }
      var keys := new KeyArray(veramoKeys);
      assert forall k | k in multiset(veramoKeys) :: k in veramoKeys;
      assert veramoKeys[0] in multiset(veramoKeys) && veramoKeys[1] in multiset(veramoKeys);
      assert Selectable(recovery, RECOVERY, None) && Selectable(update, UPDATE, None);
      return Ok(keys);
    }
  }

  /** A key for that use, of the private key that was provided or else of the generated one. */
  predicate MadeFrom(key: IonKey, relation: Relation, options: KeyOpts, generated: Secret) {
    && key.meta.Ion? && key.meta.ion.relation == relation
    && key.publicKeyHex.point == match options.key case Some(Some(secret)) => secret.point case _ => generated.point
  }

  function AnchorOf(options: Option<UpdateOpts>): Option<bool> {
    if options.Some? then options.value.anchor else None
  }

  /** ION limits ids to 50 characters. */
  function Truncated(kid: string): string {
    if |kid| > 50 then kid[..50] else kid
  }

  /** The resolved document's commitment is that of an update key, and a new key can be imported. */
  ghost predicate CanRotate(keys: multiset<IonKey>, w: World) {
    && w.imports && w.resolved.Some? && Searchable(keys)
    && CanSelect(keys, UPDATE, w.resolved.value.updateCommitment)
  }

  /** Why a deactivation can fail. */
  ghost predicate MayFailToDelete(keys: multiset<IonKey>, w: World, held: set<Kid>) {
    || w.resolved.None? || !w.requests || !w.anchors
    || !Searchable(keys) || !CanSelect(keys, RECOVERY, w.resolved.value.recoveryCommitment)
    || exists k | k in keys && Selectable(k, RECOVERY, w.resolved.value.recoveryCommitment) :: k.kid !in held
  }

  /**
   * Why a rotation can fail: the DID does not resolve, a lookup finds no key, be it the second for whichever key the
   * first may have found, or the new key cannot be imported.
   */
  ghost predicate MayFailToRotate(keys: multiset<IonKey>, w: World, f: Failure) {
    if w.resolved.None? then f == Unresolved
    else
      var commitment := w.resolved.value.updateCommitment;
      || (f == TypeError
          && (!Searchable(keys) || !CanSelect(keys, UPDATE, commitment)
              || exists first | first in keys && Selectable(first, UPDATE, commitment) ::
                   !CanSelect(keys, UPDATE, Some(CommitmentOf(first)))))
      || (f == KmsFailed && !w.imports)
  }

  /** The effect of an update operation on the KMS, and what its request discloses and commits to. */
  ghost predicate UpdateEffect(keys: multiset<IonKey>, patch: Patch, anchor: Option<bool>, w: World,
      before: map<Kid, IonKey>, next: Option<IonKey>, r: Result<Request, Failure>, after: map<Kid, IonKey>)
  {
    && (OwnCommitments(keys, UPDATE) ==> (next.Some? <==> CanRotate(keys, w)))
    && match next
    case None => r.Err? && MayFailToRotate(keys, w, r.error) && after == before
    case Some(key) =>
      && key.meta == Ion(IonMeta(UPDATE, Some(CommitmentOf(key))))
      && CanRotate(keys, w)
      && exists current | current in keys ::
           && FoundTwice(keys, w.resolved.value.updateCommitment, current)
           && RequestEffect(patch, anchor, w, before[key.kid := key], key, current, r, after)
  }

  /** What becomes of the request once the new key is among those that the KMS holds. */
  ghost predicate RequestEffect(patch: Patch, anchor: Option<bool>, w: World, held: map<Kid, IonKey>, key: IonKey,
      current: IonKey, r: Result<Request, Failure>, after: map<Kid, IonKey>)
  {
    if !w.requests || current.kid !in held then r == Err(RequestFailed) && after == held
    else if anchor != Some(false) && !w.anchors then
      r == Err(AnchorFailed) && after == if w.deletes then held - {key.kid} else held
    else
      && after == held
      && r.Ok? && r.value.patch == patch && r.value.signer == current.kid
      && Hash(r.value.updatePublicKey) == CommitmentOf(current)
      && Hash(r.value.nextUpdatePublicKey) == CommitmentOf(key)
  }

  /** Every update operation that completes reveals the key the resolved document committed to. */
  lemma UpdateReveals(keys: multiset<IonKey>, patch: Patch, anchor: Option<bool>, w: World,
      before: map<Kid, IonKey>, next: Option<IonKey>, request: Request, after: map<Kid, IonKey>)
    requires UpdateEffect(keys, patch, anchor, w, before, next, Ok(request), after)
    requires Specific(w.resolved.value.updateCommitment)
    requires OwnOrNone(keys) && NoStranger(keys, w.resolved.value.updateCommitment.value)
    ensures Hash(request.updatePublicKey) == w.resolved.value.updateCommitment.value
    ensures next.Some? && Hash(request.nextUpdatePublicKey) == next.value.meta.ion.commitment.value
  {
    var commitment := w.resolved.value.updateCommitment.value;
    var current :| current in keys && FoundTwice(keys, Some(commitment), current)
                   && Hash(request.updatePublicKey) == CommitmentOf(current);
    DisclosesCommittedIff(keys, commitment);
  }

  /**
   * Compensation: with a key id that was not in use, the KMS holds what it held before exactly when the operation
   * failed before the new key was imported, or failed to anchor and could delete it.
   */
  lemma RestoredIff(keys: multiset<IonKey>, patch: Patch, anchor: Option<bool>, w: World,
      before: map<Kid, IonKey>, next: Option<IonKey>, r: Result<Request, Failure>, after: map<Kid, IonKey>)
    requires UpdateEffect(keys, patch, anchor, w, before, next, r, after)
    requires next.Some? ==> next.value.kid !in before
    ensures after == before <==> next.None? || (r == Err(AnchorFailed) && w.deletes)
  {
    if next.Some? {
      assert before[next.value.kid := next.value] - {next.value.kid} == before;
    }
  }

  lemma CompletedUpdate(keys: multiset<IonKey>, patch: Patch, anchor: Option<bool>, w: World,
      before: map<Kid, IonKey>, next: Option<IonKey>, request: Request, after: map<Kid, IonKey>)
    requires UpdateEffect(keys, patch, anchor, w, before, next, Ok(request), after) && OwnCommitments(keys, UPDATE)
    ensures Searchable(keys)
  {
  }

  /**
   * The new update key is not put among the identifier's keys, so once the document resolves to the new commitment the
   * next operation finds its update key exactly when that key is one of the old update keys again.
   */
  lemma AnchoredRotationSticks(keys: multiset<IonKey>, patch: Patch, anchor: Option<bool>, w: World,
      before: map<Kid, IonKey>, next: Option<IonKey>, request: Request, after: map<Kid, IonKey>, later: World)
    requires UpdateEffect(keys, patch, anchor, w, before, next, Ok(request), after) && OwnCommitments(keys, UPDATE)
    requires later.resolved.Some? && later.resolved.value.updateCommitment == Some(Hash(request.nextUpdatePublicKey))
    ensures CanRotate(keys, later) <==>
            later.imports
            && exists k | k in keys :: IsUpdate(k) && ToIonPublicKeyJwk(k.publicKeyHex) == request.nextUpdatePublicKey
  {
    CompletedUpdate(keys, patch, anchor, w, before, next, request, after);
    SecondLookupSucceeds(keys, later.resolved.value.updateCommitment);
    hide UpdateEffect, Searchable, OwnCommitments, CanSelect, FoundTwice;
    assert Specific(later.resolved.value.updateCommitment);
  }
}
