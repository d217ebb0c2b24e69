/** Which keys an ION operation selects and discloses, in terms of the keys' own data. */
module IonMeaning {
  import opened Results
  import opened IonRotation

  // ---------------------------------------------------------------- commitments and ids

  /** Two keys have the same commitment exactly when they are the same point, however each is encoded. */
  lemma CommitmentIsPoint(a: IonKey, b: IonKey)
    ensures CommitmentOf(a) == Hash(Jwk(a.publicKeyHex.point))
    ensures CommitmentOf(a) == CommitmentOf(b) <==> a.publicKeyHex.point == b.publicKeyHex.point
  {
  }

  /** An id is shortened to its first 50 characters, so two ids are told apart exactly when they differ in these. */
  lemma TruncatedIs(a: string, b: string)
    ensures Truncated(a) <= a && |Truncated(a)| == if |a| < 50 then |a| else 50
    ensures Truncated(a) == Truncated(b) <==>
            a == b || (|a| >= 50 && |b| >= 50 && forall i | 0 <= i < 50 :: a[i] == b[i])
  {
    if |a| >= 50 && |b| >= 50 {
      assert Truncated(a) == a[..50] && Truncated(b) == b[..50];
      if Truncated(a) == Truncated(b) {
        forall i | 0 <= i < 50 ensures a[i] == b[i] { assert a[i] == a[..50][i] && b[i] == b[..50][i]; }
      }
    }
  }

  lemma AnchorIsOption(options: Option<UpdateOpts>)
    ensures options.Some? ==> AnchorOf(options) == options.value.anchor
    ensures options.None? ==> AnchorOf(options).None?
  {
  }

  // ---------------------------------------------------------------- which key is selected

  /** What a lookup does not tell apart: no commitment, an empty one and 'genesis'. */
  predicate Open(commitment: Option<Commitment>) {
    commitment == None || commitment == Some(Text("")) || commitment == Some(Text("genesis"))
  }

  /** The key has the relation, and what is asked for is left open, or is its own commitment, or it has none. */
  predicate Fits(key: IonKey, relation: Relation, commitment: Option<Commitment>) {
    && key.meta.Ion? && key.meta.ion.relation == relation
    && (Open(commitment) || key.meta.ion.commitment == commitment
        || key.meta.ion.commitment == None || key.meta.ion.commitment == Some(Text("")))
  }

  lemma FitsIff(key: IonKey, relation: Relation, commitment: Option<Commitment>)
    ensures Selectable(key, relation, commitment) <==> Fits(key, relation, commitment)
  {
  }

  /** The last of the keys that fit; for 'genesis' the first. */
  ghost predicate LastFit(keys: seq<IonKey>, relation: Relation, commitment: Option<Commitment>, i: nat)
    requires i < |keys|
  {
    && Fits(keys[i], relation, commitment)
    && forall j | (if commitment == Some(Text("genesis")) then 0 <= j < i else i < j < |keys|) ::
         !Fits(keys[j], relation, commitment)
  }

  /** The keys that fit, in order. */
  function Fitting(keys: seq<IonKey>, relation: Relation, commitment: Option<Commitment>): seq<IonKey> {
    if keys == [] then []
    else (if Fits(keys[0], relation, commitment) then [keys[0]] else []) + Fitting(keys[1..], relation, commitment)
  }

  lemma {:induction false} RelationAfterCommitment(keys: seq<IonKey>, relation: Relation,
                                                  commitment: Option<Commitment>)
    requires forall k | k in keys :: !k.meta.Plain?
    ensures FilterByCommitment(keys, commitment).Ok?
    ensures FilterByRelation(FilterByCommitment(keys, commitment).value, relation)
            == Ok(Fitting(keys, relation, commitment))
  {
    if keys != [] {
      assert keys[0] in keys && forall k | k in keys[1..] :: k in keys;
      RelationAfterCommitment(keys[1..], relation, commitment);
      FitsIff(keys[0], relation, commitment);
      var rest := FilterByCommitment(keys[1..], commitment).value;
      var all := FilterByCommitment(keys, commitment).value;
      if MayHave(keys[0], commitment) {
        assert all == [keys[0]] + rest;
        assert all[0] == keys[0] && all[1..] == rest;
      } else {
        assert all == rest && !Fits(keys[0], relation, commitment);
        assert Fitting(keys, relation, commitment) == Fitting(keys[1..], relation, commitment);
      }
    }
  }

  /** If no key has foreign metadata, those that fit are selected, in order; otherwise the lookup throws. */
  lemma SelectedInOrder(keys: seq<IonKey>, relation: Relation, commitment: Option<Commitment>)
    ensures Selected(keys, relation, commitment) ==
            if exists k | k in keys :: k.meta.Plain? then Err(TypeError) else Ok(Fitting(keys, relation, commitment))
  {
    SelectedIs(keys, relation, commitment);
    if k :| k in keys && k.meta.Plain? {
      assert IsPlain(k);
    } else {
      assert forall k | k in keys :: !IsPlain(k);
      RelationAfterCommitment(keys, relation, commitment);
    }
  }

  lemma {:induction false} NoneFits(keys: seq<IonKey>, relation: Relation, commitment: Option<Commitment>)
    ensures Fitting(keys, relation, commitment) == [] <==> forall k | k in keys :: !Fits(k, relation, commitment)
  {
    hide Fits;
    if keys != [] {
      NoneFits(keys[1..], relation, commitment);
      assert keys == [keys[0]] + keys[1..];
    }
  }

  lemma {:induction false} FirstFitting(keys: seq<IonKey>, relation: Relation, commitment: Option<Commitment>)
    returns (i: nat)
    requires Fitting(keys, relation, commitment) != []
    ensures i < |keys| && keys[i] == Fitting(keys, relation, commitment)[0] && Fits(keys[i], relation, commitment)
    ensures forall j | 0 <= j < i :: !Fits(keys[j], relation, commitment)
  {
    hide Fits;
    if Fits(keys[0], relation, commitment) {
      i := 0;
    } else {
      i := FirstFitting(keys[1..], relation, commitment);
      assert forall j | 0 < j <= i :: keys[j] == keys[1..][j - 1];
      i := i + 1;
    }
  }

  lemma {:induction false} LastFitting(keys: seq<IonKey>, relation: Relation, commitment: Option<Commitment>)
    returns (i: nat)
    requires Fitting(keys, relation, commitment) != []
    ensures i < |keys| && Fits(keys[i], relation, commitment)
    ensures var fit := Fitting(keys, relation, commitment); keys[i] == fit[|fit| - 1]
    ensures forall j | i < j < |keys| :: !Fits(keys[j], relation, commitment)
  {
    hide Fits;
    var rest := keys[1..];
    assert forall j | 0 < j < |keys| :: keys[j] == rest[j - 1];
    if Fitting(rest, relation, commitment) == [] {
      NoneFits(rest, relation, commitment);
      assert forall j | 0 <= j < |rest| :: rest[j] in rest;
      i := 0;
    } else {
      i := LastFitting(rest, relation, commitment);
      i := i + 1;
    }
  }

  /** A key that is looked up is the last of those that fit, or, for 'genesis', the first. */
  lemma ChosenIs(keys: seq<IonKey>, relation: Relation, commitment: Option<Commitment>, key: IonKey) returns (i: nat)
    requires IsChosen(Selected(keys, relation, commitment), commitment, key)
    ensures forall k | k in keys :: !k.meta.Plain?
    ensures i < |keys| && keys[i] == key && LastFit(keys, relation, commitment, i)
  {
    hide Fits;
    SelectedInOrder(keys, relation, commitment);
    if commitment == Some(Text("genesis")) {
      i := FirstFitting(keys, relation, commitment);
    } else {
      i := LastFitting(keys, relation, commitment);
    }
  }

  // ---------------------------------------------------------------- what an operation discloses

  /** Every update key was made with its own point's commitment, as the provider does. */
  ghost predicate CarryOwnPoints(keys: multiset<IonKey>) {
    forall k | k in keys && k.meta.Ion? && k.meta.ion.relation == UPDATE ::
      k.meta.ion.commitment == Some(Hash(Jwk(k.publicKeyHex.point)))
  }

  /**
   * An operation that completes on a document committed to a point discloses that very point, signs with a key of the
   * identifier that has it, and commits to the point of a new update key.
   */
  lemma DisclosesPoint(keys: multiset<IonKey>, patch: Patch, anchor: Option<bool>, w: World, before: map<Kid, IonKey>,
                       next: Option<IonKey>, request: Request, after: map<Kid, IonKey>, point: Point)
    requires UpdateEffect(keys, patch, anchor, w, before, next, Ok(request), after) && CarryOwnPoints(keys)
    requires w.resolved.Some? && w.resolved.value.updateCommitment == Some(Hash(Jwk(point)))
    ensures request.updatePublicKey == Jwk(point) && request.patch == patch
    ensures exists k | k in keys :: k.kid == request.signer && k.publicKeyHex.point == point
    ensures next.Some? && request.nextUpdatePublicKey == Jwk(next.value.publicKeyHex.point)
    ensures next.value.meta == Ion(IonMeta(UPDATE, Some(Hash(Jwk(next.value.publicKeyHex.point)))))
    ensures after == before[next.value.kid := next.value]
  {
    var commitment := Hash(Jwk(point));
    assert OwnCommitments(keys, UPDATE);
    OwnCommitmentsSuffice(keys, commitment);
    DisclosesCommittedIff(keys, commitment);
    var current :| current in keys && FoundTwice(keys, Some(commitment), current)
                   && Hash(request.updatePublicKey) == CommitmentOf(current) && request.signer == current.kid;
    hide FoundTwice, OwnOrNone, NoStranger;
    assert CommitmentOf(current) == commitment;
  }
}
