/** The index of linked-data signature suites and the choice of a signing key against it (packages/credential-ld). */
module LdSuites {
  import opened Results
  import opened Strings

  datatype Suite = Suite(name: string, keyType: string, verificationTypes: seq<string>)

  type Cell = (string, string)

  type Index = map<Cell, seq<Suite>>

  // ---------------------------------------------------------------- the plain filter the index stands for

  function Copies(suite: Suite, n: nat): seq<Suite> {
    seq(n, _ => suite)
  }

  /** The suites for a key type, in order, each as often as it lists the verification type. */
  function Filtered(suites: seq<Suite>, keyType: string, verificationType: string): seq<Suite> {
    if suites == [] then []
    else
      var last := suites[|suites| - 1];
      Filtered(suites[..|suites| - 1], keyType, verificationType)
      + if last.keyType == keyType then Copies(last, Occurrences(last.verificationTypes, verificationType)) else []
  }

  /** Every suite as often as it lists any type. */
  ghost function Listed(suites: seq<Suite>): multiset<Suite> {
    if suites == [] then multiset{}
    else
      var last := suites[|suites| - 1];
      Listed(suites[..|suites| - 1]) + multiset(Copies(last, |last.verificationTypes|))
  }

  predicate Supports(suite: Suite, keyType: string, verificationType: string) {
    suite.keyType == keyType && verificationType in suite.verificationTypes
  }

  lemma {:induction false} OccursIff(types: seq<string>, verificationType: string)
    ensures Occurrences(types, verificationType) > 0 <==> verificationType in types
  {
    if types != [] {
      OccursIff(types[..|types| - 1], verificationType);
      assert types == types[..|types| - 1] + [types[|types| - 1]];
    }
  }

  /** The filter holds exactly the suites that support the two types. */
  lemma {:induction false} FilteredMembers(suites: seq<Suite>, keyType: string, verificationType: string, suite: Suite)
    ensures suite in Filtered(suites, keyType, verificationType)
            <==> suite in suites && Supports(suite, keyType, verificationType)
  {
    if suites != [] {
      var last := suites[|suites| - 1];
      FilteredMembers(suites[..|suites| - 1], keyType, verificationType, suite);
      OccursIff(last.verificationTypes, verificationType);
      var n := Occurrences(last.verificationTypes, verificationType);
      assert suite in Copies(last, n) <==> n > 0 && suite == last by {
        if n > 0 { assert Copies(last, n)[0] == last; }
      }
      assert suites == suites[..|suites| - 1] + [last];
    }
  }

  lemma {:induction false} OccurrencesCount(texts: seq<string>, text: string)
    ensures Occurrences(texts, text) == multiset(texts)[text]
  {
    if texts != [] {
      OccurrencesCount(texts[..|texts| - 1], text);
      assert texts == texts[..|texts| - 1] + [texts[|texts| - 1]];
    }
  }

  /** What is filtered out of a list is what is filtered out of its parts, in order. */
  lemma {:induction false} FilteredInOrder(a: seq<Suite>, b: seq<Suite>, keyType: string, verificationType: string)
    ensures Filtered(a + b, keyType, verificationType)
            == Filtered(a, keyType, verificationType) + Filtered(b, keyType, verificationType)
  {
    if b == [] {
      assert a + b == a;
    } else {
      var last := |b| - 1;
      FilteredInOrder(a, b[..last], keyType, verificationType);
      assert (a + b)[..|a + b| - 1] == a + b[..last];
    }
  }

  /** One suite is kept once for each time it lists the verification type, if it is for the key type. */
  lemma FilteredOne(suite: Suite, keyType: string, verificationType: string)
    ensures var found := Filtered([suite], keyType, verificationType);
      && |found| == (if suite.keyType == keyType then multiset(suite.verificationTypes)[verificationType] else 0)
      && forall i | 0 <= i < |found| :: found[i] == suite
  {
    OccurrencesCount(suite.verificationTypes, verificationType);
    assert [suite][..0] == [];
    hide Occurrences;
  }

  lemma CopiesCount(suite: Suite, n: nat)
    ensures multiset(Copies(suite, n)) == multiset{}[suite := n]
    decreases n
  {
    if n > 0 {
      CopiesCount(suite, n - 1);
      assert Copies(suite, n) == Copies(suite, n - 1) + [suite];
    } else {
      assert Copies(suite, n) == [];
    }
  }

  lemma ListedSnoc(suites: seq<Suite>, last: Suite)
    ensures Listed(suites + [last]) == Listed(suites) + Listed([last])
    ensures Listed([last]) == multiset(Copies(last, |last.verificationTypes|))
  {
    hide Copies;
    assert (suites + [last])[..|suites + [last]| - 1] == suites;
    assert [last][..0] == [];
  }

  /** One suite is listed once for each of its types. */
  lemma ListedOne(suite: Suite)
    ensures Listed([suite]) == multiset{}[suite := |suite.verificationTypes|]
  {
    CopiesCount(suite, |suite.verificationTypes|);
    ListedSnoc([], suite);
  }

  lemma ListedNone(suite: Suite)
    ensures Listed([])[suite] == 0
  {
  }

  /** What a list of suites lists is what its parts list. */
  lemma {:induction false} ListedSum(a: seq<Suite>, b: seq<Suite>, suite: Suite)
    ensures Listed(a + b)[suite] == Listed(a)[suite] + Listed(b)[suite]
  {
    hide *;
    if b == [] {
      assert a + b == a;
      ListedNone(suite);
    } else {
      var front, last := b[..|b| - 1], b[|b| - 1];
      ListedSum(a, front, suite);
      ListedSnoc(a + front, last);
      ListedSnoc(front, last);
      assert a + b == a + front + [last] && b == front + [last];
    }
  }

  // ---------------------------------------------------------------- the index as one flat map

  function At(index: Index, cell: Cell): seq<Suite> {
    if cell in index then index[cell] else []
  }

  function Add(index: Index, cell: Cell, suite: Suite): Index {
    index[cell := At(index, cell) + [suite]]
  }

  /** No cell is present but empty, so that a present cell is a usable answer. */
  predicate NoEmptyCell(index: Index) {
    forall cell | cell in index :: index[cell] != []
  }

  /** What one suite adds. */
  function AddTypes(index: Index, suite: Suite, types: seq<string>): Index {
    if types == [] then index
    else Add(AddTypes(index, suite, types[..|types| - 1]), (suite.keyType, types[|types| - 1]), suite)
  }

  function IndexOf(suites: seq<Suite>): Index {
    if suites == [] then map[]
    else
      var last := suites[|suites| - 1];
      AddTypes(IndexOf(suites[..|suites| - 1]), last, last.verificationTypes)
  }

  lemma {:induction false} AddTypesAt(index: Index, suite: Suite, types: seq<string>, cell: Cell)
    ensures At(AddTypes(index, suite, types), cell)
            == At(index, cell) + if cell.0 == suite.keyType then Copies(suite, Occurrences(types, cell.1)) else []
    ensures NoEmptyCell(index) ==> NoEmptyCell(AddTypes(index, suite, types))
  {
    if types != [] {
      AddTypesAt(index, suite, types[..|types| - 1], cell);
      var n := Occurrences(types[..|types| - 1], cell.1);
      assert Copies(suite, n) + [suite] == Copies(suite, n + 1);
    }
  }

  /** The index holds at every cell what the plain filter gives. */
  lemma {:induction false} IndexAt(suites: seq<Suite>, cell: Cell)
    ensures At(IndexOf(suites), cell) == Filtered(suites, cell.0, cell.1)
    ensures NoEmptyCell(IndexOf(suites))
  {
    if suites != [] {
      var last := suites[|suites| - 1];
      IndexAt(suites[..|suites| - 1], cell);
      AddTypesAt(IndexOf(suites[..|suites| - 1]), last, last.verificationTypes, cell);
    }
  }

  // ---------------------------------------------------------------- counting the whole index

  /** All entries of the cells of `cells`. */
  ghost function Total(index: Index, cells: set<Cell>): multiset<Suite>
    requires cells <= index.Keys
  {
    if cells == {} then multiset{}
    else
      var cell :| cell in cells;
      multiset(index[cell]) + Total(index, cells - {cell})
  }

  lemma TotalNone(index: Index)
    ensures Total(index, {}) == multiset{}
  {
  }

  lemma {:induction false} TotalTake(index: Index, cells: set<Cell>, cell: Cell)
    requires cells <= index.Keys && cell in cells
    ensures Total(index, cells) == multiset(index[cell]) + Total(index, cells - {cell})
    decreases cells
  {
    var picked :| picked in cells && Total(index, cells) == multiset(index[picked]) + Total(index, cells - {picked});
    if picked != cell {
      TotalTake(index, cells - {picked}, cell);
      TotalTake(index, cells - {cell}, picked);
      assert cells - {picked} - {cell} == cells - {cell} - {picked};
    }
  }

  lemma {:induction false} TotalSame(a: Index, b: Index, cells: set<Cell>)
    requires cells <= a.Keys && cells <= b.Keys && forall cell | cell in cells :: a[cell] == b[cell]
    ensures Total(a, cells) == Total(b, cells)
    decreases cells
  {
    if cells != {} {
      var cell :| cell in cells;
      TotalTake(a, cells, cell);
      TotalTake(b, cells, cell);
      TotalSame(a, b, cells - {cell});
    }
  }

  lemma AddTotal(index: Index, cell: Cell, suite: Suite)
    ensures Total(Add(index, cell, suite), Add(index, cell, suite).Keys) == Total(index, index.Keys) + multiset{suite}
  {
    if cell in index {
      AddToCell(index, cell, suite);
    } else {
      AddNewCell(index, cell, suite);
    }
  }

  lemma AddToCell(index: Index, cell: Cell, suite: Suite)
    requires cell in index
    ensures Total(Add(index, cell, suite), Add(index, cell, suite).Keys) == Total(index, index.Keys) + multiset{suite}
  {
    var after := Add(index, cell, suite);
    assert after.Keys == index.Keys && after[cell] == index[cell] + [suite];
    hide Total, Add;
    TotalTake(after, after.Keys, cell);
    TotalTake(index, index.Keys, cell);
    TotalSame(after, index, index.Keys - {cell});
  }

  lemma AddNewCell(index: Index, cell: Cell, suite: Suite)
    requires cell !in index
    ensures Total(Add(index, cell, suite), Add(index, cell, suite).Keys) == Total(index, index.Keys) + multiset{suite}
  {
    var after := Add(index, cell, suite);
    assert after[cell] == [suite] && after.Keys - {cell} == index.Keys;
    hide Total, Add;
    TotalTake(after, after.Keys, cell);
    TotalSame(after, index, index.Keys);
  }

  lemma {:induction false} AddTypesTotal(index: Index, suite: Suite, types: seq<string>)
    ensures var after := AddTypes(index, suite, types);
      Total(after, after.Keys) == Total(index, index.Keys) + multiset(Copies(suite, |types|))
  {
    hide Total, Add;
    if types == [] {
      assert Copies(suite, 0) == [];
    } else {
      AddTypesTotal(index, suite, types[..|types| - 1]);
      AddTotal(AddTypes(index, suite, types[..|types| - 1]), (suite.keyType, types[|types| - 1]), suite);
      assert Copies(suite, |types| - 1) + [suite] == Copies(suite, |types|);
    }
  }

  /** Nothing is lost or duplicated: the index holds every suite once per listed type. */
  lemma {:induction false} IndexTotal(suites: seq<Suite>)
    ensures Total(IndexOf(suites), IndexOf(suites).Keys) == Listed(suites)
  {
    if suites != [] {
      var last := suites[|suites| - 1];
      IndexTotal(suites[..|suites| - 1]);
      AddTypesTotal(IndexOf(suites[..|suites| - 1]), last, last.verificationTypes);
    }
  }

  // ---------------------------------------------------------------- the nested, mutable index

  /** The inner record of the index: verification types to suites. */
  class Mapping {
    var entries: map<string, seq<Suite>>

    constructor (entries: map<string, seq<Suite>>)
      ensures this.entries == entries
    {
      this.entries := entries;
    }
  }

  /** `entries` is the row of a key type. */
  ghost predicate RowIs(index: Index, keyType: string, entries: map<string, seq<Suite>>) {
    forall v: string ::
      (v in entries <==> (keyType, v) in index) && (v in entries ==> entries[v] == index[(keyType, v)])
  }

  lemma NextInRow(index: Index, suite: Suite, i: nat, entries: map<string, seq<Suite>>)
    requires i < |suite.verificationTypes|
    requires RowIs(AddTypes(index, suite, suite.verificationTypes[..i]), suite.keyType, entries)
    ensures var v := suite.verificationTypes[i];
      RowIs(AddTypes(index, suite, suite.verificationTypes[..i + 1]), suite.keyType,
            entries[v := (if v in entries then entries[v] else []) + [suite]])
  {
    assert suite.verificationTypes[..i + 1][..i] == suite.verificationTypes[..i];
  }

  lemma {:induction false} OtherRowStays(index: Index, suite: Suite, types: seq<string>, k: string,
                                        entries: map<string, seq<Suite>>)
    requires k != suite.keyType && RowIs(index, k, entries)
    ensures RowIs(AddTypes(index, suite, types), k, entries)
  {
    if types != [] {
      OtherRowStays(index, suite, types[..|types| - 1], k, entries);
    }
  }

  class LdSuiteLoader {
    ghost const suites: seq<Suite>
    var signatureMap: map<string, Mapping>

    ghost predicate Separate()
      reads this
    {
      forall j, k | j in signatureMap && k in signatureMap && j != k :: signatureMap[j] != signatureMap[k]
    }

    ghost function Row(keyType: string): map<string, seq<Suite>>
      reads this, signatureMap.Values
    {
      if keyType in signatureMap then signatureMap[keyType].entries else map[]
    }

    ghost predicate Holds(index: Index)
      reads this, signatureMap.Values
    {
      forall k: string :: RowIs(index, k, Row(k))
    }

    ghost predicate Valid()
      reads this, signatureMap.Values
    {
      Holds(IndexOf(suites))
    }

    constructor (veramoLdSignatures: seq<Suite>)
      ensures Valid() && suites == veramoLdSignatures
    {
      hide RowIs;
      suites := veramoLdSignatures;
      signatureMap := map[];
      new;
      EmptyRows();
      for i := 0 to |veramoLdSignatures|
        invariant fresh(signatureMap.Values) && Separate()
        invariant Holds(IndexOf(veramoLdSignatures[..i]))
      {
        assert veramoLdSignatures[..i + 1][..i] == veramoLdSignatures[..i];
        AddSuite(veramoLdSignatures[i], IndexOf(veramoLdSignatures[..i]));
      }
      assert veramoLdSignatures[..|veramoLdSignatures|] == veramoLdSignatures;
    }

    lemma EmptyRows()
      requires signatureMap == map[]
      ensures Holds(map[])
    {
    }

    lemma NoTypes(index: Index, suite: Suite)
      ensures AddTypes(index, suite, []) == index
    {
    }

    /** One round of the constructor's loop: the inner record is filled while it is still part of the index. */
    method AddSuite(suite: Suite, ghost index: Index)
      requires Separate() && Holds(index)
      modifies this, signatureMap.Values
      ensures Separate() && Holds(AddTypes(index, suite, suite.verificationTypes))
      ensures forall m | m in signatureMap.Values :: m in old(signatureMap.Values) || fresh(m)
    {
      hide RowIs, AddTypes;
      var keyType, types := suite.keyType, suite.verificationTypes;
      var verifierMapping;
      if keyType in signatureMap {
        verifierMapping := signatureMap[keyType];
      } else {
        verifierMapping := new Mapping(map[]);
      }
      assert verifierMapping.entries == Row(keyType) && types[..0] == [];
      NoTypes(index, suite);
      for i := 0 to |types|
        invariant RowIs(AddTypes(index, suite, types[..i]), keyType, verifierMapping.entries)
        invariant signatureMap == old(signatureMap)
        invariant if keyType in signatureMap then verifierMapping == signatureMap[keyType] else fresh(verifierMapping)
        invariant forall k | k in signatureMap && k != keyType ::
          signatureMap[k].entries == old(signatureMap[k].entries)
      {
        NextInRow(index, suite, i, verifierMapping.entries);
        var present := if types[i] in verifierMapping.entries then verifierMapping.entries[types[i]] else [];
        verifierMapping.entries := verifierMapping.entries[types[i] := present + [suite]];
      }
      assert types[..|types|] == types;
      var kept := if keyType in signatureMap then signatureMap[keyType].entries else map[];
      var merged := new Mapping(kept + verifierMapping.entries);
      assert merged.entries == verifierMapping.entries;
      signatureMap := signatureMap[keyType := merged];
      forall k: string ensures RowIs(AddTypes(index, suite, types), k, Row(k)) {
        if k != keyType {
          assert Row(k) == old(Row(k));
          OtherRowStays(index, suite, types, k, Row(k));
        }
      }
    }

    /** The suites found are those of the plain filter; the lookup throws exactly when there are none. */
    method GetSignatureSuiteForKeyType(keyType: string, verificationType: string) returns (r: Option<seq<Suite>>)
      requires Valid()
      ensures r == var found := Filtered(suites, keyType, verificationType); if found == [] then None else Some(found)
    {
      IndexAt(suites, (keyType, verificationType));
      assert RowIs(IndexOf(suites), keyType, Row(keyType));
      if keyType in signatureMap && verificationType in signatureMap[keyType].entries {
        return Some(signatureMap[keyType].entries[verificationType]);
      }
      return None;
    }

    /** All suites, each once per type it lists, in the objects' key order. */
    method GetAllSignatureSuites() returns (r: seq<Suite>)
      requires Valid()
      ensures multiset(r) == Listed(suites)
    {
      hide *;
      r := [];
      var keyTypes := signatureMap.Keys;
      ghost var index, done: set<Cell> := IndexOf(suites), {};
      CellsHaveRows(index);
      TotalNone(index);
      IndexTotal(suites);
      while keyTypes != {}
        invariant keyTypes <= signatureMap.Keys
        invariant forall cell :: cell in done <==> cell in index && cell.0 !in keyTypes
        invariant multiset(r) == Total(index, done)
        decreases keyTypes
      {
        var keyType :| keyType in keyTypes;
        var entries := signatureMap[keyType].entries;
        RowAt(index, keyType);
        var types := entries.Keys;
        while types != {}
          invariant types <= entries.Keys
          invariant forall cell :: cell in done <==>
            cell in index && (cell.0 !in keyTypes || (cell.0 == keyType && cell.1 !in types))
          invariant multiset(r) == Total(index, done)
          decreases types
        {
          var verificationType :| verificationType in types;
          ghost var cell := (keyType, verificationType);
          assert done + {cell} - {cell} == done;
          TotalTake(index, done + {cell}, cell);
          r := r + entries[verificationType];
          done := done + {cell};
          types := types - {verificationType};
        }
        keyTypes := keyTypes - {keyType};
      }
      assert done == index.Keys;
    }

    lemma CellsHaveRows(index: Index)
      requires Valid() && index == IndexOf(suites)
      ensures forall cell | cell in index :: cell.0 in signatureMap
    {
      hide IndexOf;
      forall cell | cell in index ensures cell.0 in signatureMap {
        assert RowIs(index, cell.0, Row(cell.0)) && cell == (cell.0, cell.1);
      }
    }

    lemma RowAt(index: Index, keyType: string)
      requires Valid() && index == IndexOf(suites) && keyType in signatureMap
      ensures var entries := signatureMap[keyType].entries;
        && (forall v | v in entries :: (keyType, v) in index && entries[v] == index[(keyType, v)])
        && (forall cell | cell in index && cell.0 == keyType :: cell.1 in entries)
    {
      assert RowIs(index, keyType, Row(keyType));
    }

    /** The verification types that some suite lists. */
    method GetAllSignatureSuiteTypes() returns (r: set<string>)
      requires Valid()
      ensures forall v :: v in r <==> Supported(suites, v)
    {
      r := set k, v | k in signatureMap && v in signatureMap[k].entries :: v;
      forall v ensures v in r <==> Supported(suites, v) {
        SupportedIff(suites, v);
        forall k: string ensures (k, v) in IndexOf(suites) <==> v in Row(k) {
          assert RowIs(IndexOf(suites), k, Row(k));
        }
        if v in r {
          var k :| k in signatureMap && v in signatureMap[k].entries;
          assert v in Row(k);
        }
        if k: string :| (k, v) in IndexOf(suites) {
          assert v in Row(k);
        }
      }
    }
  }

  predicate Supported(suites: seq<Suite>, verificationType: string) {
    exists s | s in suites :: verificationType in s.verificationTypes
  }

  lemma SupportedIff(suites: seq<Suite>, v: string)
    ensures Supported(suites, v) <==> exists k: string :: (k, v) in IndexOf(suites)
  {
    if Supported(suites, v) {
      var s :| s in suites && v in s.verificationTypes;
      FilteredMembers(suites, s.keyType, v, s);
      IndexAt(suites, (s.keyType, v));
    }
    if k: string :| (k, v) in IndexOf(suites) {
      IndexAt(suites, (k, v));
      var s := Filtered(suites, k, v)[0];
      FilteredMembers(suites, k, v, s);
    }
  }

  // ---------------------------------------------------------------- choosing a signing key

  /** A managed key matched to a verification method of its DID document. */
  datatype ExtendedKey = ExtendedKey(kid: string, keyType: string, methodType: string, methodId: string)

  function FindKid(keys: seq<ExtendedKey>, kid: string): (r: Option<ExtendedKey>)
    ensures r.None? <==> forall k | k in keys :: k.kid != kid
    ensures r.Some? ==> r.value in keys && r.value.kid == kid
  {
    if keys == [] then None else if keys[0].kid == kid then Some(keys[0]) else FindKid(keys[1..], kid)
  }

  /** The key found is the first of that kid. */
  lemma {:induction false} FindKidIsFirst(keys: seq<ExtendedKey>, kid: string, i: nat)
    requires i < |keys| && keys[i].kid == kid && forall j | 0 <= j < i :: keys[j].kid != kid
    ensures FindKid(keys, kid) == Some(keys[i])
  {
    if i > 0 {
      assert forall j | 0 <= j < i - 1 :: keys[1..][j] == keys[j + 1];
      FindKidIsFirst(keys[1..], kid, i - 1);
    }
  }

  /** `key` is the first whose method has a supported type. */
  ghost predicate FirstSupported(suites: seq<Suite>, keys: seq<ExtendedKey>, key: ExtendedKey) {
    exists i | 0 <= i < |keys| ::
      && keys[i] == key && Supported(suites, key.methodType)
      && forall j | 0 <= j < i :: !Supported(suites, keys[j].methodType)
  }

  /**
   * The key asked for if its method has a supported type, else the first one with such a type; it throws exactly when
   * there is none.
   */
  method FindSigningKeyWithId(loader: LdSuiteLoader, keys: seq<ExtendedKey>, keyRef: string)
    returns (r: Option<ExtendedKey>)
    requires loader.Valid()
    ensures r.None? <==> forall k | k in keys :: !Supported(loader.suites, k.methodType)
    ensures r.Some? ==> r.value in keys && Supported(loader.suites, r.value.methodType)
    ensures var asked := FindKid(keys, keyRef);
      r.Some? ==> if keyRef != "" && asked.Some? && Supported(loader.suites, asked.value.methodType) then r == asked
                  else FirstSupported(loader.suites, keys, r.value)
  {
    var supportedTypes := loader.GetAllSignatureSuiteTypes();
    r := None;
    if keyRef != "" {
      r := FindKid(keys, keyRef);
    }
    if r.Some? && r.value.methodType !in supportedTypes {
      r := None;
    }
    if r.None? {
      var i := 0;
      while i < |keys| && keys[i].methodType !in supportedTypes
        invariant i <= |keys| && forall j | 0 <= j < i :: keys[j].methodType !in supportedTypes
      {
        i := i + 1;
      }
      r := if i < |keys| then Some(keys[i]) else None;
    }
  }

  /** Keys are published under verification methods of their own type: no suite for another key type lists them. */
  predicate MatchesSuites(suites: seq<Suite>, key: ExtendedKey) {
    forall s | s in suites && key.methodType in s.verificationTypes :: s.keyType == key.keyType
  }

  /** No verification type is listed by suites for different key types. */
  predicate TypesUnshared(suites: seq<Suite>) {
    forall s, t | s in suites && t in suites && s.keyType != t.keyType ::
      forall v | v in s.verificationTypes :: v !in t.verificationTypes
  }

  /** The lookup for a chosen key throws exactly when all suites that list its method's type are for other key types. */
  lemma LookupThrowsIff(suites: seq<Suite>, key: ExtendedKey)
    requires Supported(suites, key.methodType)
    ensures Filtered(suites, key.keyType, key.methodType) == []
            <==> forall s | s in suites && key.methodType in s.verificationTypes :: s.keyType != key.keyType
    ensures MatchesSuites(suites, key) ==> Filtered(suites, key.keyType, key.methodType) != []
    ensures TypesUnshared(suites) ==>
      (Filtered(suites, key.keyType, key.methodType) != [] <==> MatchesSuites(suites, key))
  {
    var found := Filtered(suites, key.keyType, key.methodType);
    if found != [] {
      FilteredMembers(suites, key.keyType, key.methodType, found[0]);
    }
    forall s | s in suites && key.methodType in s.verificationTypes && s.keyType == key.keyType ensures found != [] {
      FilteredMembers(suites, key.keyType, key.methodType, s);
    }
    var s :| s in suites && key.methodType in s.verificationTypes;
    if TypesUnshared(suites) && found != [] {
      var t := found[0];
      forall u | u in suites && key.methodType in u.verificationTypes ensures u.keyType == key.keyType {
        assert u.keyType == t.keyType;
      }
    }
  }

  /** The four suites the package ships. */
  const SHIPPED := [
    Suite("EcdsaSecp256k1RecoverySignature2020", "Secp256k1", ["EcdsaSecp256k1RecoveryMethod2020"]),
    Suite("Ed25519Signature2018", "Ed25519", ["Ed25519VerificationKey2018", "JsonWebKey2020"]),
    Suite("Ed25519Signature2020", "Ed25519", ["Ed25519VerificationKey2020", "Ed25519VerificationKey2018"]),
    Suite("JsonWebSignature2020", "Ed25519", ["JsonWebKey2020"])]

  /** Of those, all but the first are for Ed25519 keys, and no other lists its verification type. */
  lemma ShippedTypes(s: Suite)
    requires s in SHIPPED
    ensures s == SHIPPED[0] || s.keyType == "Ed25519"
    ensures s != SHIPPED[0] ==> forall v | v in s.verificationTypes :: v !in SHIPPED[0].verificationTypes
  {
    var types := ["Ed25519VerificationKey2018", "JsonWebKey2020", "Ed25519VerificationKey2020"];
    assert |types[0]| == 26 && |types[1]| == 14 && |types[2]| == 26;
    assert |SHIPPED[0].verificationTypes[0]| == 32;
    if s != SHIPPED[0] {
      assert s == SHIPPED[1] || s == SHIPPED[2] || s == SHIPPED[3];
      assert forall v | v in s.verificationTypes :: v in types;
    }
  }

  lemma JsonWebSuite()
    ensures SHIPPED[3].keyType == "Ed25519" && SHIPPED[3].keyType != "Secp256k1"
    ensures "JsonWebKey2020" in SHIPPED[3].verificationTypes && "JsonWebKey2020" !in SHIPPED[0].verificationTypes
  {
    ShippedTypes(SHIPPED[3]);
    assert SHIPPED[3].verificationTypes == ["JsonWebKey2020"];
    assert |"Secp256k1"| != |"Ed25519"|;
  }

  /** If all but one suite are for one key type and share no type with that one, no type is shared. */
  lemma UnsharedButOne(suites: seq<Suite>, one: Suite, others: string)
    requires forall s | s in suites && s != one ::
      s.keyType == others && forall v | v in s.verificationTypes :: v !in one.verificationTypes
    ensures TypesUnshared(suites)
  {
  }

  /** Such a key is chosen: a secp256k1 key published as a JSON web key, with suites the package ships. */
  lemma ForeignMethodIsChosen(key: ExtendedKey, suites: seq<Suite>)
    requires key.keyType == "Secp256k1" && key.methodType == "JsonWebKey2020"
    requires SHIPPED[3] in suites && forall s | s in suites :: s in SHIPPED
    ensures TypesUnshared(suites) && FirstSupported(suites, [key], key)
    ensures Filtered(suites, key.keyType, key.methodType) == []
  {
    hide Filtered, TypesUnshared;
    var first, web := SHIPPED[0], SHIPPED[3];
    JsonWebSuite();
    forall s | s in suites && s != first
      ensures s.keyType == web.keyType && forall v | v in s.verificationTypes :: v !in first.verificationTypes
    {
      ShippedTypes(s);
    }
    UnsharedButOne(suites, first, web.keyType);
    LookupThrowsIff(suites, key);
    assert [key][0] == key && Supported(suites, key.methodType);
  }
}
