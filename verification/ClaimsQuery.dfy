/** `dataStoreORMGetVerifiableCredentialsByClaims` in both stores: credentials found through their claims. */
module ClaimsQuery {
  import opened Results
  import opened JsonStore
  import opened JsonStoreRuns
  import CellTests
  import JsonQuery
  import Strings

  datatype Unique = Unique(hash: Hash, credential: Credential)

  datatype Trouble = BadQuery(error: JsonQuery.QueryError) | MissingCredential

  function OptionalText(s: Option<string>): Option<JsonQuery.Value> {
    match s case Some(t) => Some(JsonQuery.Str(t)) case None => None
  }

  function OptionalTime(date: Option<Date>): Option<JsonQuery.Value> {
    match date case Some(d) => Some(JsonQuery.Time(d.ms, d.text)) case None => None
  }

  /** A claim's columns. */
  function ClaimColumn(claim: ClaimEntry, column: string): Option<JsonQuery.Value> {
    if column == "type" then Some(JsonQuery.Str(claim.claimType))
    else if column == "value" then Some(JsonQuery.Str(claim.value))
    else if column == "issuer" then Some(JsonQuery.Str(claim.issuer))
    else if column == "subject" then OptionalText(claim.subject)
    else if column == "context" then Some(JsonQuery.List(claim.context))
    else if column == "credentialType" then Some(JsonQuery.List(claim.credentialType))
    else if column == "issuanceDate" then OptionalTime(claim.issuanceDate)
    else if column == "expirationDate" then OptionalTime(claim.expirationDate)
    else None
  }

  // ---------------------------------------------------------------- first occurrences

  function CredentialHashes(claims: seq<ClaimEntry>): (r: seq<Hash>)
    ensures |r| == |claims|
    ensures forall i | 0 <= i < |r| :: r[i] == claims[i].credentialHash
  {
    seq(|claims|, i requires 0 <= i < |claims| => claims[i].credentialHash)
  }

  function FirstOccurrences<T(==)>(s: seq<T>): seq<T> {
    if s == [] then []
    else
      var front := FirstOccurrences(s[..|s| - 1]);
      if s[|s| - 1] in front then front else front + [s[|s| - 1]]
  }

  function IndexOf<T(==)>(s: seq<T>, x: T): nat
    requires x in s
  {
    if s[0] == x then 0 else 1 + IndexOf(s[1..], x)
  }

  lemma {:induction false} IndexOfPrefix<T>(s: seq<T>, t: seq<T>, x: T)
    requires x in s
    ensures IndexOf(s + t, x) == IndexOf(s, x) < |s|
  {
    if s[0] != x {
      assert (s + t)[1..] == s[1..] + t;
      IndexOfPrefix(s[1..], t, x);
    }
  }

  lemma {:induction false} IndexOfNew<T>(s: seq<T>, x: T)
    requires x !in s
    ensures IndexOf(s + [x], x) == |s|
  {
    if s != [] {
      assert (s + [x])[1..] == s[1..] + [x];
      IndexOfNew(s[1..], x);
    }
  }

  /** The same elements, none twice, in the order in which they first occur. */
  lemma {:induction false} FirstOccurrencesMeaning<T>(s: seq<T>)
    ensures forall x :: x in FirstOccurrences(s) <==> x in s
    ensures forall i, j | 0 <= i < j < |FirstOccurrences(s)| ::
              IndexOf(s, FirstOccurrences(s)[i]) < IndexOf(s, FirstOccurrences(s)[j])
    ensures forall i, j | 0 <= i < j < |FirstOccurrences(s)| :: FirstOccurrences(s)[i] != FirstOccurrences(s)[j]
  {
    if s != [] {
      var front, last := s[..|s| - 1], s[|s| - 1];
      assert s == front + [last];
      FirstOccurrencesMeaning(front);
      var r := FirstOccurrences(front);
      forall x | x in front ensures IndexOf(s, x) == IndexOf(front, x) < |front| {
        IndexOfPrefix(front, [last], x);
      }
      var all := FirstOccurrences(s);
      forall i, j | 0 <= i < j < |all| ensures IndexOf(s, all[i]) < IndexOf(s, all[j]) {
        var x, y := all[i], all[j];
        assert x == r[i] && x in FirstOccurrences(front);
        if j < |r| {
          assert y == r[j] && y in FirstOccurrences(front);
          assert IndexOf(front, r[i]) < IndexOf(front, r[j]);
          assert IndexOf(s, x) == IndexOf(front, x) && IndexOf(s, y) == IndexOf(front, y);
        } else {
          IndexOfNew(front, last);
          assert IndexOf(s, x) < |front| == IndexOf(s, y);
        }
      }
    }
  }

  // ---------------------------------------------------------------- the JSON store

  function Lookup(credentials: map<Hash, CredentialEntry>, hashes: seq<Hash>): Result<seq<Unique>, Trouble> {
    if hashes == [] then Ok([])
    else
      var front :- Lookup(credentials, hashes[..|hashes| - 1]);
      var hash := hashes[|hashes| - 1];
      if hash !in credentials then Err(MissingCredential)
      else Ok(front + [Unique(credentials[hash].hash, credentials[hash].parsed)])
  }

  /** The credentials of a list of claims, each once. */
  function ByClaims(credentials: map<Hash, CredentialEntry>, claims: seq<ClaimEntry>): Result<seq<Unique>, Trouble> {
    Lookup(credentials, FirstOccurrences(CredentialHashes(claims)))
  }

  const CLAIM_OWNERS := ["issuer", "subject"]

  function FindByClaims(tables: Tables, rows: seq<ClaimEntry>, re: JsonQuery.RegExp, collate: JsonQuery.Collation,
                        args: JsonQuery.FindArgs, did: string): Result<seq<Unique>, Trouble>
  {
    match JsonQuery.Query(ClaimColumn, re, collate, rows, args, CLAIM_OWNERS, did)
    case Err(e) => Err(BadQuery(e))
    case Ok(claims) => ByClaims(tables.credentials, claims)
  }

  /** `rows` is `Object.values` of the claims table, in whatever order. */
  method GetVerifiableCredentialsByClaims(tables: Tables, rows: seq<ClaimEntry>, re: JsonQuery.RegExp,
                                          collate: JsonQuery.Collation, args: JsonQuery.FindArgs, authorizedDid: string)
    returns (r: Result<seq<Unique>, Trouble>)
    ensures r == FindByClaims(tables, rows, re, collate, args, authorizedDid)
  {
    hide JsonQuery.Query;
    var filtered :=
      JsonQuery.BuildQuery(ClaimColumn, re, collate, rows, args, CLAIM_OWNERS, authorizedDid);
    if filtered.Err? {
      return Err(BadQuery(filtered.error));
    }
    var claims := filtered.value;
    // The set of credential entries, in insertion order; entries are identified by their place in the table.
    var filteredCredentials: seq<Hash> := [];
    for i := 0 to |claims|
      invariant filteredCredentials == FirstOccurrences(CredentialHashes(claims)[..i])
    {
      assert CredentialHashes(claims)[..i + 1][..i] == CredentialHashes(claims)[..i];
      if claims[i].credentialHash !in filteredCredentials {
        filteredCredentials := filteredCredentials + [claims[i].credentialHash];
      }
    }
    assert CredentialHashes(claims)[..|claims|] == CredentialHashes(claims);
    var found: seq<Unique> := [];
    for i := 0 to |filteredCredentials|
      invariant Lookup(tables.credentials, filteredCredentials[..i]) == Ok(found)
    {
      assert filteredCredentials[..i + 1][..i] == filteredCredentials[..i];
      var hash := filteredCredentials[i];
      if hash !in tables.credentials {
        LookupStops(tables.credentials, filteredCredentials, i + 1);
        return Err(MissingCredential);
      }
      found := found + [Unique(tables.credentials[hash].hash, tables.credentials[hash].parsed)];
    }
    assert filteredCredentials[..|filteredCredentials|] == filteredCredentials;
    return Ok(found);
  }

  lemma {:induction false} LookupStops(credentials: map<Hash, CredentialEntry>, hashes: seq<Hash>, n: nat)
    requires n <= |hashes| && Lookup(credentials, hashes[..n]) == Err(MissingCredential)
    ensures Lookup(credentials, hashes) == Err(MissingCredential)
  {
    if n < |hashes| {
      assert hashes[..|hashes| - 1][..n] == hashes[..n];
      LookupStops(credentials, hashes[..|hashes| - 1], n);
    } else {
      assert hashes[..n] == hashes;
    }
  }

  lemma {:induction false} LookupFinds(credentials: map<Hash, CredentialEntry>, hashes: seq<Hash>)
    requires forall h | h in hashes :: h in credentials && credentials[h].hash == h
    ensures Lookup(credentials, hashes).Ok?
    ensures var found := Lookup(credentials, hashes).value;
            && |found| == |hashes|
            && forall i | 0 <= i < |found| :: found[i] == Unique(hashes[i], credentials[hashes[i]].parsed)
  {
    if hashes != [] {
      LookupFinds(credentials, hashes[..|hashes| - 1]);
    }
  }

  // ---------------------------------------------------------------- the SQL store

  function DistinctByHash(joined: seq<Unique>): seq<Unique> {
    if joined == [] then []
    else
      var acc, current := DistinctByHash(joined[..|joined| - 1]), joined[|joined| - 1];
      if exists item | item in acc :: item.hash == current.hash then acc else acc + [current]
  }

  /** The reduction over joined claims: keep a credential unless one with its hash was kept before. */
  method ReduceByHash(joined: seq<Unique>) returns (acc: seq<Unique>)
    ensures acc == DistinctByHash(joined)
  {
    acc := [];
    for k := 0 to |joined|
      invariant acc == DistinctByHash(joined[..k])
    {
      var current := joined[k];
      assert joined[..k + 1][..k] == joined[..k];
      if !exists item | item in acc :: item.hash == current.hash {
        acc := acc + [current];
      }
    }
    assert joined[..|joined|] == joined;
  }

  /** Reducing by hash keeps the first occurrences. */
  lemma {:induction false} DistinctByHashMeaning(joined: seq<Unique>)
    ensures Hashes(DistinctByHash(joined)) == FirstOccurrences(Hashes(joined))
    ensures forall u | u in DistinctByHash(joined) :: u in joined
  {
    if joined != [] {
      var front, current := joined[..|joined| - 1], joined[|joined| - 1];
      DistinctByHashMeaning(front);
      assert joined == front + [current];
      var acc := DistinctByHash(front);
      HashesSnoc(front, current);
      HashesSnoc(acc, current);
      HashKept(acc, current.hash);
      DistinctSnoc(front, current);
      FirstOccurrencesSnoc(Hashes(front), current.hash);
      hide *;
    }
  }

  lemma HashesSnoc(us: seq<Unique>, u: Unique)
    ensures Hashes(us + [u]) == Hashes(us) + [u.hash]
  {
  }

  lemma HashKept(us: seq<Unique>, hash: Hash)
    ensures (exists item | item in us :: item.hash == hash) <==> hash in Hashes(us)
  {
    if i :| 0 <= i < |us| && Hashes(us)[i] == hash {
      assert us[i] in us;
    }
    if item :| item in us && item.hash == hash {
      var i :| 0 <= i < |us| && us[i] == item;
      assert Hashes(us)[i] == hash;
    }
  }

  lemma DistinctSnoc(us: seq<Unique>, u: Unique)
    ensures var acc := DistinctByHash(us);
      DistinctByHash(us + [u]) == if exists item | item in acc :: item.hash == u.hash then acc else acc + [u]
  {
    assert (us + [u])[..|us|] == us;
  }

  lemma FirstOccurrencesSnoc<T>(s: seq<T>, x: T)
    ensures var front := FirstOccurrences(s);
      FirstOccurrences(s + [x]) == if x in front then front else front + [x]
  {
    assert (s + [x])[..|s|] == s;
  }

  function Hashes(us: seq<Unique>): (r: seq<Hash>)
    ensures |r| == |us| && forall i | 0 <= i < |r| :: r[i] == us[i].hash
  {
    seq(|us|, i requires 0 <= i < |us| => us[i].hash)
  }

  /** The claims joined with their credentials, as the SQL query returns them. */
  function Joined(credentials: map<Hash, CredentialEntry>, claims: seq<ClaimEntry>): (r: seq<Unique>)
    requires forall c | c in claims :: c.credentialHash in credentials
    ensures |r| == |claims|
    ensures forall i | 0 <= i < |r| ::
              r[i] == Unique(claims[i].credentialHash, credentials[claims[i].credentialHash].parsed)
  {
    seq(|claims|, i requires 0 <= i < |claims| =>
      assert claims[i] in claims;
      Unique(claims[i].credentialHash, credentials[claims[i].credentialHash].parsed))
  }

  /** For the same list of claims over an agreeing index both stores return the same credentials. */
  method GetVerifiableCredentialsBySqlClaims(tables: Tables, claims: seq<ClaimEntry>) returns (r: seq<Unique>)
    requires Agrees(tables)
    requires forall c | c in claims :: c in tables.claims.Values
    ensures Ok(r) == ByClaims(tables.credentials, claims)
  {
    NoDanglingClaims(tables);
    var joined := Joined(tables.credentials, claims);
    r := ReduceByHash(joined);
    SqlClaimsSame(tables, claims, joined);
  }

  lemma KeyedByHash(tables: Tables)
    requires Agrees(tables)
    ensures forall h | h in tables.credentials :: tables.credentials[h].hash == h
  {
  }

  lemma SqlClaimsSame(tables: Tables, claims: seq<ClaimEntry>, joined: seq<Unique>)
    requires Agrees(tables)
    requires forall c | c in claims :: c in tables.claims.Values && c.credentialHash in tables.credentials
    requires joined == Joined(tables.credentials, claims)
    ensures Ok(DistinctByHash(joined)) == ByClaims(tables.credentials, claims)
  {
    hide *;
    var r := DistinctByHash(joined);
    DistinctByHashMeaning(joined);
    SameHashes(tables.credentials, claims);
    JoinedEntries(tables, claims);
    var hashes := Hashes(r);
    forall h | h in hashes ensures h in tables.credentials && tables.credentials[h].hash == h {
      var i :| 0 <= i < |r| && hashes[i] == h;
      assert r[i] in joined;
    }
    LookupFinds(tables.credentials, hashes);
    var found := Lookup(tables.credentials, hashes).value;
    forall i | 0 <= i < |r| ensures r[i] == found[i] {
      assert r[i] in joined;
    }
    assert r == found;
    ByClaimsIs(tables.credentials, claims);
  }

  lemma ByClaimsIs(credentials: map<Hash, CredentialEntry>, claims: seq<ClaimEntry>)
    ensures ByClaims(credentials, claims) == Lookup(credentials, FirstOccurrences(CredentialHashes(claims)))
  {
  }

  lemma SameHashes(credentials: map<Hash, CredentialEntry>, claims: seq<ClaimEntry>)
    requires forall c | c in claims :: c.credentialHash in credentials
    ensures Hashes(Joined(credentials, claims)) == CredentialHashes(claims)
  {
  }

  lemma JoinedEntries(tables: Tables, claims: seq<ClaimEntry>)
    requires Agrees(tables)
    requires forall c | c in claims :: c.credentialHash in tables.credentials
    ensures forall u | u in Joined(tables.credentials, claims) ::
      && u.hash in tables.credentials && tables.credentials[u.hash].hash == u.hash
      && u == Unique(u.hash, tables.credentials[u.hash].parsed)
  {
    KeyedByHash(tables);
    hide Agrees;
    var joined := Joined(tables.credentials, claims);
    forall u | u in joined
      ensures u.hash in tables.credentials && u == Unique(u.hash, tables.credentials[u.hash].parsed)
    {
      var i :| 0 <= i < |joined| && joined[i] == u;
      assert claims[i] in claims;
    }
  }

  // ---------------------------------------------------------------- what is found

  lemma SliceMembers<T>(s: seq<T>, start: nat, end: nat)
    ensures forall x | x in JsonQuery.Slice(s, start, end) :: x in s
  {
  }

  lemma {:induction false} SortMembers<T(!new)>(cmp: JsonQuery.Comparison<T>, s: seq<T>)
    ensures forall x :: x in JsonQuery.StableSort(cmp, s) <==> x in s
  {
    if s != [] {
      SortMembers(cmp, s[1..]);
      JsonQuery.InsertMembers(cmp, s[0], JsonQuery.StableSort(cmp, s[1..]));
      var sorted := JsonQuery.StableSort(cmp, s);
      forall x ensures x in sorted <==> x in s {
        assert x in sorted <==> x in multiset(sorted);
        assert s == [s[0]] + s[1..];
      }
    }
  }

  ghost predicate Visible<T>(get: JsonQuery.Getter<T>, re: JsonQuery.RegExp, x: T, args: JsonQuery.FindArgs,
                             columns: seq<string>, did: string)
  {
    JsonQuery.PassesAll(get, re, x, args.filters) && JsonQuery.Authorized(get, x, columns, did)
  }

  /** Rows returned are rows that pass; without `skip` and `take` they are all of them. */
  lemma QueryMembers<T(!new)>(get: JsonQuery.Getter<T>, re: JsonQuery.RegExp, collate: JsonQuery.Collation,
                              rows: seq<T>, args: JsonQuery.FindArgs, columns: seq<string>, did: string)
    requires JsonQuery.Query(get, re, collate, rows, args, columns, did).Ok?
    ensures var found := JsonQuery.Query(get, re, collate, rows, args, columns, did).value;
            && (forall x | x in found :: x in rows && Visible(get, re, x, args, columns, did))
            && (args.skip == 0 && args.take == 0 ==>
                  forall x | x in rows && Visible(get, re, x, args, columns, did) :: x in found)
  {
    hide JsonQuery.PassesAll, JsonQuery.Authorized, JsonQuery.Slice, JsonQuery.CompareRows, JsonQuery.Selected;
    var selected := JsonQuery.Selected(get, re, rows, args.filters, columns, did);
    JsonQuery.SelectedExactly(get, re, rows, args.filters, columns, did);
    var cmp := (a: T, b: T) => JsonQuery.CompareRows(get, collate, args.order, a, b);
    SortMembers(cmp, selected);
    var sorted := if args.order == [] then selected else JsonQuery.StableSort(cmp, selected);
    SliceMembers(sorted, args.skip, |sorted|);
    var skipped := if args.skip > 0 then JsonQuery.Slice(sorted, args.skip, |sorted|) else sorted;
    var start := if args.skip > 0 then args.skip - 1 else 0;
    SliceMembers(skipped, start, start + args.take);
  }

  ghost predicate Matching(re: JsonQuery.RegExp, c: ClaimEntry, args: JsonQuery.FindArgs, did: string) {
    Visible(ClaimColumn, re, c, args, CLAIM_OWNERS, did)
  }

  /**
    Over an agreeing index a well-formed query finds credentials with pairwise distinct hashes, all of them stored,
    each through one of its matching claims; without `skip` and `take` it finds every credential with such a claim.
   */
  lemma ByClaimsExactly(tables: Tables, rows: seq<ClaimEntry>, re: JsonQuery.RegExp, collate: JsonQuery.Collation,
                        args: JsonQuery.FindArgs, did: string)
    requires Agrees(tables)
    requires forall c :: c in rows <==> c in tables.claims.Values
    requires JsonQuery.FirstError(re, args.filters).None?
    ensures FindByClaims(tables, rows, re, collate, args, did).Ok?
    ensures var found := FindByClaims(tables, rows, re, collate, args, did).value;
            && (forall i, j | 0 <= i < j < |found| :: found[i].hash != found[j].hash)
            && (forall u | u in found ::
                  && u.hash in tables.credentials && tables.credentials[u.hash].parsed == u.credential
                  && exists c :: c in tables.claims.Values && c.credentialHash == u.hash && Matching(re, c, args, did))
            && (args.skip == 0 && args.take == 0 ==>
                  forall c | c in tables.claims.Values && Matching(re, c, args, did) ::
                    Unique(c.credentialHash, tables.credentials[c.credentialHash].parsed) in found)
  {
    NoDanglingClaims(tables);
    QueryMembers(ClaimColumn, re, collate, rows, args, CLAIM_OWNERS, did);
    hide Visible;
    var claims := JsonQuery.Query(ClaimColumn, re, collate, rows, args, CLAIM_OWNERS, did).value;
    var hashes := CredentialHashes(claims);
    var distinct := FirstOccurrences(hashes);
    assert FindByClaims(tables, rows, re, collate, args, did) == Lookup(tables.credentials, distinct);
    FirstOccurrencesMeaning(hashes);
    hide *;
    forall h | h in distinct
      ensures h in tables.credentials && tables.credentials[h].hash == h
      ensures exists c :: c in tables.claims.Values && c.credentialHash == h && Matching(re, c, args, did)
    {
      var i :| 0 <= i < |hashes| && hashes[i] == h;
      assert claims[i] in claims;
    }
    LookupFinds(tables.credentials, distinct);
    var found := FindByClaims(tables, rows, re, collate, args, did).value;
    if args.skip == 0 && args.take == 0 {
      forall c | c in tables.claims.Values && Matching(re, c, args, did)
        ensures Unique(c.credentialHash, tables.credentials[c.credentialHash].parsed) in found
      {
        assert c in rows && c in claims;
        var i :| 0 <= i < |claims| && claims[i] == c;
        assert hashes[i] == c.credentialHash && hashes[i] in distinct;
        var j :| 0 <= j < |distinct| && distinct[j] == c.credentialHash;
        assert found[j] == Unique(c.credentialHash, tables.credentials[c.credentialHash].parsed);
      }
    }
  }

  // ---------------------------------------------------------------- what is asked of a claim

  /** The text in a claim's column, for the columns that hold one. */
  predicate HasText(c: ClaimEntry, column: string, v: string) {
    || (column == "type" && c.claimType == v)
    || (column == "value" && c.value == v)
    || (column == "issuer" && c.issuer == v)
    || (column == "subject" && c.subject == Some(v))
  }

  /** An equality picks the claims whose column has the value, or has an element with the value in it. */
  lemma EqualOnClaims(re: JsonQuery.RegExp, c: ClaimEntry, column: string, v: string)
    requires v != "" && ',' !in v
    ensures var item := JsonQuery.Where(column, JsonQuery.Equal, Some([v]), false);
      && JsonQuery.ItemError(re, item).None?
      && (JsonQuery.Passes(ClaimColumn, re, c, item) <==>
            || HasText(c, column, v)
            || (column == "context" && exists x | x in c.context :: Strings.Includes(x, v))
            || (column == "credentialType" && exists x | x in c.credentialType :: Strings.Includes(x, v)))
  {
    CellTests.EqualMeans(re, JsonQuery.Where(column, JsonQuery.Equal, Some([v]), false), ClaimColumn(c, column), v);
    hide JsonQuery.Holds;
    ColumnNames();
  }

  lemma ColumnNames()
    ensures "type" != "value" && "issuer" != "subject" && "context" != "subject" && "type" != "issuer"
    ensures |"credentialType"| == 14 && |"expirationDate"| == 14 && |"issuanceDate"| == 12 && |"context"| == 7
    ensures |"type"| == 4 && |"value"| == 5 && |"issuer"| == 6 && |"subject"| == 7
    ensures "credentialType" != "expirationDate"
  {
    assert "type"[0] == 't' && "value"[0] == 'v' && "issuer"[0] == 'i' && "subject"[0] == 's' && "context"[0] == 'c';
    assert "credentialType"[0] == 'c' && "expirationDate"[0] == 'e';
  }

  function BoundItem(column: string, op: JsonQuery.Op, bound: nat): JsonQuery.Where {
    JsonQuery.Where(column, op, Some([CellTests.Decimal(bound)]), false)
  }

  /** A date column asked for a bound picks the claims with a valid date on that side of it. */
  lemma DateOnClaims(re: JsonQuery.RegExp, c: ClaimEntry, op: JsonQuery.Op, bound: nat)
    requires op in {JsonQuery.LessThan, JsonQuery.LessThanOrEqual, JsonQuery.MoreThan, JsonQuery.MoreThanOrEqual}
    ensures JsonQuery.ItemError(re, BoundItem("issuanceDate", op, bound)).None?
    ensures JsonQuery.Passes(ClaimColumn, re, c, BoundItem("issuanceDate", op, bound))
            <==> c.issuanceDate.Some? && c.issuanceDate.value.ms.Some?
                 && CellTests.NumberTest(op, c.issuanceDate.value.ms.value, bound)
    ensures JsonQuery.ItemError(re, BoundItem("expirationDate", op, bound)).None?
    ensures JsonQuery.Passes(ClaimColumn, re, c, BoundItem("expirationDate", op, bound))
            <==> c.expirationDate.Some? && c.expirationDate.value.ms.Some?
                 && CellTests.NumberTest(op, c.expirationDate.value.ms.value, bound)
  {
    var v := CellTests.Decimal(bound);
    CellTests.NumberRoundTrip(bound, "");
    ColumnNames();
    DateCellOf(c);
    hide ClaimColumn, JsonQuery.Holds, JsonQuery.NumberOf, CellTests.Decimal;
    CellTests.BoundMeans(re, BoundItem("issuanceDate", op, bound), ClaimColumn(c, "issuanceDate"), v);
    CellTests.BoundMeans(re, BoundItem("expirationDate", op, bound), ClaimColumn(c, "expirationDate"), v);
  }

  lemma DateCellOf(c: ClaimEntry)
    ensures match c.issuanceDate
      case None => ClaimColumn(c, "issuanceDate") == None
      case Some(d) => ClaimColumn(c, "issuanceDate") == Some(JsonQuery.Time(d.ms, d.text))
    ensures match c.expirationDate
      case None => ClaimColumn(c, "expirationDate") == None
      case Some(d) => ClaimColumn(c, "expirationDate") == Some(JsonQuery.Time(d.ms, d.text))
  {
    ColumnNames();
  }

  /** Which claims an authorized DID sees: those it issued and those about it. */
  lemma ClaimsSeen(re: JsonQuery.RegExp, rows: seq<ClaimEntry>, filters: seq<JsonQuery.Where>, did: string)
    requires did != ""
    ensures forall c :: c in JsonQuery.Selected(ClaimColumn, re, rows, filters, CLAIM_OWNERS, did) <==>
              && c in rows && JsonQuery.PassesAll(ClaimColumn, re, c, filters)
              && (c.issuer == did || c.subject == Some(did))
  {
    JsonQuery.VisibleExactly(ClaimColumn, re, rows, filters, CLAIM_OWNERS, did);
    ColumnNames();
    hide JsonQuery.Selected, JsonQuery.Passes, JsonQuery.ItemError;
    forall c: ClaimEntry ensures JsonQuery.Names(ClaimColumn, c, CLAIM_OWNERS, did) <==>
                                   c.issuer == did || c.subject == Some(did)
    {
      assert CLAIM_OWNERS[0] == "issuer" && CLAIM_OWNERS[1] == "subject";
      assert "issuer" in CLAIM_OWNERS && "subject" in CLAIM_OWNERS;
    }
  }
}
