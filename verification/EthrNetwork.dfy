/** Printing a network into a did:ethr identifier and finding it again (packages/did-provider-ethr). */
module EthrNetwork {
  import opened Results
  import opened Strings

  // ---------------------------------------------------------------- configuration

  datatype ChainId = NoChainId | ChainText(text: string) | ChainNumber(number: int)

  datatype Network = Network(name: Option<string>, description: Option<string>, chainId: ChainId)

  /** A network specifier: absent, a text, or an integer (JavaScript's number and bigint). */
  datatype Specifier = Absent | Text(text: string) | Number(number: int)

  datatype Options = Options(network: Specifier, providerName: Option<string>)

  datatype Failure = UnknownNetwork | SyntaxError | NoMatch

  /** `BigInt` of a text; `None` where it throws. */
  type BigInt = string -> Option<int>

  predicate Truthy(s: Specifier) {
    match s
    case Absent => false
    case Text(text) => text != ""
    case Number(n) => n != 0
  }

  predicate HasChainId(n: Network) {
    match n.chainId
    case NoChainId => false
    case ChainText(text) => text != ""
    case ChainNumber(number) => number != 0
  }

  // ---------------------------------------------------------------- looking a network up

  /** An entry answers to a text by its chain id, its name or its description. */
  predicate AnswersTo(n: Network, text: string) {
    (HasChainId(n) && n.chainId == ChainText(text)) || n.name == Some(text) || n.description == Some(text)
  }

  /** The search callback of `getNetworkFor`; comparing a chain id text with an integer parses it, which may throw. */
  function Matches(n: Network, specifier: Specifier, bigInt: BigInt): Result<bool, Failure> {
    match specifier
    case Absent => Ok(AnswersTo(n, "mainnet"))
    case Text(text) => Ok(AnswersTo(n, if text == "" then "mainnet" else text))
    case Number(number) =>
      if number == 0 then Ok(AnswersTo(n, "mainnet"))
      else
        match n.chainId
        case NoChainId => Ok(false)
        case ChainNumber(id) => Ok(id == number)
        case ChainText(text) =>
          if text == "" then Ok(false)
          else if bigInt(text).None? then Err(SyntaxError)
          else Ok(bigInt(text).value == number)
  }

  function FindNetwork(networks: seq<Network>, start: nat, specifier: Specifier, bigInt: BigInt)
    : Result<Option<nat>, Failure>
    decreases |networks| - start
  {
    if start >= |networks| then Ok(None)
    else
      var found :- Matches(networks[start], specifier, bigInt);
      if found then Ok(Some(start)) else FindNetwork(networks, start + 1, specifier, bigInt)
  }

  /** `getNetworkFor`, as the index of the entry: a single entry serves when nothing is specified. */
  function GetNetworkFor(networks: seq<Network>, specifier: Specifier, bigInt: BigInt): Result<Option<nat>, Failure> {
    var found :- FindNetwork(networks, 0, specifier, bigInt);
    Ok(if found.None? && !Truthy(specifier) && |networks| == 1 then Some(0) else found)
  }

  /** `i` is the first entry that answers to the text. */
  predicate FirstToAnswer(networks: seq<Network>, text: string, i: nat) {
    i < |networks| && AnswersTo(networks[i], text) && forall j | 0 <= j < i :: !AnswersTo(networks[j], text)
  }

  predicate IsText(specifier: Specifier, text: string) {
    specifier == (if text == "mainnet" then Absent else Text(text)) || specifier == Text(text)
  }

  lemma {:induction false} FindNetworkIsFirst(networks: seq<Network>, start: nat, text: string, specifier: Specifier,
                                             bigInt: BigInt)
    requires text != "" && IsText(specifier, text)
    requires forall j | 0 <= j < start && j < |networks| :: !AnswersTo(networks[j], text)
    ensures var r := FindNetwork(networks, start, specifier, bigInt);
      r.Ok? && forall i: nat :: r.value == Some(i) <==> FirstToAnswer(networks, text, i)
    decreases |networks| - start
  {
    if start < |networks| {
      if !AnswersTo(networks[start], text) {
        FindNetworkIsFirst(networks, start + 1, text, specifier, bigInt);
      }
    }
  }

  lemma {:induction false} FindNumberHas(networks: seq<Network>, start: nat, number: int, bigInt: BigInt)
    requires number != 0 && start <= |networks|
    ensures var r := FindNetwork(networks, start, Number(number), bigInt);
      r.Ok? && r.value.Some? ==> start <= r.value.value < |networks| && HasChainId(networks[r.value.value])
    decreases |networks| - start
  {
    if start < |networks| {
      FindNumberHas(networks, start + 1, number, bigInt);
    }
  }

  // ---------------------------------------------------------------- printing

  predicate LineTerminator(c: char) {
    c == '\n' || c == '\r' || c == '\U{2028}' || c == '\U{2029}'
  }

  predicate OneLine(s: string) {
    forall c | c in s :: !LineTerminator(c)
  }

  predicate HexDigit(c: char) {
    '0' <= c <= '9' || 'a' <= c <= 'f' || 'A' <= c <= 'F'
  }

  function HexChar(d: nat): (c: char)
    requires d < 16
    ensures HexDigit(c)
  {
    if d < 10 then '0' + d as char else 'a' + (d - 10) as char
  }

  /** `toString(16)`: no prefix. */
  function ToHex(n: nat): (s: string)
    ensures s != "" && forall c | c in s :: HexDigit(c)
  {
    if n < 16 then [HexChar(n)] else ToHex(n / 16) + [HexChar(n % 16)]
  }

  function ToSignedHex(n: int): (s: string)
    ensures s != "" && s != "mainnet" && OneLine(s)
  {
    if n >= 0 then
      assert ToHex(n) != "mainnet" by { assert "mainnet"[0] == 'm'; assert ToHex(n)[0] in ToHex(n); }
      ToHex(n)
    else
      assert ("-" + ToHex(-n))[0] != "mainnet"[0];
      "-" + ToHex(-n)
  }

  /** Which network `createIdentifier` looks up: the option, else what follows `did:ethr:` in the provider's name. */
  function Requested(options: Options): Specifier {
    if Truthy(options.network) then options.network
    else if options.providerName.Some? && NamesNetwork(options.providerName.value) then
      Text(options.providerName.value[9..])
    else Absent
  }

  predicate NamesNetwork(providerName: string) {
    StartsWith(providerName, "did:ethr:") && |providerName| > 9 && OneLine(providerName[9..])
  }

  /** The text a DID carries for its network; `None` when it carries none. */
  function PrintedAs(requested: Specifier, network: Network): Option<string> {
    var text := match requested
      case Absent => ""
      case Text(text) => text
      case Number(number) =>
        if network.name.Some? && network.name.value != "" then network.name.value else ToSignedHex(number);
    if text == "" || text == "mainnet" then None else Some(text)
  }

  datatype Created = Created(did: string, network: nat)

  function CreatedDid(networks: seq<Network>, options: Options, publicKey: string, bigInt: BigInt)
    : Result<Created, Failure>
  {
    var found :- GetNetworkFor(networks, Requested(options), bigInt);
    if found.None? || found.value >= |networks| then Err(UnknownNetwork)
    else
      var printed := PrintedAs(Requested(options), networks[found.value]);
      Ok(Created("did:ethr:" + (if printed.Some? then printed.value + ":" else "") + publicKey, found.value))
  }

  /** `createIdentifier`, which reuses one variable for what is asked for and what is printed. */
  method CreateIdentifier(networks: seq<Network>, options: Options, publicKey: string, bigInt: BigInt)
    returns (r: Result<Created, Failure>)
    ensures r == CreatedDid(networks, options, publicKey, bigInt)
  {
    var networkSpecifier := Absent;
    if Truthy(options.network) {
      networkSpecifier := options.network;
    } else if options.providerName.Some? && NamesNetwork(options.providerName.value) {
      networkSpecifier := Text(options.providerName.value[9..]);
    }
    var found :- GetNetworkFor(networks, networkSpecifier, bigInt);
    if found.None? || found.value >= |networks| {
      return Err(UnknownNetwork);
    }
    var network := networks[found.value];
    if networkSpecifier.Number? {
      networkSpecifier := Text(if network.name.Some? && |network.name.value| > 0 then network.name.value
                               else ToSignedHex(options.network.number));
    }
    var networkString := if Truthy(networkSpecifier) && networkSpecifier != Text("mainnet")
                         then networkSpecifier.text + ":" else "";
    return Ok(Created("did:ethr:" + networkString + publicKey, found.value));
  }

  // ---------------------------------------------------------------- parsing

  const KEY_DIGITS := 66

  /** A compressed public key as printed: `0x` and 66 hex digits. */
  predicate CompressedKey(key: string) {
    |key| == 2 + KEY_DIGITS && StartsWith(key, "0x") && forall c | c in key[2..] :: HexDigit(c)
  }

  /** What the matcher wants after the network: `:0x`, at least 40 hex digits, and no line terminator after those. */
  predicate Tail(s: string) {
    |s| >= 43 && StartsWith(s, ":0x") && (forall c | c in s[3..43] :: HexDigit(c)) && OneLine(s[43..])
  }

  /** The matcher can end its network group at `p`; a group that is there holds a colon and at least one character. */
  predicate GroupCanEnd(did: string, p: nat) {
    8 <= p <= |did| && Tail(did[p..]) && (p == 8 || (p >= 10 && did[8] == ':' && OneLine(did[9..p])))
  }

  /** The group is greedy: it ends at the last place where it can, at `p` or before. */
  function LastEnd(did: string, p: nat): (r: Option<nat>)
    requires p <= |did|
    ensures r.Some? ==> r.value <= p && GroupCanEnd(did, r.value) && forall q | r.value < q <= p :: !GroupCanEnd(did, q)
    ensures r.None? ==> forall q | 0 <= q <= p :: !GroupCanEnd(did, q)
  {
    if GroupCanEnd(did, p) then Some(p) else if p == 0 then None else LastEnd(did, p - 1)
  }

  /** The network named by a DID, as the matcher of `getEthrDidController` reads it. */
  function ParsedNetwork(did: string): Result<Specifier, Failure> {
    if !StartsWith(did, "did:ethr") then Err(NoMatch)
    else
      match LastEnd(did, |did|)
      case None => Err(NoMatch)
      case Some(p) => Ok(if p == 8 then Absent else Text(did[9..p]))
  }

  function ControllerNetwork(networks: seq<Network>, did: string, bigInt: BigInt): Result<nat, Failure> {
    match ParsedNetwork(did)
    case Err(_) => Err(NoMatch)
    case Ok(specifier) =>
      var found :- GetNetworkFor(networks, specifier, bigInt);
      if found.Some? then Ok(found.value) else Err(UnknownNetwork)
  }

  function Print(network: Option<string>, key: string): string {
    "did:ethr:" + (if network.Some? then network.value + ":" else "") + key
  }

  lemma KeyIsTail(key: string)
    requires CompressedKey(key)
    ensures Tail(":" + key)
  {
    var s := ":" + key;
    assert s[3..43] == key[2..42] && s[43..] == key[42..];
    forall c | c in key[2..42] ensures HexDigit(c) { assert c in key[2..]; }
    forall c | c in key[42..] ensures !LineTerminator(c) { assert c in key[2..]; }
  }

  lemma NoColonInKey(did: string, start: nat, q: nat)
    requires start <= q < |did| && CompressedKey(did[start..])
    ensures did[q] != ':'
  {
    var key := did[start..];
    assert did[q] == key[q - start];
    if q - start >= 2 { assert key[2..][q - start - 2] in key[2..]; }
  }

  /** The group of a printed DID ends where its network does, or the DID does not match at all. */
  lemma PrintedParses(network: Option<string>, key: string)
    requires CompressedKey(key) && (network.Some? ==> network.value != "")
    ensures ParsedNetwork(Print(network, key)) ==
            match network
            case None => Ok(Absent)
            case Some(text) => if OneLine(text) then Ok(Text(text)) else Err(NoMatch)
  {
    var did := Print(network, key);
    var end := if network.Some? then 9 + |network.value| else 8;
    assert did[..8] == "did:ethr";
    assert did[end..] == ":" + key && did[end + 1..] == key;
    KeyIsTail(key);
    forall q | end < q <= |did| ensures !GroupCanEnd(did, q) {
      if q < |did| {
        NoColonInKey(did, end + 1, q);
        assert did[q..][0] == did[q];
      }
    }
    if network.None? {
      assert GroupCanEnd(did, 8);
    } else {
      assert did[9..end] == network.value && did[8] == ':';
      if OneLine(network.value) {
        assert GroupCanEnd(did, end);
      } else {
        var i :| 0 <= i < |network.value| && LineTerminator(network.value[i]);
        assert did[9 + i] == network.value[i];
        forall q | 0 <= q <= |did| ensures !GroupCanEnd(did, q) {
          if GroupCanEnd(did, q) { MatchedIsOneLine(did, q, 9 + i); }
        }
      }
    }
  }

  /** Wherever the group ends, nothing after `did:ethr:` is a line terminator. */
  lemma MatchedIsOneLine(did: string, q: nat, i: nat)
    requires GroupCanEnd(did, q) && 9 <= i < |did|
    ensures !LineTerminator(did[i])
  {
    if i < q {
      assert did[9..q][i - 9] == did[i];
    } else {
      TailIsOneLine(did[q..], i - q);
    }
  }

  lemma TailIsOneLine(s: string, i: nat)
    requires i < |s| && Tail(s)
    ensures !LineTerminator(s[i])
  {
    if i < 3 {
      assert s[i] == ":0x"[i];
    } else if i < 43 {
      assert s[3..43][i - 3] in s[3..43];
    } else {
      assert s[43..][i - 43] in s[43..];
    }
  }

  // ---------------------------------------------------------------- the round trip

  /** The text by which a printed DID's network is looked up again. */
  function LookedUpAs(requested: Specifier, network: Network): string {
    var printed := PrintedAs(requested, network);
    if printed.Some? then printed.value else "mainnet"
  }

  /**
   * A DID leads back to the configuration it was created with exactly when its printed network stays on one line and
   * that configuration is the first to answer to it, or serves as the only one when nothing is printed.
   */
  lemma RoundTripIff(networks: seq<Network>, options: Options, key: string, bigInt: BigInt)
    requires CompressedKey(key) && CreatedDid(networks, options, key, bigInt).Ok?
    ensures var created := CreatedDid(networks, options, key, bigInt).value;
      var requested, network := Requested(options), networks[created.network];
      ControllerNetwork(networks, created.did, bigInt) == Ok(created.network)
      <==> OneLine(LookedUpAs(requested, network))
           && (FirstToAnswer(networks, LookedUpAs(requested, network), created.network)
               || (PrintedAs(requested, network).None? && |networks| == 1))
  {
    var created := CreatedDid(networks, options, key, bigInt).value;
    var requested, network := Requested(options), networks[created.network];
    var printed := PrintedAs(requested, network);
    assert created.did == Print(printed, key);
    PrintedParses(printed, key);
    var parsed := if printed.Some? then Text(printed.value) else Absent;
    FindNetworkIsFirst(networks, 0, LookedUpAs(requested, network), parsed, bigInt);
  }

  /** An absent specifier always comes back, and so does any text without a line terminator, colons included. */
  lemma TextRoundTrip(networks: seq<Network>, options: Options, key: string, bigInt: BigInt)
    requires CompressedKey(key) && !Requested(options).Number? && CreatedDid(networks, options, key, bigInt).Ok?
    ensures var created := CreatedDid(networks, options, key, bigInt).value;
      ControllerNetwork(networks, created.did, bigInt) == Ok(created.network)
      <==> Requested(options).Absent? || OneLine(Requested(options).text)
  {
    var created := CreatedDid(networks, options, key, bigInt).value;
    var requested := Requested(options);
    var text := LookedUpAs(requested, networks[created.network]);
    RoundTripIff(networks, options, key, bigInt);
    FindNetworkIsFirst(networks, 0, text, requested, bigInt);
  }

  /** A numeric specifier comes back exactly when its entry is the first to answer to the text that stands for it. */
  lemma NumberRoundTrip(networks: seq<Network>, options: Options, key: string, bigInt: BigInt)
    requires CompressedKey(key) && Requested(options).Number? && CreatedDid(networks, options, key, bigInt).Ok?
    ensures var created := CreatedDid(networks, options, key, bigInt).value;
      var network := networks[created.network];
      && (network.name.Some? && network.name.value != "" ==>
            (ControllerNetwork(networks, created.did, bigInt) == Ok(created.network)
             <==> OneLine(network.name.value)
                  && forall j | 0 <= j < created.network :: !AnswersTo(networks[j], network.name.value)))
      && (network.name.None? || network.name.value == "" ==>
            var hex := ToSignedHex(Requested(options).number);
            (ControllerNetwork(networks, created.did, bigInt) == Ok(created.network)
             <==> FirstToAnswer(networks, hex, created.network)))
  {
    RoundTripIff(networks, options, key, bigInt);
  }

  /** So an unnamed entry with a numeric chain id and no such description is never found again. */
  lemma UnnamedNumberIsLost(networks: seq<Network>, options: Options, key: string, bigInt: BigInt)
    requires CompressedKey(key) && Requested(options).Number? && CreatedDid(networks, options, key, bigInt).Ok?
    requires var n := networks[CreatedDid(networks, options, key, bigInt).value.network];
             n.name.None? && n.description.None? && n.chainId.ChainNumber?
    ensures var created := CreatedDid(networks, options, key, bigInt).value;
      ControllerNetwork(networks, created.did, bigInt) != Ok(created.network)
  {
    NumberRoundTrip(networks, options, key, bigInt);
  }
}
