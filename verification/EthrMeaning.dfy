/** Which network a did:ethr identifier is created on and what it is called there, in terms of the configuration. */
module EthrMeaning {
  import opened Results
  import opened Strings
  import opened EthrNetwork

  // ---------------------------------------------------------------- hexadecimal

  function DigitValue(c: char): int {
    if '0' <= c <= '9' then c as int - '0' as int else if 'a' <= c <= 'f' then c as int - 'a' as int + 10 else -1
  }

  /** The number that lower-case hex digits stand for, the last digit counting least. */
  function HexValue(digits: string): int {
    if digits == "" then 0 else 16 * HexValue(digits[..|digits| - 1]) + DigitValue(digits[|digits| - 1])
  }

  predicate LowerHex(digits: string) {
    digits != "" && forall c | c in digits :: DigitValue(c) >= 0
  }

  /** A number is printed as the lower-case hex digits that stand for it, without leading zeros. */
  lemma {:induction false} HexRoundTrip(n: nat)
    ensures HexValue(ToHex(n)) == n && LowerHex(ToHex(n)) && (n > 0 ==> ToHex(n)[0] != '0')
  {
    if n < 16 {
      assert ToHex(n)[..0] == "";
    } else {
      HexRoundTrip(n / 16);
      assert ToHex(n) == ToHex(n / 16) + [HexChar(n % 16)];
      assert ToHex(n)[..|ToHex(n)| - 1] == ToHex(n / 16);
      assert ToHex(n)[0] == ToHex(n / 16)[0];
    }
  }

  /** Negative numbers carry a minus sign. */
  lemma SignedHexRoundTrip(n: int)
    ensures n >= 0 ==> HexValue(ToSignedHex(n)) == n && LowerHex(ToSignedHex(n))
    ensures n > 0 ==> ToSignedHex(n)[0] != '0'
    ensures n < 0 ==> ToSignedHex(n)[0] == '-' && HexValue(ToSignedHex(n)[1..]) == -n && LowerHex(ToSignedHex(n)[1..])
  {
    HexRoundTrip(if n < 0 then -n else n);
  }

  // ---------------------------------------------------------------- the network that is found

  /** The entry goes by that text. */
  predicate GoesBy(n: Network, text: string) {
    n.name == Some(text) || n.description == Some(text) || (text != "" && n.chainId == ChainText(text))
  }

  /** The entry's chain id is that number, written out or in a text that `BigInt` reads. */
  predicate HasNumber(n: Network, number: int, bigInt: BigInt) {
    || n.chainId == ChainNumber(number)
    || (n.chainId.ChainText? && n.chainId.text != "" && bigInt(n.chainId.text) == Some(number))
  }

  /** The entry's chain id is a text that `BigInt` throws on. */
  predicate Unreadable(n: Network, bigInt: BigInt) {
    n.chainId.ChainText? && n.chainId.text != "" && bigInt(n.chainId.text).None?
  }

  predicate FirstGoingBy(networks: seq<Network>, text: string, i: nat) {
    i < |networks| && GoesBy(networks[i], text) && forall j | 0 <= j < i :: !GoesBy(networks[j], text)
  }

  lemma GoesByIff(n: Network, text: string)
    ensures AnswersTo(n, text) <==> GoesBy(n, text)
  {
  }

  /** A text finds the first entry that goes by it. */
  lemma TextFinds(networks: seq<Network>, text: string, bigInt: BigInt)
    requires text != ""
    ensures var r := GetNetworkFor(networks, Text(text), bigInt);
      r.Ok? && forall i: nat :: r.value == Some(i) <==> FirstGoingBy(networks, text, i)
  {
    FindNetworkIsFirst(networks, 0, text, Text(text), bigInt);
    forall n ensures AnswersTo(n, text) <==> GoesBy(n, text) { GoesByIff(n, text); }
    hide GoesBy, AnswersTo, FindNetwork;
  }

  /** What JavaScript takes for nothing specified. */
  predicate Unspecified(specifier: Specifier) {
    specifier == Absent || specifier == Text("") || specifier == Number(0)
  }

  lemma {:induction false} UnspecifiedAlike(networks: seq<Network>, start: nat, specifier: Specifier, bigInt: BigInt)
    requires Unspecified(specifier)
    ensures FindNetwork(networks, start, specifier, bigInt) == FindNetwork(networks, start, Absent, bigInt)
    decreases |networks| - start
  {
    hide AnswersTo;
    if start < |networks| {
      UnspecifiedAlike(networks, start + 1, specifier, bigInt);
    }
  }

  /** Nothing specified finds the first entry that goes by 'mainnet', or else the only entry. */
  lemma NothingFinds(networks: seq<Network>, specifier: Specifier, bigInt: BigInt)
    requires Unspecified(specifier)
    ensures var r := GetNetworkFor(networks, specifier, bigInt);
      r.Ok? && forall i: nat :: r.value == Some(i) <==>
        FirstGoingBy(networks, "mainnet", i)
        || (i == 0 && |networks| == 1 && !GoesBy(networks[0], "mainnet"))
  {
    UnspecifiedAlike(networks, 0, specifier, bigInt);
    FindNetworkIsFirst(networks, 0, "mainnet", Absent, bigInt);
    forall n ensures AnswersTo(n, "mainnet") <==> GoesBy(n, "mainnet") { GoesByIff(n, "mainnet"); }
    hide GoesBy, AnswersTo, FindNetwork;
  }

  /** A number other than zero finds the first entry with that chain id, unless an unreadable one comes before it. */
  lemma {:induction false} NumberFinds(networks: seq<Network>, start: nat, number: int, bigInt: BigInt)
    requires number != 0 && start <= |networks|
    requires forall j | 0 <= j < start :: !HasNumber(networks[j], number, bigInt) && !Unreadable(networks[j], bigInt)
    ensures var r := FindNetwork(networks, start, Number(number), bigInt);
      && (r.Err? <==> exists i | 0 <= i < |networks| :: FirstUnreadable(networks, number, bigInt, i))
      && (r.Ok? ==> forall i: nat :: r.value == Some(i) <==> FirstNumbered(networks, number, bigInt, i))
    decreases |networks| - start
  {
    if start < |networks| {
      var n := networks[start];
      if HasNumber(n, number, bigInt) {
        assert FirstNumbered(networks, number, bigInt, start);
      } else if Unreadable(n, bigInt) {
        assert FirstUnreadable(networks, number, bigInt, start);
      } else {
        NumberFinds(networks, start + 1, number, bigInt);
      }
    }
  }

  predicate FirstNumbered(networks: seq<Network>, number: int, bigInt: BigInt, i: nat) {
    i < |networks| && HasNumber(networks[i], number, bigInt) && NotBefore(networks, number, bigInt, i)
  }

  predicate FirstUnreadable(networks: seq<Network>, number: int, bigInt: BigInt, i: nat) {
    i < |networks| && Unreadable(networks[i], bigInt) && NotBefore(networks, number, bigInt, i)
  }

  predicate NotBefore(networks: seq<Network>, number: int, bigInt: BigInt, i: nat)
    requires i <= |networks|
  {
    forall j | 0 <= j < i :: !HasNumber(networks[j], number, bigInt) && !Unreadable(networks[j], bigInt)
  }

  // ---------------------------------------------------------------- what is asked for and what is printed

  /** The option decides; without one a provider named `did:ethr:` and more asks for what follows. */
  lemma RequestedIs(option: Specifier, network: string)
    ensures option == Text("") || option == Absent || option == Number(0) ==>
      && Requested(Options(option, None)) == Absent
      && Requested(Options(option, Some("did:ethr:" + network)))
         == if network == "" || !OneLine(network) then Absent else Text(network)
    ensures option != Text("") && option != Absent && option != Number(0) ==>
      forall name :: Requested(Options(option, name)) == option
  {
    var name := "did:ethr:" + network;
    assert name[9..] == network;
  }

  lemma UnprefixedNamesNothing(option: Specifier, name: string)
    requires option == Text("") || option == Absent || option == Number(0)
    requires forall network :: name != "did:ethr:" + network
    ensures Requested(Options(option, Some(name))) == Absent
  {
    if StartsWith(name, "did:ethr:") {
      assert name == "did:ethr:" + name[9..];
    }
  }

  /** A DID created on a network asked for by text carries that text, unless it is the main network's. */
  lemma CreatedByText(networks: seq<Network>, options: Options, text: string, key: string, bigInt: BigInt)
    requires Requested(options) == Text(text) && text != ""
    ensures var r := CreatedDid(networks, options, key, bigInt);
      && (r.Ok? ==> FirstGoingBy(networks, text, r.value.network)
                    && r.value.did == "did:ethr:" + (if text == "mainnet" then "" else text + ":") + key)
      && (r.Err? <==> forall n | n in networks :: !GoesBy(n, text))
      && (r.Err? ==> r == Err(UnknownNetwork))
  {
    TextFinds(networks, text, bigInt);
    hide GetNetworkFor, GoesBy;
    FirstExists(networks, text);
  }

  lemma {:induction false} FirstExists(networks: seq<Network>, text: string)
    ensures (exists i: nat :: FirstGoingBy(networks, text, i)) <==> exists n | n in networks :: GoesBy(n, text)
  {
    hide GoesBy;
    if n :| n in networks && GoesBy(n, text) {
      var i := 0;
      while !GoesBy(networks[i], text)
        invariant i < |networks| && forall j | 0 <= j < i :: !GoesBy(networks[j], text)
        decreases |networks| - i
      {
        if i + 1 == |networks| { assert forall j | 0 <= j < |networks| :: !GoesBy(networks[j], text); }
        i := i + 1;
      }
      assert FirstGoingBy(networks, text, i);
    }
  }

  /** A DID created with nothing asked for carries no network. */
  lemma CreatedByDefault(networks: seq<Network>, options: Options, key: string, bigInt: BigInt)
    requires Requested(options) == Absent && CreatedDid(networks, options, key, bigInt).Ok?
    ensures var r := CreatedDid(networks, options, key, bigInt).value;
      && r.did == "did:ethr:" + key
      && (FirstGoingBy(networks, "mainnet", r.network) || (r.network == 0 && |networks| == 1))
  {
    NothingFinds(networks, Absent, bigInt);
    hide GetNetworkFor, GoesBy;
  }

  /** A DID created by number carries its network's name, or without one the number in hex. */
  lemma CreatedByNumber(networks: seq<Network>, options: Options, number: int, key: string, bigInt: BigInt)
    requires Requested(options) == Number(number) && number != 0 && CreatedDid(networks, options, key, bigInt).Ok?
    ensures var r := CreatedDid(networks, options, key, bigInt).value;
      && FirstNumbered(networks, number, bigInt, r.network)
      && exists printed :: r.did == "did:ethr:" + (if printed == "mainnet" then "" else printed + ":") + key
                           && NameOrHex(networks[r.network], number, printed)
  {
    NumberFinds(networks, 0, number, bigInt);
    var r := CreatedDid(networks, options, key, bigInt).value;
    hide FindNetwork, HasNumber, Unreadable, FirstUnreadable, FirstNumbered;
    var n := networks[r.network];
    if n.name.Some? && n.name.value != "" {
      assert NameOrHex(n, number, n.name.value);
    } else {
      SignedHexRoundTrip(number);
      assert NameOrHex(n, number, ToSignedHex(number));
    }
  }

  predicate NameOrHex(n: Network, number: int, printed: string) {
    if n.name.Some? && n.name.value != "" then printed == n.name.value
    else if number > 0 then LowerHex(printed) && HexValue(printed) == number && printed[0] != '0'
    else printed != "" && printed[0] == '-' && LowerHex(printed[1..]) && HexValue(printed[1..]) == -number
  }

  // ---------------------------------------------------------------- what the matcher reads

  /** The optional group of the matcher: a colon and at least one more character, on one line. */
  predicate IsGroup(g: string) {
    g == "" || (|g| >= 2 && g[0] == ':' && OneLine(g))
  }

  /** What a dot in the matcher does not match. */
  lemma TerminatorsAre(c: char)
    ensures LineTerminator(c) <==> c as int in {10, 13, 8232, 8233}
  {
  }

  /** A colon, an address of forty hex digits in either case, and anything more on the same line. */
  ghost predicate IsAddressAndMore(s: string) {
    exists address, more: string ::
      s == ":0x" + address + more && |address| == 40 && (forall c | c in address :: HexDigit(c)) && OneLine(more)
  }

  /** The DID can be read with its group ending at `p`. */
  ghost predicate Reads(did: string, p: nat) {
    8 <= p <= |did| && did[..8] == "did:ethr" && IsGroup(did[8..p]) && IsAddressAndMore(did[p..])
  }

  lemma TailIs(s: string)
    ensures Tail(s) <==> IsAddressAndMore(s)
  {
    if Tail(s) {
      assert s == ":0x" + s[3..43] + s[43..];
    }
    if address, more: string :| s == ":0x" + address + more && |address| == 40
                                && (forall c | c in address :: HexDigit(c)) && OneLine(more) {
      assert s[3..43] == address && s[43..] == more;
    }
  }

  /** In terms of what follows the first eight characters. */
  lemma GroupIs(g: string)
    ensures IsGroup(g) <==> g == "" || (|g| >= 2 && g[0] == ':' && OneLine(g[1..]))
  {
    if |g| >= 2 && g[0] == ':' {
      assert g == [':'] + g[1..];
      assert !LineTerminator(':');
    }
  }

  lemma ReadsIff(did: string, p: nat)
    requires StartsWith(did, "did:ethr")
    ensures GroupCanEnd(did, p) <==> Reads(did, p)
  {
    if 8 <= p <= |did| {
      var group := did[8..p];
      TailIs(did[p..]);
      GroupIs(group);
      assert did[..8] == "did:ethr";
      assert |group| >= 2 ==> group[0] == did[8] && group[1..] == did[9..p];
      hide Tail, IsAddressAndMore, OneLine, IsGroup;
    }
  }

  /** The group ends at `p` and could not have ended later. */
  ghost predicate ReadsLongest(did: string, p: nat) {
    Reads(did, p) && forall q: nat | q > p :: !Reads(did, q)
  }

  /** The matcher reads a DID exactly when it can be read at all, and then with the longest group. */
  lemma ParsedIff(did: string)
    ensures ParsedNetwork(did).Ok? <==> exists p: nat :: Reads(did, p)
    ensures ParsedNetwork(did).Ok? ==> exists p: nat ::
      ReadsLongest(did, p) && ParsedNetwork(did).value == if p == 8 then Absent else Text(did[9..p])
  {
    if StartsWith(did, "did:ethr") {
      forall p: nat ensures GroupCanEnd(did, p) <==> Reads(did, p) { ReadsIff(did, p); }
      ReadsWithin(did);
      var end := LastEnd(did, |did|);
      hide Reads, GroupCanEnd;
      if end.Some? {
        assert ReadsLongest(did, end.value);
        assert Reads(did, end.value);
      }
    } else {
      assert |did| >= 8 ==> did[..8] != "did:ethr";
    }
  }

  lemma ReadsWithin(did: string)
    ensures forall p: nat | Reads(did, p) :: 8 <= p <= |did|
  {
  }
}
