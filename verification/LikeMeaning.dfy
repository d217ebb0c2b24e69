/** Which patterns keep the meaning SQL gives them, and on which texts. */
module LikeMeaning {
  import opened Results
  import opened Utf16
  import opened LikePattern

  // ---------------------------------------------------------------- runs of wildcards

  /** A literal, or a longest run of wildcards: `least` counts its `_`, and it is `open` if it has a `%`. */
  datatype Token<T> = Fixed(x: T) | Run(least: nat, open: bool)

  function HeadRun<T>(t: seq<Token<T>>): (r: Token<T>)
    ensures r.Run?
  {
    if t != [] && t[0].Run? then t[0] else Run(0, false)
  }

  function AfterRun<T>(t: seq<Token<T>>): seq<Token<T>> {
    if t != [] && t[0].Run? then t[1..] else t
  }

  function Merge<T>(least: nat, open: bool, t: seq<Token<T>>): seq<Token<T>> {
    [Run(least + HeadRun(t).least, open || HeadRun(t).open)] + AfterRun(t)
  }

  function Tokens<T>(p: seq<Symbol<T>>): seq<Token<T>> {
    if p == [] then []
    else
      match p[0]
      case Literal(x) => [Fixed(x)] + Tokens(p[1..])
      case Single => Merge(1, false, Tokens(p[1..]))
      case Any => Merge(0, true, Tokens(p[1..]))
  }

  /** No two runs in a row. */
  predicate Alternating<T>(t: seq<Token<T>>) {
    forall i | 0 <= i < |t| - 1 :: Apart(t, i)
  }

  predicate Apart<T>(t: seq<Token<T>>, i: nat)
    requires i < |t| - 1
  {
    t[i].Fixed? || t[i + 1].Fixed?
  }

  predicate Fits<T>(token: Token<T>, length: nat)
    requires token.Run?
  {
    token.least <= length && (token.open || token.least == length)
  }

  predicate TokenMatch<T(==)>(t: seq<Token<T>>, s: seq<T>)
    decreases |t|, 1
  {
    if t == [] then s == []
    else
      match t[0]
      case Fixed(x) => s != [] && s[0] == x && TokenMatch(t[1..], s[1..])
      case Run(_, _) => RunMatch(t[0], t[1..], s)
  }

  predicate RunMatch<T(==)>(token: Token<T>, t: seq<Token<T>>, s: seq<T>)
    requires token.Run?
    decreases |t|, 3
  {
    exists k | 0 <= k <= |s| :: SplitsAt(token, t, s, k)
  }

  predicate SplitsAt<T(==)>(token: Token<T>, t: seq<Token<T>>, s: seq<T>, k: nat)
    requires token.Run? && k <= |s|
    decreases |t|, 2
  {
    Fits(token, k) && TokenMatch(t, s[k..])
  }

  /** A missing run is one that stands for nothing. */
  lemma HeadRunMatch<T>(t: seq<Token<T>>, s: seq<T>)
    ensures TokenMatch(t, s) <==> RunMatch(HeadRun(t), AfterRun(t), s)
  {
    if t == [] || t[0].Fixed? {
      assert s[0..] == s;
      if TokenMatch(t, s) {
        assert SplitsAt(HeadRun(t), AfterRun(t), s, 0);
      }
    }
  }

  lemma Split<T>(token: Token<T>, t: seq<Token<T>>, s: seq<T>) returns (k: nat)
    requires token.Run? && RunMatch(token, t, s)
    ensures k <= |s| && Fits(token, k) && TokenMatch(t, s[k..])
  {
    k :| 0 <= k <= |s| && SplitsAt(token, t, s, k);
  }

  lemma Joined<T>(token: Token<T>, t: seq<Token<T>>, s: seq<T>, k: nat)
    requires token.Run? && k <= |s| && Fits(token, k) && TokenMatch(t, s[k..])
    ensures RunMatch(token, t, s)
  {
    assert SplitsAt(token, t, s, k);
  }

  lemma OneMore<T>(least: nat, open: bool, t: seq<Token<T>>, s: seq<T>)
    ensures RunMatch(Run(least + 1, open), t, s) <==> s != [] && RunMatch(Run(least, open), t, s[1..])
  {
    hide RunMatch, TokenMatch;
    if RunMatch(Run(least + 1, open), t, s) {
      var k := Split(Run(least + 1, open), t, s);
      assert s[1..][k - 1..] == s[k..];
      Joined(Run(least, open), t, s[1..], k - 1);
    }
    if s != [] && RunMatch(Run(least, open), t, s[1..]) {
      var k := Split(Run(least, open), t, s[1..]);
      assert s[1..][k..] == s[k + 1..];
      Joined(Run(least + 1, open), t, s, k + 1);
    }
  }

  lemma Opened<T>(least: nat, open: bool, t: seq<Token<T>>, s: seq<T>)
    ensures RunMatch(Run(least, true), t, s)
            <==> RunMatch(Run(least, open), t, s) || (s != [] && RunMatch(Run(least, true), t, s[1..]))
  {
    hide RunMatch, TokenMatch;
    if RunMatch(Run(least, true), t, s) {
      var k := Split(Run(least, true), t, s);
      if k == least {
        Joined(Run(least, open), t, s, k);
      } else {
        assert s[1..][k - 1..] == s[k..];
        Joined(Run(least, true), t, s[1..], k - 1);
      }
    }
    if RunMatch(Run(least, open), t, s) {
      var k := Split(Run(least, open), t, s);
      Joined(Run(least, true), t, s, k);
    }
    if s != [] && RunMatch(Run(least, true), t, s[1..]) {
      var k := Split(Run(least, true), t, s[1..]);
      assert s[1..][k..] == s[k + 1..];
      Joined(Run(least, true), t, s, k + 1);
    }
  }

  lemma MergeMatch<T>(least: nat, open: bool, t: seq<Token<T>>, s: seq<T>)
    ensures TokenMatch(Merge(least, open, t), s)
            <==> RunMatch(Run(least + HeadRun(t).least, open || HeadRun(t).open), AfterRun(t), s)
  {
    hide RunMatch;
    assert Merge(least, open, t)[1..] == AfterRun(t);
  }

  /** LIKE goes by the runs of wildcards, whatever the order of the wildcards in them. */
  lemma {:induction false} LikeIsTokens<T>(p: seq<Symbol<T>>, s: seq<T>)
    ensures LikeExcept(p, s, {}) <==> TokenMatch(Tokens(p), s)
    decreases |p|, |s|
  {
    if p != [] {
      var t := Tokens(p[1..]);
      var head, after := HeadRun(t), AfterRun(t);
      match p[0] {
        case Literal(_) =>
          assert Tokens(p)[1..] == t;
          if s != [] { LikeIsTokens(p[1..], s[1..]); }
        case Single =>
          MergeMatch(1, false, t, s);
          OneMore(head.least, head.open, after, s);
          if s != [] {
            LikeIsTokens(p[1..], s[1..]);
            HeadRunMatch(t, s[1..]);
          }
          hide *;
          assert head.least + 1 == 1 + head.least;
        case Any =>
          MergeMatch(0, true, t, s);
          Opened(head.least, head.open, after, s);
          LikeIsTokens(p[1..], s);
          HeadRunMatch(t, s);
          assert head == Run(head.least, head.open);
          if s != [] {
            LikeIsTokens(p, s[1..]);
            MergeMatch(0, true, t, s[1..]);
          }
      }
    }
  }

  lemma MergeAlternates<T>(least: nat, open: bool, t: seq<Token<T>>)
    requires Alternating(t)
    ensures Alternating(Merge(least, open, t))
  {
    var m := Merge(least, open, t);
    forall i | 0 <= i < |m| - 1 ensures Apart(m, i) {
      if t != [] && t[0].Run? {
        assert Apart(t, i);
      } else if i > 0 {
        assert Apart(t, i - 1);
      }
    }
  }

  lemma {:induction false} TokensAlternate<T>(p: seq<Symbol<T>>)
    ensures Alternating(Tokens(p))
  {
    if p != [] {
      TokensAlternate(p[1..]);
      var t := Tokens(p[1..]);
      match p[0] {
        case Literal(x) =>
          forall i | 0 <= i < |t| ensures Apart([Fixed(x)] + t, i) {
            if i > 0 { assert Apart(t, i - 1); }
          }
        case Single => MergeAlternates(1, false, t);
        case Any => MergeAlternates(0, true, t);
      }
    }
  }

  // ---------------------------------------------------------------- from units back to characters

  function UnitTokens(t: seq<Token<char>>): seq<Token<Unit>> {
    if t == [] then []
    else
      (match t[0] case Fixed(c) => Fixeds(Encode(c)) case Run(least, open) => [Run(least, open)]) + UnitTokens(t[1..])
  }

  function Fixeds(us: seq<Unit>): (r: seq<Token<Unit>>)
    ensures |r| == |us| && forall i | 0 <= i < |r| :: r[i] == Fixed(us[i])
  {
    seq(|us|, i requires 0 <= i < |us| => Fixed(us[i]))
  }

  lemma LiteralTokens(us: seq<Unit>, q: seq<Symbol<Unit>>)
    requires 1 <= |us| <= 2
    ensures Tokens(Literals(us) + q) == Fixeds(us) + Tokens(q)
  {
    var p := Literals(us) + q;
    if |us| == 1 {
      assert p[1..] == q && Fixeds(us) == [Fixed(us[0])];
    } else {
      assert p[1..] == [Literal(us[1])] + q && p[1..][1..] == q;
      assert Fixeds(us) == [Fixed(us[0])] + [Fixed(us[1])];
    }
  }

  lemma UnitTokensMerge(least: nat, open: bool, t: seq<Token<char>>)
    ensures UnitTokens(Merge(least, open, t)) == Merge(least, open, UnitTokens(t))
  {
    var m := Merge(least, open, t);
    assert m[1..] == AfterRun(t);
    if t != [] && t[0].Run? {
      assert UnitTokens(t)[1..] == UnitTokens(t[1..]);
    }
  }

  /** Going over to units commutes with collecting runs. */
  lemma {:induction false} TokensOfUnits(p: seq<Symbol<char>>)
    ensures Tokens(UnitSymbols(p)) == UnitTokens(Tokens(p))
  {
    if p != [] {
      TokensOfUnits(p[1..]);
      var q, t := UnitSymbols(p[1..]), Tokens(p[1..]);
      match p[0] {
        case Literal(c) =>
          LiteralTokens(Encode(c), q);
          assert Tokens(p)[1..] == t;
        case Single =>
          assert UnitSymbols(p)[1..] == q;
          UnitTokensMerge(1, false, t);
        case Any =>
          assert UnitSymbols(p)[1..] == q;
          UnitTokensMerge(0, true, t);
      }
    }
  }

  /** The expression on characters: a run stands for whole characters, but it counts their units. */
  predicate SpanMatch(t: seq<Token<char>>, s: string)
    decreases |t|, 1
  {
    if t == [] then s == ""
    else
      match t[0]
      case Fixed(c) => s != "" && s[0] == c && SpanMatch(t[1..], s[1..])
      case Run(_, _) => exists k | 0 <= k <= |s| :: SpansAt(t, s, k)
  }

  predicate SpansAt(t: seq<Token<char>>, s: string, k: nat)
    requires t != [] && t[0].Run? && k <= |s|
    decreases |t|, 0
  {
    Fits(t[0], |Units(s[..k])|) && SpanMatch(t[1..], s[k..])
  }

  lemma {:induction false} FixedsMatch(us: seq<Unit>, t: seq<Token<Unit>>, u: seq<Unit>)
    ensures TokenMatch(Fixeds(us) + t, u) <==> us <= u && TokenMatch(t, u[|us|..])
  {
    if us == [] {
      assert Fixeds(us) + t == t && u[0..] == u;
    } else {
      var ft := Fixeds(us) + t;
      assert ft[1..] == Fixeds(us[1..]) + t && ft[0] == Fixed(us[0]);
      if u != [] && u[0] == us[0] {
        FixedsMatch(us[1..], t, u[1..]);
        assert us == [us[0]] + us[1..] && u == [u[0]] + u[1..];
        assert us <= u <==> us[1..] <= u[1..];
        if us <= u { assert u[1..][|us[1..]|..] == u[|us|..]; }
      }
    }
  }

  lemma StartsWithChar(c: char, s: string)
    ensures Encode(c) <= Units(s) <==> s != "" && s[0] == c
  {
    if s != "" {
      UnitsStep(s);
      if Encode(c) <= Units(s) {
        assert Units(s)[0] == Encode(c)[0] == Encode(s[0])[0];
        assert |Encode(c)| == |Encode(s[0])|;
        assert Encode(c) == Units(s)[..|Encode(c)|] == Encode(s[0]);
        EncodeInjective(c, s[0]);
      }
    }
  }

  /** Whatever comes after a run in the expression cannot start in the middle of a character. */
  lemma NoLowStart(t: seq<Token<char>>, u: seq<Unit>)
    requires t != [] ==> t[0].Fixed?
    requires TokenMatch(UnitTokens(t), u)
    ensures u != [] ==> !Low(u[0])
  {
    if t != [] {
      FixedsMatch(Encode(t[0].x), UnitTokens(t[1..]), u);
      assert Encode(t[0].x) <= u;
    }
  }

  /** A match of the expression is one by whole characters. */
  lemma {:induction false} Aligned(t: seq<Token<char>>, s: string)
    requires Alternating(t)
    ensures TokenMatch(UnitTokens(t), Units(s)) <==> SpanMatch(t, s)
    decreases |t|
  {
    if t != [] {
      var rest, u := t[1..], Units(s);
      forall i | 0 <= i < |rest| - 1 ensures Apart(rest, i) { assert Apart(t, i + 1); }
      match t[0] {
        case Fixed(c) =>
          FixedsMatch(Encode(c), UnitTokens(rest), u);
          StartsWithChar(c, s);
          if s != "" {
            UnitsStep(s);
            Aligned(rest, s[1..]);
          }
        case Run(least, open) =>
          AlignedRun(t, s);
      }
    }
  }

  lemma RunOfUnits(t: seq<Token<char>>, u: seq<Unit>)
    requires t != [] && t[0].Run?
    ensures TokenMatch(UnitTokens(t), u) <==> RunMatch(Run(t[0].least, t[0].open), UnitTokens(t[1..]), u)
  {
    hide RunMatch;
    var token: Token<Unit> := Run(t[0].least, t[0].open);
    assert UnitTokens(t) == [token] + UnitTokens(t[1..]);
    assert ([token] + UnitTokens(t[1..]))[1..] == UnitTokens(t[1..]);
  }

  lemma AlignedRun(t: seq<Token<char>>, s: string)
    requires t != [] && t[0].Run? && Alternating(t) && Alternating(t[1..])
    ensures TokenMatch(UnitTokens(t), Units(s)) <==> SpanMatch(t, s)
    decreases |t|, 0
  {
    var rest, u := t[1..], Units(s);
    var token: Token<Unit> := Run(t[0].least, t[0].open);
    RunOfUnits(t, u);
    assert |t| > 1 ==> Apart(t, 0);
    hide UnitTokens, Units, TokenMatch, Alternating, Low;
    if m :| 0 <= m <= |u| && SplitsAt(token, UnitTokens(rest), u, m) {
      NoLowStart(rest, u[m..]);
      assert m < |u| ==> u[m..][0] == u[m];
      var k := Between(s, m);
      Aligned(rest, s[k..]);
      assert SpansAt(t, s, k);
    }
    if k :| 0 <= k <= |s| && SpansAt(t, s, k) {
      Place(s, k);
      Aligned(rest, s[k..]);
      var m := |Units(s[..k])|;
      assert SplitsAt(token, UnitTokens(rest), u, m);
    }
  }

  // ---------------------------------------------------------------- the test and LIKE, by runs

  function Runs(pattern: string): seq<Token<char>> {
    Tokens(Symbols(pattern))
  }

  /** LIKE goes by the characters a run stands for, the translated expression by their units. */
  lemma ByRuns(re: RegExp, pattern: string, s: string)
    requires Standard(re) && Plain(pattern) && OneLine(s)
    ensures Like(pattern, s) <==> TokenMatch(Runs(pattern), s)
    ensures Test(re, pattern, s) == Some(SpanMatch(Runs(pattern), s))
  {
    hide Test, Plain, OneLine, TokenMatch, SpanMatch, Tokens, LikeExcept;
    LikeIsTokens(Symbols(pattern), s);
    OneLineTest(re, pattern, s);
    LikeIsTokens(UnitSymbols(Symbols(pattern)), Units(s));
    TokensOfUnits(Symbols(pattern));
    TokensAlternate(Symbols(pattern));
    Aligned(Runs(pattern), s);
  }

  /** A run with `_` has a single one, beside a `%`. */
  predicate Narrow(t: seq<Token<char>>) {
    forall token | token in t :: token.Run? ==> token.least == 0 || (token.least == 1 && token.open)
  }

  /** No run has two `_`. */
  predicate Sparse(t: seq<Token<char>>) {
    forall token | token in t :: token.Run? ==> token.least <= 1
  }

  lemma TokenRun(t: seq<Token<char>>, s: string)
    requires t != [] && t[0].Run?
    ensures TokenMatch(t, s) <==> RunMatch(t[0], t[1..], s)
  {
    hide RunMatch;
  }

  lemma {:induction false} SpanIsTokens(t: seq<Token<char>>, s: string)
    requires Narrow(t) || Basic(s)
    ensures SpanMatch(t, s) <==> TokenMatch(t, s)
    decreases |t|
  {
    if t != [] {
      assert t[0] in t && forall token | token in t[1..] :: token in t;
      if t[0].Fixed? {
        if s != "" { SpanIsTokens(t[1..], s[1..]); }
      } else {
        forall k | 0 <= k <= |s| ensures SpansAt(t, s, k) <==> SplitsAt(t[0], t[1..], s, k) {
          SpanIsTokens(t[1..], s[k..]);
          UnitsCount(s[..k]);
        }
        TokenRun(t, s);
      }
    }
  }

  lemma {:induction false} SpanIsStricter(t: seq<Token<char>>, s: string)
    requires Sparse(t) && SpanMatch(t, s)
    ensures TokenMatch(t, s)
    decreases |t|
  {
    if t != [] {
      assert t[0] in t && forall token | token in t[1..] :: token in t;
      if t[0].Fixed? {
        SpanIsStricter(t[1..], s[1..]);
      } else {
        var k :| 0 <= k <= |s| && SpansAt(t, s, k);
        SpanIsStricter(t[1..], s[k..]);
        UnitsCount(s[..k]);
        assert SplitsAt(t[0], t[1..], s, k);
      }
    }
  }

  /** Plain patterns keep their meaning on single-line texts of the basic plane, and narrow ones on all of them. */
  lemma TranslationPreservesMeaning(re: RegExp, pattern: string, s: string)
    requires Standard(re) && Plain(pattern) && OneLine(s) && (Basic(s) || Narrow(Runs(pattern)))
    ensures Test(re, pattern, s) == Some(Like(pattern, s))
  {
    hide *;
    ByRuns(re, pattern, s);
    SpanIsTokens(Runs(pattern), s);
  }

  // ---------------------------------------------------------------- texts on which they differ

  const GRINNING := '\U{1F600}'

  function MinLength(t: seq<Token<char>>): nat {
    if t == [] then 0 else (match t[0] case Fixed(_) => 1 case Run(least, _) => least) + MinLength(t[1..])
  }

  function Fill(n: nat): (r: string)
    ensures |r| == n && forall c | c in r :: c == 'x'
  {
    seq(n, _ => 'x')
  }

  /** Two `_` of a run are given one character of two units. */
  function Crowded(t: seq<Token<char>>): string {
    if t == [] then ""
    else
      (match t[0]
       case Fixed(c) => [c]
       case Run(least, _) => if least >= 2 then [GRINNING] + Fill(least - 2) else Fill(least))
      + Crowded(t[1..])
  }

  lemma {:induction false} FillUnits(n: nat)
    ensures |Units(Fill(n))| == n
  {
    UnitsCount(Fill(n));
    assert forall c | c in Fill(n) :: !Astral(c);
  }

  lemma {:induction false} CrowdedSpans(t: seq<Token<char>>)
    ensures SpanMatch(t, Crowded(t))
    ensures |Crowded(t)| <= MinLength(t)
    ensures !Sparse(t) ==> |Crowded(t)| < MinLength(t)
  {
    if t != [] {
      CrowdedSpans(t[1..]);
      assert t == [t[0]] + t[1..];
      var s, rest := Crowded(t), Crowded(t[1..]);
      match t[0] {
        case Fixed(c) => assert s[1..] == rest;
        case Run(least, _) =>
          var k := |s| - |rest|;
          assert s[k..] == rest;
          if least >= 2 {
            assert s[..k] == [GRINNING] + Fill(least - 2);
            UnitsConcat([GRINNING], Fill(least - 2));
            FillUnits(least - 2);
            assert |Units([GRINNING])| == 2;
          } else {
            assert s[..k] == Fill(least);
            FillUnits(least);
          }
          assert SpansAt(t, s, k);
      }
    }
  }

  lemma {:induction false} TokensNeed(t: seq<Token<char>>, s: string)
    requires TokenMatch(t, s)
    ensures MinLength(t) <= |s|
    decreases |t|
  {
    if t != [] {
      if t[0].Fixed? {
        TokensNeed(t[1..], s[1..]);
      } else {
        TokenRun(t, s);
        var k :| 0 <= k <= |s| && SplitsAt(t[0], t[1..], s, k);
        TokensNeed(t[1..], s[k..]);
      }
    }
  }

  /** Every `_` that stands alone is given a character of two units. */
  function Widened(t: seq<Token<char>>): string {
    if t == [] then ""
    else
      (match t[0]
       case Fixed(c) => [c]
       case Run(least, open) => if least == 0 then "" else if open then "x" else [GRINNING])
      + Widened(t[1..])
  }

  lemma {:induction false} WidenedMatches(t: seq<Token<char>>)
    requires Sparse(t)
    ensures TokenMatch(t, Widened(t)) && |Widened(t)| == MinLength(t)
  {
    if t != [] {
      assert t[0] in t && forall token | token in t[1..] :: token in t;
      WidenedMatches(t[1..]);
      var s, rest := Widened(t), Widened(t[1..]);
      var k := |s| - |rest|;
      assert s[k..] == rest;
      if t[0].Run? {
        assert SplitsAt(t[0], t[1..], s, k);
      }
    }
  }

  lemma {:induction false} SpansNeed(t: seq<Token<char>>, s: string)
    requires Sparse(t) && SpanMatch(t, s)
    ensures MinLength(t) <= |s|
  {
    SpanIsStricter(t, s);
    TokensNeed(t, s);
  }

  /** There is a character for each literal and each `_`, so the one of two units meets a lone `_`. */
  lemma {:induction false} WidenedNotSpans(t: seq<Token<char>>)
    requires Sparse(t) && SpanMatch(t, Widened(t))
    ensures Narrow(t)
  {
    if t != [] {
      assert t[0] in t && t == [t[0]] + t[1..] && forall token | token in t[1..] :: token in t;
      var s, rest := Widened(t), Widened(t[1..]);
      WidenedMatches(t);
      WidenedMatches(t[1..]);
      if t[0].Fixed? {
        assert s[1..] == rest;
        WidenedNotSpans(t[1..]);
      } else {
        assert |Units([GRINNING])| == 2;
        var lone: Token<char> := Run(1, false);
        assert t[0] == lone ==> s == [GRINNING] + rest;
        var k :| 0 <= k <= |s| && SpansAt(t, s, k);
        SpansNeed(t[1..], s[k..]);
        UnitsCount(s[..k]);
        assert k == t[0].least && s[k..] == rest;
        WidenedNotSpans(t[1..]);
      }
    }
  }

  lemma {:induction false} WitnessesOnOneLine(pattern: string)
    requires OneLine(pattern)
    ensures OneLine(Crowded(Runs(pattern))) && OneLine(Widened(Runs(pattern)))
  {
    FixedFromPattern(pattern);
    WitnessChars(Runs(pattern));
  }

  lemma {:induction false} FixedFromPattern(pattern: string)
    ensures forall token | token in Runs(pattern) :: token.Fixed? ==> token.x in pattern
  {
    if pattern != "" {
      FixedFromPattern(pattern[1..]);
      assert pattern == [pattern[0]] + pattern[1..];
      assert Symbols(pattern)[1..] == Symbols(pattern[1..]);
      var t := Runs(pattern[1..]);
      assert forall token | token in AfterRun(t) :: token in t;
    }
  }

  lemma {:induction false} WitnessChars(t: seq<Token<char>>)
    ensures forall c | c in Crowded(t) :: c == 'x' || c == GRINNING || Fixed(c) in t
    ensures forall c | c in Widened(t) :: c == 'x' || c == GRINNING || Fixed(c) in t
  {
    if t != [] {
      WitnessChars(t[1..]);
      assert t == [t[0]] + t[1..];
    }
  }

  /** With two `_` in a run some text is accepted that LIKE does not accept. */
  lemma CrowdedDiffers(re: RegExp, pattern: string) returns (s: string)
    requires Standard(re) && Plain(pattern) && OneLine(pattern) && !Sparse(Runs(pattern))
    ensures OneLine(s) && Test(re, pattern, s) == Some(true) && !Like(pattern, s)
  {
    hide *;
    s := Crowded(Runs(pattern));
    WitnessesOnOneLine(pattern);
    CrowdedSpans(Runs(pattern));
    ByRuns(re, pattern, s);
    if TokenMatch(Runs(pattern), s) {
      TokensNeed(Runs(pattern), s);
    }
  }

  /** With a lone `_` some text is refused that LIKE accepts. */
  lemma WidenedDiffers(re: RegExp, pattern: string) returns (s: string)
    requires Standard(re) && Plain(pattern) && OneLine(pattern)
    requires Sparse(Runs(pattern)) && !Narrow(Runs(pattern))
    ensures OneLine(s) && Test(re, pattern, s) == Some(false) && Like(pattern, s)
  {
    hide *;
    s := Widened(Runs(pattern));
    WitnessesOnOneLine(pattern);
    WidenedMatches(Runs(pattern));
    ByRuns(re, pattern, s);
    if SpanMatch(Runs(pattern), s) {
      WidenedNotSpans(Runs(pattern));
    }
  }

  // ---------------------------------------------------------------- main results

  ghost predicate KeepsMeaning(re: RegExp, pattern: string) {
    forall s | OneLine(s) :: Test(re, pattern, s) == Some(Like(pattern, s))
  }

  /**
    A plain pattern keeps the meaning LIKE gives it on all single-line texts exactly when each of its runs of wildcards
    has no `_`, or a single one beside a `%`.
   */
  lemma PlainKeepsIffNarrow(re: RegExp, pattern: string)
    requires Standard(re) && Plain(pattern) && OneLine(pattern)
    ensures KeepsMeaning(re, pattern) <==> Narrow(Runs(pattern))
  {
    hide Test, Like, Plain, OneLine, Narrow, Sparse, Runs;
    if Narrow(Runs(pattern)) {
      forall s | OneLine(s) ensures Test(re, pattern, s) == Some(Like(pattern, s)) {
        TranslationPreservesMeaning(re, pattern, s);
      }
    } else if Sparse(Runs(pattern)) {
      var s := WidenedDiffers(re, pattern);
    } else {
      var s := CrowdedDiffers(re, pattern);
    }
  }

  // ---------------------------------------------------------------- other patterns of the fragment

  /** A text for an expression: an `x` for each dot and one repetition for each star. */
  function Once(source: string): string {
    if source == "" then "" else OnceChar(source[0]) + Once(source[1..])
  }

  function OnceChar(c: char): string {
    if c == '*' then "" else if c == '.' then "x" else [c]
  }

  function OnceUnits(source: seq<Unit>): seq<Unit> {
    if source == [] then []
    else
      (if source[0] == STAR then [] else if source[0] == DOT then ['x' as Unit] else [source[0]])
      + OnceUnits(source[1..])
  }

  lemma {:induction false} OnceMatches(source: seq<Unit>)
    requires Parse(source).Some?
    ensures Matches(Parse(source).value, OnceUnits(source))
  {
    if source != [] {
      var starred := |source| > 1 && source[1] == STAR;
      var rest := if starred then source[2..] else source[1..];
      OnceMatches(rest);
      var pieces, s := Parse(source).value, OnceUnits(source);
      if starred {
        assert OnceUnits(source[1..]) == OnceUnits(source[1..][1..]) && source[1..][1..] == rest;
      }
      assert pieces[1..] == Parse(rest).value && s[1..] == OnceUnits(rest);
      assert Accepts(pieces[0].atom, s[0]);
      assert starred ==> Matches(pieces, s[1..]);
    }
  }

  lemma {:induction false} OnceConcat(a: seq<Unit>, b: seq<Unit>)
    ensures OnceUnits(a + b) == OnceUnits(a) + OnceUnits(b)
  {
    if a == [] {
      assert a + b == b;
    } else {
      assert (a + b)[1..] == a[1..] + b;
      OnceConcat(a[1..], b);
    }
  }

  lemma OnceOne(u: Unit)
    ensures OnceUnits([u]) == if u == STAR then [] else if u == DOT then ['x' as Unit] else [u]
  {
    assert [u][1..] == [] && OnceUnits([]) == [];
  }

  lemma OnceOfChar(c: char)
    ensures OnceUnits(Encode(c)) == Units(OnceChar(c))
  {
    CharUnits();
    assert Units("x") == Encode('x') && Units("") == [];
    var us := Encode(c);
    OnceOne(us[0]);
    if |us| == 2 {
      OnceOne(us[1]);
      OnceConcat([us[0]], [us[1]]);
      assert us == [us[0]] + [us[1]];
    } else {
      assert us == [us[0]];
    }
  }

  lemma {:induction false} OnceCommutes(source: string)
    ensures OnceUnits(Units(source)) == Units(Once(source))
  {
    if source != "" {
      OnceCommutes(source[1..]);
      OnceConcat(Encode(source[0]), Units(source[1..]));
      OnceOfChar(source[0]);
      UnitsConcat(OnceChar(source[0]), Once(source[1..]));
      hide OnceUnits, Encode, OnceChar;
    }
  }

  lemma {:induction false} OnceChars(source: string)
    ensures forall c | c in Once(source) :: c == 'x' || (c in source && c != '.' && c != '*')
  {
    if source != "" {
      OnceChars(source[1..]);
      assert source == [source[0]] + source[1..];
    }
  }

  lemma {:induction false} ParsedSpecial(source: seq<Unit>)
    requires Parse(source).Some?
    ensures forall u | u in source :: SpecialUnit(u) ==> u == STAR
  {
    if source != [] {
      var rest := if |source| > 1 && source[1] == STAR then source[2..] else source[1..];
      ParsedSpecial(rest);
      assert forall u | u in source :: u == source[0] || u == STAR || u in rest;
    }
  }

  lemma {:induction false} UnitsHave(s: string, c: char)
    requires c in s && !Astral(c)
    ensures c as int in Units(s)
  {
    if s[0] == c {
      assert Units(s)[0] == c as int;
    } else {
      UnitsHave(s[1..], c);
    }
  }

  lemma {:induction false} TranslateKeeps(pattern: string)
    ensures forall c | c in pattern && c != '_' && c != '%' :: c in Translate(pattern)
    ensures forall c | c in Translate(pattern) :: c in pattern || c == '.' || c == '*'
  {
    if pattern != "" {
      TranslateKeeps(pattern[1..]);
      TranslateStep(pattern);
      assert pattern == [pattern[0]] + pattern[1..];
    }
  }

  lemma {:induction false} SymbolIn(pattern: string, c: char)
    requires c in pattern && c != '_' && c != '%'
    ensures Literal(c) in Symbols(pattern)
  {
    if pattern[0] != c {
      assert pattern == [pattern[0]] + pattern[1..];
      SymbolIn(pattern[1..], c);
    }
  }

  /** LIKE finds every literal of its pattern in the text. */
  lemma {:induction false} LikeNeedsLiterals<T>(p: seq<Symbol<T>>, s: seq<T>, barred: set<T>, x: T)
    requires LikeExcept(p, s, barred) && Literal(x) in p
    ensures x in s
    decreases |p|, |s|
  {
    assert p == [p[0]] + p[1..];
    match p[0] {
      case Literal(y) => if y != x { LikeNeedsLiterals(p[1..], s[1..], barred, x); }
      case Single => LikeNeedsLiterals(p[1..], s[1..], barred, x);
      case Any =>
        if LikeExcept(p[1..], s, barred) {
          LikeNeedsLiterals(p[1..], s, barred, x);
        } else {
          LikeNeedsLiterals(p, s[1..], barred, x);
        }
    }
  }

  /** What is not plain in the fragment is a dot or a star. */
  lemma DotOrStar(pattern: string) returns (c: char)
    requires InFragment(pattern) && !Plain(pattern)
    ensures c in pattern && (c == '.' || c == '*')
  {
    hide Translate, Parse, Units;
    c :| c in pattern && (c == '.' || c in SPECIAL);
    TranslateKeeps(pattern);
    UnitsHave(Translate(pattern), c);
    ParsedSpecial(Units(Translate(pattern)));
    assert c != '.' ==> SpecialUnit(c as int);
  }

  lemma OnceOnOneLine(pattern: string)
    requires OneLine(pattern)
    ensures OneLine(Once(Translate(pattern)))
  {
    OnceChars(Translate(pattern));
    TranslateKeeps(pattern);
    hide Translate, Once;
  }

  /** A pattern with a dot or a starred character accepts a text that LIKE does not. */
  lemma NotPlainDiffers(re: RegExp, pattern: string) returns (s: string)
    requires Standard(re) && InFragment(pattern) && OneLine(pattern) && !Plain(pattern)
    ensures OneLine(s) && Test(re, pattern, s) == Some(true) && !Like(pattern, s)
  {
    hide *;
    s := Once(Translate(pattern));
    OnceAccepted(re, pattern);
    OnceOnOneLine(pattern);
    OnceChars(Translate(pattern));
    var c := DotOrStar(pattern);
    SymbolIn(pattern, c);
    LikeIs(pattern, s);
    if Like(pattern, s) {
      LikeNeedsLiterals(Symbols(pattern), s, {}, c);
    }
  }

  lemma OnceAccepted(re: RegExp, pattern: string)
    requires Standard(re) && InFragment(pattern)
    ensures Test(re, pattern, Once(Translate(pattern))) == Some(true)
  {
    hide Parse, Matches, Translate, Units, Once, OnceUnits;
    var source := Translate(pattern);
    assert Reads(re, source, Parse(Units(source)).value);
    OnceMatches(Units(source));
    OnceCommutes(source);
  }

  /**
    Of the patterns whose translation is in the fragment, exactly the plain ones with narrow runs keep the meaning LIKE
    gives them on all single-line texts. A pattern with a line terminator is left aside: it is about other texts.
   */
  lemma KeepsMeaningIff(re: RegExp, pattern: string)
    requires Standard(re) && InFragment(pattern) && OneLine(pattern)
    ensures KeepsMeaning(re, pattern) <==> Plain(pattern) && Narrow(Runs(pattern))
  {
    hide Test, Like, Plain, OneLine, Narrow, Runs, Parse, Translate;
    if Plain(pattern) {
      PlainKeepsIffNarrow(re, pattern);
    } else {
      var s := NotPlainDiffers(re, pattern);
    }
  }

  // ---------------------------------------------------------------- texts of several lines

  lemma {:induction false} BarredIsStricter<T>(p: seq<Symbol<T>>, s: seq<T>, barred: set<T>)
    requires LikeExcept(p, s, barred)
    ensures LikeExcept(p, s, {})
    decreases |p|, |s|
  {
    if p != [] {
      match p[0] {
        case Any =>
          if LikeExcept(p[1..], s, barred) {
            BarredIsStricter(p[1..], s, barred);
          } else {
            BarredIsStricter(p, s[1..], barred);
          }
        case _ => BarredIsStricter(p[1..], s[1..], barred);
      }
    }
  }

  lemma UnitLikeIsSpan(pattern: string, s: string)
    ensures LikeExcept(UnitSymbols(Symbols(pattern)), Units(s), {}) <==> SpanMatch(Runs(pattern), s)
  {
    hide LikeExcept, UnitSymbols, UnitTokens, Tokens, TokenMatch, SpanMatch;
    LikeIsTokens(UnitSymbols(Symbols(pattern)), Units(s));
    TokensOfUnits(Symbols(pattern));
    TokensAlternate(Symbols(pattern));
    Aligned(Runs(pattern), s);
  }

  /** A plain pattern accepts no text beyond LIKE's, of however many lines, exactly when no run has two `_`. */
  lemma NeverTooMuchIff(re: RegExp, pattern: string)
    requires Standard(re) && Plain(pattern) && OneLine(pattern)
    ensures (forall s | Test(re, pattern, s) == Some(true) :: Like(pattern, s)) <==> Sparse(Runs(pattern))
  {
    hide Test, LikeExcept, Plain, OneLine, Sparse, Runs, Symbols, UnitSymbols, Units;
    if Sparse(Runs(pattern)) {
      forall s | Test(re, pattern, s) == Some(true) ensures Like(pattern, s) {
        AcceptedIsLike(re, pattern, s);
      }
    } else {
      var s := CrowdedDiffers(re, pattern);
    }
  }

  lemma AcceptedIsLike(re: RegExp, pattern: string, s: string)
    requires Standard(re) && Plain(pattern) && Sparse(Runs(pattern)) && Test(re, pattern, s) == Some(true)
    ensures Like(pattern, s)
  {
    PlainTestIsUnitLike(re, pattern, s);
    BarredIsStricter(UnitSymbols(Symbols(pattern)), Units(s), LINE_UNITS);
    UnitLikeIsSpan(pattern, s);
    SpanIsStricter(Runs(pattern), s);
    LikeIsTokens(Symbols(pattern), s);
    hide *;
    assert Like(pattern, s) by { LikeIs(pattern, s); RunsIs(pattern); }
  }

  lemma LikeIs(pattern: string, s: string)
    ensures Like(pattern, s) <==> LikeExcept(Symbols(pattern), s, {})
  {
  }

  lemma RunsIs(pattern: string)
    ensures Runs(pattern) == Tokens(Symbols(pattern))
  {
  }

  predicate Wild(pattern: string) {
    exists c | c in pattern :: c == '_' || c == '%'
  }

  /** The pattern with a line feed for each wildcard. */
  function Fed(pattern: string): string {
    if pattern == "" then ""
    else [if pattern[0] == '_' || pattern[0] == '%' then '\n' else pattern[0]] + Fed(pattern[1..])
  }

  lemma {:induction false} FedIsLike(pattern: string)
    ensures Like(pattern, Fed(pattern))
    ensures Wild(pattern) ==> '\n' in Fed(pattern)
  {
    if pattern != "" {
      FedIsLike(pattern[1..]);
      assert Fed(pattern)[1..] == Fed(pattern[1..]) && Symbols(pattern)[1..] == Symbols(pattern[1..]);
      assert pattern == [pattern[0]] + pattern[1..];
      assert LikeExcept(Symbols(pattern[1..]), Fed(pattern[1..]), {});
      assert pattern[0] == '%' ==> LikeExcept(Symbols(pattern), Fed(pattern)[1..], {});
    }
  }

  /** A barred unit is only accepted where the pattern names it. */
  lemma {:induction false} BarredComesFromPattern<T>(p: seq<Symbol<T>>, s: seq<T>, barred: set<T>, x: T)
    requires LikeExcept(p, s, barred) && x in s && x in barred
    ensures Literal(x) in p
    decreases |p|, |s|
  {
    assert p == [p[0]] + p[1..];
    match p[0] {
      case Literal(y) => if y != x { BarredComesFromPattern(p[1..], s[1..], barred, x); }
      case Single => BarredComesFromPattern(p[1..], s[1..], barred, x);
      case Any =>
        if LikeExcept(p[1..], s, barred) {
          BarredComesFromPattern(p[1..], s, barred, x);
        } else {
          BarredComesFromPattern(p, s[1..], barred, x);
        }
    }
  }

  lemma NoLineLiteral(c: char)
    requires c !in LINE_TERMINATORS
    ensures forall u: Unit | u in LINE_UNITS :: Literal(u) !in Literals(Encode(c))
  {
    forall u: Unit | u in LINE_UNITS ensures Literal(u) !in Literals(Encode(c)) {
      assert u !in Encode(c);
    }
  }

  lemma {:induction false} UnitLiteralsFrom(pattern: string)
    requires OneLine(pattern)
    ensures forall u: Unit | u in LINE_UNITS :: Literal(u) !in UnitSymbols(Symbols(pattern))
  {
    if pattern != "" {
      assert pattern[0] in pattern && forall c | c in pattern[1..] :: c in pattern;
      UnitLiteralsFrom(pattern[1..]);
      NoLineLiteral(pattern[0]);
      SymbolsCons(pattern);
      hide Symbols, UnitSymbols, Encode, Literals;
    }
  }

  lemma {:induction false} TameUnbarred<T>(p: seq<Symbol<T>>, s: seq<T>, barred: set<T>)
    requires forall x | x in p :: x.Literal?
    ensures LikeExcept(p, s, barred) <==> LikeExcept(p, s, {})
    decreases |p|
  {
    if p != [] {
      assert p[0] in p && forall x | x in p[1..] :: x in p;
      if s != [] { TameUnbarred(p[1..], s[1..], barred); }
    }
  }

  lemma {:induction false} TameSymbols(pattern: string)
    requires !Wild(pattern)
    ensures forall x | x in UnitSymbols(Symbols(pattern)) :: x.Literal?
    ensures Narrow(Runs(pattern))
  {
    if pattern != "" {
      assert pattern[0] in pattern && forall c | c in pattern[1..] :: c in pattern;
      TameSymbols(pattern[1..]);
      assert Symbols(pattern)[1..] == Symbols(pattern[1..]);
    }
  }

  /** A plain pattern keeps its meaning on all texts, of several lines too, exactly when it has no wildcard. */
  lemma KeepsMeaningEverywhereIff(re: RegExp, pattern: string)
    requires Standard(re) && Plain(pattern) && OneLine(pattern)
    ensures (forall s :: Test(re, pattern, s) == Some(Like(pattern, s))) <==> !Wild(pattern)
  {
    if Wild(pattern) {
      var s := Fed(pattern);
      FedRefused(re, pattern);
      FedIsLike(pattern);
    } else {
      forall s ensures Test(re, pattern, s) == Some(Like(pattern, s)) {
        TameTest(re, pattern, s);
      }
    }
  }

  lemma FedRefused(re: RegExp, pattern: string)
    requires Standard(re) && Plain(pattern) && OneLine(pattern) && Wild(pattern)
    ensures Test(re, pattern, Fed(pattern)) == Some(false)
  {
    hide Test, LikeExcept, Units, Encode, UnitSymbols, Symbols, Standard, Fed;
    var s := Fed(pattern);
    FedIsLike(pattern);
    PlainTestIsUnitLike(re, pattern, s);
    UnitLiteralsFrom(pattern);
    UnitsHave(s, '\n');
    if LikeExcept(UnitSymbols(Symbols(pattern)), Units(s), LINE_UNITS) {
      BarredComesFromPattern(UnitSymbols(Symbols(pattern)), Units(s), LINE_UNITS, 0x0A);
    }
  }

  lemma TameTest(re: RegExp, pattern: string, s: string)
    requires Standard(re) && Plain(pattern) && !Wild(pattern)
    ensures Test(re, pattern, s) == Some(Like(pattern, s))
  {
    hide *;
    TameSymbols(pattern);
    PlainTestIsUnitLike(re, pattern, s);
    TameUnbarred(UnitSymbols(Symbols(pattern)), Units(s), LINE_UNITS);
    UnitLikeIsSpan(pattern, s);
    SpanIsTokens(Runs(pattern), s);
    LikeIsTokens(Symbols(pattern), s);
    RunsIs(pattern);
    LikeIs(pattern, s);
  }

  // ---------------------------------------------------------------- two inputs

  /** A single `_` refuses a character of two units, and two of them accept it. */
  lemma TwoUnitCharacter(re: RegExp)
    requires Standard(re)
    ensures Test(re, "_", [GRINNING]) == Some(false) && Like("_", [GRINNING])
    ensures Test(re, "__", [GRINNING]) == Some(true) && !Like("__", [GRINNING])
  {
    var s := [GRINNING];
    assert OneLine(s) && OneLine("_") && OneLine("__") && Plain("_") && Plain("__");
    SinglesRuns();
    ByRuns(re, "_", s);
    ByRuns(re, "__", s);
    SinglesMatch();
  }

  lemma SinglesRuns()
    ensures Runs("_") == [Run(1, false)] && Runs("__") == [Run(2, false)]
  {
    var p, q: seq<Symbol<char>> := [Single], [Single, Single];
    assert "_"[1..] == "" && "__"[1..] == "_";
    assert Symbols("_") == p && Symbols("__") == [Single] + Symbols("_") == q;
    assert p[1..] == [] && q[1..] == p;
  }

  lemma SinglesMatch()
    ensures var one, two: seq<Token<char>> := [Run(1, false)], [Run(2, false)];
      && TokenMatch(one, [GRINNING]) && !SpanMatch(one, [GRINNING])
      && SpanMatch(two, [GRINNING]) && !TokenMatch(two, [GRINNING])
  {
    var one, two: seq<Token<char>> := [Run(1, false)], [Run(2, false)];
    assert one[0] in one && two[0] in two && one[1..] == [] && two[1..] == [];
    assert Widened(one) == [GRINNING] && Crowded(two) == [GRINNING];
    assert MinLength(two) == 2;
    hide TokenMatch, SpanMatch, Widened, Crowded;
    WidenedMatches(one);
    if SpanMatch(one, [GRINNING]) { WidenedNotSpans(one); }
    CrowdedSpans(two);
    if TokenMatch(two, [GRINNING]) { TokensNeed(two, [GRINNING]); }
  }
}
