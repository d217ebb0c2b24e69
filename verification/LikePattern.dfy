/**
  The `Like` operator of the JSON store's query engine: SQL patterns translated to anchored regular expressions. The
  expressions are compiled without the `u` flag, so they work on UTF-16 units where SQL works on characters.
 */
module LikePattern {
  import opened Results
  import opened Utf16

  // ---------------------------------------------------------------- the translation

  /** `s.replace(/c/g, with)` */
  function ReplaceAll(s: string, c: char, with: string): string {
    if s == "" then "" else (if s[0] == c then with else [s[0]]) + ReplaceAll(s[1..], c, with)
  }

  /** The body of the regular expression, between `^` and `$`. */
  function Translate(pattern: string): string {
    ReplaceAll(ReplaceAll(pattern, '_', "."), '%', ".*")
  }

  // ---------------------------------------------------------------- the regular expressions that can arise

  datatype Atom = Char(u: Unit) | AnyUnit

  datatype Piece = One(atom: Atom) | Star(atom: Atom)

  const LINE_TERMINATORS: set<char> := {'\n', '\r', '\U{2028}', '\U{2029}'}

  const LINE_UNITS: set<Unit> := {0x0A, 0x0D, 0x2028, 0x2029}

  /** Characters with a meaning in regular expressions other than `.` and a `*` that follows an atom. */
  const SPECIAL: set<char> := {'\\', '^', '$', '+', '?', '(', ')', '[', '{', '|', '*'}

  predicate SpecialUnit(u: Unit) {
    u < 0x80 && u as char in SPECIAL
  }

  const DOT: Unit := 0x2E

  const STAR: Unit := 0x2A

  /** A sequence of characters, dots and starred atoms; `None` for syntax outside this fragment. */
  function Parse(source: seq<Unit>): Option<seq<Piece>> {
    if source == [] then Some([])
    else if SpecialUnit(source[0]) then None
    else
      var atom := if source[0] == DOT then AnyUnit else Char(source[0]);
      if |source| > 1 && source[1] == STAR then
        match Parse(source[2..]) case Some(rest) => Some([Star(atom)] + rest) case None => None
      else
        match Parse(source[1..]) case Some(rest) => Some([One(atom)] + rest) case None => None
  }

  /** Without the `s` flag a dot stands for any unit but a line terminator. */
  predicate Accepts(atom: Atom, u: Unit) {
    match atom case Char(v) => u == v case AnyUnit => u !in LINE_UNITS
  }

  /** An anchored match of the whole text. */
  predicate Matches(pieces: seq<Piece>, s: seq<Unit>)
    decreases |pieces|, |s|
  {
    if pieces == [] then s == []
    else
      match pieces[0]
      case One(atom) => s != [] && Accepts(atom, s[0]) && Matches(pieces[1..], s[1..])
      case Star(atom) =>
        Matches(pieces[1..], s) || (s != [] && Accepts(atom, s[0]) && Matches(pieces, s[1..]))
  }

  // ---------------------------------------------------------------- the runtime's regular expressions

  /** `new RegExp(source)` and its `test`; `None` where the constructor throws. */
  type RegExp = string -> Option<string -> bool>

  function Anchored(body: string): string {
    "^" + body + "$"
  }

  /** The runtime reads expressions of the fragment as they are read here; the others it may read as it likes. */
  ghost predicate Standard(re: RegExp) {
    forall body | Parse(Units(body)).Some? :: Reads(re, body, Parse(Units(body)).value)
  }

  ghost predicate Reads(re: RegExp, body: string, pieces: seq<Piece>) {
    re(Anchored(body)).Some? && forall s :: re(Anchored(body)).value(s) == Matches(pieces, Units(s))
  }

  /** The translation is made of characters, dots and starred atoms. */
  predicate InFragment(pattern: string) {
    Parse(Units(Translate(pattern))).Some?
  }

  predicate Compiles(re: RegExp, pattern: string) {
    re(Anchored(Translate(pattern))).Some?
  }

  /** The test `buildFilter` makes; `None` where it throws. */
  function Test(re: RegExp, pattern: string, s: string): Option<bool> {
    if Compiles(re, pattern) then Some(re(Anchored(Translate(pattern))).value(s)) else None
  }

  lemma FragmentCompiles(re: RegExp, pattern: string)
    requires Standard(re) && InFragment(pattern)
    ensures Compiles(re, pattern)
  {
    assert Reads(re, Translate(pattern), Parse(Units(Translate(pattern))).value);
  }

  // ---------------------------------------------------------------- SQL LIKE

  datatype Symbol<T> = Literal(x: T) | Single | Any

  function Symbols(pattern: string): seq<Symbol<char>> {
    if pattern == "" then []
    else
      [if pattern[0] == '_' then Single else if pattern[0] == '%' then Any else Literal(pattern[0])]
      + Symbols(pattern[1..])
  }

  /** LIKE on whatever a text is made of, its wildcards not standing for what is `barred`. */
  predicate LikeExcept<T(==)>(p: seq<Symbol<T>>, s: seq<T>, barred: set<T>)
    decreases |p|, |s|
  {
    if p == [] then s == []
    else
      match p[0]
      case Literal(x) => s != [] && s[0] == x && LikeExcept(p[1..], s[1..], barred)
      case Single => s != [] && s[0] !in barred && LikeExcept(p[1..], s[1..], barred)
      case Any => LikeExcept(p[1..], s, barred) || (s != [] && s[0] !in barred && LikeExcept(p, s[1..], barred))
  }

  /** Case-sensitive SQL LIKE, character by character. */
  predicate Like(pattern: string, s: string) {
    LikeExcept(Symbols(pattern), s, {})
  }

  /** The pattern as the translated expression sees it, unit by unit. */
  function UnitSymbols(p: seq<Symbol<char>>): seq<Symbol<Unit>> {
    if p == [] then []
    else
      (match p[0]
       case Literal(c) => Literals(Encode(c))
       case Single => [Single]
       case Any => [Any])
      + UnitSymbols(p[1..])
  }

  function Literals(us: seq<Unit>): seq<Symbol<Unit>> {
    seq(|us|, i requires 0 <= i < |us| => Literal(us[i]))
  }

  /** A pattern without characters that mean something to a regular expression. */
  predicate Plain(pattern: string) {
    forall c | c in pattern :: c != '.' && c !in SPECIAL
  }

  predicate OneLine(s: string) {
    forall c | c in s :: c !in LINE_TERMINATORS
  }

  /** A text without characters that take two units. */
  predicate Basic(s: string) {
    forall c | c in s :: !Astral(c)
  }

  // ---------------------------------------------------------------- what the expression means

  function PiecesOf(p: seq<Symbol<Unit>>): seq<Piece> {
    if p == [] then []
    else
      [match p[0] case Literal(u) => One(Char(u)) case Single => One(AnyUnit) case Any => Star(AnyUnit)]
      + PiecesOf(p[1..])
  }

  function TranslateChar(c: char): string {
    if c == '_' then "." else if c == '%' then ".*" else [c]
  }

  lemma {:induction false} TranslateStep(pattern: string)
    requires pattern != ""
    ensures Translate(pattern) == TranslateChar(pattern[0]) + Translate(pattern[1..])
  {
    var rest := ReplaceAll(pattern[1..], '_', ".");
    var c := if pattern[0] == '_' then '.' else pattern[0];
    assert ReplaceAll(pattern, '_', ".") == [c] + rest;
    assert ([c] + rest)[1..] == rest;
  }

  lemma UnitsOfTranslation(pattern: string)
    requires pattern != ""
    ensures Units(Translate(pattern)) == Units(TranslateChar(pattern[0])) + Units(Translate(pattern[1..]))
  {
    hide Translate, TranslateChar, Units;
    TranslateStep(pattern);
    UnitsConcat(TranslateChar(pattern[0]), Translate(pattern[1..]));
  }

  lemma ParseOne(u: Unit, rest: seq<Unit>)
    requires !SpecialUnit(u) && Parse(rest).Some? && (rest != [] ==> rest[0] != STAR)
    ensures Parse([u] + rest) == Some([One(if u == DOT then AnyUnit else Char(u))] + Parse(rest).value)
  {
    assert ([u] + rest)[1..] == rest;
  }

  lemma ParseAny(rest: seq<Unit>)
    requires Parse(rest).Some?
    ensures Parse([DOT, STAR] + rest) == Some([Star(AnyUnit)] + Parse(rest).value)
  {
    assert ([DOT, STAR] + rest)[2..] == rest;
  }

  lemma CharUnits()
    ensures Units(".") == [DOT] && Units(".*") == [DOT, STAR]
    ensures forall c: char :: Units([c]) == Encode(c)
  {
    assert ".*"[1..] == "*" && "*"[1..] == "" && "."[1..] == "";
    assert Units("*") == [STAR] + Units("");
    assert Units(".*") == [DOT] + Units("*");
    assert Units(".") == [DOT] + Units("");
    forall c: char ensures Units([c]) == Encode(c) {
      assert [c][1..] == "";
    }
  }

  /** The units of a plain character stand for themselves. */
  lemma PlainUnits(c: char, i: nat)
    requires c != '.' && c !in SPECIAL && i < |Encode(c)|
    ensures !SpecialUnit(Encode(c)[i]) && Encode(c)[i] != DOT && Encode(c)[i] != STAR
  {
  }

  lemma PlainCharParses(c: char, t: seq<Unit>, p: seq<Symbol<Unit>>)
    requires c != '.' && c !in SPECIAL
    requires Parse(t) == Some(PiecesOf(p)) && (t != [] ==> t[0] != STAR)
    ensures Parse(Encode(c) + t) == Some(PiecesOf(Literals(Encode(c)) + p)) && (Encode(c) + t)[0] != STAR
  {
    var us := Encode(c);
    PlainUnits(c, 0);
    if |us| == 2 { PlainUnits(c, 1); }
    hide Parse, PiecesOf, Encode, SpecialUnit;
    if |us| == 1 {
      ParseOne(us[0], t);
      PiecesCons(Literal(us[0]), p);
      assert us == [us[0]] && Literals(us) == [Literal(us[0])];
    } else {
      ParseOne(us[1], t);
      PiecesCons(Literal(us[1]), p);
      ParseOne(us[0], [us[1]] + t);
      PiecesCons(Literal(us[0]), [Literal(us[1])] + p);
      assert us + t == [us[0]] + ([us[1]] + t);
      assert Literals(us) + p == [Literal(us[0])] + ([Literal(us[1])] + p);
    }
  }

  /** The translation of a plain pattern parses back to the pattern's own pieces. */
  lemma {:induction false} PlainParses(pattern: string)
    requires Plain(pattern)
    ensures Parse(Units(Translate(pattern))) == Some(PiecesOf(UnitSymbols(Symbols(pattern))))
    ensures Units(Translate(pattern)) != [] ==> Units(Translate(pattern))[0] != STAR
  {
    if pattern == "" {
      assert Translate(pattern) == "";
    } else {
      var c, rest := pattern[0], pattern[1..];
      assert c in pattern && forall d | d in rest :: d in pattern;
      PlainParses(rest);
      var t, p := Units(Translate(rest)), UnitSymbols(Symbols(rest));
      UnitsOfTranslation(pattern);
      TranslateCharUnits(c);
      SymbolsCons(pattern);
      hide *;
      if c == '_' {
        NotSpecialDot();
        ParseOne(DOT, t);
        PiecesCons(Single, p);
      } else if c == '%' {
        ParseAny(t);
        PiecesCons(Any, p);
      } else {
        PlainCharParses(c, t, p);
      }
    }
  }

  lemma NotSpecialDot()
    ensures !SpecialUnit(DOT)
  {
  }

  lemma TranslateCharUnits(c: char)
    ensures Units(TranslateChar(c)) == if c == '_' then [DOT] else if c == '%' then [DOT, STAR] else Encode(c)
  {
    CharUnits();
  }

  lemma PiecesCons(x: Symbol<Unit>, p: seq<Symbol<Unit>>)
    ensures PiecesOf([x] + p) ==
            [match x case Literal(u) => One(Char(u)) case Single => One(AnyUnit) case Any => Star(AnyUnit)]
            + PiecesOf(p)
  {
    assert ([x] + p)[1..] == p;
  }

  lemma SymbolsCons(pattern: string)
    requires pattern != ""
    ensures UnitSymbols(Symbols(pattern)) ==
            (if pattern[0] == '_' then [Single] else if pattern[0] == '%' then [Any] else Literals(Encode(pattern[0])))
            + UnitSymbols(Symbols(pattern[1..]))
  {
    hide Literals, Encode;
    assert Symbols(pattern)[1..] == Symbols(pattern[1..]);
  }

  lemma {:induction false} PiecesMeanLike(p: seq<Symbol<Unit>>, s: seq<Unit>)
    ensures Matches(PiecesOf(p), s) <==> LikeExcept(p, s, LINE_UNITS)
    decreases |p|, |s|
  {
    if p != [] {
      var pieces := PiecesOf(p);
      assert pieces[1..] == PiecesOf(p[1..]);
      PiecesMeanLike(p[1..], s);
      if s != [] {
        PiecesMeanLike(p[1..], s[1..]);
        PiecesMeanLike(p, s[1..]);
      }
    }
  }

  /** For plain patterns and any text: LIKE on units, with wildcards that stop at line ends. */
  lemma PlainTestIsUnitLike(re: RegExp, pattern: string, s: string)
    requires Standard(re) && Plain(pattern)
    ensures Test(re, pattern, s) == Some(LikeExcept(UnitSymbols(Symbols(pattern)), Units(s), LINE_UNITS))
  {
    PlainParses(pattern);
    PiecesMeanLike(UnitSymbols(Symbols(pattern)), Units(s));
    assert Reads(re, Translate(pattern), PiecesOf(UnitSymbols(Symbols(pattern))));
  }

  lemma {:induction false} BarredUnused<T>(p: seq<Symbol<T>>, s: seq<T>, barred: set<T>)
    requires forall x | x in s :: x !in barred
    ensures LikeExcept(p, s, barred) <==> LikeExcept(p, s, {})
    decreases |p|, |s|
  {
    if p != [] {
      BarredUnused(p[1..], s, barred);
      if s != [] {
        BarredUnused(p[1..], s[1..], barred);
        BarredUnused(p, s[1..], barred);
      }
    }
  }

  lemma {:induction false} LineUnits(s: string)
    ensures OneLine(s) <==> forall u | u in Units(s) :: u !in LINE_UNITS
  {
    if s != "" {
      LineUnits(s[1..]);
      assert s == [s[0]] + s[1..];
      var us := Encode(s[0]);
      assert us[0] in us && (|us| == 2 ==> us[1] in us);
      assert s[0] in LINE_TERMINATORS <==> exists u | u in us :: u in LINE_UNITS;
    }
  }

  /** On one line the wildcards stand for every unit. */
  lemma OneLineTest(re: RegExp, pattern: string, s: string)
    requires Standard(re) && Plain(pattern) && OneLine(s)
    ensures Test(re, pattern, s) == Some(LikeExcept(UnitSymbols(Symbols(pattern)), Units(s), {}))
  {
    PlainTestIsUnitLike(re, pattern, s);
    LineUnits(s);
    BarredUnused(UnitSymbols(Symbols(pattern)), Units(s), LINE_UNITS);
  }

  // ---------------------------------------------------------------- the expression that is built

  /** The expression is built character by character. */
  lemma {:induction false} TranslateConcat(a: string, b: string)
    ensures Translate(a + b) == Translate(a) + Translate(b)
  {
    if a == "" {
      assert a + b == b;
    } else {
      hide Translate, TranslateChar;
      assert (a + b)[1..] == a[1..] + b;
      TranslateConcat(a[1..], b);
      TranslateStep(a + b);
      TranslateStep(a);
    }
  }

  /** `_` becomes a dot, `%` a starred dot, and any other character stays. */
  lemma TranslateOne(c: char)
    ensures Translate([c]) == if c == '_' then "." else if c == '%' then ".*" else [c]
  {
    TranslateStep([c]);
  }

  /** It is matched against the whole text; where the runtime refuses it the test throws. */
  lemma TestIs(re: RegExp, pattern: string, s: string)
    ensures var source := "^" + Translate(pattern) + "$";
      Test(re, pattern, s) == if re(source).Some? then Some(re(source).value(s)) else None
  {
  }
}
