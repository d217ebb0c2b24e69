/** Two orders on texts: JavaScript's by UTF-16 units, and a binary collation's by characters. */
module TextOrder {
  import opened Utf16

  function CompareUnits(a: seq<Unit>, b: seq<Unit>): int {
    if a == [] && b == [] then 0
    else if a == [] then -1
    else if b == [] then 1
    else if a[0] != b[0] then a[0] - b[0]
    else CompareUnits(a[1..], b[1..])
  }

  /** `a < b` and its kin in JavaScript, by sign. */
  function CompareText(a: string, b: string): int {
    CompareUnits(Units(a), Units(b))
  }

  /** A database's comparison of the encoded bytes, which is that of the characters. */
  function CompareScalars(a: string, b: string): int {
    if a == "" && b == "" then 0
    else if a == "" then -1
    else if b == "" then 1
    else if a[0] != b[0] then a[0] as int - b[0] as int
    else CompareScalars(a[1..], b[1..])
  }

  predicate SameOrder(a: string, b: string) {
    (CompareText(a, b) < 0 <==> CompareScalars(a, b) < 0) && (CompareText(a, b) == 0 <==> CompareScalars(a, b) == 0)
  }

  // ---------------------------------------------------------------- one character

  /** Below the surrogates, encoded by surrogates, above the surrogates: JavaScript's order. */
  function Plane(c: char): nat {
    if Astral(c) then 1 else if c as int < 0xD800 then 0 else 2
  }

  predicate Before(c: char, d: char) {
    Plane(c) < Plane(d) || (Plane(c) == Plane(d) && c < d)
  }

  lemma EncodedOrder(c: char, d: char, x: seq<Unit>, y: seq<Unit>)
    requires c != d
    ensures CompareUnits(Encode(c) + x, Encode(d) + y) != 0
    ensures CompareUnits(Encode(c) + x, Encode(d) + y) < 0 <==> Before(c, d)
  {
    var a, b := Encode(c) + x, Encode(d) + y;
    if a[0] == b[0] {
      assert Astral(c) && Astral(d);
      assert a[1..] == [Encode(c)[1]] + x && b[1..] == [Encode(d)[1]] + y;
      if Encode(c)[1] == Encode(d)[1] {
        assert Encode(c) == Encode(d);
        EncodeInjective(c, d);
      }
    }
  }

  lemma {:induction false} CommonStart(p: seq<Unit>, a: seq<Unit>, b: seq<Unit>)
    ensures CompareUnits(p + a, p + b) == CompareUnits(a, b)
  {
    if p == [] {
      assert p + a == a && p + b == b;
    } else {
      assert (p + a)[1..] == p[1..] + a && (p + b)[1..] == p[1..] + b;
      CommonStart(p[1..], a, b);
    }
  }

  /** The first characters decide, unless they are equal. */
  lemma FirstDecides(a: string, b: string)
    requires a != "" && b != ""
    ensures a[0] == b[0] ==> CompareText(a, b) == CompareText(a[1..], b[1..])
    ensures a[0] != b[0] ==> CompareText(a, b) != 0 && (CompareText(a, b) < 0 <==> Before(a[0], b[0]))
  {
    if a[0] == b[0] {
      CommonStart(Encode(a[0]), Units(a[1..]), Units(b[1..]));
    } else {
      EncodedOrder(a[0], b[0], Units(a[1..]), Units(b[1..]));
    }
  }

  lemma EmptyFirst(a: string)
    ensures CompareText("", a) == if a == "" then 0 else -1
    ensures CompareText(a, "") == if a == "" then 0 else 1
  {
    UnitsCount(a);
  }

  lemma {:induction false} TextOpposite(a: string, b: string)
    ensures (CompareText(a, b) < 0 <==> CompareText(b, a) > 0) && (CompareText(a, b) > 0 <==> CompareText(b, a) < 0)
    ensures CompareText(a, b) == 0 <==> a == b
    decreases |a|
  {
    hide CompareText;
    EmptyFirst(a);
    EmptyFirst(b);
    if a != "" && b != "" {
      FirstDecides(a, b);
      FirstDecides(b, a);
      if a[0] == b[0] {
        TextOpposite(a[1..], b[1..]);
        assert a == [a[0]] + a[1..] && b == [b[0]] + b[1..];
      }
    }
  }

  lemma {:induction false} ScalarsOpposite(a: string, b: string)
    ensures CompareScalars(a, b) == -CompareScalars(b, a) && (CompareScalars(a, b) == 0 <==> a == b)
  {
    if a != "" && b != "" && a[0] == b[0] {
      ScalarsOpposite(a[1..], b[1..]);
      assert a == [a[0]] + a[1..] && b == [b[0]] + b[1..];
    }
  }

  // ---------------------------------------------------------------- where the orders part

  /** The texts part at place `i`: a character of two units on one side, one above the surrogates on the other. */
  predicate SwappedAt(a: string, b: string, i: nat)
    requires i < |a| && i < |b|
  {
    a[..i] == b[..i] && {Plane(a[i]), Plane(b[i])} == {1, 2}
  }

  /** The two orders disagree on two texts exactly when such characters are the first to differ. */
  lemma {:induction false} SameOrderIff(a: string, b: string)
    ensures SameOrder(a, b) <==> forall i | 0 <= i < |a| && i < |b| :: !SwappedAt(a, b, i)
  {
    hide CompareText;
    EmptyFirst(a);
    EmptyFirst(b);
    if a != "" && b != "" {
      FirstDecides(a, b);
      if a[0] == b[0] {
        SameOrderIff(a[1..], b[1..]);
        SwappedLater(a, b);
      } else {
        assert SwappedAt(a, b, 0) <==> {Plane(a[0]), Plane(b[0])} == {1, 2};
        assert {Plane(a[0]), Plane(b[0])} == {1, 2} <==> (Before(a[0], b[0]) <==> a[0] > b[0]);
        forall i | 0 < i < |a| && i < |b| ensures !SwappedAt(a, b, i) {
          assert a[..i][0] != b[..i][0];
        }
      }
    }
  }

  lemma SwappedLater(a: string, b: string)
    requires a != "" && b != "" && a[0] == b[0]
    ensures !SwappedAt(a, b, 0)
    ensures forall i | 0 < i < |a| && i < |b| :: SwappedAt(a, b, i) <==> SwappedAt(a[1..], b[1..], i - 1)
    ensures (exists i | 0 <= i < |a| && i < |b| :: SwappedAt(a, b, i)) <==>
            exists i | 0 <= i < |a[1..]| && i < |b[1..]| :: SwappedAt(a[1..], b[1..], i)
  {
    forall i | 0 < i < |a| && i < |b| ensures SwappedAt(a, b, i) <==> SwappedAt(a[1..], b[1..], i - 1) {
      assert a[..i] == [a[0]] + a[1..][..i - 1] && b[..i] == [b[0]] + b[1..][..i - 1];
      assert a[..i] == b[..i] <==> a[1..][..i - 1] == b[1..][..i - 1] by {
        assert a[..i][1..] == a[1..][..i - 1] && b[..i][1..] == b[1..][..i - 1];
      }
    }
    hide SwappedAt;
    if i :| 0 <= i < |a[1..]| && i < |b[1..]| && SwappedAt(a[1..], b[1..], i) {
      var j := i + 1;
      assert SwappedAt(a, b, j);
    }
  }

  /** A character above the surrogates and one of two units. */
  const OUTSIDERS: set<char> := {'\U{E000}', '\U{10000}'}

  predicate AllLow(s: string) {
    forall c | c in s :: c as int < 0xD800
  }

  /** A text the two orders place differently, for a bound with a character above the surrogates or of two units. */
  lemma Misplaced(v: string) returns (s: string)
    requires !AllLow(v)
    ensures !SameOrder(s, v)
    ensures forall c | c in s :: c in v || c in OUTSIDERS
  {
    var i :| 0 <= i < |v| && v[i] as int >= 0xD800;
    s := v[..i] + [if Astral(v[i]) then '\U{E000}' else '\U{10000}'];
    assert s[..i] == v[..i];
    assert SwappedAt(s, v, i);
    SameOrderIff(s, v);
  }

  /** A bound is placed alike among all texts exactly when all its characters are below the surrogates. */
  lemma SameOrderEverywhereIff(v: string)
    ensures (forall s :: SameOrder(s, v)) <==> AllLow(v)
  {
    if AllLow(v) {
      forall s ensures SameOrder(s, v) {
        forall i | 0 <= i < |s| && i < |v| ensures !SwappedAt(s, v, i) {
          assert v[i] in v;
        }
        SameOrderIff(s, v);
      }
    } else {
      var s := Misplaced(v);
    }
  }

  // ---------------------------------------------------------------- ranges

  predicate InTextRange(lower: string, upper: string, s: string) {
    CompareText(s, lower) >= 0 && CompareText(s, upper) <= 0
  }

  predicate InScalarRange(lower: string, upper: string, s: string) {
    CompareScalars(s, lower) >= 0 && CompareScalars(s, upper) <= 0
  }

  /** What a range must be like for the two orders to put the same texts in it. */
  predicate SameRange(lower: string, upper: string) {
    if lower == "" then AllLow(upper)
    else if upper == "" then true
    else if lower[0] == upper[0] then SameRange(lower[1..], upper[1..])
    else if lower[0] > upper[0] then !Before(lower[0], upper[0])
    else Plane(lower[0]) == Plane(upper[0]) && AllLow(lower[1..]) && AllLow(upper[1..])
  }

  /** How a text lies to a bound, from the first characters on. */
  lemma Placed(s: string, v: string)
    requires v != ""
    ensures s == "" ==> CompareText(s, v) < 0 && CompareScalars(s, v) < 0
    ensures s != "" && s[0] != v[0] ==>
              (CompareText(s, v) < 0 <==> Before(s[0], v[0])) && (CompareText(s, v) > 0 <==> Before(v[0], s[0]))
    ensures s != "" && s[0] != v[0] ==>
              (CompareScalars(s, v) < 0 <==> s[0] < v[0]) && (CompareScalars(s, v) > 0 <==> v[0] < s[0])
    ensures s != "" && s[0] == v[0] ==> CompareText(s, v) == CompareText(s[1..], v[1..])
    ensures s != "" && s[0] == v[0] ==> CompareScalars(s, v) == CompareScalars(s[1..], v[1..])
  {
    if s == "" { EmptyFirst(v); } else { FirstDecides(s, v); }
  }

  lemma InPlane(lower: string, upper: string, s: string)
    requires lower != "" && upper != "" && lower[0] < upper[0] && Plane(lower[0]) == Plane(upper[0])
    ensures InTextRange(lower, upper, s) == InScalarRange(lower, upper, s) <==>
              && (s != "" && s[0] == lower[0] ==> SameOrder(s[1..], lower[1..]))
              && (s != "" && s[0] == upper[0] ==> SameOrder(s[1..], upper[1..]))
  {
    hide CompareText;
    Placed(s, lower);
    Placed(s, upper);
    if s != "" && s[0] == lower[0] {
      TextOpposite(s[1..], lower[1..]);
      ScalarsOpposite(s[1..], lower[1..]);
    }
    if s != "" && s[0] == upper[0] {
      TextOpposite(s[1..], upper[1..]);
      ScalarsOpposite(s[1..], upper[1..]);
    }
  }

  lemma {:induction false} SameRangeAgrees(lower: string, upper: string, s: string)
    requires SameRange(lower, upper)
    ensures InTextRange(lower, upper, s) <==> InScalarRange(lower, upper, s)
    decreases |lower|
  {
    hide CompareText, AllLow, SameOrder;
    if lower == "" {
      SameOrderEverywhereIff(upper);
      FromStart(upper, s);
    } else if upper == "" {
      Placed(s, lower);
      EmptyFirst(s);
    } else {
      Placed(s, lower);
      Placed(s, upper);
      if lower[0] == upper[0] {
        if s != "" && s[0] == lower[0] { SameRangeAgrees(lower[1..], upper[1..], s[1..]); }
      } else if lower[0] < upper[0] {
        SameOrderEverywhereIff(lower[1..]);
        SameOrderEverywhereIff(upper[1..]);
        InPlane(lower, upper, s);
      }
    }
  }

  lemma FromStart(upper: string, s: string)
    ensures (InTextRange("", upper, s) <==> InScalarRange("", upper, s)) <==> SameOrder(s, upper)
  {
    hide CompareText;
    EmptyFirst(s);
    TextOpposite(s, upper);
    ScalarsOpposite(s, upper);
  }

  /** A text of the bounds' own characters and two others that one order puts in the range and the other does not. */
  lemma {:induction false} Divided(lower: string, upper: string) returns (s: string)
    requires !SameRange(lower, upper)
    ensures InTextRange(lower, upper, s) != InScalarRange(lower, upper, s)
    ensures forall c | c in s :: c in lower || c in upper || c in OUTSIDERS
    decreases |lower|
  {
    hide CompareText, AllLow, SameOrder;
    if lower == "" {
      s := Misplaced(upper);
      FromStart(upper, s);
    } else if lower[0] == upper[0] {
      var t := Divided(lower[1..], upper[1..]);
      s := [lower[0]] + t;
      assert s[1..] == t;
      Placed(s, lower);
      Placed(s, upper);
    } else {
      s := DividedAtOnce(lower, upper);
    }
  }

  lemma DividedAtOnce(lower: string, upper: string) returns (s: string)
    requires lower != "" && upper != "" && lower[0] != upper[0] && !SameRange(lower, upper)
    ensures InTextRange(lower, upper, s) != InScalarRange(lower, upper, s)
    ensures forall c | c in s :: c in lower || c in upper || c in OUTSIDERS
  {
    hide CompareText, AllLow, SameOrder;
    var x, y := lower[0], upper[0];
    if (x < y) != Before(x, y) {
      s := lower;
      Placed(lower, upper);
      TextOpposite(lower, lower);
      ScalarsOpposite(lower, lower);
    } else if Plane(x) != Plane(y) {
      s := [if Astral(y) then '\U{E000}' else '\U{10000}'];
      Placed(s, lower);
      Placed(s, upper);
    } else {
      s := DividedInPlane(lower, upper);
    }
  }

  lemma DividedInPlane(lower: string, upper: string) returns (s: string)
    requires lower != "" && upper != "" && lower[0] < upper[0] && Plane(lower[0]) == Plane(upper[0])
    requires !AllLow(lower[1..]) || !AllLow(upper[1..])
    ensures InTextRange(lower, upper, s) != InScalarRange(lower, upper, s)
    ensures forall c | c in s :: c in lower || c in upper || c in OUTSIDERS
  {
    hide *;
    var bound := if !AllLow(lower[1..]) then lower else upper;
    var t := Misplaced(bound[1..]);
    s := [bound[0]] + t;
    assert s[1..] == t;
    InPlane(lower, upper, s);
  }

  /** Two bounds have the same texts between them in both orders exactly under that condition. */
  lemma SameRangeIff(lower: string, upper: string)
    ensures (forall s :: InTextRange(lower, upper, s) <==> InScalarRange(lower, upper, s)) <==> SameRange(lower, upper)
  {
    hide InTextRange, InScalarRange, SameRange;
    if SameRange(lower, upper) {
      forall s ensures InTextRange(lower, upper, s) <==> InScalarRange(lower, upper, s) {
        SameRangeAgrees(lower, upper, s);
      }
    } else {
      var s := Divided(lower, upper);
    }
  }

  /** U+1F600 lies above U+FF5E by characters and below it by units. */
  lemma OrdersPart()
    ensures CompareText("\U{1F600}", "\U{FF5E}") < 0 < CompareScalars("\U{1F600}", "\U{FF5E}")
  {
    FirstDecides("\U{1F600}", "\U{FF5E}");
  }
}
