/** JavaScript's view of a text: its UTF-16 code units. */
module Utf16 {

  type Unit = x: nat | x < 0x1_0000

  /** A character outside the basic multilingual plane is a high and a low surrogate. */
  predicate Astral(c: char) {
    c as int >= 0x1_0000
  }

  predicate High(u: Unit) {
    0xD800 <= u < 0xDC00
  }

  predicate Low(u: Unit) {
    0xDC00 <= u < 0xE000
  }

  function Encode(c: char): (r: seq<Unit>)
    ensures |r| == if Astral(c) then 2 else 1
    ensures !Astral(c) ==> r[0] == c as int && !High(r[0]) && !Low(r[0])
    ensures Astral(c) ==> High(r[0]) && Low(r[1])
  {
    if Astral(c) then
      var v := c as int - 0x1_0000;
      [0xD800 + v / 0x400, 0xDC00 + v % 0x400]
    else [c as int]
  }

  function Units(s: string): seq<Unit> {
    if s == "" then [] else Encode(s[0]) + Units(s[1..])
  }

  lemma {:induction false} UnitsConcat(a: string, b: string)
    ensures Units(a + b) == Units(a) + Units(b)
  {
    if a == "" {
      assert a + b == b;
    } else {
      assert (a + b)[1..] == a[1..] + b;
      UnitsConcat(a[1..], b);
    }
  }

  lemma EncodeInjective(c: char, d: char)
    requires Encode(c) == Encode(d)
    ensures c == d
  {
    if Astral(c) {
      var v, w := c as int - 0x1_0000, d as int - 0x1_0000;
      assert 0xD800 + v / 0x400 == 0xD800 + w / 0x400 && 0xDC00 + v % 0x400 == 0xDC00 + w % 0x400;
      assert v == (v / 0x400) * 0x400 + v % 0x400 == w;
    }
    assert c as int == d as int;
  }

  lemma UnitsStep(s: string)
    requires s != ""
    ensures var n := |Encode(s[0])|;
      && |Units(s)| == n + |Units(s[1..])| && Units(s)[..n] == Encode(s[0]) && Units(s)[n..] == Units(s[1..])
      && (forall m | n <= m < |Units(s)| :: Units(s)[m] == Units(s[1..])[m - n])
      && (n == 2 ==> Low(Units(s)[1]))
  {
    hide Encode, Low;
    assert Units(s) == Encode(s[0]) + Units(s[1..]);
  }

  /** A place in the units that is no low surrogate lies between two characters. */
  lemma {:induction false} Between(s: string, m: nat) returns (k: nat)
    requires m <= |Units(s)| && (m < |Units(s)| ==> !Low(Units(s)[m]))
    ensures k <= |s| && m == |Units(s[..k])| && Units(s)[m..] == Units(s[k..])
    decreases |s|
  {
    if m == 0 {
      k := 0;
      assert s[..0] == "" && s[0..] == s;
    } else {
      var n := |Encode(s[0])|;
      UnitsStep(s);
      hide Low, Encode;
      var j := Between(s[1..], m - n);
      k := j + 1;
      UnitsStep(s[..k]);
      hide Units;
      assert s[..k][1..] == s[1..][..j] && s[k..] == s[1..][j..];
      assert Units(s)[m..] == Units(s)[n..][m - n..];
    }
  }

  /** The place before the k-th character. */
  lemma Place(s: string, k: nat)
    requires k <= |s|
    ensures |Units(s[..k])| <= |Units(s)|
    ensures Units(s)[|Units(s[..k])|..] == Units(s[k..]) && Units(s)[..|Units(s[..k])|] == Units(s[..k])
  {
    UnitsConcat(s[..k], s[k..]);
    assert s[..k] + s[k..] == s;
  }

  /** A text has at least as many units as characters, and units exactly when it has characters. */
  lemma {:induction false} UnitsCount(s: string)
    ensures |s| <= |Units(s)| <= 2 * |s|
    ensures |Units(s)| == |s| <==> forall c | c in s :: !Astral(c)
  {
    if s != "" {
      UnitsCount(s[1..]);
      assert s == [s[0]] + s[1..];
    }
  }

  /** Well-formed texts are told apart by their units. */
  lemma {:induction false} UnitsInjective(a: string, b: string)
    requires Units(a) == Units(b)
    ensures a == b
    decreases |a|
  {
    UnitsCount(a);
    UnitsCount(b);
    if a != "" {
      assert Units(a)[0] == Encode(a[0])[0] && Units(b)[0] == Encode(b[0])[0];
      var n := |Encode(a[0])|;
      assert |Encode(b[0])| == n;
      assert Units(a)[..n] == Encode(a[0]) && Units(b)[..n] == Encode(b[0]);
      assert Units(a)[n..] == Units(a[1..]) && Units(b)[n..] == Units(b[1..]);
      EncodeInjective(a[0], b[0]);
      UnitsInjective(a[1..], b[1..]);
    }
  }
}
