/** How filter items and orders read cells of every kind: dates, lists, `null` and absent ones. */
module CellTests {
  import opened Results
  import opened Strings
  import opened JsonQuery
  import LikePattern

  // ---------------------------------------------------------------- numbers

  /** A number as it is written. */
  function Decimal(n: nat): string {
    (if n < 10 then "" else Decimal(n / 10)) + [('0' as int + n % 10) as char]
  }

  predicate Numeral(s: string) {
    forall c | c in s :: '0' <= c <= '9'
  }

  lemma {:induction false} DigitsSnoc(s: string, d: char, acc: nat)
    requires '0' <= d <= '9' && Digits(s, acc).Some?
    ensures Digits(s + [d], acc) == Some(10 * Digits(s, acc).value + (d as int - '0' as int))
  {
    if s == "" {
      assert s + [d] == [d] && [d][1..] == "";
    } else {
      assert (s + [d])[1..] == s[1..] + [d];
      DigitsSnoc(s[1..], d, 10 * acc + (s[0] as int - '0' as int));
    }
  }

  lemma {:induction false} DecimalRead(n: nat)
    ensures Digits(Decimal(n), 0) == Some(n) && Decimal(n) != "" && Numeral(Decimal(n))
  {
    var d := ('0' as int + n % 10) as char;
    if n >= 10 {
      DecimalRead(n / 10);
      DigitsSnoc(Decimal(n / 10), d, 0);
    } else {
      assert "" + [d] == [d] && [d][1..] == "";
    }
  }

  lemma {:induction false} DigitsNone(s: string, acc: nat)
    ensures Digits(s, acc).Some? <==> Numeral(s)
  {
    if s != "" {
      assert s[0] in s && forall c | c in s[1..] :: c in s;
      DigitsNone(s[1..], 10 * acc + if '0' <= s[0] <= '9' then s[0] as int - '0' as int else 0);
      assert s == [s[0]] + s[1..];
    }
  }

  /** Written numbers are read back, with a sign too; the empty text is 0, and any other text is no number. */
  lemma NumberRoundTrip(n: nat, s: string)
    ensures NumberOf(Decimal(n)) == Some(n) && NumberOf("-" + Decimal(n)) == Some(0 - n as int)
    ensures NumberOf("") == Some(0)
    ensures NumberOf(s).Some? <==> Numeral(s) || (|s| > 1 && s[0] == '-' && Numeral(s[1..]))
  {
    DecimalRead(n);
    var t := Decimal(n);
    assert t[0] in t && t[0] != '-';
    assert ("-" + t)[1..] == t;
    DigitsNone(s, 0);
    if |s| > 1 {
      DigitsNone(s[1..], 0);
      assert s[0] in s;
    }
  }

  // ---------------------------------------------------------------- lists as joined texts

  lemma {:induction false} JoinConcat(a: seq<string>, b: seq<string>)
    requires a != [] && b != []
    ensures Join(a + b) == Join(a) + "," + Join(b)
  {
    if |a| == 1 {
      assert a + b == [a[0]] + b && (a + b)[1..] == b;
    } else {
      assert (a + b)[1..] == a[1..] + b;
      JoinConcat(a[1..], b);
      assert Join(a + b) == a[0] + "," + (Join(a[1..]) + "," + Join(b));
      assert a[0] + "," + (Join(a[1..]) + "," + Join(b)) == (a[0] + "," + Join(a[1..])) + "," + Join(b);
    }
  }

  lemma JoinFew(s: string)
    ensures Join([]) == "" && Join([s]) == s
  {
  }

  lemma IncludesLater(a: string, b: string, part: string)
    requires Includes(b, part)
    ensures Includes(a + b, part)
  {
    var i :| 0 <= i <= |b| && part <= b[i..];
    var j := |a| + i;
    assert (a + b)[j..] == b[i..];
  }

  lemma IncludesEarlier(a: string, b: string, part: string)
    requires Includes(a, part)
    ensures Includes(a + b, part)
  {
    var i :| 0 <= i <= |a| && part <= a[i..];
    assert (a + b)[i..] == a[i..] + b;
  }

  lemma IncludesBesideComma(a: string, b: string, part: string)
    requires ',' !in part && Includes(a + "," + b, part)
    ensures Includes(a, part) || Includes(b, part)
  {
    var all := a + "," + b;
    var i :| 0 <= i <= |all| && part <= all[i..];
    assert all[|a|] == ',' && forall k | 0 <= k < |part| :: part[k] == all[i..][k] == all[i + k] && part[k] in part;
    if i <= |a| {
      assert i + |part| <= |a|;
      assert part <= a[i..];
    } else {
      var j := i - |a| - 1;
      assert all[i..] == b[j..];
    }
  }

  /** A text without commas is part of a joined list exactly when it is part of an element. */
  lemma {:induction false} JoinedIncludes(items: seq<string>, part: string)
    requires part != "" && ',' !in part
    ensures Includes(Join(items), part) <==> exists item | item in items :: Includes(item, part)
  {
    hide Includes;
    if items == [] {
      EmptyIncludes(part);
    } else if |items| == 1 {
      assert items == [items[0]];
    } else {
      var rest := items[1..];
      JoinedIncludes(rest, part);
      assert items == [items[0]] + rest;
      if Includes(Join(items), part) { IncludesBesideComma(items[0], Join(rest), part); }
      if Includes(items[0], part) {
        IncludesEarlier(items[0], "," + Join(rest), part);
        assert Join(items) == items[0] + ("," + Join(rest));
      }
      if Includes(Join(rest), part) { IncludesLater(items[0] + ",", Join(rest), part); }
    }
  }

  lemma EmptyIncludes(part: string)
    requires part != ""
    ensures !Includes("", part)
  {
  }

  // ---------------------------------------------------------------- items

  predicate OneValue(item: Where, v: string) {
    item.value == Some([v])
  }

  /** Equality, on a text, and on a list, where it asks for a part of an element. */
  lemma EqualMeans(re: RegExp, item: Where, cell: Option<Value>, v: string)
    requires item.op == Equal && OneValue(item, v)
    ensures ItemError(re, item).None?
    ensures cell.Some? && cell.value.Str? ==> (Holds(re, cell, item) <==> cell.value.s == v)
    ensures cell.Some? && cell.value.List? && v != "" && ',' !in v ==>
      (Holds(re, cell, item) <==> exists element | element in cell.value.items :: Includes(element, v))
    ensures cell.None? || cell.value.Null? || cell.value.Time? ==> !Holds(re, cell, item)
  {
    if cell.Some? && cell.value.List? && v != "" && ',' !in v {
      JoinedIncludes(cell.value.items, v);
    }
  }

  /** `Any`, `In` and operators that are not known: a text among the values; on a list, an element or part of one. */
  lemma AnyMeans(re: RegExp, item: Where, cell: Option<Value>, values: seq<string>)
    requires item.op in {Any, In, NoOp} && item.value == Some(values)
    ensures ItemError(re, item).None?
    ensures cell.Some? && cell.value.Str? ==> (Holds(re, cell, item) <==> cell.value.s in values)
    ensures cell.Some? && cell.value.List? && (exists v | v in values :: v in cell.value.items) ==>
      Holds(re, cell, item)
    ensures cell.Some? && cell.value.List? && |values| == 1 && values[0] != "" && ',' !in values[0] ==>
      (Holds(re, cell, item) <==> exists element | element in cell.value.items :: Includes(element, values[0]))
    ensures cell.None? || cell.value.Null? || cell.value.Time? ==> !Holds(re, cell, item)
  {
    if cell.Some? && cell.value.List? && |values| == 1 && values[0] != "" && ',' !in values[0] {
      JoinedIncludes(cell.value.items, values[0]);
      assert Join(values) == values[0];
      if v :| v in values && v in cell.value.items {
        assert v <= v[0..];
        assert Includes(v, values[0]);
      }
    }
  }

  lemma IsNullMeans(re: RegExp, item: Where, cell: Option<Value>)
    requires item.op == IsNull
    ensures ItemError(re, item).None?
    ensures Holds(re, cell, item) <==> cell == None || cell == Some(Null)
  {
  }

  /** How a number compares with a bound: as the operator says. */
  predicate NumberTest(op: Op, n: int, bound: int) {
    match op
    case LessThan => n < bound
    case LessThanOrEqual => n <= bound
    case MoreThan => n > bound
    case MoreThanOrEqual => n >= bound
    case _ => false
  }

  /**
    Bounds on cells that are not texts: a valid date is compared as its time and `null` as 0, with the number that the
    bound is; an invalid date, an absent cell and a bound that is no number pass no comparison.
   */
  lemma BoundMeans(re: RegExp, item: Where, cell: Option<Value>, v: string)
    requires item.op in {LessThan, LessThanOrEqual, MoreThan, MoreThanOrEqual} && OneValue(item, v)
    requires cell.None? || cell.value.Null? || cell.value.Time?
    ensures ItemError(re, item).None?
    ensures Holds(re, cell, item) <==>
      && cell.Some? && (cell.value.Time? ==> cell.value.ms.Some?) && NumberOf(v).Some?
      && NumberTest(item.op, if cell.value.Null? then 0 else cell.value.ms.value, NumberOf(v).value)
  {
  }

  /** A range is both bounds, on every cell. */
  lemma BetweenMeans(re: RegExp, item: Where, cell: Option<Value>, lower: string, upper: string)
    requires item.op == Between && item.value == Some([lower, upper])
    ensures ItemError(re, item).None?
    ensures Holds(re, cell, item) <==>
      && Holds(re, cell, item.(op := MoreThanOrEqual, value := Some([lower])))
      && Holds(re, cell, item.(op := LessThanOrEqual, value := Some([upper])))
  {
  }

  /** A list is compared and matched as its joined text. */
  lemma ListMeans(re: RegExp, item: Where, items: seq<string>)
    requires ItemError(re, item).None?
    requires item.op in {Between, LessThan, LessThanOrEqual, MoreThan, MoreThanOrEqual, Like}
    ensures Holds(re, Some(List(items)), item) <==> Holds(re, Some(Str(Join(items))), item)
  {
  }

  /** What a pattern is matched against: the cell's text, with words for what is missing. */
  lemma LikeMeans(re: RegExp, item: Where, cell: Option<Value>, v: string)
    requires item.op == Like && OneValue(item, v) && LikePattern.Compiles(re, v)
    ensures ItemError(re, item).None?
    ensures var text :=
        if cell == None then "undefined" else if cell == Some(Null) then "null"
        else if cell.value.Str? then cell.value.s
        else if cell.value.Time? then cell.value.text else Join(cell.value.items);
      Holds(re, cell, item) <==> LikePattern.Test(re, v, text) == Some(true)
  {
  }

  /** Which items throw on every row. */
  lemma ThrowsExactly(re: RegExp, item: Where)
    ensures ItemError(re, item) == Some(BadValue) <==>
      || (item.op == Between && (item.value.None? || |item.value.value| != 2))
      || (item.op in {In, Any, NoOp} && item.value.None?)
      || (item.op in {Equal, LessThan, LessThanOrEqual, MoreThan, MoreThanOrEqual, Like}
          && (item.value.None? || |item.value.value| != 1))
    ensures ItemError(re, item) == Some(BadPattern) <==>
      item.op == Like && item.value.Some? && |item.value.value| == 1 && !LikePattern.Compiles(re, item.value.value[0])
  {
  }

  lemma {:induction false} FirstErrorIs(re: RegExp, filters: seq<Where>) returns (i: nat)
    requires FirstError(re, filters).Some?
    ensures i < |filters| && ItemError(re, filters[i]) == FirstError(re, filters)
    ensures forall j | 0 <= j < i :: ItemError(re, filters[j]).None?
  {
    hide ItemError;
    if ItemError(re, filters[0]).Some? {
      i := 0;
    } else {
      i := FirstErrorIs(re, filters[1..]);
      assert forall j | 0 < j <= i :: filters[j] == filters[1..][j - 1];
      i := i + 1;
    }
  }

  /** A query throws exactly when an item does and there is a row to notice it on: the error of the first such item. */
  lemma QueryThrows<T>(get: Getter<T>, re: RegExp, collate: Collation, rows: seq<T>, args: FindArgs,
                       columns: seq<string>, did: string)
    ensures var r := Query(get, re, collate, rows, args, columns, did);
      && (r.Err? <==> rows != [] && exists i | 0 <= i < |args.filters| :: ItemError(re, args.filters[i]).Some?)
      && (r.Err? ==> exists i | 0 <= i < |args.filters| ::
            ItemError(re, args.filters[i]) == Some(r.error)
            && forall j | 0 <= j < i :: ItemError(re, args.filters[j]).None?)
  {
    hide ItemError, FirstError, Selected, StableSort, CompareRows, Window;
    NoFirstError(re, args.filters);
    if FirstError(re, args.filters).Some? {
      var i := FirstErrorIs(re, args.filters);
    }
  }

  // ---------------------------------------------------------------- orders

  /** Lists are ordered as the numbers their joined texts are; any of them that is no number ties with everything. */
  lemma ListOrder(collate: Collation, a: seq<string>, b: Option<Value>, m: nat, n: nat)
    ensures CompareCells(collate, Some(List([Decimal(m)])), Some(List([Decimal(n)]))) == m - n
    ensures CompareCells(collate, Some(List([Decimal(m)])), Some(Null)) == m
    ensures CompareCells(collate, Some(List([])), Some(List([Decimal(n)]))) == 0 - n as int
    ensures |a| > 1 ==> CompareCells(collate, Some(List(a)), b) == 0
  {
    NumberRoundTrip(m, "");
    NumberRoundTrip(n, "");
    if |a| > 1 {
      JoinConcat([a[0]], a[1..]);
      assert a == [a[0]] + a[1..];
      var t := Join(a);
      assert t == a[0] + "," + Join(a[1..]);
      var at := |a[0]|;
      assert t[at] == ',' && t[at] in t;
      assert at > 0 ==> t[1..][at - 1] == ',' && t[1..][at - 1] in t[1..];
      NumberRoundTrip(0, t);
    }
  }
}
