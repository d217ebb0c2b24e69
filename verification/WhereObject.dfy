/** The SQL store's compilation of the same query language (packages/data-store/src/data-store-orm.ts). */
module WhereObject {
  import opened Results
  import LikeMeaning
  import LikePattern
  import opened JsonQuery
  import opened TextOrder

  /** A TypeORM find operator, as a condition on one column. */
  datatype FindOperator =
    | AnyOf(values: seq<string>)
    | BetweenValues(lower: string, upper: string)
    | EqualTo(v: string)
    | NullValue
    | Below(v: string)
    | AtMost(v: string)
    | LikeValue(v: string)
    | Above(v: string)
    | AtLeast(v: string)
    | OneOf(values: seq<string>)
    | Not(operand: FindOperator)

  /** The operator an item compiles to, or the error it throws. */
  function Operator(item: Where): Result<FindOperator, QueryError> {
    match item.op
    case Any => if item.value.None? then Err(BadValue) else Ok(AnyOf(item.value.value))
    case Between =>
      if item.value.None? || |item.value.value| != 2 then Err(BadValue)
      else Ok(BetweenValues(item.value.value[0], item.value.value[1]))
    case IsNull => Ok(NullValue)
    case In => if item.value.None? then Err(BadValue) else Ok(OneOf(item.value.value))
    case NoOp => if item.value.None? then Err(BadValue) else Ok(OneOf(item.value.value))
    case _ =>
      if item.value.None? || |item.value.value| != 1 then Err(BadValue)
      else
        var v := item.value.value[0];
        Ok(match item.op
           case Equal => EqualTo(v)
           case LessThan => Below(v)
           case LessThanOrEqual => AtMost(v)
           case Like => LikeValue(v)
           case MoreThan => Above(v)
           case _ => AtLeast(v))
  }

  function Signed(item: Where, operator: FindOperator): FindOperator {
    if item.negated then Not(operator) else operator
  }

  /** One condition per column: a later item for a column replaces an earlier one. */
  function Compiled(filters: seq<Where>): Result<map<string, FindOperator>, QueryError> {
    if filters == [] then Ok(map[])
    else
      var conditions :- Compiled(filters[..|filters| - 1]);
      var item := filters[|filters| - 1];
      if item.column == "verifier" then Ok(conditions)
      else
        var operator :- Operator(item);
        Ok(conditions[item.column := Signed(item, operator)])
  }

  method CreateWhereObject(filters: seq<Where>) returns (r: Result<map<string, FindOperator>, QueryError>)
    ensures r == Compiled(filters)
  {
    var conditions: map<string, FindOperator> := map[];
    for i := 0 to |filters|
      invariant Compiled(filters[..i]) == Ok(conditions)
    {
      var item := filters[i];
      assert filters[..i + 1][..i] == filters[..i];
      if item.column != "verifier" {
        var operator := Operator(item);
        if operator.Err? {
          CompiledStops(filters, i + 1);
          return Err(operator.error);
        }
        ghost var before := conditions;
        conditions := conditions[item.column := operator.value];
        if item.negated {
          conditions := conditions[item.column := Not(conditions[item.column])];
        }
        assert conditions == before[item.column := Signed(item, operator.value)];
      }
    }
    assert filters[..|filters|] == filters;
    return Ok(conditions);
  }

  lemma {:induction false} CompiledStops(filters: seq<Where>, n: nat)
    requires n <= |filters| && Compiled(filters[..n]).Err?
    ensures Compiled(filters) == Compiled(filters[..n])
  {
    if n < |filters| {
      assert filters[..|filters| - 1][..n] == filters[..n];
      CompiledStops(filters[..|filters| - 1], n);
    } else {
      assert filters[..n] == filters;
    }
  }

  // ---------------------------------------------------------------- what a where-object accepts

  /** A database's reading of an operator on a non-null text column with binary collation, by characters. */
  predicate Selects(operator: FindOperator, s: string) {
    match operator
    case AnyOf(values) => s in values
    case OneOf(values) => s in values
    case BetweenValues(lower, upper) => InScalarRange(lower, upper, s)
    case EqualTo(v) => s == v
    case NullValue => false
    case Below(v) => CompareScalars(s, v) < 0
    case AtMost(v) => CompareScalars(s, v) <= 0
    case Above(v) => CompareScalars(s, v) > 0
    case AtLeast(v) => CompareScalars(s, v) >= 0
    case LikeValue(v) => LikePattern.Like(v, s)
    case Not(operand) => !Selects(operand, s)
  }

  predicate TextColumn<T>(get: Getter<T>, target: T, column: string) {
    get(target, column).Some? && get(target, column).value.Str?
  }

  predicate SelectsRow<T>(get: Getter<T>, target: T, conditions: map<string, FindOperator>) {
    forall column | column in conditions ::
      TextColumn(get, target, column) && Selects(conditions[column], get(target, column).value.s)
  }

  predicate NoVerifier(filters: seq<Where>) {
    forall item | item in filters :: item.column != "verifier"
  }

  /** Items both stores accept or refuse alike: not about `verifier`, nor with a pattern the regex engine refuses. */
  predicate Comparable(re: RegExp, filters: seq<Where>) {
    NoVerifier(filters) && forall item | item in filters :: Compilable(re, item)
  }

  predicate Compilable(re: RegExp, item: Where) {
    item.op == Like && Operator(item).Ok? ==> LikePattern.Compiles(re, item.value.value[0])
  }

  /** The last item for each column, in order. */
  function LastPerColumn(filters: seq<Where>): seq<Where> {
    if filters == [] then []
    else
      (if exists later | later in filters[1..] :: later.column == filters[0].column then [] else [filters[0]])
      + LastPerColumn(filters[1..])
  }

  predicate IsLast(filters: seq<Where>, i: nat)
    requires i < |filters|
  {
    forall j | i < j < |filters| :: filters[j].column != filters[i].column
  }

  lemma {:induction false} LastPerColumnMembers(filters: seq<Where>)
    ensures forall i | 0 <= i < |filters| && IsLast(filters, i) :: filters[i] in LastPerColumn(filters)
    ensures forall item | item in LastPerColumn(filters) ::
              exists i :: 0 <= i < |filters| && IsLast(filters, i) && filters[i] == item
  {
    if filters != [] {
      var rest := filters[1..];
      LastPerColumnMembers(rest);
      forall i | 0 <= i < |filters| && IsLast(filters, i) ensures filters[i] in LastPerColumn(filters) {
        if i > 0 {
          assert IsLast(rest, i - 1) by {
            forall j | i - 1 < j < |rest| ensures rest[j].column != rest[i - 1].column {
              assert filters[j + 1].column != filters[i].column;
            }
          }
          assert rest[i - 1] in LastPerColumn(rest);
        } else {
          forall later | later in rest ensures later.column != filters[0].column {
            var k :| 0 <= k < |rest| && rest[k] == later;
            assert filters[k + 1].column != filters[0].column;
          }
        }
      }
      forall item | item in LastPerColumn(filters)
        ensures exists i :: 0 <= i < |filters| && IsLast(filters, i) && filters[i] == item
      {
        if item in LastPerColumn(rest) {
          var k :| 0 <= k < |rest| && IsLast(rest, k) && rest[k] == item;
          forall j | k + 1 < j < |filters| ensures filters[j].column != filters[k + 1].column {
            assert rest[j - 1].column != rest[k].column;
          }
          assert IsLast(filters, k + 1) && filters[k + 1] == item;
        } else {
          assert item == filters[0];
          forall j | 0 < j < |filters| ensures filters[j].column != filters[0].column {
            assert rest[j - 1] in rest;
          }
          assert IsLast(filters, 0);
        }
      }
    }
  }

  /** The two stores read a text alike for what the item asks: they order it alike, or match it alike. */
  predicate PlacedAlike(re: RegExp, item: Where, s: string)
    requires Operator(item).Ok?
  {
    match item.op
    case Between =>
      var lower, upper := item.value.value[0], item.value.value[1];
      InTextRange(lower, upper, s) <==> InScalarRange(lower, upper, s)
    case LessThan => SameOrder(s, item.value.value[0])
    case LessThanOrEqual => SameOrder(s, item.value.value[0])
    case MoreThan => SameOrder(s, item.value.value[0])
    case MoreThanOrEqual => SameOrder(s, item.value.value[0])
    case Like => LikePattern.Test(re, item.value.value[0], s) == Some(LikePattern.Like(item.value.value[0], s))
    case _ => true
  }

  /** On a text column an item's operator selects what the JSON store's test passes, where both read the text alike. */
  lemma OperatorMeansTest(re: RegExp, item: Where, s: string)
    requires Compilable(re, item)
    ensures Operator(item).Err? <==> ItemError(re, item).Some?
    ensures Operator(item).Ok? ==>
              ((Selects(Signed(item, Operator(item).value), s) <==> Holds(re, Some(Str(s)), item) != item.negated)
               <==> PlacedAlike(re, item, s))
  {
    hide CompareText, CompareScalars, LikePattern.Like;
    if Operator(item).Ok? && item.op in {LessThan, LessThanOrEqual, MoreThan, MoreThanOrEqual} {
      var v := item.value.value[0];
      TextOpposite(s, v);
      ScalarsOpposite(s, v);
    }
    if Operator(item).Ok? && item.op == Like {
      LikeMeansTest(re, item, s);
    }
  }

  lemma LikeMeansTest(re: RegExp, item: Where, s: string)
    requires item.op == Like && Operator(item).Ok? && Compilable(re, item)
    ensures ItemError(re, item).None?
    ensures Selects(Signed(item, Operator(item).value), s) <==> LikePattern.Like(item.value.value[0], s) != item.negated
    ensures Holds(re, Some(Str(s)), item) <==> LikePattern.Test(re, item.value.value[0], s) == Some(true)
    ensures PlacedAlike(re, item, s) <==>
            (Holds(re, Some(Str(s)), item) <==> LikePattern.Like(item.value.value[0], s))
  {
    hide LikePattern.Like;
    var passes := LikePattern.Test(re, item.value.value[0], s);
    assert passes == Some(passes.value);
    assert passes == Some(true) <==> passes.value;
    assert TextOf(Some(Str(s))) == s;
  }

  /** All texts, or those of a single line. */
  predicate Among(lines: bool, s: string) {
    lines ==> LikePattern.OneLine(s)
  }

  /** The items that both stores read alike on all texts, or on all of a single line. */
  predicate Portable(lines: bool, item: Where)
    requires Operator(item).Ok?
  {
    match item.op
    case Between => SameRange(item.value.value[0], item.value.value[1])
    case LessThan => AllLow(item.value.value[0])
    case LessThanOrEqual => AllLow(item.value.value[0])
    case MoreThan => AllLow(item.value.value[0])
    case MoreThanOrEqual => AllLow(item.value.value[0])
    case Like =>
      var pattern := item.value.value[0];
      LikePattern.Plain(pattern)
      && if lines then LikeMeaning.Narrow(LikeMeaning.Runs(pattern)) else !LikeMeaning.Wild(pattern)
    case _ => true
  }

  /** A pattern of one line in the fragment; bounds of one line, where texts are. */
  ghost predicate Readable(lines: bool, re: RegExp, item: Where)
    requires Operator(item).Ok?
  {
    match item.op
    case Between => Among(lines, item.value.value[0]) && Among(lines, item.value.value[1])
    case LessThan => Among(lines, item.value.value[0])
    case LessThanOrEqual => Among(lines, item.value.value[0])
    case MoreThan => Among(lines, item.value.value[0])
    case MoreThanOrEqual => Among(lines, item.value.value[0])
    case Like =>
      var pattern := item.value.value[0];
      LikePattern.Standard(re) && LikePattern.InFragment(pattern) && LikePattern.OneLine(pattern)
    case _ => true
  }

  lemma PortableIff(lines: bool, re: RegExp, item: Where)
    requires Operator(item).Ok? && Readable(lines, re, item)
    ensures Compilable(re, item)
    ensures (forall s | Among(lines, s) :: PlacedAlike(re, item, s)) <==> Portable(lines, item)
  {
    match item.op
    case Between => RangePortableIff(lines, re, item);
    case LessThan => BoundPortableIff(lines, re, item);
    case LessThanOrEqual => BoundPortableIff(lines, re, item);
    case MoreThan => BoundPortableIff(lines, re, item);
    case MoreThanOrEqual => BoundPortableIff(lines, re, item);
    case Like => LikePortableIff(lines, re, item);
    case _ =>
  }

  lemma OutsidersOnLine(lines: bool, v: string, w: string, s: string)
    requires Among(lines, v) && Among(lines, w) && forall c | c in s :: c in v || c in w || c in OUTSIDERS
    ensures Among(lines, s)
  {
  }

  lemma RangePortableIff(lines: bool, re: RegExp, item: Where)
    requires item.op == Between && Operator(item).Ok? && Readable(lines, re, item)
    ensures (forall s | Among(lines, s) :: PlacedAlike(re, item, s)) <==> Portable(lines, item)
  {
    hide InTextRange, InScalarRange, SameRange, Among;
    var lower, upper := item.value.value[0], item.value.value[1];
    SameRangeIff(lower, upper);
    if !SameRange(lower, upper) {
      var s := Divided(lower, upper);
      OutsidersOnLine(lines, lower, upper, s);
      assert !PlacedAlike(re, item, s);
    }
  }

  lemma BoundPortableIff(lines: bool, re: RegExp, item: Where)
    requires item.op in {LessThan, LessThanOrEqual, MoreThan, MoreThanOrEqual}
    requires Operator(item).Ok? && Readable(lines, re, item)
    ensures (forall s | Among(lines, s) :: PlacedAlike(re, item, s)) <==> Portable(lines, item)
  {
    hide SameOrder, AllLow, Among;
    var v := item.value.value[0];
    SameOrderEverywhereIff(v);
    if !AllLow(v) {
      var s := Misplaced(v);
      OutsidersOnLine(lines, v, v, s);
      assert !PlacedAlike(re, item, s);
    }
  }

  lemma LikePortableIff(lines: bool, re: RegExp, item: Where)
    requires item.op == Like && Operator(item).Ok? && Readable(lines, re, item)
    ensures Compilable(re, item)
    ensures (forall s | Among(lines, s) :: PlacedAlike(re, item, s)) <==> Portable(lines, item)
  {
    hide LikePattern.Test, LikePattern.Like, LikePattern.Plain, LikePattern.OneLine;
    hide LikeMeaning.Narrow, LikeMeaning.Runs, LikeMeaning.Wild, LikePattern.Standard, LikePattern.InFragment;
    var pattern := item.value.value[0];
    LikePattern.FragmentCompiles(re, pattern);
    if lines {
      LikeMeaning.KeepsMeaningIff(re, pattern);
      assert forall s :: PlacedAlike(re, item, s)
                         == (LikePattern.Test(re, pattern, s) == Some(LikePattern.Like(pattern, s)));
      assert forall s :: Among(lines, s) == LikePattern.OneLine(s);
    } else if LikePattern.Plain(pattern) {
      LikeMeaning.KeepsMeaningEverywhereIff(re, pattern);
      assert forall s :: PlacedAlike(re, item, s)
                         == (LikePattern.Test(re, pattern, s) == Some(LikePattern.Like(pattern, s)));
    } else {
      var s := LikeMeaning.NotPlainDiffers(re, pattern);
      assert !PlacedAlike(re, item, s);
    }
  }

  lemma {:induction false} CompiledColumns(filters: seq<Where>)
    requires NoVerifier(filters)
    ensures Compiled(filters).Ok? <==> forall item | item in filters :: Operator(item).Ok?
    ensures Compiled(filters).Ok? ==> Compiled(filters).value.Keys == set item | item in filters :: item.column
  {
    hide Operator, Signed;
    if filters != [] {
      var last := |filters| - 1;
      CompiledColumns(filters[..last]);
      assert filters == filters[..last] + [filters[last]];
    }
  }

  ghost predicate CompiledAt(filters: seq<Where>, conditions: map<string, FindOperator>, item: Where) {
    && item.column in conditions
    && Operator(item).Ok?
    && conditions[item.column] == Signed(item, Operator(item).value)
  }

  lemma CompiledLast(filters: seq<Where>, last: nat)
    requires NoVerifier(filters) && Compiled(filters).Ok? && last + 1 == |filters|
    ensures NoVerifier(filters[..last]) && Compiled(filters[..last]).Ok? && Operator(filters[last]).Ok?
    ensures Compiled(filters).value ==
            var operator := Signed(filters[last], Operator(filters[last]).value);
            Compiled(filters[..last]).value[filters[last].column := operator]
  {
    assert forall item | item in filters[..last] :: item in filters;
    assert filters[last] in filters;
  }

  lemma LastOfFront(filters: seq<Where>, last: nat, i: nat)
    requires last + 1 == |filters| && i < last && IsLast(filters, i)
    ensures filters[last].column != filters[i].column && IsLast(filters[..last], i)
  {
    forall j | i < j < last ensures filters[..last][j].column != filters[..last][i].column {
      assert filters[j].column != filters[i].column;
    }
  }

  /** The compiled conditions hold each column's last item's operator. */
  lemma {:induction false} CompiledConditions(filters: seq<Where>)
    requires NoVerifier(filters) && Compiled(filters).Ok?
    ensures forall i | 0 <= i < |filters| && IsLast(filters, i) ::
              CompiledAt(filters, Compiled(filters).value, filters[i])
  {
    hide Operator, Signed, Compiled, IsLast, NoVerifier;
    if filters != [] {
      var last := |filters| - 1;
      CompiledLast(filters, last);
      CompiledConditions(filters[..last]);
      forall i | 0 <= i < |filters| && IsLast(filters, i)
        ensures CompiledAt(filters, Compiled(filters).value, filters[i])
      {
        if i < last {
          LastOfFront(filters, last, i);
          assert CompiledAt(filters[..last], Compiled(filters[..last]).value, filters[..last][i]);
        }
      }
    }
  }

  /** Every column has a last item. */
  lemma {:induction false} HasLast(filters: seq<Where>, column: string)
    requires exists item | item in filters :: item.column == column
    ensures exists i :: 0 <= i < |filters| && IsLast(filters, i) && filters[i].column == column
  {
    var last := |filters| - 1;
    if filters[last].column == column {
      assert IsLast(filters, last);
    } else {
      var front := filters[..last];
      assert filters == front + [filters[last]];
      var item :| item in filters && item.column == column;
      assert item in front;
      HasLast(front, column);
      var i :| 0 <= i < |front| && IsLast(front, i) && front[i].column == column;
      forall j | i < j < |filters| ensures filters[j].column != filters[i].column {
        if j < last { assert front[j].column != front[i].column; }
      }
      assert IsLast(filters, i);
    }
  }

  /** The item is about a text that both stores read alike. */
  predicate ReadAlike<T>(get: Getter<T>, re: RegExp, target: T, item: Where) {
    && TextColumn(get, target, item.column)
    && (Operator(item).Ok? ==> PlacedAlike(re, item, get(target, item.column).value.s))
  }

  /** On text columns the where-object selects exactly the rows that pass the last filter item of every column. */
  lemma WhereObjectIsLastItems<T>(get: Getter<T>, re: RegExp, target: T, filters: seq<Where>)
    requires Comparable(re, filters)
    requires forall item | item in filters :: ReadAlike(get, re, target, item)
    ensures Compiled(filters).Err? <==> FirstError(re, filters).Some?
    ensures Compiled(filters).Ok? ==> Compiled(filters).value.Keys == set item | item in filters :: item.column
    ensures Compiled(filters).Ok? ==>
              (SelectsRow(get, target, Compiled(filters).value) <==> PassesAll(get, re, target, LastPerColumn(filters)))
  {
    hide Compiled, Operator, Selects, LastPerColumn, FirstError, Signed, ItemError, PlacedAlike;
    CompiledColumns(filters);
    if Compiled(filters).Ok? { CompiledConditions(filters); }
    NoFirstError(re, filters);
    LastPerColumnMembers(filters);
    forall item | item in filters
      ensures Operator(item).Err? <==> ItemError(re, item).Some?
      ensures Operator(item).Ok? ==>
                (Selects(Signed(item, Operator(item).value), get(target, item.column).value.s)
                 <==> Passes(get, re, target, item))
    {
      OperatorMeansTest(re, item, get(target, item.column).value.s);
    }
    if Compiled(filters).Ok? {
      var conditions := Compiled(filters).value;
      if PassesAll(get, re, target, LastPerColumn(filters)) {
        forall column | column in conditions
          ensures TextColumn(get, target, column) && Selects(conditions[column], get(target, column).value.s)
        {
          HasLast(filters, column);
          var i :| 0 <= i < |filters| && IsLast(filters, i) && filters[i].column == column;
          assert filters[i] in filters;
        }
      }
      if SelectsRow(get, target, conditions) {
        forall item | item in LastPerColumn(filters)
          ensures ItemError(re, item).None? && Passes(get, re, target, item)
        {
          var i :| 0 <= i < |filters| && IsLast(filters, i) && filters[i] == item;
          assert item in filters && item.column in conditions;
        }
      }
    }
  }

  /** Hence the two stores agree on such a row for every query that names each column at most once. */
  lemma BackEndsAgree<T>(get: Getter<T>, re: RegExp, target: T, filters: seq<Where>)
    requires Comparable(re, filters)
    requires forall item | item in filters :: ReadAlike(get, re, target, item)
    requires forall i, j | 0 <= i < j < |filters| :: filters[i].column != filters[j].column
    ensures Compiled(filters).Err? <==> Filtered(get, re, target, filters).Err?
    ensures Compiled(filters).Ok? ==>
              Compiled(filters).value.Keys == set item | item in filters :: item.column
    ensures Compiled(filters).Ok? ==>
              Filtered(get, re, target, filters) == Ok(SelectsRow(get, target, Compiled(filters).value))
  {
    hide Compiled, FirstError, LastPerColumn, ItemError, Passes, SelectsRow;
    WhereObjectIsLastItems(get, re, target, filters);
    LastPerColumnMembers(filters);
    forall item ensures item in LastPerColumn(filters) <==> item in filters {
      if item in filters {
        var i :| 0 <= i < |filters| && filters[i] == item;
        assert IsLast(filters, i);
      }
    }
  }

  /** With a repeated column they can part: the SQL store forgets the first bound of a range given as two items. */
  lemma RepeatedColumnDiffers(re: RegExp)
    ensures var get: Getter<string> := (s: string, column: string) => Some(Str(s));
            var range := [Where("id", MoreThan, Some(["b"]), false), Where("id", LessThan, Some(["d"]), false)];
            && Filtered(get, re, "a", range) == Ok(false)
            && Compiled(range) == Ok(map["id" := Below("d")])
            && Selects(Below("d"), "a")
  {
    var get: Getter<string> := (s: string, column: string) => Some(Str(s));
    var first, second := Where("id", MoreThan, Some(["b"]), false), Where("id", LessThan, Some(["d"]), false);
    var range := [first, second];
    assert range[..1] == [first] && [first][..0] == [];
    assert Compiled([]) == Ok(map[]);
    assert Compiled([first]) == Ok(map["id" := Above("b")]);
    assert map["id" := Above("b")]["id" := Below("d")] == map["id" := Below("d")];
    assert first in range && !Passes(get, re, "a", first);
    NoFirstError(re, range);
  }

  /** So they can for a bound above the surrogates and a text of two units, which only the database has above it. */
  lemma OrdersOfStoresDiffer(re: RegExp)
    ensures var get: Getter<string> := (s: string, column: string) => Some(Str(s));
            var above := [Where("id", MoreThan, Some(["\U{FF5E}"]), false)];
            && Filtered(get, re, "\U{1F600}", above) == Ok(false)
            && Compiled(above) == Ok(map["id" := Above("\U{FF5E}")])
            && Selects(Above("\U{FF5E}"), "\U{1F600}")
  {
    var get: Getter<string> := (s: string, column: string) => Some(Str(s));
    var item := Where("id", MoreThan, Some(["\U{FF5E}"]), false);
    OrdersPart();
    assert [item][..0] == [] && Compiled([]) == Ok(map[]);
    assert map[]["id" := Above("\U{FF5E}")] == map["id" := Above("\U{FF5E}")];
    assert item in [item] && !Passes(get, re, "\U{1F600}", item);
    NoFirstError(re, [item]);
  }

  // ---------------------------------------------------------------- rows without a value

  /**
    A database's verdict on a column that may be NULL: anything asked of NULL is unknown, except whether it is NULL and
    whether it is one of no values.
   */
  function Verdict(operator: FindOperator, cell: Option<string>): Option<bool> {
    match operator
    case Not(operand) =>
      (match Verdict(operand, cell)
       case Some(b) => Some(!b)
       case None => None)
    case NullValue => Some(cell.None?)
    case AnyOf(values) => if cell.None? && values != [] then None else Some(cell.Some? && cell.value in values)
    case OneOf(values) => if cell.None? && values != [] then None else Some(cell.Some? && cell.value in values)
    case _ => if cell.Some? then Some(Selects(operator, cell.value)) else None
  }

  lemma {:induction false} VerdictOnText(operator: FindOperator, s: string)
    ensures Verdict(operator, Some(s)) == Some(Selects(operator, s))
    decreases operator
  {
    if operator.Not? { VerdictOnText(operator.operand, s); }
  }

  /**
    On a row that lacks the column the stores agree exactly about items that are not negated, ask for the lack itself
    or list no values; a pattern is matched by the JSON store against the word `undefined`.
   */
  lemma AbsentCellAgreesIff(re: RegExp, item: Where)
    requires ItemError(re, item).None?
    ensures Operator(item).Ok?
    ensures (Verdict(Signed(item, Operator(item).value), None) == Some(true) <==>
               Holds(re, None, item) != item.negated)
            <==> if item.op == Like then
                   LikePattern.Test(re, item.value.value[0], "undefined") == Some(true) <==> item.negated
                 else
                   !item.negated || item.op == IsNull || (item.op in {In, Any, NoOp} && item.value == Some([]))
  {
  }
}
