/** When the two stores agree on all rows of text columns, or of single-line ones, read off the query alone. */
module StoreAgreement {
  import opened Results
  import opened JsonQuery
  import opened WhereObject

  /** A row of text columns. */
  type Row = string -> string

  /** All rows, or those with single-line texts only. */
  ghost predicate RowAmong(lines: bool, row: Row) {
    forall column :: Among(lines, row(column))
  }

  function Cells(row: Row, column: string): Option<Value> {
    Some(Str(row(column)))
  }

  // ---------------------------------------------------------------- conditions that ask each column on its own

  type Choice = (string, string) -> bool

  ghost predicate Admits(choice: Choice, row: Row) {
    forall column :: choice(column, row(column))
  }

  /** No text will do in this column. */
  ghost predicate Barren(lines: bool, choice: Choice, column: string) {
    forall s | Among(lines, s) :: !choice(column, s)
  }

  ghost predicate Blocked(lines: bool, choice: Choice) {
    exists column :: Barren(lines, choice, column)
  }

  ghost predicate Alike(lines: bool, p: Choice, q: Choice) {
    forall column, s | Among(lines, s) :: p(column, s) == q(column, s)
  }

  ghost function SomeRow(lines: bool, choice: Choice): (row: Row)
    requires !Blocked(lines, choice)
    ensures RowAmong(lines, row) && Admits(choice, row)
  {
    var row: Row :=
      column => (assert !Barren(lines, choice, column); var s :| Among(lines, s) && choice(column, s); s);
    row
  }

  lemma AdmittedAlike(lines: bool, p: Choice, q: Choice, column: string, s: string)
    requires !Blocked(lines, p) && Among(lines, s) && p(column, s)
    requires forall row: Row | RowAmong(lines, row) :: Admits(p, row) ==> Admits(q, row)
    ensures q(column, s)
  {
    hide Among;
    var row := SomeRow(lines, p);
    var moved: Row := c => if c == column then s else row(c);
    assert RowAmong(lines, moved) && Admits(p, moved);
    assert q(column, moved(column));
  }

  /** Two such conditions admit the same rows exactly when neither admits any or they agree column by column. */
  lemma AdmitAlikeIff(lines: bool, p: Choice, q: Choice)
    ensures (forall row: Row | RowAmong(lines, row) :: Admits(p, row) <==> Admits(q, row)) <==>
            (Blocked(lines, p) && Blocked(lines, q)) || Alike(lines, p, q)
  {
    hide Among;
    if forall row: Row | RowAmong(lines, row) :: Admits(p, row) <==> Admits(q, row) {
      if !Blocked(lines, p) {
        var row := SomeRow(lines, p);
        assert Admits(q, row);
        NotBlocked(lines, q, row);
      } else if !Blocked(lines, q) {
        var row := SomeRow(lines, q);
        assert Admits(p, row);
        NotBlocked(lines, p, row);
      }
      if !Blocked(lines, p) && !Blocked(lines, q) {
        forall column, s | Among(lines, s) ensures p(column, s) == q(column, s) {
          if p(column, s) { AdmittedAlike(lines, p, q, column, s); }
          if q(column, s) { AdmittedAlike(lines, q, p, column, s); }
        }
      }
    } else if Blocked(lines, p) && Blocked(lines, q) {
      forall row: Row | RowAmong(lines, row) ensures !Admits(p, row) && !Admits(q, row) {
        if Admits(p, row) { NotBlocked(lines, p, row); }
        if Admits(q, row) { NotBlocked(lines, q, row); }
      }
    }
  }

  lemma NotBlocked(lines: bool, choice: Choice, row: Row)
    requires RowAmong(lines, row) && Admits(choice, row)
    ensures !Blocked(lines, choice)
  {
    hide Among;
    forall column ensures !Barren(lines, choice, column) {
      assert Among(lines, row(column)) && choice(column, row(column));
    }
  }

  // ---------------------------------------------------------------- the two stores

  /** The JSON store: every item about the column. */
  ghost predicate ColumnPasses(re: RegExp, filters: seq<Where>, column: string, s: string) {
    forall item | item in filters && item.column == column ::
      ItemError(re, item).None? && Holds(re, Some(Str(s)), item) != item.negated
  }

  /** The SQL store: the column's one condition. */
  predicate ColumnSelects(conditions: map<string, FindOperator>, column: string, s: string) {
    column in conditions ==> Selects(conditions[column], s)
  }

  ghost function JsonChoice(re: RegExp, filters: seq<Where>): Choice {
    (column, s) => ColumnPasses(re, filters, column, s)
  }

  function SqlChoice(conditions: map<string, FindOperator>): Choice {
    (column, s) => ColumnSelects(conditions, column, s)
  }

  lemma PassesByColumn(re: RegExp, filters: seq<Where>, row: Row)
    ensures PassesAll(Cells, re, row, filters) <==> Admits(JsonChoice(re, filters), row)
  {
    hide ItemError, Holds;
    if Admits(JsonChoice(re, filters), row) {
      forall item | item in filters ensures ItemError(re, item).None? && Passes(Cells, re, row, item) {
        assert JsonChoice(re, filters)(item.column, row(item.column));
      }
    }
  }

  lemma SelectsByColumn(conditions: map<string, FindOperator>, row: Row)
    ensures SelectsRow(Cells, row, conditions) <==> Admits(SqlChoice(conditions), row)
  {
    hide Selects;
    if Admits(SqlChoice(conditions), row) {
      forall column | column in conditions
        ensures TextColumn(Cells, row, column) && Selects(conditions[column], Cells(row, column).value.s)
      {
        assert SqlChoice(conditions)(column, row(column));
      }
    }
  }

  ghost predicate StoresAgree(lines: bool, re: RegExp, filters: seq<Where>)
    requires Compiled(filters).Ok?
  {
    forall row: Row | RowAmong(lines, row) ::
      SelectsRow(Cells, row, Compiled(filters).value) <==> PassesAll(Cells, re, row, filters)
  }

  /**
    The two stores agree on all such rows exactly when neither passes any of them, or when in each column the one
    condition of the SQL store selects the texts that pass all items of the JSON store.
   */
  lemma StoresAgreeIff(lines: bool, re: RegExp, filters: seq<Where>)
    requires Compiled(filters).Ok?
    ensures var sql, json := SqlChoice(Compiled(filters).value), JsonChoice(re, filters);
            StoresAgree(lines, re, filters) <==>
              (Blocked(lines, sql) && Blocked(lines, json)) || Alike(lines, sql, json)
  {
    hide Compiled, PassesAll, SelectsRow, JsonChoice, SqlChoice, Admits, RowAmong;
    var sql, json := SqlChoice(Compiled(filters).value), JsonChoice(re, filters);
    forall row: Row
      ensures SelectsRow(Cells, row, Compiled(filters).value) <==> Admits(sql, row)
      ensures PassesAll(Cells, re, row, filters) <==> Admits(json, row)
    {
      SelectsByColumn(Compiled(filters).value, row);
      PassesByColumn(re, filters, row);
    }
    AdmitAlikeIff(lines, sql, json);
  }

  // ---------------------------------------------------------------- repeated columns

  predicate ItemPasses(re: RegExp, item: Where, s: string) {
    ItemError(re, item).None? && Holds(re, Some(Str(s)), item) != item.negated
  }

  /** Every text that passes the one item passes the other. */
  ghost predicate Implies(lines: bool, re: RegExp, last: Where, item: Where) {
    forall s | Among(lines, s) :: ItemPasses(re, last, s) ==> ItemPasses(re, item, s)
  }

  ghost predicate PassesNothing(lines: bool, re: RegExp, item: Where) {
    forall s | Among(lines, s) :: !ItemPasses(re, item, s)
  }

  /** Items that a later one for their column replaces ask nothing that the last one does not ask. */
  ghost predicate LastImpliesAll(lines: bool, re: RegExp, filters: seq<Where>) {
    forall i, j | 0 <= i < j < |filters| && IsLast(filters, j) && filters[i].column == filters[j].column ::
      Implies(lines, re, filters[j], filters[i])
  }

  /** A column's last item decides alone. */
  lemma LastDecides(re: RegExp, filters: seq<Where>, j: nat, s: string)
    requires j < |filters| && IsLast(filters, j)
    ensures ColumnPasses(re, LastPerColumn(filters), filters[j].column, s) <==> ItemPasses(re, filters[j], s)
  {
    hide ItemError, Holds, LastPerColumn;
    LastPerColumnMembers(filters);
    assert filters[j] in LastPerColumn(filters);
    forall item | item in LastPerColumn(filters) && item.column == filters[j].column ensures item == filters[j] {
      var i :| 0 <= i < |filters| && IsLast(filters, i) && filters[i] == item;
    }
  }

  lemma Unmentioned(re: RegExp, filters: seq<Where>, column: string, s: string)
    requires forall item | item in filters :: item.column != column
    ensures ColumnPasses(re, LastPerColumn(filters), column, s) && ColumnPasses(re, filters, column, s)
  {
    hide ItemError, Holds, LastPerColumn;
    LastPerColumnMembers(filters);
    forall item | item in LastPerColumn(filters) ensures item.column != column {
      var i :| 0 <= i < |filters| && IsLast(filters, i) && filters[i] == item;
      assert filters[i] in filters;
    }
  }

  lemma LastPassesMore(re: RegExp, filters: seq<Where>, column: string, s: string)
    requires ColumnPasses(re, filters, column, s)
    ensures ColumnPasses(re, LastPerColumn(filters), column, s)
  {
    hide ItemError, Holds, LastPerColumn;
    LastPerColumnMembers(filters);
    forall item | item in LastPerColumn(filters) ensures item in filters {
      var i :| 0 <= i < |filters| && IsLast(filters, i) && filters[i] == item;
    }
  }

  lemma BlockedByLast(lines: bool, re: RegExp, filters: seq<Where>)
    ensures Blocked(lines, JsonChoice(re, LastPerColumn(filters))) <==>
            exists j | 0 <= j < |filters| && IsLast(filters, j) :: PassesNothing(lines, re, filters[j])
  {
    hide ItemPasses, ColumnPasses, LastPerColumn;
    var json := JsonChoice(re, LastPerColumn(filters));
    if column :| Barren(lines, json, column) {
      assert Among(lines, "") && !json(column, "");
      if forall item | item in filters :: item.column != column {
        Unmentioned(re, filters, column, "");
      }
      HasLast(filters, column);
      var j :| 0 <= j < |filters| && IsLast(filters, j) && filters[j].column == column;
      forall s | Among(lines, s) ensures !ItemPasses(re, filters[j], s) {
        LastDecides(re, filters, j, s);
        assert !json(column, s);
      }
    }
    if j :| 0 <= j < |filters| && IsLast(filters, j) && PassesNothing(lines, re, filters[j]) {
      forall s | Among(lines, s) ensures !json(filters[j].column, s) {
        LastDecides(re, filters, j, s);
      }
      assert Barren(lines, json, filters[j].column);
    }
  }

  lemma AlikeByLast(lines: bool, re: RegExp, filters: seq<Where>)
    requires FirstError(re, filters).None?
    ensures Alike(lines, JsonChoice(re, LastPerColumn(filters)), JsonChoice(re, filters))
            <==> LastImpliesAll(lines, re, filters)
  {
    hide ItemError, Holds, LastPerColumn, FirstError, Among;
    NoFirstError(re, filters);
    var last, all := JsonChoice(re, LastPerColumn(filters)), JsonChoice(re, filters);
    if Alike(lines, last, all) {
      forall i, j | 0 <= i < j < |filters| && IsLast(filters, j) && filters[i].column == filters[j].column
        ensures Implies(lines, re, filters[j], filters[i])
      {
        forall s | Among(lines, s) && ItemPasses(re, filters[j], s) ensures ItemPasses(re, filters[i], s) {
          LastDecides(re, filters, j, s);
          assert last(filters[j].column, s) && all(filters[j].column, s);
          assert filters[i] in filters;
        }
      }
    }
    if LastImpliesAll(lines, re, filters) {
      forall column, s | Among(lines, s) ensures last(column, s) == all(column, s) {
        if ColumnPasses(re, filters, column, s) { LastPassesMore(re, filters, column, s); }
        if ColumnPasses(re, LastPerColumn(filters), column, s) { ImpliedPasses(lines, re, filters, column, s); }
      }
    }
  }

  lemma ImpliedPasses(lines: bool, re: RegExp, filters: seq<Where>, column: string, s: string)
    requires LastImpliesAll(lines, re, filters) && Among(lines, s)
    requires ColumnPasses(re, LastPerColumn(filters), column, s)
    ensures ColumnPasses(re, filters, column, s)
  {
    hide LastPerColumn, ItemError, Holds, Among;
    forall item | item in filters && item.column == column ensures ItemPasses(re, item, s) {
      var i :| 0 <= i < |filters| && filters[i] == item;
      HasLast(filters, column);
      var j :| 0 <= j < |filters| && IsLast(filters, j) && filters[j].column == column;
      LastDecides(re, filters, j, s);
      if i < j { assert Implies(lines, re, filters[j], filters[i]); }
    }
  }

  /**
    Forgetting all but the last item of each column changes nothing on any such row exactly when some last item passes
    no text at all, or every forgotten item is implied by the last item for its column.
   */
  lemma ForgettingIff(lines: bool, re: RegExp, filters: seq<Where>)
    requires FirstError(re, filters).None?
    ensures (forall row: Row | RowAmong(lines, row) ::
               PassesAll(Cells, re, row, LastPerColumn(filters)) <==> PassesAll(Cells, re, row, filters))
            <==> (exists j | 0 <= j < |filters| && IsLast(filters, j) :: PassesNothing(lines, re, filters[j]))
                 || LastImpliesAll(lines, re, filters)
  {
    hide PassesAll, LastPerColumn, FirstError, Admits, ColumnPasses, PassesNothing, LastImpliesAll, Alike, ItemError;
    hide RowAmong, Among;
    var last, all := JsonChoice(re, LastPerColumn(filters)), JsonChoice(re, filters);
    forall row: Row
      ensures PassesAll(Cells, re, row, LastPerColumn(filters)) <==> Admits(last, row)
      ensures PassesAll(Cells, re, row, filters) <==> Admits(all, row)
    {
      PassesByColumn(re, LastPerColumn(filters), row);
      PassesByColumn(re, filters, row);
    }
    AdmitAlikeIff(lines, last, all);
    BlockedByLast(lines, re, filters);
    AlikeByLast(lines, re, filters);
    if column :| Barren(lines, last, column) {
      forall s | Among(lines, s) ensures !all(column, s) {
        assert !last(column, s);
        if all(column, s) { LastPassesMore(re, filters, column, s); }
      }
      assert Barren(lines, all, column);
    }
  }

  // ---------------------------------------------------------------- queries the stores read alike

  /** Well-formed items, with patterns and bounds as the condition below is about. */
  ghost predicate AllReadable(lines: bool, re: RegExp, filters: seq<Where>) {
    forall item | item in filters :: Operator(item).Ok? && Readable(lines, re, item)
  }

  /** Items that both stores read alike. */
  predicate AllPortable(lines: bool, filters: seq<Where>) {
    forall item | item in filters :: Operator(item).Ok? && Portable(lines, item)
  }

  lemma ReadableCompiles(lines: bool, re: RegExp, filters: seq<Where>)
    requires NoVerifier(filters) && AllReadable(lines, re, filters)
    ensures Comparable(re, filters) && Compiled(filters).Ok?
  {
    hide Compiled, Readable, Operator, Compilable, Portable;
    CompiledColumns(filters);
    forall item | item in filters ensures Compilable(re, item) {
      PortableIff(lines, re, item);
    }
  }

  /** So the stores agree on all such rows for exactly such queries, if they read each item alike. */
  lemma PortableAgreeIff(lines: bool, re: RegExp, filters: seq<Where>)
    requires NoVerifier(filters) && AllReadable(lines, re, filters) && AllPortable(lines, filters)
    ensures Compiled(filters).Ok? && FirstError(re, filters).None?
    ensures StoresAgree(lines, re, filters) <==>
              || (exists j | 0 <= j < |filters| && IsLast(filters, j) :: PassesNothing(lines, re, filters[j]))
              || LastImpliesAll(lines, re, filters)
  {
    hide Compiled, Portable, PlacedAlike, Operator, SelectsRow, PassesAll, FirstError, LastPerColumn, PassesNothing;
    hide Readable, Among, Comparable, LastImpliesAll;
    ReadableCompiles(lines, re, filters);
    forall row: Row | RowAmong(lines, row)
      ensures SelectsRow(Cells, row, Compiled(filters).value) <==> PassesAll(Cells, re, row, LastPerColumn(filters))
    {
      LastItemsSelect(lines, re, filters, row);
    }
    var row: Row := column => "";
    assert RowAmong(lines, row) by { EmptyAmong(lines); }
    LastItemsSelect(lines, re, filters, row);
    ForgettingIff(lines, re, filters);
  }

  lemma LastItemsSelect(lines: bool, re: RegExp, filters: seq<Where>, row: Row)
    requires NoVerifier(filters) && AllReadable(lines, re, filters) && AllPortable(lines, filters)
    requires RowAmong(lines, row)
    ensures Compiled(filters).Ok? && FirstError(re, filters).None?
    ensures SelectsRow(Cells, row, Compiled(filters).value) <==> PassesAll(Cells, re, row, LastPerColumn(filters))
  {
    hide Compiled, Portable, PlacedAlike, Operator, SelectsRow, PassesAll, FirstError, LastPerColumn;
    hide Readable, Among, Comparable;
    ReadableCompiles(lines, re, filters);
    forall item | item in filters ensures ReadAlike(Cells, re, row, item) {
      PortableIff(lines, re, item);
      assert Among(lines, row(item.column));
    }
    WhereObjectIsLastItems(Cells, re, row, filters);
  }

  lemma EmptyAmong(lines: bool)
    ensures Among(lines, "")
  {
  }

  /** With each column named at most once only what the stores read differently can make a difference. */
  lemma DistinctColumnsAgreeIff(lines: bool, re: RegExp, filters: seq<Where>)
    requires NoVerifier(filters) && AllReadable(lines, re, filters)
    requires forall i, j | 0 <= i < j < |filters| :: filters[i].column != filters[j].column
    ensures Compiled(filters).Ok?
    ensures StoresAgree(lines, re, filters) <==>
              || (Blocked(lines, SqlChoice(Compiled(filters).value)) && Blocked(lines, JsonChoice(re, filters)))
              || AllPortable(lines, filters)
  {
    hide *;
    ReadableCompiles(lines, re, filters);
    StoresAgreeIff(lines, re, filters);
    AlikeIffPortable(lines, re, filters);
  }

  lemma AlikeIffPortable(lines: bool, re: RegExp, filters: seq<Where>)
    requires NoVerifier(filters) && AllReadable(lines, re, filters)
    requires forall i, j | 0 <= i < j < |filters| :: filters[i].column != filters[j].column
    requires Comparable(re, filters) && Compiled(filters).Ok?
    ensures Alike(lines, SqlChoice(Compiled(filters).value), JsonChoice(re, filters)) <==> AllPortable(lines, filters)
  {
    hide Compiled, Operator, Portable, PlacedAlike, Selects, Signed, ItemError, Holds, Among, Readable, Comparable;
    CompiledColumns(filters);
    var sql, json := SqlChoice(Compiled(filters).value), JsonChoice(re, filters);
    forall item, s | item in filters
      ensures Operator(item).Ok? && (sql(item.column, s) == json(item.column, s) <==> PlacedAlike(re, item, s))
    {
      OnlyItem(re, filters, item, s);
    }
    forall item | item in filters
      ensures (forall s | Among(lines, s) :: PlacedAlike(re, item, s)) <==> Portable(lines, item)
    {
      PortableIff(lines, re, item);
    }
    if AllPortable(lines, filters) {
      forall column, s | Among(lines, s) ensures sql(column, s) == json(column, s) {
        if item :| item in filters && item.column == column {
          assert PlacedAlike(re, item, s);
        }
      }
    }
    if Alike(lines, sql, json) {
      forall item | item in filters ensures Operator(item).Ok? && Portable(lines, item) {
        assert forall s | Among(lines, s) :: sql(item.column, s) == json(item.column, s);
      }
    }
  }

  lemma OnlyItem(re: RegExp, filters: seq<Where>, item: Where, s: string)
    requires Comparable(re, filters) && Compiled(filters).Ok? && item in filters
    requires forall i, j | 0 <= i < j < |filters| :: filters[i].column != filters[j].column
    ensures Operator(item).Ok?
    ensures ColumnSelects(Compiled(filters).value, item.column, s) == ColumnPasses(re, filters, item.column, s)
            <==> PlacedAlike(re, item, s)
  {
    hide Compiled, Operator, PlacedAlike, Selects, Signed, ItemError, Holds, Compilable;
    CompiledColumns(filters);
    CompiledConditions(filters);
    var i :| 0 <= i < |filters| && filters[i] == item;
    assert IsLast(filters, i);
    assert CompiledAt(filters, Compiled(filters).value, filters[i]);
    forall other | other in filters && other.column == item.column ensures other == item {
      var k :| 0 <= k < |filters| && filters[k] == other;
    }
    OperatorMeansTest(re, item, s);
  }
}
