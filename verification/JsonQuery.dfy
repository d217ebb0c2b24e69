/** The query interpreter of the JSON store: `buildFilter` and `buildQuery`. */
module JsonQuery {
  import opened Results
  import opened Strings
  import opened TextOrder
  import LikeMeaning
  import LikePattern

  // ---------------------------------------------------------------- values and queries

  /**
    A cell; an absent column is `None` where a cell is looked up. `text` is a date's string form; a date made of an
    unreadable text is invalid and has no time.
   */
  datatype Value = Null | Str(s: string) | List(items: seq<string>) | Time(ms: Option<int>, text: string)

  /** `target[column]` */
  type Getter<!T> = (T, string) -> Option<Value>

  datatype Op =
    | LessThan | LessThanOrEqual | MoreThan | MoreThanOrEqual | Equal | Like | Between | In | Any | IsNull | NoOp

  datatype Where = Where(column: string, op: Op, value: Option<seq<string>>, negated: bool)

  datatype Order = Order(column: string, descending: bool)

  /** `skip` and `take` are 0 when absent; the code does not distinguish the two. */
  datatype FindArgs = FindArgs(filters: seq<Where>, order: seq<Order>, skip: nat, take: nat)

  /** The runtime's `RegExp`. */
  type RegExp = LikePattern.RegExp

  datatype QueryError = BadValue | BadPattern

  // ---------------------------------------------------------------- JavaScript comparisons

  function Join(items: seq<string>): string {
    if items == [] then ""
    else if |items| == 1 then items[0]
    else items[0] + "," + Join(items[1..])
  }

  function Digits(s: string, acc: nat): Option<nat> {
    if s == "" then Some(acc)
    else if '0' <= s[0] <= '9' then Digits(s[1..], 10 * acc + (s[0] as int - '0' as int))
    else None
  }

  /** `Number(s)` for the empty string and decimal integers; `None` is NaN. */
  function NumberOf(s: string): Option<int> {
    if s != "" && s[0] == '-' && |s| > 1 then
      match Digits(s[1..], 0) case Some(n) => Some(0 - n as int) case None => None
    else
      match Digits(s, 0) case Some(n) => Some(n) case None => None
  }

  function CompareNumber(a: int, b: Option<int>): Option<int> {
    if b.Some? then Some(a - b.value) else None
  }

  /** How a cell compares with a string: text by UTF-16 units, the rest as numbers; `None` where every test fails. */
  function Compare(cell: Option<Value>, v: string): Option<int> {
    match cell
    case None => None
    case Some(Str(s)) => Some(CompareText(s, v))
    case Some(List(items)) => Some(CompareText(Join(items), v))
    case Some(Null) => CompareNumber(0, NumberOf(v))
    case Some(Time(ms, _)) => if ms.Some? then CompareNumber(ms.value, NumberOf(v)) else None
  }

  function TextOf(cell: Option<Value>): string {
    match cell
    case None => "undefined"
    case Some(Null) => "null"
    case Some(Str(s)) => s
    case Some(List(items)) => Join(items)
    case Some(Time(_, text)) => text
  }

  // ---------------------------------------------------------------- filters

  /** The error a filter item throws on every row, if any. */
  function ItemError(re: RegExp, item: Where): Option<QueryError> {
    match item.op
    case IsNull => None
    case Between => if item.value.Some? && |item.value.value| == 2 then None else Some(BadValue)
    case In => if item.value.Some? then None else Some(BadValue)
    case Any => if item.value.Some? then None else Some(BadValue)
    case NoOp => if item.value.Some? then None else Some(BadValue)
    case Like =>
      if item.value.None? || |item.value.value| != 1 then Some(BadValue)
      else if !LikePattern.Compiles(re, item.value.value[0]) then Some(BadPattern)
      else None
    case _ => if item.value.Some? && |item.value.value| == 1 then None else Some(BadValue)
  }

  /** The operator's test, before negation. */
  predicate Holds(re: RegExp, cell: Option<Value>, item: Where)
    requires ItemError(re, item).None?
  {
    match item.op
    case Between =>
      var lower, upper := Compare(cell, item.value.value[0]), Compare(cell, item.value.value[1]);
      lower.Some? && lower.value >= 0 && upper.Some? && upper.value <= 0
    case Equal =>
      var v := item.value.value[0];
      cell == Some(Str(v)) || (cell.Some? && cell.value.List? && Includes(Join(cell.value.items), v))
    case IsNull => cell.None? || cell == Some(Null)
    case LessThan => var c := Compare(cell, item.value.value[0]); c.Some? && c.value < 0
    case LessThanOrEqual => var c := Compare(cell, item.value.value[0]); c.Some? && c.value <= 0
    case MoreThan => var c := Compare(cell, item.value.value[0]); c.Some? && c.value > 0
    case MoreThanOrEqual => var c := Compare(cell, item.value.value[0]); c.Some? && c.value >= 0
    case Like => LikePattern.Test(re, item.value.value[0], TextOf(cell)) == Some(true)
    case _ =>
      if cell.Some? && cell.value.List? then
        || (exists v | v in item.value.value :: v in cell.value.items)
        || Includes(Join(cell.value.items), Join(item.value.value))
      else cell.Some? && cell.value.Str? && cell.value.s in item.value.value
  }

  /** On single-line text a Like item with a plain pattern is SQL's LIKE, if either is modest in what it asks. */
  lemma LikeItemMeans(re: RegExp, item: Where, s: string)
    requires LikePattern.Standard(re) && item.op == Like && item.value.Some? && |item.value.value| == 1
    requires LikePattern.Plain(item.value.value[0]) && LikePattern.OneLine(s)
    requires LikePattern.Basic(s) || LikeMeaning.Narrow(LikeMeaning.Runs(item.value.value[0]))
    ensures ItemError(re, item).None?
    ensures Holds(re, Some(Str(s)), item) <==> LikePattern.Like(item.value.value[0], s)
  {
    LikeMeaning.TranslationPreservesMeaning(re, item.value.value[0], s);
  }

  predicate Passes<T>(get: Getter<T>, re: RegExp, target: T, item: Where)
    requires ItemError(re, item).None?
  {
    Holds(re, get(target, item.column), item) != item.negated
  }

  function FirstError(re: RegExp, filters: seq<Where>): Option<QueryError> {
    if filters == [] then None
    else if ItemError(re, filters[0]).Some? then ItemError(re, filters[0])
    else FirstError(re, filters[1..])
  }

  lemma {:induction false} NoFirstError(re: RegExp, filters: seq<Where>)
    ensures FirstError(re, filters).None? <==> forall i | 0 <= i < |filters| :: ItemError(re, filters[i]).None?
  {
    if filters != [] {
      NoFirstError(re, filters[1..]);
      if forall i | 0 <= i < |filters[1..]| :: ItemError(re, filters[1..][i]).None? {
        forall i | 1 <= i < |filters| ensures filters[i] == filters[1..][i - 1] {}
      }
    }
  }

  /** A row passes when every item does. */
  predicate PassesAll<T>(get: Getter<T>, re: RegExp, target: T, filters: seq<Where>) {
    forall item | item in filters :: ItemError(re, item).None? && Passes(get, re, target, item)
  }

  function Filtered<T>(get: Getter<T>, re: RegExp, target: T, filters: seq<Where>): Result<bool, QueryError> {
    match FirstError(re, filters)
    case Some(e) => Err(e)
    case None => Ok(PassesAll(get, re, target, filters))
  }

  method BuildFilter<T>(get: Getter<T>, re: RegExp, target: T, filters: seq<Where>)
    returns (r: Result<bool, QueryError>)
    ensures r == Filtered(get, re, target, filters)
  {
    var condition := true;
    assert filters[..0] == [];
    for i := 0 to |filters|
      invariant FirstError(re, filters) == FirstError(re, filters[i..])
      invariant forall item | item in filters[..i] :: ItemError(re, item).None?
      invariant condition == PassesAll(get, re, target, filters[..i])
    {
      var item := filters[i];
      assert filters[i..][1..] == filters[i + 1..];
      assert filters[..i + 1] == filters[..i] + [item];
      var error := ItemError(re, item);
      if error.Some? {
        return Err(error.value);
      }
      var newCondition := Holds(re, get(target, item.column), item);
      if item.negated {
        newCondition := !newCondition;
      }
      condition := condition && newCondition;
    }
    assert filters[..|filters|] == filters;
    return Ok(condition);
  }

  // ---------------------------------------------------------------- authorization

  function AsArray(cell: Option<Value>): seq<string> {
    match cell
    case Some(Str(s)) => [s]
    case Some(List(items)) => items
    case _ => []
  }

  /** Without an authorized DID everything is visible; with one, only rows naming it in one of the columns. */
  predicate Authorized<T>(get: Getter<T>, target: T, columns: seq<string>, did: string) {
    did == "" || exists column | column in columns :: did in AsArray(get(target, column))
  }

  // ---------------------------------------------------------------- ordering

  /** A string comparison such as `localeCompare`. */
  type Collation = (string, string) -> int

  function ToNumber(cell: Option<Value>): Option<int> {
    match cell
    case None => None
    case Some(Null) => Some(0)
    case Some(Str(s)) => NumberOf(s)
    case Some(List(items)) => NumberOf(Join(items))
    case Some(Time(ms, _)) => ms
  }

  /** `x - y || 0` */
  function Difference(x: Option<int>, y: Option<int>): int {
    if x.Some? && y.Some? then x.value - y.value else 0
  }

  /** One column of the comparator, ascending. */
  function CompareCells(collate: Collation, a: Option<Value>, b: Option<Value>): int {
    match a
    case Some(Time(ms, _)) => Difference(ms, if b.Some? && b.value.Time? then b.value.ms else Some(0))
    case Some(Str(s)) => collate(s, TextOf(b))
    case _ => Difference(ToNumber(a), ToNumber(b))
  }

  function Direction(o: Order): int {
    if o.descending then -1 else 1
  }

  /** The comparator given to `sort`: the first column that tells the rows apart decides. */
  function CompareRows<T>(get: Getter<T>, collate: Collation, order: seq<Order>, a: T, b: T): int {
    if order == [] || order[0].column == "" then 0
    else
      var col := order[0].column;
      var result := Direction(order[0]) * CompareCells(collate, get(a, col), get(b, col));
      if result != 0 then result else CompareRows(get, collate, order[1..], a, b)
  }

  method Comparator<T>(get: Getter<T>, collate: Collation, order: seq<Order>, a: T, b: T) returns (result: int)
    ensures result == CompareRows(get, collate, order, a, b)
  {
    result := 0;
    var orderIndex := 0;
    assert order[0..] == order;
    while result == 0 && orderIndex < |order|
      invariant 0 <= orderIndex <= |order|
      invariant result == 0 ==>
        CompareRows(get, collate, order, a, b) == CompareRows(get, collate, order[orderIndex..], a, b)
      invariant result != 0 ==> CompareRows(get, collate, order, a, b) == result
    {
      var direction := Direction(order[orderIndex]);
      var col := order[orderIndex].column;
      if col == "" {
        break;
      }
      assert order[orderIndex..][1..] == order[orderIndex + 1..];
      result := direction * CompareCells(collate, get(a, col), get(b, col));
      orderIndex := orderIndex + 1;
    }
  }

  type Comparison<!T> = (T, T) -> int

  /** A total preorder on the elements of `domain`, given by the sign of the comparison. */
  ghost predicate Consistent<T(!new)>(cmp: Comparison<T>, domain: set<T>) {
    && (forall a, b | a in domain && b in domain :: Opposite(cmp, a, b))
    && (forall a, b, c | a in domain && b in domain && c in domain && cmp(a, b) <= 0 && cmp(b, c) <= 0 ::
          cmp(a, c) <= 0)
  }

  predicate Opposite<T>(cmp: Comparison<T>, a: T, b: T) {
    (cmp(a, b) < 0 <==> cmp(b, a) > 0) && (cmp(a, b) == 0 <==> cmp(b, a) == 0)
  }

  ghost predicate ConsistentCollation(collate: Collation) {
    && (forall s, t :: (collate(s, t) < 0 <==> collate(t, s) > 0) && (collate(s, t) == 0 <==> collate(t, s) == 0))
    && (forall s, t, u :: collate(s, t) <= 0 && collate(t, u) <= 0 ==> collate(s, u) <= 0)
  }

  /** In every order column the rows hold valid dates only, or strings only. */
  predicate Uniform<T>(get: Getter<T>, order: seq<Order>, domain: set<T>) {
    forall o | o in order && o.column != "" :: UniformColumn(get, o.column, domain)
  }

  predicate ValidDate(cell: Option<Value>) {
    cell.Some? && cell.value.Time? && cell.value.ms.Some?
  }

  predicate UniformColumn<T>(get: Getter<T>, column: string, domain: set<T>) {
    || (forall a | a in domain :: ValidDate(get(a, column)))
    || (forall a | a in domain :: get(a, column).Some? && get(a, column).value.Str?)
  }

  /** One uniform column, in either direction, is a total preorder. */
  lemma UniformColumnConsistent<T(!new)>(get: Getter<T>, collate: Collation, o: Order, domain: set<T>, a: T, b: T, c: T)
    requires ConsistentCollation(collate) && UniformColumn(get, o.column, domain)
    requires a in domain && b in domain && c in domain
    ensures var sign := Direction(o);
            var ab := sign * CompareCells(collate, get(a, o.column), get(b, o.column));
            var ba := sign * CompareCells(collate, get(b, o.column), get(a, o.column));
            var bc := sign * CompareCells(collate, get(b, o.column), get(c, o.column));
            var ac := sign * CompareCells(collate, get(a, o.column), get(c, o.column));
            && (ab < 0 <==> ba > 0) && (ab == 0 <==> ba == 0)
            && (ab <= 0 && bc <= 0 ==> ac <= 0)
            && (ab <= 0 && bc <= 0 && ac == 0 ==> ab == 0 && bc == 0)
  {
    var ca, cb, cc := get(a, o.column).value, get(b, o.column).value, get(c, o.column).value;
    if ca.Str? && cb.Str? && cc.Str? {
      var s, t, u := ca.s, cb.s, cc.s;
      assert collate(s, t) <= 0 && collate(t, u) <= 0 ==> collate(s, u) <= 0;
      assert collate(u, t) <= 0 && collate(t, s) <= 0 ==> collate(u, s) <= 0;
      assert collate(u, s) <= 0 && collate(s, t) <= 0 ==> collate(u, t) <= 0;
      assert collate(t, u) <= 0 && collate(u, s) <= 0 ==> collate(t, s) <= 0;
      assert collate(s, u) <= 0 && collate(u, t) <= 0 ==> collate(s, t) <= 0;
      assert collate(t, s) <= 0 && collate(s, u) <= 0 ==> collate(t, u) <= 0;
    }
  }

  lemma {:induction false} CompareRowsConsistent<T(!new)>(get: Getter<T>, collate: Collation, order: seq<Order>,
                                                         domain: set<T>, a: T, b: T, c: T)
    requires ConsistentCollation(collate) && Uniform(get, order, domain)
    requires a in domain && b in domain && c in domain
    ensures var ab, ba := CompareRows(get, collate, order, a, b), CompareRows(get, collate, order, b, a);
            var bc, ac := CompareRows(get, collate, order, b, c), CompareRows(get, collate, order, a, c);
            && (ab < 0 <==> ba > 0) && (ab == 0 <==> ba == 0)
            && (ab <= 0 && bc <= 0 ==> ac <= 0)
            && (ab <= 0 && bc <= 0 && ac == 0 ==> ab == 0 && bc == 0)
  {
    if order != [] && order[0].column != "" {
      assert order[0] in order;
      UniformColumnConsistent(get, collate, order[0], domain, a, b, c);
      CompareRowsConsistent(get, collate, order[1..], domain, a, b, c);
    }
  }

  /** With order columns present and uniformly typed, the comparator is a total preorder. */
  lemma ComparatorConsistent<T(!new)>(get: Getter<T>, collate: Collation, order: seq<Order>, domain: set<T>)
    requires ConsistentCollation(collate) && Uniform(get, order, domain)
    ensures Consistent((a: T, b: T) => CompareRows(get, collate, order, a, b), domain)
  {
    hide CompareRows, Uniform;
    forall a, b | a in domain && b in domain
      ensures Opposite((a: T, b: T) => CompareRows(get, collate, order, a, b), a, b)
    {
      CompareRowsConsistent(get, collate, order, domain, a, b, a);
    }
    forall a, b, c | a in domain && b in domain && c in domain
      && CompareRows(get, collate, order, a, b) <= 0 && CompareRows(get, collate, order, b, c) <= 0
      ensures CompareRows(get, collate, order, a, c) <= 0
    {
      CompareRowsConsistent(get, collate, order, domain, a, b, c);
    }
  }

  lemma CompareOneColumn<T>(get: Getter<T>, collate: Collation, o: Order, a: T, b: T)
    requires o.column != ""
    ensures CompareRows(get, collate, [o], a, b)
            == Direction(o) * CompareCells(collate, get(a, o.column), get(b, o.column))
  {
    assert [o][1..] == [];
  }

  /**
    A row without the date, or with an invalid one, compares equal to one dated other than 1970's start; the other way
    round only the invalid one does.
   */
  lemma MissingDateInconsistent<T>(get: Getter<T>, collate: Collation, o: Order, dated: T, undated: T, invalid: T)
    requires o.column != "" && get(undated, o.column) == None
    requires get(invalid, o.column).Some? && get(invalid, o.column).value.Time? && !ValidDate(get(invalid, o.column))
    requires ValidDate(get(dated, o.column)) && get(dated, o.column).value.ms != Some(0)
    ensures var cmp := (a: T, b: T) => CompareRows(get, collate, [o], a, b);
            && cmp(undated, dated) == 0 && cmp(dated, undated) != 0 && !Opposite(cmp, undated, dated)
            && cmp(undated, invalid) == cmp(invalid, undated) == cmp(invalid, dated) == cmp(dated, invalid) == 0
  {
    CompareOneColumn(get, collate, o, undated, dated);
    CompareOneColumn(get, collate, o, dated, undated);
    CompareOneColumn(get, collate, o, undated, invalid);
    CompareOneColumn(get, collate, o, invalid, undated);
    CompareOneColumn(get, collate, o, invalid, dated);
    CompareOneColumn(get, collate, o, dated, invalid);
  }

  /** The cell of a date column: a date, valid or not, `null` or nothing. */
  predicate DateCell(cell: Option<Value>) {
    cell.Some? ==> cell.value.Time? || cell.value.Null?
  }

  /** A `null` or nothing: what a valid date is compared with as if it were 0. */
  predicate Undated(cell: Option<Value>) {
    cell.None? || cell.value.Null?
  }

  /** The column orders the rows: each has a valid date or `null`, which counts as 0. */
  predicate DatesOrder<T>(get: Getter<T>, column: string, domain: set<T>) {
    forall a | a in domain :: ValidDate(get(a, column)) || get(a, column) == Some(Null)
  }

  /** The column tells no two rows apart: all valid dates are one, which is 0 beside a row without a date. */
  predicate DatesTie<T>(get: Getter<T>, column: string, domain: set<T>) {
    && (forall a, b | a in domain && b in domain && ValidDate(get(a, column)) && ValidDate(get(b, column)) ::
          get(a, column).value.ms == get(b, column).value.ms)
    && (forall a, b | a in domain && b in domain && ValidDate(get(a, column)) && Undated(get(b, column)) ::
          get(a, column).value.ms == Some(0))
  }

  /** Sorting by a date column is consistent exactly when the column orders the rows or tells no two of them apart. */
  lemma DateColumnConsistentIff<T(!new)>(get: Getter<T>, collate: Collation, o: Order, domain: set<T>)
    requires o.column != "" && forall a | a in domain :: DateCell(get(a, o.column))
    ensures Consistent((a: T, b: T) => CompareRows(get, collate, [o], a, b), domain)
            <==> DatesOrder(get, o.column, domain) || DatesTie(get, o.column, domain)
  {
    if DatesOrder(get, o.column, domain) {
      DatesOrdered(get, collate, o, domain);
    } else if DatesTie(get, o.column, domain) {
      DatesTied(get, collate, o, domain);
    } else {
      var gap :| gap in domain && !ValidDate(get(gap, o.column)) && get(gap, o.column) != Some(Null);
      DatesPart(get, collate, o, domain, gap);
    }
  }

  function TimeOf(cell: Option<Value>): int {
    if ValidDate(cell) then cell.value.ms.value else 0
  }

  lemma DatesOrdered<T(!new)>(get: Getter<T>, collate: Collation, o: Order, domain: set<T>)
    requires o.column != "" && DatesOrder(get, o.column, domain)
    ensures Consistent((a: T, b: T) => CompareRows(get, collate, [o], a, b), domain)
  {
    hide CompareRows, Direction;
    var cmp := (a: T, b: T) => CompareRows(get, collate, [o], a, b);
    forall a, b | a in domain && b in domain
      ensures cmp(a, b) == Direction(o) * (TimeOf(get(a, o.column)) - TimeOf(get(b, o.column)))
    {
      CompareOneColumn(get, collate, o, a, b);
    }
    hide CompareCells, TimeOf, DatesOrder;
    assert Direction(o) == 1 || Direction(o) == -1 by { DirectionIs(o); }
    forall a, b | a in domain && b in domain ensures Opposite(cmp, a, b) {}
  }

  lemma DirectionIs(o: Order)
    ensures Direction(o) == 1 || Direction(o) == -1
  {
  }

  lemma DatesTied<T(!new)>(get: Getter<T>, collate: Collation, o: Order, domain: set<T>)
    requires o.column != "" && forall a | a in domain :: DateCell(get(a, o.column))
    requires DatesTie(get, o.column, domain)
    ensures Consistent((a: T, b: T) => CompareRows(get, collate, [o], a, b), domain)
  {
    hide CompareRows;
    var cmp := (a: T, b: T) => CompareRows(get, collate, [o], a, b);
    forall a, b | a in domain && b in domain ensures cmp(a, b) == 0 {
      CompareOneColumn(get, collate, o, a, b);
    }
    hide *;
    AllTied(cmp, domain);
  }

  lemma AllTied<T(!new)>(cmp: Comparison<T>, domain: set<T>)
    requires forall a, b | a in domain && b in domain :: cmp(a, b) == 0
    ensures Consistent(cmp, domain)
  {
  }

  /** A row without a valid date or `null` ties rows that the column tells apart. */
  lemma DatesPart<T(!new)>(get: Getter<T>, collate: Collation, o: Order, domain: set<T>, gap: T)
    requires o.column != "" && forall a | a in domain :: DateCell(get(a, o.column))
    requires gap in domain && !ValidDate(get(gap, o.column)) && get(gap, o.column) != Some(Null)
    requires !DatesTie(get, o.column, domain)
    ensures !Consistent((a: T, b: T) => CompareRows(get, collate, [o], a, b), domain)
  {
    hide CompareRows;
    var cmp := (a: T, b: T) => CompareRows(get, collate, [o], a, b);
    forall a, b ensures cmp(a, b) == Direction(o) * CompareCells(collate, get(a, o.column), get(b, o.column)) {
      CompareOneColumn(get, collate, o, a, b);
    }
    var a, b :| a in domain && b in domain && ValidDate(get(a, o.column)) &&
                  if ValidDate(get(b, o.column)) then get(a, o.column).value.ms != get(b, o.column).value.ms
                  else Undated(get(b, o.column)) && get(a, o.column).value.ms != Some(0);
    var ca, cb, cg := get(a, o.column), get(b, o.column), get(gap, o.column);
    var m := ca.value.ms;
    assert m == Some(m.value);
    if ValidDate(cb) {
      assert cb.value.ms == Some(cb.value.ms.value);
    } else {
      assert Undated(cb) && m.value != 0;
    }
    assert cmp(a, b) != 0;
    assert !(Opposite(cmp, a, b) && Opposite(cmp, gap, a) && Opposite(cmp, gap, b)) || cmp(a, gap) == cmp(gap, b) == 0;
  }

  /** The cell of a text column: a text, `null` or nothing. */
  predicate TextCell(cell: Option<Value>) {
    cell.Some? ==> cell.value.Str? || cell.value.Null?
  }

  predicate HasText(cell: Option<Value>) {
    cell.Some? && cell.value.Str?
  }

  /** `Number(s) || 0` */
  function NumberOrZero(s: string): int {
    match NumberOf(s) case Some(n) => n case None => 0
  }

  predicate SameSign(x: int, y: int) {
    (x < 0 <==> y < 0) && (x == 0 <==> y == 0)
  }

  /** How a text collates with the words that stand for a missing text, and how it compares with 0. */
  predicate TextsFit<T>(get: Getter<T>, collate: Collation, column: string, domain: set<T>) {
    forall a, b | a in domain && b in domain && HasText(get(a, column)) ::
      TextFits(collate, get(a, column).value.s, get(b, column))
  }

  predicate TextFits(collate: Collation, s: string, other: Option<Value>) {
    && (other == None ==> collate(s, "undefined") == 0)
    && (other == Some(Null) ==> SameSign(collate(s, "null"), NumberOrZero(s)))
  }

  predicate Has<T>(get: Getter<T>, column: string, domain: set<T>, cell: Option<Value>) {
    exists a | a in domain :: get(a, column) == cell
  }

  /**
    A text meets a missing one as a word, `undefined` or `null`; a missing one meets a text as its number, or as equal.
    Sorting by a text column is consistent exactly when the two agree, and, with rows of both kinds missing, when all
    texts tie with both.
   */
  lemma TextColumnConsistentIff<T(!new)>(get: Getter<T>, collate: Collation, o: Order, domain: set<T>)
    requires o.column != "" && ConsistentCollation(collate)
    requires forall a | a in domain :: TextCell(get(a, o.column))
    ensures Consistent((a: T, b: T) => CompareRows(get, collate, [o], a, b), domain)
            <==> TextsFit(get, collate, o.column, domain)
                 && (Has(get, o.column, domain, None) && Has(get, o.column, domain, Some(Null)) ==>
                       forall a | a in domain && HasText(get(a, o.column)) ::
                         collate(get(a, o.column).value.s, "null") == 0)
  {
    var cmp := (a: T, b: T) => CompareRows(get, collate, [o], a, b);
    var none, nil := Has(get, o.column, domain, None), Has(get, o.column, domain, Some(Null));
    var tied := forall a | a in domain && HasText(get(a, o.column)) :: collate(get(a, o.column).value.s, "null") == 0;
    if Consistent(cmp, domain) {
      TextsFitIfConsistent(get, collate, o, domain);
    } else if TextsFit(get, collate, o.column, domain) && !none {
      TextsOrdered(get, collate, o, domain);
    } else if TextsFit(get, collate, o.column, domain) && (none && nil ==> tied) {
      TextsTied(get, collate, o, domain);
    }
  }

  lemma TextsFitIfConsistent<T(!new)>(get: Getter<T>, collate: Collation, o: Order, domain: set<T>)
    requires o.column != "" && ConsistentCollation(collate)
    requires forall a | a in domain :: TextCell(get(a, o.column))
    requires Consistent((a: T, b: T) => CompareRows(get, collate, [o], a, b), domain)
    ensures TextsFit(get, collate, o.column, domain)
    ensures Has(get, o.column, domain, None) && Has(get, o.column, domain, Some(Null)) ==>
              forall a | a in domain && HasText(get(a, o.column)) :: collate(get(a, o.column).value.s, "null") == 0
  {
    hide CompareRows, Consistent, NumberOf, ConsistentCollation;
    var cmp := (a: T, b: T) => CompareRows(get, collate, [o], a, b);
    forall a, b | a in domain && b in domain && HasText(get(a, o.column))
      ensures TextFits(collate, get(a, o.column).value.s, get(b, o.column))
    {
      CompareOneColumn(get, collate, o, a, b);
      CompareOneColumn(get, collate, o, b, a);
      ConsistentAt(cmp, domain, a, b, a);
    }
    if absent, nil :| absent in domain && get(absent, o.column) == None
                      && nil in domain && get(nil, o.column) == Some(Null) {
      forall a | a in domain && HasText(get(a, o.column)) ensures collate(get(a, o.column).value.s, "null") == 0 {
        CompareOneColumn(get, collate, o, a, absent);
        CompareOneColumn(get, collate, o, absent, a);
        CompareOneColumn(get, collate, o, nil, absent);
        CompareOneColumn(get, collate, o, absent, nil);
        CompareOneColumn(get, collate, o, a, nil);
        assert TextFits(collate, get(a, o.column).value.s, get(absent, o.column));
        ConsistentAt(cmp, domain, a, absent, nil);
        ConsistentAt(cmp, domain, nil, absent, a);
        ConsistentAt(cmp, domain, a, nil, a);
      }
    }
  }

  /** With no row lacking the cell, `null` is sorted as the word. */
  lemma TextsOrdered<T(!new)>(get: Getter<T>, collate: Collation, o: Order, domain: set<T>)
    requires o.column != "" && ConsistentCollation(collate)
    requires forall a | a in domain :: TextCell(get(a, o.column)) && get(a, o.column).Some?
    requires TextsFit(get, collate, o.column, domain)
    ensures Consistent((a: T, b: T) => CompareRows(get, collate, [o], a, b), domain)
  {
    hide CompareRows, NumberOf, Direction, ConsistentCollation;
    var cmp := (a: T, b: T) => CompareRows(get, collate, [o], a, b);
    forall a, b | a in domain && b in domain
      ensures SameSign(cmp(a, b), Direction(o) * collate(TextOf(get(a, o.column)), TextOf(get(b, o.column))))
    {
      CompareOneColumn(get, collate, o, a, b);
      DirectionIs(o);
      if HasText(get(b, o.column)) && !HasText(get(a, o.column)) {
        assert TextFits(collate, get(b, o.column).value.s, get(a, o.column));
      }
      CollationAt(collate, TextOf(get(a, o.column)), TextOf(get(b, o.column)), TextOf(get(b, o.column)));
      CollationAt(collate, TextOf(get(a, o.column)), TextOf(get(a, o.column)), TextOf(get(b, o.column)));
    }
    hide CompareCells, TextOf, TextsFit, TextCell;
    forall a, b | a in domain && b in domain ensures Opposite(cmp, a, b) {
      DirectionIs(o);
      CollationAt(collate, TextOf(get(a, o.column)), TextOf(get(b, o.column)), TextOf(get(b, o.column)));
    }
    forall a, b, c | a in domain && b in domain && c in domain && cmp(a, b) <= 0 && cmp(b, c) <= 0
      ensures cmp(a, c) <= 0
    {
      DirectionIs(o);
      CollationAt(collate, TextOf(get(a, o.column)), TextOf(get(b, o.column)), TextOf(get(c, o.column)));
    }
  }

  lemma CollationAt(collate: Collation, s: string, t: string, u: string)
    requires ConsistentCollation(collate)
    ensures collate(s, s) == 0
    ensures (collate(s, t) < 0 <==> collate(t, s) > 0) && (collate(s, t) == 0 <==> collate(t, s) == 0)
    ensures collate(s, t) > 0 <==> collate(t, s) < 0
    ensures collate(s, t) <= 0 && collate(t, u) <= 0 ==> collate(s, u) <= 0
    ensures collate(t, s) <= 0 && collate(u, t) <= 0 ==> collate(u, s) <= 0
    ensures collate(s, t) >= 0 && collate(t, u) >= 0 ==> collate(s, u) >= 0
  {
    assert collate(s, s) < 0 <==> collate(s, s) > 0;
    assert collate(t, s) < 0 <==> collate(s, t) > 0;
    assert collate(u, t) < 0 <==> collate(t, u) > 0;
    assert collate(t, u) < 0 <==> collate(u, t) > 0;
    assert collate(u, s) < 0 <==> collate(s, u) > 0;
    assert collate(s, u) < 0 <==> collate(u, s) > 0;
    assert collate(u, t) <= 0 && collate(t, s) <= 0 ==> collate(u, s) <= 0;
  }

  /** With a row that lacks the cell, no two rows are told apart. */
  lemma TextsTied<T(!new)>(get: Getter<T>, collate: Collation, o: Order, domain: set<T>)
    requires o.column != "" && ConsistentCollation(collate)
    requires forall a | a in domain :: TextCell(get(a, o.column))
    requires TextsFit(get, collate, o.column, domain) && Has(get, o.column, domain, None)
    requires Has(get, o.column, domain, Some(Null)) ==>
               forall a | a in domain && HasText(get(a, o.column)) :: collate(get(a, o.column).value.s, "null") == 0
    ensures Consistent((a: T, b: T) => CompareRows(get, collate, [o], a, b), domain)
  {
    hide CompareRows, NumberOf, ConsistentCollation;
    var cmp := (a: T, b: T) => CompareRows(get, collate, [o], a, b);
    var absent :| absent in domain && get(absent, o.column) == None;
    forall a, b | a in domain && b in domain ensures cmp(a, b) == 0 {
      CompareOneColumn(get, collate, o, a, b);
      var ca, cb := get(a, o.column), get(b, o.column);
      if HasText(ca) {
        assert TextFits(collate, ca.value.s, None) by { assert TextFits(collate, ca.value.s, get(absent, o.column)); }
        assert TextFits(collate, ca.value.s, cb);
      }
      if HasText(cb) {
        assert TextFits(collate, cb.value.s, None) by { assert TextFits(collate, cb.value.s, get(absent, o.column)); }
        assert TextFits(collate, cb.value.s, ca);
      }
      if HasText(ca) && HasText(cb) {
        CollationAt(collate, ca.value.s, "undefined", cb.value.s);
        CollationAt(collate, "undefined", cb.value.s, cb.value.s);
      }
    }
    hide *;
    AllTied(cmp, domain);
  }

  /** The rows the first comparison does not tell apart from `r`. */
  function TiedWith<T>(first: Comparison<T>, domain: set<T>, r: T): set<T> {
    set a | a in domain && first(a, r) == 0
  }

  /** `both` asks `first`, and `second` only where `first` makes no difference. */
  ghost predicate InTurn<T(!new)>(first: Comparison<T>, second: Comparison<T>, both: Comparison<T>) {
    forall a, b :: both(a, b) == if first(a, b) != 0 then first(a, b) else second(a, b)
  }

  lemma TiesAreClasses<T(!new)>(first: Comparison<T>, domain: set<T>, r: T, a: T, b: T)
    requires Consistent(first, domain) && r in domain && a in domain && b in domain && first(a, r) == 0
    ensures b in TiedWith(first, domain, r) <==> first(a, b) == 0
  {
    hide Consistent;
    ConsistentAt(first, domain, a, r, b);
    ConsistentAt(first, domain, r, a, b);
    ConsistentAt(first, domain, b, r, a);
    ConsistentAt(first, domain, b, a, r);
    ConsistentAt(first, domain, a, b, r);
    ConsistentAt(first, domain, r, b, a);
  }

  lemma InTurnConsistentIff<T(!new)>(first: Comparison<T>, second: Comparison<T>, both: Comparison<T>, domain: set<T>)
    requires Consistent(first, domain) && InTurn(first, second, both)
    ensures Consistent(both, domain) <==>
            forall r | r in domain :: Consistent(second, TiedWith(first, domain, r))
  {
    if Consistent(both, domain) {
      forall r | r in domain ensures Consistent(second, TiedWith(first, domain, r)) {
        var ties := TiedWith(first, domain, r);
        forall a, b | a in ties && b in ties
          ensures both(a, b) == second(a, b) && both(b, a) == second(b, a) && Opposite(second, a, b)
        {
          TiesAreClasses(first, domain, r, a, b);
          TiesAreClasses(first, domain, r, b, a);
          assert Opposite(both, a, b);
        }
      }
    } else if forall r | r in domain :: Consistent(second, TiedWith(first, domain, r)) {
      forall a, b | a in domain && b in domain ensures Opposite(both, a, b) {
        InTurnAt(first, second, both, domain, a, b, b);
      }
      forall a, b, c | a in domain && b in domain && c in domain && both(a, b) <= 0 && both(b, c) <= 0
        ensures both(a, c) <= 0
      {
        InTurnAt(first, second, both, domain, a, b, c);
      }
    }
  }

  lemma InTurnAt<T(!new)>(first: Comparison<T>, second: Comparison<T>, both: Comparison<T>, domain: set<T>, a: T, b: T,
                          c: T)
    requires Consistent(first, domain) && InTurn(first, second, both)
    requires forall r | r in domain :: Consistent(second, TiedWith(first, domain, r))
    requires a in domain && b in domain && c in domain
    ensures Opposite(both, a, b)
    ensures both(a, b) <= 0 && both(b, c) <= 0 ==> both(a, c) <= 0
  {
    hide Consistent;
    var ties := TiedWith(first, domain, a);
    ConsistentAt(first, domain, a, a, a);
    TiesAreClasses(first, domain, a, a, b);
    TiesAreClasses(first, domain, a, a, c);
    ConsistentAt(first, domain, a, b, c);
    ConsistentAt(first, domain, c, a, b);
    ConsistentAt(first, domain, b, c, a);
    if b in ties {
      ConsistentAt(second, ties, a, b, b);
      if c in ties {
        TiesAreClasses(first, domain, a, b, c);
        ConsistentAt(second, ties, a, b, c);
      }
    }
  }

  /**
    Several order columns, the first of them consistent: the rows are ordered consistently exactly when the other
    columns order each group of rows that the first one ties.
   */
  lemma ColumnsConsistentIff<T(!new)>(get: Getter<T>, collate: Collation, order: seq<Order>, domain: set<T>)
    requires order != [] && order[0].column != ""
    requires Consistent((a: T, b: T) => CompareRows(get, collate, [order[0]], a, b), domain)
    ensures Consistent((a: T, b: T) => CompareRows(get, collate, order, a, b), domain) <==>
            forall r | r in domain ::
              Consistent((a: T, b: T) => CompareRows(get, collate, order[1..], a, b),
                         TiedWith((a: T, b: T) => CompareRows(get, collate, [order[0]], a, b), domain, r))
  {
    var first: Comparison<T> := (a: T, b: T) => CompareRows(get, collate, [order[0]], a, b);
    var second: Comparison<T> := (a: T, b: T) => CompareRows(get, collate, order[1..], a, b);
    var both: Comparison<T> := (a: T, b: T) => CompareRows(get, collate, order, a, b);
    forall a, b ensures both(a, b) == if first(a, b) != 0 then first(a, b) else second(a, b) {
      CompareOneColumn(get, collate, order[0], a, b);
    }
    hide *;
    InTurnIs(first, second, both);
    InTurnConsistentIff(first, second, both, domain);
  }

  /**
    An inconsistent first column can be made up for: a row dated other than 0 and one without the date are ordered
    consistently exactly when the later columns, which decide in one direction only, give the order that the date gives
    in the other.
   */
  lemma MissingDateMaskedIff<T(!new)>(get: Getter<T>, collate: Collation, o: Order, later: seq<Order>, dated: T,
                                      undated: T)
    requires o.column != "" && get(undated, o.column) == None
    requires ValidDate(get(dated, o.column)) && get(dated, o.column).value.ms.value != 0
    ensures var rest := (a: T, b: T) => CompareRows(get, collate, later, a, b);
            Consistent((a: T, b: T) => CompareRows(get, collate, [o] + later, a, b), {dated, undated}) <==>
              && rest(dated, dated) == 0 && rest(undated, undated) == 0
              && rest(undated, dated) != 0
              && (rest(undated, dated) < 0 <==> Direction(o) * get(dated, o.column).value.ms.value > 0)
  {
    var both := (a: T, b: T) => CompareRows(get, collate, [o] + later, a, b);
    var rest := (a: T, b: T) => CompareRows(get, collate, later, a, b);
    var ms := get(dated, o.column).value.ms.value;
    assert ([o] + later)[1..] == later;
    assert both(dated, undated) == Direction(o) * ms && both(undated, dated) == rest(undated, dated);
    assert both(dated, dated) == rest(dated, dated) && both(undated, undated) == rest(undated, undated);
    hide CompareRows, CompareCells;
    if Consistent(both, {dated, undated}) {
      assert Opposite(both, dated, undated) && Opposite(both, undated, dated);
      assert Opposite(both, dated, dated) && Opposite(both, undated, undated);
    }
  }

  lemma InTurnIs<T(!new)>(first: Comparison<T>, second: Comparison<T>, both: Comparison<T>)
    requires forall a, b :: both(a, b) == if first(a, b) != 0 then first(a, b) else second(a, b)
    ensures InTurn(first, second, both)
  {
  }

  /** In one column `a` belongs strictly before `b`, in the direction asked for. */
  predicate Precedes<T>(get: Getter<T>, collate: Collation, o: Order, a: T, b: T) {
    var (x, y) := if o.descending then (get(b, o.column), get(a, o.column)) else (get(a, o.column), get(b, o.column));
    x.Some? && y.Some? &&
    match (x.value, y.value)
    case (Time(s, _), Time(t, _)) => s.Some? && t.Some? && s.value < t.value
    case (Str(s), Str(t)) => collate(s, t) < 0
    case _ => false
  }

  /** A row comes first when it does so in some order column and all earlier columns leave the two rows tied. */
  lemma {:induction false} OrderMeaning<T(!new)>(get: Getter<T>, collate: Collation, order: seq<Order>, a: T, b: T)
    requires ConsistentCollation(collate) && Uniform(get, order, {a, b}) && forall o | o in order :: o.column != ""
    ensures CompareRows(get, collate, order, a, b) < 0 <==> FirstPrecedes(get, collate, order, a, b)
  {
    if order != [] {
      var o := order[0];
      assert UniformColumn(get, o.column, {a, b});
      OrderMeaning(get, collate, order[1..], a, b);
      UniformColumnConsistent(get, collate, o, {a, b}, a, b, a);
      var x, y := get(a, o.column).value, get(b, o.column).value;
      assert Precedes(get, collate, o, a, b) <==>
             Direction(o) * CompareCells(collate, Some(x), Some(y)) < 0;
      assert Precedes(get, collate, o, b, a) <==>
             Direction(o) * CompareCells(collate, Some(x), Some(y)) > 0;
      FirstPrecedesCons(get, collate, order, a, b);
    }
  }

  ghost predicate FirstPrecedes<T(!new)>(get: Getter<T>, collate: Collation, order: seq<Order>, a: T, b: T) {
    exists i | 0 <= i < |order| :: PrecedesAt(get, collate, order, a, b, i)
  }

  ghost predicate PrecedesAt<T(!new)>(get: Getter<T>, collate: Collation, order: seq<Order>, a: T, b: T, i: nat)
    requires i < |order|
  {
    && Precedes(get, collate, order[i], a, b)
    && forall o | o in order[..i] :: !Precedes(get, collate, o, a, b) && !Precedes(get, collate, o, b, a)
  }

  lemma FirstPrecedesCons<T(!new)>(get: Getter<T>, collate: Collation, order: seq<Order>, a: T, b: T)
    requires order != []
    ensures FirstPrecedes(get, collate, order, a, b) <==>
            Precedes(get, collate, order[0], a, b)
            || (!Precedes(get, collate, order[0], b, a) && FirstPrecedes(get, collate, order[1..], a, b))
  {
    hide Precedes;
    var rest := order[1..];
    if Precedes(get, collate, order[0], a, b) {
      assert PrecedesAt(get, collate, order, a, b, 0);
    }
    if i :| 0 < i < |order| && PrecedesAt(get, collate, order, a, b, i) {
      assert order[0] in order[..i];
      assert forall o | o in rest[..i - 1] :: o in order[..i];
      assert PrecedesAt(get, collate, rest, a, b, i - 1);
    }
    if !Precedes(get, collate, order[0], a, b) && !Precedes(get, collate, order[0], b, a) {
      if i :| 0 <= i < |rest| && PrecedesAt(get, collate, rest, a, b, i) {
        assert order[..i + 1] == [order[0]] + rest[..i];
        assert PrecedesAt(get, collate, order, a, b, i + 1);
      }
    }
  }

  // ---------------------------------------------------------------- stable sorting

  function Insert<T>(cmp: Comparison<T>, x: T, sorted: seq<T>): seq<T> {
    if sorted == [] || cmp(x, sorted[0]) <= 0 then [x] + sorted else [sorted[0]] + Insert(cmp, x, sorted[1..])
  }

  /** A stable sort, standing for the runtime's. */
  function StableSort<T>(cmp: Comparison<T>, s: seq<T>): seq<T> {
    if s == [] then [] else Insert(cmp, s[0], StableSort(cmp, s[1..]))
  }

  ghost predicate Sorted<T>(cmp: Comparison<T>, s: seq<T>) {
    forall i, j | 0 <= i < j < |s| :: cmp(s[i], s[j]) <= 0
  }

  /** The elements the comparison does not tell apart from `r`, in order. */
  function Peers<T>(cmp: Comparison<T>, s: seq<T>, r: T): seq<T> {
    if s == [] then [] else (if cmp(s[0], r) == 0 then [s[0]] else []) + Peers(cmp, s[1..], r)
  }

  /** A rearrangement that keeps elements the comparison does not tell apart in their original order. */
  ghost predicate StableRearrangement<T(!new)>(cmp: Comparison<T>, before: seq<T>, after: seq<T>) {
    && multiset(before) == multiset(after)
    && forall r | r in before :: Peers(cmp, after, r) == Peers(cmp, before, r)
  }

  ghost predicate Within<T>(s: seq<T>, domain: set<T>) {
    forall x | x in s :: x in domain
  }

  lemma ConsistentAt<T(!new)>(cmp: Comparison<T>, domain: set<T>, a: T, b: T, c: T)
    requires Consistent(cmp, domain) && a in domain && b in domain && c in domain
    ensures (cmp(a, b) < 0 <==> cmp(b, a) > 0) && (cmp(a, b) == 0 <==> cmp(b, a) == 0)
    ensures cmp(a, b) <= 0 && cmp(b, c) <= 0 ==> cmp(a, c) <= 0
  {
    assert Opposite(cmp, a, b);
  }

  lemma {:induction false} InsertMembers<T(!new)>(cmp: Comparison<T>, x: T, s: seq<T>)
    ensures multiset(Insert(cmp, x, s)) == multiset{x} + multiset(s)
    ensures forall y | y in Insert(cmp, x, s) :: y == x || y in s
  {
    if s != [] && cmp(x, s[0]) > 0 {
      assert s == [s[0]] + s[1..];
      InsertMembers(cmp, x, s[1..]);
    }
  }

  ghost predicate AllAbove<T>(cmp: Comparison<T>, x: T, s: seq<T>) {
    forall y | y in s :: cmp(x, y) <= 0
  }

  lemma SortedCons<T>(cmp: Comparison<T>, x: T, s: seq<T>)
    ensures Sorted(cmp, [x] + s) <==> AllAbove(cmp, x, s) && Sorted(cmp, s)
  {
    var r := [x] + s;
    if AllAbove(cmp, x, s) && Sorted(cmp, s) {
      forall i, j | 0 <= i < j < |r| ensures cmp(r[i], r[j]) <= 0 {
        assert r[j] == s[j - 1];
        if i > 0 { assert r[i] == s[i - 1]; }
      }
    }
    if Sorted(cmp, r) {
      forall y | y in s ensures cmp(x, y) <= 0 {
        var k :| 0 <= k < |s| && s[k] == y;
        assert r[k + 1] == y && cmp(r[0], r[k + 1]) <= 0;
      }
      forall i, j | 0 <= i < j < |s| ensures cmp(s[i], s[j]) <= 0 {
        assert cmp(r[i + 1], r[j + 1]) <= 0;
      }
    }
  }

  lemma {:induction false} InsertSorts<T(!new)>(cmp: Comparison<T>, x: T, s: seq<T>, domain: set<T>)
    requires Consistent(cmp, domain) && x in domain && Within(s, domain) && Sorted(cmp, s)
    ensures Sorted(cmp, Insert(cmp, x, s))
  {
    hide Consistent, Sorted;
    if s == [] {
      SortedCons(cmp, x, []);
      SortedEmpty(cmp);
    } else {
      var rest := s[1..];
      assert s == [s[0]] + rest;
      assert s[0] in s && forall y | y in rest :: y in s;
      SortedCons(cmp, s[0], rest);
      if cmp(x, s[0]) <= 0 {
        forall y | y in s ensures cmp(x, y) <= 0 {
          ConsistentAt(cmp, domain, x, s[0], y);
        }
        SortedCons(cmp, x, s);
      } else {
        ConsistentAt(cmp, domain, x, s[0], x);
        InsertSorts(cmp, x, rest, domain);
        InsertMembers(cmp, x, rest);
        SortedCons(cmp, s[0], Insert(cmp, x, rest));
      }
    }
  }

  lemma SortedEmpty<T>(cmp: Comparison<T>)
    ensures Sorted(cmp, [])
  {
  }

  lemma PeersCons<T>(cmp: Comparison<T>, x: T, s: seq<T>, r: T)
    ensures Peers(cmp, [x] + s, r) == (if cmp(x, r) == 0 then [x] else []) + Peers(cmp, s, r)
  {
    assert ([x] + s)[1..] == s;
  }

  lemma {:induction false} InsertIsStable<T(!new)>(cmp: Comparison<T>, x: T, s: seq<T>, domain: set<T>, r: T)
    requires Consistent(cmp, domain) && x in domain && r in domain && Within(s, domain)
    ensures Peers(cmp, Insert(cmp, x, s), r) == (if cmp(x, r) == 0 then [x] else []) + Peers(cmp, s, r)
  {
    hide Consistent, Peers;
    PeersCons(cmp, x, s, r);
    if s != [] && cmp(x, s[0]) > 0 {
      var rest := s[1..];
      assert s == [s[0]] + rest;
      assert s[0] in s && forall y | y in rest :: y in s;
      InsertIsStable(cmp, x, rest, domain, r);
      PeersCons(cmp, s[0], rest, r);
      PeersCons(cmp, s[0], Insert(cmp, x, rest), r);
      ConsistentAt(cmp, domain, s[0], r, s[0]);
      ConsistentAt(cmp, domain, x, r, s[0]);
    }
  }

  /** The sort used here sorts, and stably. */
  lemma {:induction false} StableSortSorts<T(!new)>(cmp: Comparison<T>, s: seq<T>, domain: set<T>)
    requires Consistent(cmp, domain) && Within(s, domain)
    ensures Sorted(cmp, StableSort(cmp, s))
    ensures StableRearrangement(cmp, s, StableSort(cmp, s))
    ensures Within(StableSort(cmp, s), domain)
    ensures forall r | r in domain :: Peers(cmp, StableSort(cmp, s), r) == Peers(cmp, s, r)
  {
    hide Consistent, Sorted, Peers;
    if s == [] {
      SortedEmpty(cmp);
    } else {
      assert s == [s[0]] + s[1..];
      StableSortSorts(cmp, s[1..], domain);
      InsertSorts(cmp, s[0], StableSort(cmp, s[1..]), domain);
      InsertMembers(cmp, s[0], StableSort(cmp, s[1..]));
      forall r | r in domain ensures Peers(cmp, StableSort(cmp, s), r) == Peers(cmp, s, r) {
        PeersCons(cmp, s[0], s[1..], r);
        InsertIsStable(cmp, s[0], StableSort(cmp, s[1..]), domain, r);
      }
    }
  }

  lemma {:induction false} PeersMember<T(!new)>(cmp: Comparison<T>, s: seq<T>, r: T)
    ensures forall y | y in Peers(cmp, s, r) :: y in s && cmp(y, r) == 0
    ensures forall y | y in s && cmp(y, r) == 0 :: y in Peers(cmp, s, r)
  {
    if s != [] {
      PeersMember(cmp, s[1..], r);
    }
  }

  lemma HeadBelow<T(!new)>(cmp: Comparison<T>, a: seq<T>, b: seq<T>, domain: set<T>)
    requires Consistent(cmp, domain) && Within(a, domain) && Within(b, domain) && Sorted(cmp, a)
    requires b != [] && Peers(cmp, a, b[0]) == Peers(cmp, b, b[0])
    ensures a != [] && cmp(a[0], b[0]) <= 0
  {
    hide Consistent;
    assert b[0] in b;
    ConsistentAt(cmp, domain, b[0], b[0], b[0]);
    PeersMember(cmp, b, b[0]);
    PeersMember(cmp, a, b[0]);
    var i :| 0 <= i < |a| && a[i] == b[0];
    assert i > 0 ==> cmp(a[0], a[i]) <= 0;
  }

  /** Two sorted sequences with the same peers everywhere are the same sequence. */
  lemma {:induction false} SortedByPeers<T(!new)>(cmp: Comparison<T>, a: seq<T>, b: seq<T>, domain: set<T>)
    requires Consistent(cmp, domain) && Within(a, domain) && Within(b, domain)
    requires Sorted(cmp, a) && Sorted(cmp, b)
    requires forall r | r in domain :: Peers(cmp, a, r) == Peers(cmp, b, r)
    ensures a == b
  {
    hide Consistent, Sorted, Peers;
    if a != [] || b != [] {
      if a != [] { assert a[0] in a; HeadBelow(cmp, b, a, domain); }
      if b != [] { assert b[0] in b; HeadBelow(cmp, a, b, domain); }
      assert a[0] in a && b[0] in b;
      HeadBelow(cmp, b, a, domain);
      HeadBelow(cmp, a, b, domain);
      ConsistentAt(cmp, domain, a[0], b[0], a[0]);
      ConsistentAt(cmp, domain, a[0], a[0], a[0]);
      assert a == [a[0]] + a[1..] && b == [b[0]] + b[1..];
      PeersCons(cmp, a[0], a[1..], a[0]);
      PeersCons(cmp, b[0], b[1..], a[0]);
      assert Peers(cmp, a, a[0])[0] == a[0] && Peers(cmp, b, a[0])[0] == b[0];
      forall r | r in domain ensures Peers(cmp, a[1..], r) == Peers(cmp, b[1..], r) {
        PeersCons(cmp, a[0], a[1..], r);
        PeersCons(cmp, b[0], b[1..], r);
        var head := if cmp(a[0], r) == 0 then [a[0]] else [];
        assert Peers(cmp, a[1..], r) == Peers(cmp, a, r)[|head|..];
        assert Peers(cmp, b[1..], r) == Peers(cmp, b, r)[|head|..];
      }
      SortedCons(cmp, a[0], a[1..]);
      SortedCons(cmp, b[0], b[1..]);
      SortedByPeers(cmp, a[1..], b[1..], domain);
    }
  }

  /** Whatever algorithm the runtime uses: a stable sort of consistent input has only one possible outcome. */
  lemma StableSortUnique<T(!new)>(cmp: Comparison<T>, s: seq<T>, sorted: seq<T>, domain: set<T>)
    requires Consistent(cmp, domain) && domain == set x | x in s
    requires Sorted(cmp, sorted) && StableRearrangement(cmp, s, sorted)
    ensures sorted == StableSort(cmp, s)
  {
    StableSortSorts(cmp, s, domain);
    forall x | x in sorted ensures x in domain {
      assert x in multiset(sorted);
    }
    SortedByPeers(cmp, sorted, StableSort(cmp, s), domain);
  }

  // ---------------------------------------------------------------- windows

  /** `s.slice(start, end)` for non-negative bounds. */
  function Slice<T>(s: seq<T>, start: nat, end: nat): seq<T> {
    if start >= |s| || start >= end then [] else if end >= |s| then s[start..] else s[start..end]
  }

  /** The two successive slices of `buildQuery`. */
  function Window<T>(s: seq<T>, skip: nat, take: nat): seq<T> {
    var skipped := if skip > 0 then Slice(s, skip, |s|) else s;
    if take == 0 then skipped
    else
      var start := if skip > 0 then skip - 1 else 0;
      Slice(skipped, start, start + take)
  }

  /** Where the returned rows start. */
  function Offset(skip: nat, take: nat): nat {
    if take == 0 || skip <= 1 then skip else 2 * skip - 1
  }

  lemma SliceAt<T>(s: seq<T>, start: nat, end: nat)
    ensures |Slice(s, start, end)| ==
            if start >= |s| || start >= end then 0 else if end >= |s| then |s| - start else end - start
    ensures forall k | 0 <= k < |Slice(s, start, end)| :: Slice(s, start, end)[k] == s[start + k]
  {
  }

  lemma SliceOfSlice<T>(s: seq<T>, i: nat, j: nat, k: nat)
    ensures Slice(Slice(s, i, |s|), j, k) == Slice(s, i + j, i + k)
  {
    SliceAt(s, i, |s|);
    SliceAt(s, i + j, i + k);
    var t := Slice(s, i, |s|);
    SliceAt(t, j, k);
    hide Slice;
    var u := Slice(t, j, k);
    forall x | 0 <= x < |u| ensures u[x] == Slice(s, i + j, i + k)[x] {
      assert u[x] == t[j + x] == s[i + (j + x)];
    }
  }

  /** The window is one contiguous slice, but from `2 * skip - 1` on when both `skip >= 2` and `take` are given. */
  lemma WindowIsSlice<T>(s: seq<T>, skip: nat, take: nat)
    ensures Window(s, skip, take) ==
            Slice(s, Offset(skip, take), if take == 0 then |s| else Offset(skip, take) + take)
  {
    hide Slice;
    if skip == 0 {
      WholeSlice(s);
    } else {
      SliceOfSlice(s, skip, skip - 1, skip - 1 + take);
    }
  }

  lemma WholeSlice<T>(s: seq<T>)
    ensures Slice(s, 0, |s|) == s
  {
  }

  /** On distinct rows the window is the requested page exactly when it starts where it should or both are empty. */
  lemma WindowIsPageIff<T>(s: seq<T>, skip: nat, take: nat)
    requires forall i, j | 0 <= i < j < |s| :: s[i] != s[j]
    ensures Window(s, skip, take) == Slice(s, skip, if take == 0 then |s| else skip + take)
            <==> take == 0 || skip <= 1 || |s| <= skip
  {
    WindowIsSlice(s, skip, take);
    if take > 0 && skip > 1 && |s| > skip {
      var page := Slice(s, skip, skip + take);
      assert page[0] == s[skip];
      if 2 * skip - 1 < |s| {
        assert Window(s, skip, take)[0] == s[2 * skip - 1];
      }
    }
  }

  // ---------------------------------------------------------------- queries

  function Selected<T>(get: Getter<T>, re: RegExp, rows: seq<T>, filters: seq<Where>, columns: seq<string>, did: string)
    : seq<T>
  {
    if rows == [] then []
    else
      (if PassesAll(get, re, rows[0], filters) && Authorized(get, rows[0], columns, did) then [rows[0]] else [])
      + Selected(get, re, rows[1..], filters, columns, did)
  }

  /** What a query returns. An ill-formed filter is noticed as soon as there is a row to test it on. */
  function Query<T>(get: Getter<T>, re: RegExp, collate: Collation, rows: seq<T>, args: FindArgs, columns: seq<string>,
                    did: string)
    : Result<seq<T>, QueryError>
  {
    if rows != [] && FirstError(re, args.filters).Some? then Err(FirstError(re, args.filters).value)
    else
      var selected := Selected(get, re, rows, args.filters, columns, did);
      var sorted :=
        if args.order == [] then selected
        else StableSort((a: T, b: T) => CompareRows(get, collate, args.order, a, b), selected);
      Ok(Window(sorted, args.skip, args.take))
  }

  function FilterRows<T>(get: Getter<T>, re: RegExp, rows: seq<T>, filters: seq<Where>): seq<T> {
    if rows == [] then []
    else (if PassesAll(get, re, rows[0], filters) then [rows[0]] else []) + FilterRows(get, re, rows[1..], filters)
  }

  function AuthorizedRows<T>(get: Getter<T>, rows: seq<T>, columns: seq<string>, did: string): seq<T> {
    if rows == [] then []
    else
      (if Authorized(get, rows[0], columns, did) then [rows[0]] else [])
      + AuthorizedRows(get, rows[1..], columns, did)
  }

  lemma NoRows<T>(get: Getter<T>, re: RegExp, filters: seq<Where>, columns: seq<string>, did: string)
    ensures FilterRows(get, re, [], filters) == [] && AuthorizedRows(get, [], columns, did) == []
  {
  }

  lemma {:induction false} FilterRowsSnoc<T>(get: Getter<T>, re: RegExp, rows: seq<T>, row: T, filters: seq<Where>)
    ensures FilterRows(get, re, rows + [row], filters)
            == FilterRows(get, re, rows, filters) + if PassesAll(get, re, row, filters) then [row] else []
  {
    hide PassesAll;
    if rows != [] {
      assert (rows + [row])[1..] == rows[1..] + [row];
      FilterRowsSnoc(get, re, rows[1..], row, filters);
    }
  }

  lemma {:induction false} AuthorizedRowsSnoc<T>(get: Getter<T>, rows: seq<T>, row: T, columns: seq<string>,
                                                did: string)
    ensures AuthorizedRows(get, rows + [row], columns, did)
            == AuthorizedRows(get, rows, columns, did) + if Authorized(get, row, columns, did) then [row] else []
  {
    hide Authorized;
    if rows != [] {
      assert (rows + [row])[1..] == rows[1..] + [row];
      AuthorizedRowsSnoc(get, rows[1..], row, columns, did);
    }
  }

  lemma {:induction false} SelectedInTwoSteps<T>(get: Getter<T>, re: RegExp, rows: seq<T>, filters: seq<Where>,
                                                columns: seq<string>, did: string)
    ensures Selected(get, re, rows, filters, columns, did)
            == AuthorizedRows(get, FilterRows(get, re, rows, filters), columns, did)
  {
    if rows != [] {
      SelectedInTwoSteps(get, re, rows[1..], filters, columns, did);
      var rest := FilterRows(get, re, rows[1..], filters);
      if PassesAll(get, re, rows[0], filters) {
        assert FilterRows(get, re, rows, filters)[1..] == rest;
      } else {
        assert FilterRows(get, re, rows, filters) == rest;
      }
    }
  }

  lemma {:induction false} EveryoneAuthorized<T>(get: Getter<T>, rows: seq<T>, columns: seq<string>)
    ensures AuthorizedRows(get, rows, columns, "") == rows
  {
    if rows != [] {
      EveryoneAuthorized(get, rows[1..], columns);
    }
  }

  method BuildQuery<T>(get: Getter<T>, re: RegExp, collate: Collation, targetCollection: seq<T>, args: FindArgs,
                       authFilterColumns: seq<string>, authFilterValue: string)
    returns (r: Result<seq<T>, QueryError>)
    ensures r == Query(get, re, collate, targetCollection, args, authFilterColumns, authFilterValue)
  {
    hide PassesAll, Authorized, Window, StableSort, FirstError, FilterRows, AuthorizedRows, Selected, Slice;
    var filteredCollection: seq<T> := [];
    NoRows(get, re, args.filters, authFilterColumns, authFilterValue);
    for i := 0 to |targetCollection|
      invariant filteredCollection == FilterRows(get, re, targetCollection[..i], args.filters)
      invariant i > 0 ==> FirstError(re, args.filters).None?
    {
      var passes := BuildFilter(get, re, targetCollection[i], args.filters);
      if passes.Err? {
        return Err(passes.error);
      }
      FilterRowsSnoc(get, re, targetCollection[..i], targetCollection[i], args.filters);
      assert targetCollection[..i + 1] == targetCollection[..i] + [targetCollection[i]];
      if passes.value {
        filteredCollection := filteredCollection + [targetCollection[i]];
      }
    }
    assert targetCollection[..|targetCollection|] == targetCollection;
    SelectedInTwoSteps(get, re, targetCollection, args.filters, authFilterColumns, authFilterValue);
    EveryoneAuthorized(get, filteredCollection, authFilterColumns);
    if authFilterValue != "" {
      var visible: seq<T> := [];
      for i := 0 to |filteredCollection|
        invariant visible == AuthorizedRows(get, filteredCollection[..i], authFilterColumns, authFilterValue)
      {
        var target := filteredCollection[i];
        AuthorizedRowsSnoc(get, filteredCollection[..i], target, authFilterColumns, authFilterValue);
        assert filteredCollection[..i + 1] == filteredCollection[..i] + [target];
        if Authorized(get, target, authFilterColumns, authFilterValue) {
          visible := visible + [target];
        }
      }
      assert filteredCollection[..|filteredCollection|] == filteredCollection;
      filteredCollection := visible;
    }
    if |args.order| > 0 {
      filteredCollection := StableSort((a: T, b: T) => CompareRows(get, collate, args.order, a, b), filteredCollection);
    }
    ghost var sorted := filteredCollection;
    if args.skip > 0 {
      filteredCollection := Slice(filteredCollection, args.skip, |filteredCollection|);
    }
    if args.take > 0 {
      var start := if args.skip > 0 then args.skip - 1 else 0;
      var end := start + args.take;
      filteredCollection := Slice(filteredCollection, start, end);
    }
    WindowBySteps(sorted, args.skip, args.take);
    return Ok(filteredCollection);
  }

  lemma WindowBySteps<T>(s: seq<T>, skip: nat, take: nat)
    ensures Window(s, skip, take) ==
            var skipped := if skip > 0 then Slice(s, skip, |s|) else s;
            if take == 0 then skipped
            else var start := if skip > 0 then skip - 1 else 0; Slice(skipped, start, start + take)
  {
  }

  // ---------------------------------------------------------------- what queries mean

  lemma {:induction false} SelectedExactly<T(!new)>(get: Getter<T>, re: RegExp, rows: seq<T>, filters: seq<Where>,
                                                   columns: seq<string>, did: string)
    ensures forall x :: x in Selected(get, re, rows, filters, columns, did) <==>
              x in rows && PassesAll(get, re, x, filters) && Authorized(get, x, columns, did)
  {
    hide PassesAll, Authorized;
    if rows != [] {
      SelectedExactly(get, re, rows[1..], filters, columns, did);
    }
  }

  /** The row has the DID, or a list with the DID, in one of the columns. */
  predicate Names<T>(get: Getter<T>, x: T, columns: seq<string>, did: string) {
    exists column | column in columns ::
      var cell := get(x, column);
      cell == Some(Str(did)) || (cell.Some? && cell.value.List? && did in cell.value.items)
  }

  /** Who sees what: with an authorized DID, of the rows that pass exactly those that name it in one of the columns. */
  lemma VisibleExactly<T(!new)>(get: Getter<T>, re: RegExp, rows: seq<T>, filters: seq<Where>, columns: seq<string>,
                                did: string)
    ensures forall x :: x in Selected(get, re, rows, filters, columns, did) <==>
              && x in rows
              && (forall item | item in filters :: ItemError(re, item).None? && Passes(get, re, x, item))
              && (did != "" ==> Names(get, x, columns, did))
  {
    SelectedExactly(get, re, rows, filters, columns, did);
    hide Selected, Passes, ItemError;
    forall x ensures Authorized(get, x, columns, did) <==> did == "" || Names(get, x, columns, did) {
      forall column ensures did in AsArray(get(x, column)) <==>
        var cell := get(x, column);
        cell == Some(Str(did)) || (cell.Some? && cell.value.List? && did in cell.value.items)
      {
      }
    }
  }

  /**
    The meaning of a query whose order columns order the selected rows consistently: of the one stable sort of exactly
    the rows that pass the filter and the authorization check, the slice that starts at `Offset(skip, take)`.
   */
  lemma QueryMeaning<T(!new)>(get: Getter<T>, re: RegExp, collate: Collation, rows: seq<T>, args: FindArgs,
                              columns: seq<string>, did: string, sorted: seq<T>)
    requires FirstError(re, args.filters).None?
    requires args.order == [] ==> sorted == Selected(get, re, rows, args.filters, columns, did)
    requires var cmp := (a: T, b: T) => CompareRows(get, collate, args.order, a, b);
             args.order != [] ==>
               && Consistent(cmp, set x | x in Selected(get, re, rows, args.filters, columns, did))
               && Sorted(cmp, sorted)
               && StableRearrangement(cmp, Selected(get, re, rows, args.filters, columns, did), sorted)
    ensures Query(get, re, collate, rows, args, columns, did) ==
            Ok(Slice(sorted, Offset(args.skip, args.take),
                     if args.take == 0 then |sorted| else Offset(args.skip, args.take) + args.take))
  {
    hide PassesAll, Authorized, CompareRows, Window, Slice, StableSort, Consistent;
    var cmp := (a: T, b: T) => CompareRows(get, collate, args.order, a, b);
    var selected := Selected(get, re, rows, args.filters, columns, did);
    if args.order != [] {
      StableSortUnique(cmp, selected, sorted, set x | x in selected);
    }
    WindowIsSlice(sorted, args.skip, args.take);
  }
}
