/** The named scopes `has_ancestry` defines that do not depend on another
    record (`roots`, `ordered_by_ancestry` and the five depth scopes), and
    the depth cache validation. A scope's SQL condition is modelled as a
    predicate on rows and the query as a selection over a sequence of rows. */
module Scopes {
  import opened RubyValues
  import opened Options

  /** A stored record: SQL column name to column value. */
  type Row = map<string, Value>

  /** The SQL column a configured column option names: a Symbol and a String
      with the same text name the same column. Other values name none. */
  function ColumnName(column: Value): Option<string> {
    match column
    case Sym(name) => Some(name)
    case Str(name) => Some(name)
    case _ => None
  }

  /** The value of `column` in `row`; a column the row does not carry reads as NULL. */
  function Cell(row: Row, column: Value): Value {
    match ColumnName(column)
    case Some(name) => if name in row then row[name] else Nil
    case None => Nil
  }

  /** `ancestry_column: :tree` and `ancestry_column: "tree"` read the same column. */
  lemma SymbolAndStringNameSameColumn(row: Row, name: string)
    ensures Cell(row, Sym(name)) == Cell(row, Str(name))
    ensures name in row ==> Cell(row, Sym(name)) == row[name]
    ensures Cell(row, Int(0)) == Nil
  {
  }

  /** The rows a query with condition `p` returns: every row satisfying `p`,
      as often as it is stored, and nothing else. */
  function Select(rows: seq<Row>, p: Row -> bool): (r: seq<Row>)
    ensures forall row {:trigger multiset(r)[row]} :: multiset(r)[row] == if p(row) then multiset(rows)[row] else 0
    ensures forall row {:trigger row in r} :: row in r <==> row in rows && p(row)
  {
    if rows == [] then []
    else
      assert rows == [rows[0]] + rows[1..];
      (if p(rows[0]) then [rows[0]] else []) + Select(rows[1..], p)
  }

  /** Two conditions that never hold together select, between them, exactly
      what their disjunction selects. */
  lemma SelectDisjointUnion(rows: seq<Row>, p: Row -> bool, q: Row -> bool, either: Row -> bool)
    requires forall row :: either(row) <==> p(row) || q(row)
    requires forall row :: !(p(row) && q(row))
    ensures multiset(Select(rows, either)) == multiset(Select(rows, p)) + multiset(Select(rows, q))
  {
    forall row ensures multiset(Select(rows, either))[row] == (multiset(Select(rows, p)) + multiset(Select(rows, q)))[row] {
    }
  }

  /** A condition every row satisfies selects all rows, in their order. */
  lemma {:induction false} SelectAll(rows: seq<Row>, p: Row -> bool)
    requires forall i :: 0 <= i < |rows| ==> p(rows[i])
    ensures Select(rows, p) == rows
  {
    if rows != [] {
      SelectAll(rows[1..], p);
      assert [rows[0]] + rows[1..] == rows;
    }
  }

  /** When exactly the first `k` rows satisfy `p`, selecting with `p` gives
      those `k` rows. */
  lemma {:induction false} SelectPrefix(rows: seq<Row>, p: Row -> bool, k: nat)
    requires k <= |rows|
    requires forall i :: 0 <= i < k ==> p(rows[i])
    requires forall i :: k <= i < |rows| ==> !p(rows[i])
    ensures Select(rows, p) == rows[..k]
  {
    if rows != [] {
      var tail := rows[1..];
      if k > 0 {
        SelectPrefix(tail, p, k - 1);
        assert [rows[0]] + tail[..k - 1] == rows[..k];
      } else {
        SelectPrefix(tail, p, 0);
      }
    }
  }

  // ---------------------------------------------------------------- roots

  /** The condition of `roots`: the ancestry column is NULL. */
  function RootCondition(cfg: Config): Row -> bool {
    row => Cell(row, cfg.ancestryColumn) == Nil
  }

  /** `roots`: exactly the rows whose ancestry column is NULL. */
  function Roots(cfg: Config, rows: seq<Row>): (r: seq<Row>)
    ensures forall row :: row in r ==> Cell(row, cfg.ancestryColumn) == Nil
    ensures forall row :: row in rows && Cell(row, cfg.ancestryColumn) == Nil ==> row in r
    ensures forall row :: Cell(row, cfg.ancestryColumn) == Nil ==> multiset(r)[row] == multiset(rows)[row]
  {
    Select(rows, RootCondition(cfg))
  }

  /** A model configured with `ancestry_column: "tree"` reads the `tree`
      column: a record whose `tree` holds an ancestry is not a root. */
  lemma StringColumnNameRoots(cfg: Config)
    requires cfg.ancestryColumn == Str("tree")
    ensures Roots(cfg, [map["tree" := Str("1/2")]]) == []
    ensures Roots(cfg, [map["tree" := Nil]]) == [map["tree" := Nil]]
  {
    var rows := [map["tree" := Str("1/2")]];
    SelectPrefix(rows, RootCondition(cfg), 0);
    SelectAll([map["tree" := Nil]], RootCondition(cfg));
  }

  // --------------------------------------------------------- depth scopes

  /** The five depth scopes. */
  datatype DepthScopeName = BeforeDepth | ToDepth | AtDepth | FromDepth | AfterDepth

  /** The SQL comparison operators of the depth scope table. */
  datatype Comparison = Lt | Le | Eq | Ge | Gt

  /** The depth scope table: each scope name with its operator. */
  function Operator(name: DepthScopeName): Comparison {
    match name
    case BeforeDepth => Lt
    case ToDepth => Le
    case AtDepth => Eq
    case FromDepth => Ge
    case AfterDepth => Gt
  }

  /** The scope's name as the symbol it is registered under. */
  function ScopeSymbol(name: DepthScopeName): Value {
    match name
    case BeforeDepth => Sym("before_depth")
    case ToDepth => Sym("to_depth")
    case AtDepth => Sym("at_depth")
    case FromDepth => Sym("from_depth")
    case AfterDepth => Sym("after_depth")
  }

  /** `a op b` on integers. */
  predicate Compares(op: Comparison, a: int, b: int) {
    match op
    case Lt => a < b
    case Le => a <= b
    case Eq => a == b
    case Ge => a >= b
    case Gt => a > b
  }

  /** A depth scope called with `depth`: it raises unless depth caching is
      on, and otherwise its condition is `depth_cache_column op depth`, which
      a NULL or non-integer depth never satisfies. */
  function DepthScope(cfg: Config, name: DepthScopeName, depth: int): (r: Result<Row -> bool, Error>)
    ensures r.Err? <==> cfg.depthCacheColumn.None?
    ensures r.Err? ==> r.error == NamedScopeDepthCache(ScopeSymbol(name))
    ensures r.Ok? ==> forall row ::
      var d := Cell(row, cfg.depthCacheColumn.value);
      r.value(row) <==> (d.Int? &&
        match name
        case BeforeDepth => d.i < depth
        case ToDepth => d.i <= depth
        case AtDepth => d.i == depth
        case FromDepth => d.i >= depth
        case AfterDepth => d.i > depth)
  {
    if cfg.depthCacheColumn.None? then Err(NamedScopeDepthCache(ScopeSymbol(name)))
    else
      var column := cfg.depthCacheColumn.value;
      Ok(row => Cell(row, column).Int? && Compares(Operator(name), Cell(row, column).i, depth))
  }

  /** Running a depth scope over the stored rows: it raises unless depth
      caching is on, and otherwise returns stored rows with an integer depth
      only, each row the scope's condition accepts as often as it is stored. */
  function DepthQuery(cfg: Config, name: DepthScopeName, depth: int, rows: seq<Row>): (r: Result<seq<Row>, Error>)
    ensures r.Err? <==> cfg.depthCacheColumn.None?
    ensures r.Err? ==> r.error == NamedScopeDepthCache(ScopeSymbol(name))
    ensures r.Ok? ==> forall row :: row in r.value ==> row in rows && Cell(row, cfg.depthCacheColumn.value).Int?
    ensures r.Ok? ==> forall row {:trigger multiset(r.value)[row]} ::
      multiset(r.value)[row] == if DepthScope(cfg, name, depth).value(row) then multiset(rows)[row] else 0
  {
    match DepthScope(cfg, name, depth)
    case Err(e) => Err(e)
    case Ok(p) => Ok(Select(rows, p))
  }

  /** Without depth caching every depth scope raises, whatever the depth. */
  lemma DepthScopesNeedCache(cfg: Config, name: DepthScopeName, rows: seq<Row>)
    requires cfg.depthCacheColumn.None?
    ensures forall depth :: DepthQuery(cfg, name, depth, rows) == Err(NamedScopeDepthCache(ScopeSymbol(name)))
  {
  }

  /** `to_depth(n)` returns the rows of `before_depth(n)` and of `at_depth(n)`. */
  lemma ToDepthIsBeforeOrAt(cfg: Config, depth: int, rows: seq<Row>)
    requires cfg.depthCacheColumn.Some?
    ensures multiset(DepthQuery(cfg, ToDepth, depth, rows).value)
      == multiset(DepthQuery(cfg, BeforeDepth, depth, rows).value) + multiset(DepthQuery(cfg, AtDepth, depth, rows).value)
  {
    var pTo := DepthScope(cfg, ToDepth, depth).value;
    var pBefore := DepthScope(cfg, BeforeDepth, depth).value;
    var pAt := DepthScope(cfg, AtDepth, depth).value;
    forall row ensures pTo(row) <==> pBefore(row) || pAt(row) {
    }
    forall row ensures !(pBefore(row) && pAt(row)) {
    }
    SelectDisjointUnion(rows, pBefore, pAt, pTo);
  }

  /** `from_depth(n)` returns the rows of `at_depth(n)` and of `after_depth(n)`. */
  lemma FromDepthIsAtOrAfter(cfg: Config, depth: int, rows: seq<Row>)
    requires cfg.depthCacheColumn.Some?
    ensures multiset(DepthQuery(cfg, FromDepth, depth, rows).value)
      == multiset(DepthQuery(cfg, AtDepth, depth, rows).value) + multiset(DepthQuery(cfg, AfterDepth, depth, rows).value)
  {
    var pFrom := DepthScope(cfg, FromDepth, depth).value;
    var pAt := DepthScope(cfg, AtDepth, depth).value;
    var pAfter := DepthScope(cfg, AfterDepth, depth).value;
    forall row ensures pFrom(row) <==> pAt(row) || pAfter(row) {
    }
    forall row ensures !(pAt(row) && pAfter(row)) {
    }
    SelectDisjointUnion(rows, pAt, pAfter, pFrom);
  }

  // ------------------------------------------------- depth cache validity

  /** The depth cache validation run on save: with depth caching on, the
      depth column must hold an integer that is at least 0 (NULL fails);
      with it off there is nothing to check. */
  predicate DepthCacheValid(cfg: Config, row: Row)
    ensures cfg.depthCacheColumn.None? ==> DepthCacheValid(cfg, row)
    ensures cfg.depthCacheColumn.Some? ==>
      (DepthCacheValid(cfg, row) <==> DepthScope(cfg, FromDepth, 0).value(row))
    ensures DepthCacheValid(cfg, row) && cfg.depthCacheColumn.Some? ==> Cell(row, cfg.depthCacheColumn.value) != Nil
  {
    match cfg.depthCacheColumn
    case None => true
    case Some(column) => Cell(row, column).Int? && Cell(row, column).i >= 0
  }

  /** Over rows that pass the depth cache validation, `before_depth(n)`,
      `at_depth(n)` and `after_depth(n)` split the rows among them. */
  lemma DepthScopesPartition(cfg: Config, depth: int, rows: seq<Row>)
    requires cfg.depthCacheColumn.Some?
    requires forall i :: 0 <= i < |rows| ==> DepthCacheValid(cfg, rows[i])
    ensures multiset(DepthQuery(cfg, BeforeDepth, depth, rows).value)
      + multiset(DepthQuery(cfg, AtDepth, depth, rows).value)
      + multiset(DepthQuery(cfg, AfterDepth, depth, rows).value)
      == multiset(rows)
  {
    var pBefore := DepthScope(cfg, BeforeDepth, depth).value;
    var pFrom := DepthScope(cfg, FromDepth, depth).value;
    var pAny := row => pBefore(row) || pFrom(row);
    forall row ensures !(pBefore(row) && pFrom(row)) {
    }
    SelectDisjointUnion(rows, pBefore, pFrom, pAny);
    forall i | 0 <= i < |rows| ensures pAny(rows[i]) {
      assert DepthCacheValid(cfg, rows[i]);
    }
    SelectAll(rows, pAny);
    FromDepthIsAtOrAfter(cfg, depth, rows);
    assert DepthQuery(cfg, FromDepth, depth, rows).value == Select(rows, pFrom);
    assert DepthQuery(cfg, BeforeDepth, depth, rows).value == Select(rows, pBefore);
  }

  /** Over rows that pass the depth cache validation, `from_depth(0)`
      returns every row, in order, and `before_depth(0)` none. */
  lemma ValidDepthsFromZero(cfg: Config, rows: seq<Row>)
    requires cfg.depthCacheColumn.Some?
    requires forall i :: 0 <= i < |rows| ==> DepthCacheValid(cfg, rows[i])
    ensures DepthQuery(cfg, FromDepth, 0, rows).value == rows
    ensures DepthQuery(cfg, BeforeDepth, 0, rows).value == []
  {
    var pFrom := DepthScope(cfg, FromDepth, 0).value;
    var pBefore := DepthScope(cfg, BeforeDepth, 0).value;
    forall i | 0 <= i < |rows| ensures pFrom(rows[i]) && !pBefore(rows[i]) {
      assert DepthCacheValid(cfg, rows[i]);
    }
    SelectAll(rows, pFrom);
    SelectPrefix(rows, pBefore, 0);
  }

  // -------------------------------------------------- ordered_by_ancestry

  /** Binary string order: character by character, a proper prefix first. */
  predicate TextLe(a: string, b: string) {
    a == [] || (b != [] && (a[0] < b[0] || (a[0] == b[0] && TextLe(a[1..], b[1..]))))
  }

  lemma {:induction false} TextLeTotal(a: string, b: string)
    ensures TextLe(a, b) || TextLe(b, a)
  {
    if a != [] && b != [] && a[0] == b[0] {
      TextLeTotal(a[1..], b[1..]);
    }
  }

  lemma {:induction false} TextLeTransitive(a: string, b: string, c: string)
    requires TextLe(a, b) && TextLe(b, c)
    ensures TextLe(a, c)
  {
    if a != [] && b != [] && c != [] && a[0] == b[0] == c[0] {
      TextLeTransitive(a[1..], b[1..], c[1..]);
    }
  }

  lemma {:induction false} TextLeAntisymmetric(a: string, b: string)
    requires TextLe(a, b) && TextLe(b, a)
    ensures a == b
  {
    if a != [] && b != [] {
      TextLeAntisymmetric(a[1..], b[1..]);
      assert a == [a[0]] + a[1..] && b == [b[0]] + b[1..];
    }
  }

  /** An ancestry value the column can hold: NULL or a string. */
  predicate IsAncestryValue(v: Value) {
    v.Nil? || v.Str?
  }

  /** The order `ordered_by_ancestry` sorts on: NULL ancestry first, then
      the ancestry strings in ascending order. */
  predicate AncestryLe(x: Value, y: Value) {
    x.Nil? || (x.Str? && y.Str? && TextLe(x.s, y.s))
  }

  lemma AncestryLeTotal(x: Value, y: Value)
    requires IsAncestryValue(x) && IsAncestryValue(y)
    ensures AncestryLe(x, y) || AncestryLe(y, x)
  {
    if x.Str? && y.Str? {
      TextLeTotal(x.s, y.s);
    }
  }

  lemma AncestryLeTransitive(x: Value, y: Value, z: Value)
    requires AncestryLe(x, y) && AncestryLe(y, z)
    ensures AncestryLe(x, z)
  {
    if x.Str? {
      TextLeTransitive(x.s, y.s, z.s);
    }
  }

  predicate AncestryColumnIsText(column: Value, rows: seq<Row>) {
    forall i :: 0 <= i < |rows| ==> IsAncestryValue(Cell(rows[i], column))
  }

  predicate SortedByAncestry(column: Value, rows: seq<Row>) {
    forall i, j :: 0 <= i < j < |rows| ==> AncestryLe(Cell(rows[i], column), Cell(rows[j], column))
  }

  /** Placing `row` at the front of sorted rows it does not exceed keeps them sorted. */
  lemma PrependLeast(column: Value, row: Row, rows: seq<Row>)
    requires SortedByAncestry(column, rows)
    requires rows != [] ==> AncestryLe(Cell(row, column), Cell(rows[0], column))
    ensures SortedByAncestry(column, [row] + rows)
  {
    forall j | 0 < j < |rows| ensures AncestryLe(Cell(row, column), Cell(rows[j], column)) {
      AncestryLeTransitive(Cell(row, column), Cell(rows[0], column), Cell(rows[j], column));
    }
  }

  /** One insertion step of the sort: `row` placed into sorted rows. */
  function InsertByAncestry(column: Value, row: Row, rows: seq<Row>): (r: seq<Row>)
    requires IsAncestryValue(Cell(row, column)) && AncestryColumnIsText(column, rows)
    requires SortedByAncestry(column, rows)
    ensures multiset(r) == multiset(rows) + multiset{row}
    ensures AncestryColumnIsText(column, r)
    ensures SortedByAncestry(column, r)
  {
    if rows == [] then [row]
    else if AncestryLe(Cell(row, column), Cell(rows[0], column)) then
      PrependLeast(column, row, rows);
      [row] + rows
    else
      var rest := InsertByAncestry(column, row, rows[1..]);
      assert rows == [rows[0]] + rows[1..];
      AncestryLeTotal(Cell(row, column), Cell(rows[0], column));
      forall k | 0 <= k < |rest| ensures AncestryLe(Cell(rows[0], column), Cell(rest[k], column)) {
        assert rest[k] in multiset(rest);
        if rest[k] != row {
          assert rest[k] in multiset(rows[1..]);
          var m :| 0 <= m < |rows[1..]| && rows[1..][m] == rest[k];
          assert rows[m + 1] == rest[k];
        }
      }
      PrependLeast(column, rows[0], rest);
      [rows[0]] + rest
  }

  /** `ordered_by_ancestry`: the same rows, rows with a NULL ancestry before
      all others, and the others in ascending order of their ancestry
      string. Rows with equal ancestry may come in any order. */
  function OrderedByAncestry(cfg: Config, rows: seq<Row>): (r: seq<Row>)
    requires AncestryColumnIsText(cfg.ancestryColumn, rows)
    ensures multiset(r) == multiset(rows)
    ensures AncestryColumnIsText(cfg.ancestryColumn, r)
    ensures SortedByAncestry(cfg.ancestryColumn, r)
    ensures forall i, j :: 0 <= i < j < |r| && Cell(r[j], cfg.ancestryColumn).Nil? ==> Cell(r[i], cfg.ancestryColumn).Nil?
    ensures forall i, j :: 0 <= i < j < |r| && !Cell(r[i], cfg.ancestryColumn).Nil? ==>
      TextLe(Cell(r[i], cfg.ancestryColumn).s, Cell(r[j], cfg.ancestryColumn).s)
  {
    if rows == [] then []
    else
      assert rows == [rows[0]] + rows[1..];
      InsertByAncestry(cfg.ancestryColumn, rows[0], OrderedByAncestry(cfg, rows[1..]))
  }

  /** The number of leading rows whose ancestry column is NULL. */
  function LeadingRoots(column: Value, rows: seq<Row>): (k: nat)
    ensures k <= |rows|
    ensures forall i :: 0 <= i < k ==> Cell(rows[i], column) == Nil
    ensures k < |rows| ==> Cell(rows[k], column) != Nil
  {
    if rows == [] || Cell(rows[0], column) != Nil then 0
    else 1 + LeadingRoots(column, rows[1..])
  }

  /** The rows `ordered_by_ancestry` returns begin with exactly the rows
      `roots` returns, and every row after them has an ancestry. */
  lemma RootsComeFirst(cfg: Config, rows: seq<Row>)
    requires AncestryColumnIsText(cfg.ancestryColumn, rows)
    ensures var r := OrderedByAncestry(cfg, rows);
      var k := |Roots(cfg, rows)|;
      k <= |r| && Roots(cfg, r) == r[..k] && multiset(r[..k]) == multiset(Roots(cfg, rows))
      && forall i :: k <= i < |r| ==> Cell(r[i], cfg.ancestryColumn) != Nil
  {
    var r := OrderedByAncestry(cfg, rows);
    SortedRootsPrefix(cfg, r);
    RootsOfPermutation(cfg, r, rows);
  }

  /** In rows sorted by ancestry, `roots` returns exactly a prefix, and every
      row after it has an ancestry. */
  lemma SortedRootsPrefix(cfg: Config, r: seq<Row>)
    requires SortedByAncestry(cfg.ancestryColumn, r)
    ensures |Roots(cfg, r)| <= |r| && Roots(cfg, r) == r[..|Roots(cfg, r)|]
    ensures forall i :: |Roots(cfg, r)| <= i < |r| ==> Cell(r[i], cfg.ancestryColumn) != Nil
  {
    var column := cfg.ancestryColumn;
    var k := LeadingRoots(column, r);
    forall i | k <= i < |r| ensures Cell(r[i], column) != Nil {
      if i > k {
        assert AncestryLe(Cell(r[k], column), Cell(r[i], column));
      }
    }
    SelectPrefix(r, RootCondition(cfg), k);
  }

  /** Rows that are a permutation of each other have the same roots. */
  lemma RootsOfPermutation(cfg: Config, a: seq<Row>, b: seq<Row>)
    requires multiset(a) == multiset(b)
    ensures multiset(Roots(cfg, a)) == multiset(Roots(cfg, b))
    ensures |Roots(cfg, a)| == |Roots(cfg, b)|
  {
    forall row ensures multiset(Roots(cfg, a))[row] == multiset(Roots(cfg, b))[row] {
      if Cell(row, cfg.ancestryColumn) != Nil {
        assert row !in Roots(cfg, a) && row !in Roots(cfg, b);
      }
    }
    assert |multiset(Roots(cfg, a))| == |Roots(cfg, a)|;
    assert |multiset(Roots(cfg, b))| == |Roots(cfg, b)|;
  }
}
