/** Keyset pagination of PIT row queries: the sort plan, the cursor condition in SQL's three-valued logic, and
    what a client gets that follows `next_cursor` to the end. */
module Pagination {
  import opened Wrappers

  datatype QueryError =
    | UnknownColumn(name: Column)
    | NoSortColumns
    | CursorOfAnotherSort
    | CursorDamaged
    | CursorHoldsNull

  /** Columns are only told apart; numbers stand for their names. */
  type Column = int

  /** A NULL-able column value; any totally ordered type will do for the values. */
  type Cell = Option<int>

  /** The cells of the cursor columns: the order columns followed by the key columns. */
  type Row = seq<Cell>

  /** Which columns sort descending, and whether the database treats NULL as the least or the greatest value. */
  datatype Plan = Plan(desc: seq<bool>, nullsLeast: bool)

  ghost predicate Fits(p: Plan, r: Row) {
    |r| == |p.desc|
  }

  ghost predicate AllFit(p: Plan, rows: seq<Row>) {
    forall i :: 0 <= i < |rows| ==> Fits(p, rows[i])
  }

  predicate NoNulls(r: Row) {
    forall i :: 0 <= i < |r| ==> r[i].Some?
  }

  predicate Distinct(rows: seq<Row>) {
    rows != [] ==> rows[|rows| - 1] !in rows[..|rows| - 1] && Distinct(rows[..|rows| - 1])
  }

  // ---------------------------------------------------------------- ORDER BY

  predicate CellLess(nullsLeast: bool, a: Cell, b: Cell) {
    match (a, b)
    case (None, None) => false
    case (None, Some(_)) => nullsLeast
    case (Some(_), None) => !nullsLeast
    case (Some(x), Some(y)) => x < y
  }

  predicate CellBefore(p: Plan, i: nat, a: Cell, b: Cell)
    requires i < |p.desc|
  {
    if p.desc[i] then CellLess(p.nullsLeast, b, a) else CellLess(p.nullsLeast, a, b)
  }

  /** `r` comes before `s`, looking at columns from `i` on. */
  predicate BeforeFrom(p: Plan, r: Row, s: Row, i: nat)
    requires |r| == |p.desc| && |s| == |p.desc| && i <= |p.desc|
    decreases |p.desc| - i
  {
    i < |p.desc| && (if r[i] == s[i] then BeforeFrom(p, r, s, i + 1) else CellBefore(p, i, r[i], s[i]))
  }

  predicate Before(p: Plan, r: Row, s: Row)
    requires |r| == |p.desc| && |s| == |p.desc|
  {
    BeforeFrom(p, r, s, 0)
  }

  lemma {:induction false} BeforeTotalFrom(p: Plan, r: Row, s: Row, i: nat)
    requires Fits(p, r) && Fits(p, s) && i <= |p.desc| && r[..i] == s[..i]
    ensures r == s || BeforeFrom(p, r, s, i) || BeforeFrom(p, s, r, i)
    ensures !(BeforeFrom(p, r, s, i) && BeforeFrom(p, s, r, i))
    ensures r == s ==> !BeforeFrom(p, r, s, i)
    decreases |p.desc| - i
  {
    if i < |p.desc| {
      if r[i] == s[i] {
        assert r[..i + 1] == r[..i] + [r[i]] && s[..i + 1] == s[..i] + [s[i]];
        BeforeTotalFrom(p, r, s, i + 1);
      }
    } else {
      assert r == r[..i] && s == s[..i];
    }
  }

  lemma {:induction false} BeforeTransitiveFrom(p: Plan, r: Row, s: Row, t: Row, i: nat)
    requires Fits(p, r) && Fits(p, s) && Fits(p, t) && i <= |p.desc|
    requires BeforeFrom(p, r, s, i) && BeforeFrom(p, s, t, i)
    ensures BeforeFrom(p, r, t, i)
    decreases |p.desc| - i
  {
    if r[i] == s[i] && s[i] == t[i] {
      BeforeTransitiveFrom(p, r, s, t, i + 1);
    }
  }

  /** Insertion into a sorted result; the database may sort as it likes, the result is the same. */
  function Insert(p: Plan, r: Row, sorted: seq<Row>): (out: seq<Row>)
    requires Fits(p, r) && AllFit(p, sorted)
    ensures |out| == |sorted| + 1 && AllFit(p, out)
    ensures forall x {:trigger x in out} :: x in out <==> x == r || x in sorted
  {
    if sorted == [] then [r]
    else if Before(p, r, sorted[0]) then [r] + sorted
    else
      var rest := Insert(p, r, sorted[1..]);
      assert sorted == [sorted[0]] + sorted[1..];
      [sorted[0]] + rest
  }

  function Sort(p: Plan, rows: seq<Row>): (out: seq<Row>)
    requires AllFit(p, rows)
    ensures |out| == |rows| && AllFit(p, out)
    ensures forall x {:trigger x in out} :: x in out <==> x in rows
  {
    if rows == [] then []
    else
      assert rows == rows[..|rows| - 1] + [rows[|rows| - 1]];
      Insert(p, rows[|rows| - 1], Sort(p, rows[..|rows| - 1]))
  }

  ghost predicate Ascending(p: Plan, s: seq<Row>)
    requires AllFit(p, s)
  {
    forall i, j :: 0 <= i < j < |s| ==> Before(p, s[i], s[j])
  }

  lemma {:induction false} InsertAscends(p: Plan, r: Row, sorted: seq<Row>)
    requires Fits(p, r) && AllFit(p, sorted) && Ascending(p, sorted) && r !in sorted
    ensures Ascending(p, Insert(p, r, sorted))
  {
    if sorted != [] {
      BeforeTotalFrom(p, r, sorted[0], 0);
      if Before(p, r, sorted[0]) {
        var out := [r] + sorted;
        forall i, j | 0 <= i < j < |out| ensures Before(p, out[i], out[j]) {
          if i == 0 && j > 1 {
            BeforeTransitiveFrom(p, r, sorted[0], sorted[j - 1], 0);
          }
        }
      } else {
        var rest := Insert(p, r, sorted[1..]);
        InsertAscends(p, r, sorted[1..]);
        var out := [sorted[0]] + rest;
        forall j | 0 < j < |out| ensures Before(p, out[0], out[j]) {
          assert out[j] in rest;
          if out[j] != r {
            assert out[j] in sorted[1..];
            var m :| 0 <= m < |sorted[1..]| && sorted[1..][m] == out[j];
            assert Before(p, sorted[0], sorted[m + 1]);
          }
        }
        forall i, j | 0 <= i < j < |out| ensures Before(p, out[i], out[j]) {
          if i > 0 {
            assert Before(p, rest[i - 1], rest[j - 1]);
          }
        }
      }
    }
  }

  lemma {:induction false} SortAscends(p: Plan, rows: seq<Row>)
    requires AllFit(p, rows) && Distinct(rows)
    ensures Ascending(p, Sort(p, rows))
  {
    if rows != [] {
      var shorter := rows[..|rows| - 1];
      SortAscends(p, shorter);
      assert rows[|rows| - 1] !in shorter;
      InsertAscends(p, rows[|rows| - 1], Sort(p, shorter));
    }
  }

  /** A strictly ascending listing is determined by its members. */
  lemma {:induction false} AscendingUnique(p: Plan, a: seq<Row>, b: seq<Row>)
    requires AllFit(p, a) && AllFit(p, b) && Ascending(p, a) && Ascending(p, b)
    requires forall x :: x in a <==> x in b
    ensures a == b
  {
    assert a != [] ==> a[0] in b;
    assert b != [] ==> b[0] in a;
    if a != [] && b != [] {
      HeadsAgree(p, a, b);
      HeadsAgree(p, b, a);
      BeforeTotalFrom(p, a[0], b[0], 0);
      forall x ensures x in a[1..] <==> x in b[1..] {
        TailMembers(p, a, x);
        TailMembers(p, b, x);
      }
      forall i, j | 0 <= i < j < |a[1..]| ensures Before(p, a[1..][i], a[1..][j]) {
        assert Before(p, a[i + 1], a[j + 1]);
      }
      forall i, j | 0 <= i < j < |b[1..]| ensures Before(p, b[1..][i], b[1..][j]) {
        assert Before(p, b[i + 1], b[j + 1]);
      }
      AscendingUnique(p, a[1..], b[1..]);
      assert a == [a[0]] + a[1..] && b == [b[0]] + b[1..];
    }
  }

  lemma HeadsAgree(p: Plan, a: seq<Row>, b: seq<Row>)
    requires AllFit(p, a) && AllFit(p, b) && Ascending(p, a) && a != [] && b != [] && b[0] in a
    ensures a[0] == b[0] || Before(p, a[0], b[0])
  {
    var m :| 0 <= m < |a| && a[m] == b[0];
  }

  lemma TailMembers(p: Plan, a: seq<Row>, x: Row)
    requires AllFit(p, a) && Ascending(p, a) && a != []
    ensures x in a[1..] <==> x in a && x != a[0]
  {
    if x in a[1..] {
      var m :| 0 <= m < |a[1..]| && a[1..][m] == x;
      assert Before(p, a[0], a[m + 1]);
      BeforeTotalFrom(p, a[0], x, 0);
    }
  }

  // ---------------------------------------------------------------- which columns sort

  predicate NoRepeats(names: seq<Column>) {
    forall i, j :: 0 <= i < j < |names| ==> names[i] != names[j]
  }

  /** One requested sort column; a leading minus asks for descending order. */
  datatype SortItem = Ascending(name: Column) | Descending(name: Column)

  /** `at[k]` is the first item that names `names[k]`, and decides its direction. */
  ghost predicate FirstMentions(items: seq<SortItem>, at: seq<nat>, names: seq<Column>, desc: seq<bool>) {
    && |at| == |names| == |desc|
    && (forall k :: 0 <= k < |at| ==> at[k] < |items| && items[at[k]].name == names[k] && items[at[k]].Descending? == desc[k])
    && (forall k :: 0 <= k < |at| ==> forall i :: 0 <= i < at[k] ==> items[i].name != names[k])
    && (forall k, l :: 0 <= k < l < |at| ==> at[k] < at[l])
  }

  /** Every item's name stands among `names`, once, with the direction of its first mention. */
  ghost predicate Mentioned(items: seq<SortItem>, at: seq<nat>, names: seq<Column>, desc: seq<bool>) {
    && FirstMentions(items, at, names, desc)
    && NoRepeats(names)
    && (forall i :: 0 <= i < |items| ==> items[i].name in names)
  }

  lemma MentionOne(items: seq<SortItem>, item: SortItem, at: seq<nat>, names: seq<Column>, desc: seq<bool>)
    requires Mentioned(items, at, names, desc)
    ensures item.name in names ==> Mentioned(items + [item], at, names, desc)
    ensures item.name !in names ==>
              Mentioned(items + [item], at + [|items|], names + [item.name], desc + [item.Descending?])
  {
    forall i | 0 <= i < |items| ensures (items + [item])[i] == items[i] && items[i].name in names {
    }
  }

  /** Without a request the business key sorts, ascending. */
  function Requested(orderBy: seq<SortItem>, businessKey: seq<Column>): (items: seq<SortItem>)
    ensures orderBy != [] ==> items == orderBy
    ensures orderBy == [] ==> |items| == |businessKey|
    ensures orderBy == [] ==> forall i :: 0 <= i < |items| ==> items[i].Ascending? && items[i].name == businessKey[i]
  {
    if orderBy != [] then orderBy
    else seq(|businessKey|, i requires 0 <= i < |businessKey| => SortItem.Ascending(businessKey[i]))
  }

  /** The sort columns: every requested name once, in order of first mention, with that mention's direction. */
  method OrderPlan(columns: set<Column>, businessKey: seq<Column>, orderBy: seq<SortItem>)
    returns (r: Result<(seq<Column>, seq<bool>), QueryError>, ghost at: seq<nat>)
    ensures r.Err? && r.error.UnknownColumn? <==>
              exists i :: 0 <= i < |Requested(orderBy, businessKey)| && Requested(orderBy, businessKey)[i].name !in columns
    ensures r.Err? && r.error.UnknownColumn? ==> r.error.name !in columns
    ensures r == Err(NoSortColumns) <==> Requested(orderBy, businessKey) == []
    ensures r.Ok? ==> Mentioned(Requested(orderBy, businessKey), at, r.value.0, r.value.1)
  {
    var items := Requested(orderBy, businessKey);
    var names: seq<Column>, desc: seq<bool> := [], [];
    at := [];
    for n := 0 to |items|
      invariant Mentioned(items[..n], at, names, desc) && (names == [] <==> n == 0)
      invariant forall i :: 0 <= i < n ==> items[i].name in columns
    {
      var name := items[n].name;
      if name !in columns {
        return Err(UnknownColumn(name)), [];
      }
      MentionOne(items[..n], items[n], at, names, desc);
      assert items[..n + 1] == items[..n] + [items[n]];
      if name !in names {
        names, desc, at := names + [name], desc + [items[n].Descending?], at + [n];
      }
    }
    if names == [] {
      return Err(NoSortColumns), [];
    }
    assert items[..|items|] == items;
    r := Ok((names, desc));
  }

  /** The tie-breaking columns: what is left of the business key, then of the physical key. */
  method KeyPlan(columns: set<Column>, businessKey: seq<Column>, physicalKey: seq<Column>, order: seq<Column>)
    returns (keys: seq<Column>)
    requires NoRepeats(order)
    ensures NoRepeats(order + keys)
    ensures forall name: Column :: name in keys <==> name in businessKey + physicalKey && name in columns && name !in order
  {
    keys := [];
    var candidates := businessKey + physicalKey;
    for n := 0 to |candidates|
      invariant NoRepeats(order + keys)
      invariant forall name: Column :: name in keys <==> name in candidates[..n] && name in columns && name !in order
    {
      var name := candidates[n];
      assert candidates[..n + 1] == candidates[..n] + [name];
      if name in columns && name !in order && name !in keys {
        assert order + (keys + [name]) == (order + keys) + [name];
        keys := keys + [name];
      }
    }
  }

  /** A row of the view as the database stores it. */
  type Record = map<Column, Cell>

  predicate HasAll(record: Record, names: seq<Column>) {
    forall i :: 0 <= i < |names| ==> names[i] in record
  }

  function Project(record: Record, names: seq<Column>): (row: Row)
    requires HasAll(record, names)
    ensures |row| == |names|
  {
    seq(|names|, i requires 0 <= i < |names| => record[names[i]])
  }

  predicate DifferentKeys(a: Record, b: Record, physicalKey: seq<Column>)
    requires HasAll(a, physicalKey) && HasAll(b, physicalKey)
  {
    exists i :: 0 <= i < |physicalKey| && a[physicalKey[i]] != b[physicalKey[i]]
  }

  /** Since the cursor columns include the physical key, no two records look alike to a cursor. */
  lemma CursorTellsRecordsApart(a: Record, b: Record, physicalKey: seq<Column>, names: seq<Column>)
    requires HasAll(a, names) && HasAll(b, names) && HasAll(a, physicalKey) && HasAll(b, physicalKey)
    requires (forall i :: 0 <= i < |physicalKey| ==> physicalKey[i] in names) && DifferentKeys(a, b, physicalKey)
    ensures Project(a, names) != Project(b, names)
  {
    var i :| 0 <= i < |physicalKey| && a[physicalKey[i]] != b[physicalKey[i]];
    var k :| 0 <= k < |names| && names[k] == physicalKey[i];
    assert Project(a, names)[k] != Project(b, names)[k];
  }

  // ---------------------------------------------------------------- the cursor condition

  datatype Atom = Equals(column: nat, value: int) | Less(column: nat, value: int) | Greater(column: nat, value: int)

  /** A disjunction of conjunctions, as the query builder composes it. */
  type Condition = seq<seq<Atom>>

  /** A comparison with a NULL cell is unknown, which WHERE treats like false. */
  predicate AtomHolds(atom: Atom, r: Row) {
    atom.column < |r| && r[atom.column].Some? &&
    match atom
    case Equals(c, v) => r[c].value == v
    case Less(c, v) => r[c].value < v
    case Greater(c, v) => r[c].value > v
  }

  predicate ClauseHolds(clause: seq<Atom>, r: Row) {
    forall j :: 0 <= j < |clause| ==> AtomHolds(clause[j], r)
  }

  predicate ConditionHolds(c: Condition, r: Row) {
    exists i :: 0 <= i < |c| && ClauseHolds(c[i], r)
  }

  function Prefix(values: seq<int>, n: nat): (atoms: seq<Atom>)
    requires n <= |values|
    ensures |atoms| == n && forall j :: 0 <= j < n ==> atoms[j] == Equals(j, values[j])
  {
    if n == 0 then [] else Prefix(values, n - 1) + [Equals(n - 1, values[n - 1])]
  }

  function Comparison(p: Plan, values: seq<int>, i: nat): Atom
    requires i < |values| == |p.desc|
  {
    if p.desc[i] then Less(i, values[i]) else Greater(i, values[i])
  }

  /** `r` is selected by the cursor `b`: at the first column where they differ, `r` holds a value beyond b's. */
  predicate SelectsFrom(p: Plan, b: Row, r: Row, i: nat)
    requires |b| == |p.desc| && |r| == |p.desc| && i <= |p.desc|
    decreases |p.desc| - i
  {
    i < |p.desc| &&
    (if b[i] == r[i] then SelectsFrom(p, b, r, i + 1)
     else b[i].Some? && r[i].Some? && (if p.desc[i] then r[i].value < b[i].value else r[i].value > b[i].value))
  }

  predicate Selects(p: Plan, b: Row, r: Row)
    requires |b| == |p.desc| && |r| == |p.desc|
  {
    SelectsFrom(p, b, r, 0)
  }

  /** Column `k` is the first, from `i` on, where `r` differs from the cursor, and `r` holds a value beyond it. */
  predicate FirstBeyond(p: Plan, b: Row, r: Row, i: nat, k: nat)
    requires |b| == |p.desc| && |r| == |p.desc| && i <= k < |p.desc|
  {
    && (forall j :: i <= j < k ==> b[j] == r[j])
    && b[k].Some? && r[k].Some?
    && (if p.desc[k] then r[k].value < b[k].value else r[k].value > b[k].value)
  }

  lemma {:induction false} SelectsWitness(p: Plan, b: Row, r: Row, i: nat)
    requires Fits(p, b) && Fits(p, r) && i <= |p.desc|
    ensures SelectsFrom(p, b, r, i) <==> exists k :: i <= k < |p.desc| && FirstBeyond(p, b, r, i, k)
    decreases |p.desc| - i
  {
    if i < |p.desc| {
      if b[i] == r[i] {
        SelectsWitness(p, b, r, i + 1);
        forall k | i < k < |p.desc| ensures FirstBeyond(p, b, r, i, k) <==> FirstBeyond(p, b, r, i + 1, k) {
        }
        if SelectsFrom(p, b, r, i) {
          var k :| i + 1 <= k < |p.desc| && FirstBeyond(p, b, r, i + 1, k);
          assert FirstBeyond(p, b, r, i, k);
        }
        if k :| i <= k < |p.desc| && FirstBeyond(p, b, r, i, k) {
          assert k != i && FirstBeyond(p, b, r, i + 1, k);
        }
      } else {
        assert SelectsFrom(p, b, r, i) <==> FirstBeyond(p, b, r, i, i);
        forall k | i < k < |p.desc| ensures !FirstBeyond(p, b, r, i, k) {
        }
      }
    }
  }

  /** The condition the builder composes selects exactly the rows beyond the cursor, NULLs excepted. */
  lemma ConditionMeaning(p: Plan, values: seq<int>, c: Condition, b: Row, r: Row)
    requires Fits(p, b) && Fits(p, r) && |values| == |p.desc| && forall i :: 0 <= i < |b| ==> b[i] == Some(values[i])
    requires |c| == |values| && forall i :: 0 <= i < |c| ==> c[i] == Prefix(values, i) + [Comparison(p, values, i)]
    ensures ConditionHolds(c, r) <==> Selects(p, b, r)
  {
    SelectsWitness(p, b, r, 0);
    forall k | 0 <= k < |p.desc| ensures ClauseHolds(c[k], r) <==> FirstBeyond(p, b, r, 0, k) {
      ClauseMeaning(p, values, k, c[k], b, r);
    }
    if ConditionHolds(c, r) {
      var k :| 0 <= k < |c| && ClauseHolds(c[k], r);
      assert FirstBeyond(p, b, r, 0, k);
    }
    if Selects(p, b, r) {
      var k :| 0 <= k < |p.desc| && FirstBeyond(p, b, r, 0, k);
      assert ClauseHolds(c[k], r);
    }
  }

  lemma ClauseMeaning(p: Plan, values: seq<int>, k: nat, clause: seq<Atom>, b: Row, r: Row)
    requires Fits(p, b) && Fits(p, r) && k < |values| == |p.desc| && forall i :: 0 <= i < |b| ==> b[i] == Some(values[i])
    requires clause == Prefix(values, k) + [Comparison(p, values, k)]
    ensures ClauseHolds(clause, r) <==> FirstBeyond(p, b, r, 0, k)
  {
    assert clause[k] == Comparison(p, values, k);
    assert forall j :: 0 <= j < k ==> clause[j] == Equals(j, values[j]);
    if ClauseHolds(clause, r) {
      forall j | 0 <= j < k ensures b[j] == r[j] {
        assert AtomHolds(clause[j], r);
      }
      assert AtomHolds(clause[k], r);
    }
  }

  lemma {:induction false} SelectedIsAfterFrom(p: Plan, b: Row, r: Row, i: nat)
    requires Fits(p, b) && Fits(p, r) && i <= |p.desc|
    ensures SelectsFrom(p, b, r, i) ==> BeforeFrom(p, b, r, i)
    ensures NoNulls(b) && NoNulls(r) && BeforeFrom(p, b, r, i) ==> SelectsFrom(p, b, r, i)
    decreases |p.desc| - i
  {
    if i < |p.desc| {
      SelectedIsAfterFrom(p, b, r, i + 1);
    }
  }

  lemma {:induction false} SelectsTransitiveFrom(p: Plan, a: Row, b: Row, r: Row, i: nat)
    requires Fits(p, a) && Fits(p, b) && Fits(p, r) && i <= |p.desc|
    requires SelectsFrom(p, a, b, i) && SelectsFrom(p, b, r, i)
    ensures SelectsFrom(p, a, r, i)
    decreases |p.desc| - i
  {
    if a[i] == b[i] && b[i] == r[i] {
      SelectsTransitiveFrom(p, a, b, r, i + 1);
    }
  }

  /** The decoded cursor a client sends back. */
  datatype Cursor = Cursor(columns: seq<Column>, values: seq<Cell>)

  predicate CursorFits(expected: seq<Column>, cursor: Cursor) {
    cursor.columns == expected && |cursor.values| == |expected| && NoNulls(cursor.values)
  }

  function Values(cells: seq<Cell>): (values: seq<int>)
    requires NoNulls(cells)
    ensures |values| == |cells| && forall i :: 0 <= i < |cells| ==> cells[i] == Some(values[i])
  {
    seq(|cells|, i requires 0 <= i < |cells| => cells[i].value)
  }

  /** Builds one clause per column: equal on all earlier columns, beyond the cursor on this one. A cursor of
      another sort, of the wrong length or with a NULL is refused; any other selects exactly the rows beyond it. */
  method CursorCondition(p: Plan, expected: seq<Column>, cursor: Cursor) returns (r: Result<Condition, QueryError>)
    requires |expected| == |p.desc|
    ensures r.Ok? <==> CursorFits(expected, cursor)
    ensures r == Err(CursorHoldsNull) <==>
              cursor.columns == expected && |cursor.values| == |expected| && exists i :: 0 <= i < |expected| && cursor.values[i] == None
    ensures r.Err? ==> r.error in {CursorOfAnotherSort, CursorDamaged, CursorHoldsNull}
    ensures r.Ok? ==> forall row :: Fits(p, row) ==> (ConditionHolds(r.value, row) <==> Selects(p, cursor.values, row))
    ensures r == Err(CursorOfAnotherSort) <==> cursor.columns != expected
    ensures r == Err(CursorDamaged) <==> cursor.columns == expected && |cursor.values| != |expected|
  {
    if cursor.columns != expected {
      return Err(CursorOfAnotherSort);
    }
    if |cursor.values| != |expected| {
      return Err(CursorDamaged);
    }
    if !NoNulls(cursor.values) {
      return Err(CursorHoldsNull);
    }
    var values := Values(cursor.values);
    var c: Condition := [];
    for i := 0 to |values|
      invariant |c| == i && forall k :: 0 <= k < i ==> c[k] == Prefix(values, k) + [Comparison(p, values, k)]
    {
      var prefix: seq<Atom> := [];
      for j := 0 to i
        invariant prefix == Prefix(values, j)
      {
        prefix := prefix + [Equals(j, values[j])];
      }
      c := c + [prefix + [Comparison(p, values, i)]];
    }
    forall row | Fits(p, row) ensures ConditionHolds(c, row) <==> Selects(p, cursor.values, row) {
      ConditionMeaning(p, values, c, cursor.values, row);
    }
    r := Ok(c);
  }

  // ---------------------------------------------------------------- one page

  /** The rows the WHERE clause lets through; no cursor lets everything through. */
  function Remaining(p: Plan, table: seq<Row>, cursor: Option<Row>): (rows: seq<Row>)
    requires AllFit(p, table) && (cursor.Some? ==> Fits(p, cursor.value))
    ensures AllFit(p, rows) && |rows| <= |table|
    ensures forall r {:trigger r in rows} :: r in rows <==> r in table && (cursor.Some? ==> Fits(p, r) && Selects(p, cursor.value, r))
  {
    if table == [] then []
    else
      var before := Remaining(p, table[..|table| - 1], cursor);
      var r := table[|table| - 1];
      assert table == table[..|table| - 1] + [r];
      if cursor.None? || Selects(p, cursor.value, r) then before + [r] else before
  }

  datatype Page = Page(rows: seq<Row>, next: Option<Row>, warned: bool)

  /** Fetches one row more than asked for; a boundary row with a NULL gives a warning instead of a cursor. */
  function ReadPage(p: Plan, table: seq<Row>, cursor: Option<Row>, limit: nat): Page
    requires AllFit(p, table) && (cursor.Some? ==> Fits(p, cursor.value)) && limit > 0
  {
    FirstPageOf(Sort(p, Remaining(p, table, cursor)), limit)
  }

  function FirstPageOf(sorted: seq<Row>, limit: nat): Page
    requires limit > 0
  {
    if |sorted| <= limit then Page(sorted, None, false)
    else
      var last := sorted[limit - 1];
      if NoNulls(last) then Page(sorted[..limit], Some(last), false) else Page(sorted[..limit], None, true)
  }

  function Where(c: Condition, rows: seq<Row>): (out: seq<Row>)
    ensures forall r :: r in out ==> r in rows
  {
    if rows == [] then []
    else
      var before, r := Where(c, rows[..|rows| - 1]), rows[|rows| - 1];
      if ConditionHolds(c, r) then before + [r] else before
  }

  lemma {:induction false} WhereIsRemaining(p: Plan, c: Condition, b: Row, rows: seq<Row>)
    requires AllFit(p, rows) && Fits(p, b)
    requires forall row :: Fits(p, row) ==> (ConditionHolds(c, row) <==> Selects(p, b, row))
    ensures Where(c, rows) == Remaining(p, rows, Some(b))
  {
    if rows != [] {
      WhereIsRemaining(p, c, b, rows[..|rows| - 1]);
    }
  }

  /** One page: filter, sort, fetch one row too many, cut, and hand out a cursor if there is more. */
  method ReadRows(p: Plan, names: seq<Column>, table: seq<Row>, cursor: Option<Cursor>, limit: nat)
    returns (r: Result<Page, QueryError>)
    requires AllFit(p, table) && |names| == |p.desc| && limit > 0
    ensures r.Ok? <==> cursor.None? || CursorFits(names, cursor.value)
    ensures r.Ok? ==> r.value == ReadPage(p, table, if cursor.None? then None else Some(cursor.value.values), limit)
  {
    var selected := table;
    if cursor.Some? {
      var condition := CursorCondition(p, names, cursor.value);
      if condition.Err? {
        return Err(condition.error);
      }
      selected := Where(condition.value, table);
      WhereIsRemaining(p, condition.value, cursor.value.values, table);
    } else {
      RemainingAll(p, table);
    }
    var page := CutPage(Sort(p, selected), limit);
    r := Ok(page);
  }

  method CutPage(sorted: seq<Row>, limit: nat) returns (page: Page)
    requires limit > 0
    ensures page == FirstPageOf(sorted, limit)
  {
    var records := if |sorted| <= limit + 1 then sorted else sorted[..limit + 1];
    var hasMore := |records| > limit;
    records := if hasMore then records[..limit] else records;
    var next: Option<Row>, warned := None, false;
    if hasMore {
      var last := records[|records| - 1];
      if NoNulls(last) {
        next := Some(last);
      } else {
        warned := true;
      }
    }
    page := Page(records, next, warned);
  }

  /** A page hands out a cursor or a warning exactly when there is more to come, never both, and the warning exactly when
      its last row has a NULL. */
  lemma PageTellsWhetherThereIsMore(p: Plan, table: seq<Row>, cursor: Option<Row>, limit: nat)
    requires AllFit(p, table) && (cursor.Some? ==> Fits(p, cursor.value)) && limit > 0
    ensures var page, n := ReadPage(p, table, cursor, limit), |Remaining(p, table, cursor)|;
            && |page.rows| == (if n < limit then n else limit)
            && (page.warned || page.next.Some? <==> |page.rows| < n)
            && (|page.rows| < n ==> (page.warned <==> page.next.None?)
                                    && (page.next == Some(page.rows[limit - 1]) <==> page.next.Some?)
                                    && (page.warned <==> None in page.rows[limit - 1]))
  {
  }

  lemma {:induction false} RemainingDistinct(p: Plan, table: seq<Row>, cursor: Option<Row>)
    requires AllFit(p, table) && (cursor.Some? ==> Fits(p, cursor.value)) && Distinct(table)
    ensures Distinct(Remaining(p, table, cursor))
  {
    if table != [] {
      var shorter, r := table[..|table| - 1], table[|table| - 1];
      RemainingDistinct(p, shorter, cursor);
      assert r !in shorter;
      assert r !in Remaining(p, shorter, cursor);
    }
  }

  /** After a boundary row strictly fewer rows remain, all of them among those that remained before. */
  lemma RemainingShrinks(p: Plan, table: seq<Row>, cursor: Option<Row>, b: Row)
    requires AllFit(p, table) && (cursor.Some? ==> Fits(p, cursor.value)) && Distinct(table)
    requires b in Remaining(p, table, cursor) && Fits(p, b)
    ensures forall r :: r in Remaining(p, table, Some(b)) ==> r in Remaining(p, table, cursor) && r != b
    ensures |Remaining(p, table, Some(b))| < |Remaining(p, table, cursor)|
  {
    forall r | r in Remaining(p, table, Some(b)) ensures r in Remaining(p, table, cursor) && r != b {
      if cursor.Some? {
        SelectsTransitiveFrom(p, cursor.value, b, r, 0);
      }
      SelectedIsAfterFrom(p, b, r, 0);
      BeforeTotalFrom(p, b, r, 0);
    }
    RemainingDistinct(p, table, cursor);
    RemainingDistinct(p, table, Some(b));
    FewerMembers(Remaining(p, table, Some(b)), Remaining(p, table, cursor), b);
  }

  lemma {:induction false} DistinctSize(s: seq<Row>)
    requires Distinct(s)
    ensures |s| == |set r | r in s|
  {
    if s != [] {
      var shorter := s[..|s| - 1];
      DistinctSize(shorter);
      assert s[|s| - 1] !in shorter;
      assert (set r | r in s) == (set r | r in shorter) + {s[|s| - 1]};
    }
  }

  lemma {:induction false} SubsetSize(a: set<Row>, b: set<Row>)
    requires a <= b
    ensures |a| <= |b|
  {
    assert b == a + (b - a);
  }

  lemma FewerMembers(a: seq<Row>, b: seq<Row>, x: Row)
    requires Distinct(a) && Distinct(b) && x in b && forall r :: r in a ==> r in b && r != x
    ensures |a| < |b|
  {
    DistinctSize(a);
    DistinctSize(b);
    var sa, sb := set r | r in a, set r | r in b;
    SubsetSize(sa + {x}, sb);
  }

  // ---------------------------------------------------------------- following the cursors

  /** All rows a client receives that starts at `cursor` and follows every next cursor. */
  function Follow(p: Plan, table: seq<Row>, cursor: Option<Row>, limit: nat): seq<Row>
    requires AllFit(p, table) && (cursor.Some? ==> Fits(p, cursor.value)) && Distinct(table) && limit > 0
    decreases |Remaining(p, table, cursor)|
  {
    var page := ReadPage(p, table, cursor, limit);
    if page.next.None? then page.rows
    else
      assert page.next.value in Sort(p, Remaining(p, table, cursor));
      RemainingShrinks(p, table, cursor, page.next.value);
      page.rows + Follow(p, table, page.next, limit)
  }

  lemma {:induction false} FollowIsBounded(p: Plan, table: seq<Row>, cursor: Option<Row>, limit: nat)
    requires AllFit(p, table) && (cursor.Some? ==> Fits(p, cursor.value)) && Distinct(table) && limit > 0
    ensures |Follow(p, table, cursor, limit)| <= |Remaining(p, table, cursor)|
    decreases |Remaining(p, table, cursor)|
  {
    var page := ReadPage(p, table, cursor, limit);
    if page.next.Some? {
      var b, rest := page.next.value, Remaining(p, table, page.next);
      var sorted := Sort(p, Remaining(p, table, cursor));
      assert b in sorted;
      RemainingShrinks(p, table, cursor, b);
      FollowIsBounded(p, table, page.next, limit);
      RemainingDistinct(p, table, cursor);
      RemainingDistinct(p, table, page.next);
      SortAscends(p, Remaining(p, table, cursor));
      forall r | r in rest ensures r !in sorted[..limit] {
        BeyondPage(p, sorted, limit, r);
      }
      DisjointSizes(rest, sorted, limit);
    }
  }

  /** A row the boundary selects does not stand on the page that ends with the boundary. */
  lemma BeyondPage(p: Plan, sorted: seq<Row>, limit: nat, r: Row)
    requires AllFit(p, sorted) && Ascending(p, sorted) && 0 < limit <= |sorted|
    requires Fits(p, r) && Selects(p, sorted[limit - 1], r)
    ensures r !in sorted[..limit]
  {
    SelectedIsAfterFrom(p, sorted[limit - 1], r, 0);
    forall j | 0 <= j < limit ensures sorted[j] != r {
      if j < limit - 1 {
        BeforeTotalFrom(p, sorted[j], sorted[limit - 1], 0);
      }
      BeforeTotalFrom(p, r, sorted[limit - 1], 0);
    }
  }

  lemma DisjointSizes(rest: seq<Row>, sorted: seq<Row>, limit: nat)
    requires Distinct(rest) && limit <= |sorted| && forall r :: r in rest ==> r in sorted && r !in sorted[..limit]
    ensures |rest| <= |sorted| - limit
  {
    DistinctSize(rest);
    var tail := sorted[limit..];
    forall r | r in rest ensures r in tail {
      assert sorted == sorted[..limit] + tail;
    }
    SubsetSize(set r | r in rest, set r | r in tail);
    SizeOfMembers(tail);
  }

  lemma {:induction false} SizeOfMembers(s: seq<Row>)
    ensures |set r | r in s| <= |s|
  {
    if s != [] {
      SizeOfMembers(s[1..]);
      assert (set r | r in s) == {s[0]} + (set r | r in s[1..]);
    }
  }

  /** The boundary after the first `m` rows of the full result loses nothing: it holds no NULL, and every later
      row differs from it first in a column where that row holds a value. */
  ghost predicate CleanBoundary(p: Plan, full: seq<Row>, m: nat)
    requires AllFit(p, full) && 0 < m <= |full|
  {
    NoNulls(full[m - 1]) && forall j :: m <= j < |full| ==> Selects(p, full[m - 1], full[j])
  }

  /** From the boundary after `m` rows the client still has `full[m..]` to read when the boundary is clean. */
  lemma CleanBoundaryLeavesTail(p: Plan, table: seq<Row>, m: nat)
    requires AllFit(p, table) && Distinct(table) && 0 < m <= |table| && CleanBoundary(p, Sort(p, table), m)
    ensures Sort(p, Remaining(p, table, Some(Sort(p, table)[m - 1]))) == Sort(p, table)[m..]
  {
    var full := Sort(p, table);
    var rest := Remaining(p, table, Some(full[m - 1]));
    SortAscends(p, table);
    RemainingDistinct(p, table, Some(full[m - 1]));
    SortAscends(p, rest);
    TailAscends(p, full, m);
    forall x ensures x in Sort(p, rest) <==> x in full[m..] {
      TailIsWhatRemains(p, table, full, m, x);
    }
    AscendingUnique(p, Sort(p, rest), full[m..]);
  }

  lemma TailAscends(p: Plan, full: seq<Row>, m: nat)
    requires AllFit(p, full) && Ascending(p, full) && m <= |full|
    ensures Ascending(p, full[m..])
  {
    forall i, j | 0 <= i < j < |full[m..]| ensures Before(p, full[m..][i], full[m..][j]) {
      assert Before(p, full[m + i], full[m + j]);
    }
  }

  lemma TailIsWhatRemains(p: Plan, table: seq<Row>, full: seq<Row>, m: nat, x: Row)
    requires AllFit(p, table) && full == Sort(p, table) && Ascending(p, full) && 0 < m <= |full|
    requires CleanBoundary(p, full, m)
    ensures x in Remaining(p, table, Some(full[m - 1])) <==> x in full[m..]
  {
    InSplit(full, m, x);
    if x in Remaining(p, table, Some(full[m - 1])) {
      BeyondPage(p, full, m, x);
    }
  }

  lemma InSplit<T>(s: seq<T>, m: nat, x: T)
    requires m <= |s|
    ensures x in s <==> x in s[..m] || x in s[m..]
    ensures x in s[m..] ==> exists j :: m <= j < |s| && s[j] == x
  {
    assert s == s[..m] + s[m..];
  }

  ghost predicate CleanFrom(p: Plan, full: seq<Row>, m: nat, limit: nat)
    requires AllFit(p, full) && limit > 0
    decreases |full| - m
  {
    m + limit < |full| ==> CleanBoundary(p, full, m + limit) && CleanFrom(p, full, m + limit, limit)
  }

  /** The client that continues at `cursor` has `full[m..]` still to read. */
  ghost predicate LeftToRead(p: Plan, table: seq<Row>, cursor: Option<Row>, full: seq<Row>, m: nat, limit: nat) {
    && AllFit(p, table) && Distinct(table) && limit > 0 && (cursor.Some? ==> Fits(p, cursor.value))
    && full == Sort(p, table) && m <= |full| && Sort(p, Remaining(p, table, cursor)) == full[m..]
  }

  /** And it gets it. */
  ghost predicate Gets(p: Plan, table: seq<Row>, cursor: Option<Row>, full: seq<Row>, m: nat, limit: nat)
    requires LeftToRead(p, table, cursor, full, m, limit)
  {
    Follow(p, table, cursor, limit) == full[m..]
  }

  /** It gets too few rows. */
  ghost predicate Loses(p: Plan, table: seq<Row>, cursor: Option<Row>, full: seq<Row>, m: nat, limit: nat)
    requires LeftToRead(p, table, cursor, full, m, limit)
  {
    |Follow(p, table, cursor, limit)| < |full| - m
  }

  /** After a page that ends at a clean boundary, the client is left with the rest and fares as it does from there. */
  lemma PageThenRest(p: Plan, table: seq<Row>, cursor: Option<Row>, full: seq<Row>, m: nat, limit: nat)
    requires LeftToRead(p, table, cursor, full, m, limit) && m + limit < |full| && CleanBoundary(p, full, m + limit)
    ensures var b := Some(full[m + limit - 1]);
            && LeftToRead(p, table, b, full, m + limit, limit)
            && (Gets(p, table, b, full, m + limit, limit) ==> Gets(p, table, cursor, full, m, limit))
            && (Loses(p, table, b, full, m + limit, limit) ==> Loses(p, table, cursor, full, m, limit))
  {
    CleanBoundaryLeavesTail(p, table, m + limit);
    FirstPage(p, table, cursor, full, m, limit);
    Slices(full, m, limit);
  }

  ghost predicate IsClean(p: Plan, full: seq<Row>, m: nat, limit: nat)
    requires AllFit(p, full) && limit > 0
  {
    CleanFrom(p, full, m, limit)
  }

  lemma CleanStep(p: Plan, full: seq<Row>, m: nat, limit: nat)
    requires AllFit(p, full) && limit > 0
    ensures m + limit >= |full| ==> IsClean(p, full, m, limit)
    ensures m + limit < |full| ==>
              (IsClean(p, full, m, limit) <==> CleanBoundary(p, full, m + limit) && IsClean(p, full, m + limit, limit))
  {
  }

  /** From row `m` on: the rest arrives completely and in order exactly when every boundary still to come is clean;
      otherwise too few rows do. */
  ghost predicate Fares(p: Plan, table: seq<Row>, cursor: Option<Row>, full: seq<Row>, m: nat, limit: nat)
    requires LeftToRead(p, table, cursor, full, m, limit)
  {
    if IsClean(p, full, m, limit) then Gets(p, table, cursor, full, m, limit) else Loses(p, table, cursor, full, m, limit)
  }

  lemma LastPage(p: Plan, table: seq<Row>, cursor: Option<Row>, full: seq<Row>, m: nat, limit: nat)
    requires LeftToRead(p, table, cursor, full, m, limit) && m + limit >= |full|
    ensures Fares(p, table, cursor, full, m, limit)
  {
    CleanStep(p, full, m, limit);
  }

  lemma DirtyLoses(p: Plan, table: seq<Row>, cursor: Option<Row>, full: seq<Row>, m: nat, limit: nat)
    requires LeftToRead(p, table, cursor, full, m, limit) && m + limit < |full| && !CleanBoundary(p, full, m + limit)
    ensures Fares(p, table, cursor, full, m, limit)
  {
    CleanStep(p, full, m, limit);
    DirtyPage(p, table, cursor, full, m, limit);
  }

  lemma CleanGoesOn(p: Plan, table: seq<Row>, cursor: Option<Row>, full: seq<Row>, m: nat, limit: nat)
    requires LeftToRead(p, table, cursor, full, m, limit) && m + limit < |full| && CleanBoundary(p, full, m + limit)
    ensures var b := Some(full[m + limit - 1]);
            && LeftToRead(p, table, b, full, m + limit, limit)
            && (Fares(p, table, b, full, m + limit, limit) ==> Fares(p, table, cursor, full, m, limit))
  {
    CleanStep(p, full, m, limit);
    PageThenRest(p, table, cursor, full, m, limit);
  }

  lemma {:induction false} FollowFrom(p: Plan, table: seq<Row>, cursor: Option<Row>, full: seq<Row>, m: nat, limit: nat)
    requires var left := LeftToRead(p, table, cursor, full, m, limit); left
    ensures var fares := Fares(p, table, cursor, full, m, limit); fares
    decreases |full| - m
  {
    if m + limit >= |full| {
      LastPage(p, table, cursor, full, m, limit);
    } else if CleanBoundary(p, full, m + limit) {
      CleanGoesOn(p, table, cursor, full, m, limit);
      FollowFrom(p, table, Some(full[m + limit - 1]), full, m + limit, limit);
    } else {
      DirtyLoses(p, table, cursor, full, m, limit);
    }
  }

  /** What the client has after one page that was not the last. */
  lemma FirstPage(p: Plan, table: seq<Row>, cursor: Option<Row>, full: seq<Row>, m: nat, limit: nat)
    requires AllFit(p, table) && Distinct(table) && limit > 0 && (cursor.Some? ==> Fits(p, cursor.value))
    requires full == Sort(p, table) && m + limit < |full| && Sort(p, Remaining(p, table, cursor)) == full[m..]
    ensures Follow(p, table, cursor, limit) == full[m..m + limit] +
              if NoNulls(full[m + limit - 1]) then Follow(p, table, Some(full[m + limit - 1]), limit) else []
  {
    Slices(full, m, limit);
  }

  lemma Slices<T>(s: seq<T>, m: nat, n: nat)
    requires 0 < n && m + n <= |s|
    ensures s[m..][n - 1] == s[m + n - 1] && s[m..][..n] == s[m..m + n] && s[m..] == s[m..m + n] + s[m + n..]
  {
  }

  /** Too few rows arrive when the page ends at a boundary that fails to select a later row. */
  lemma DirtyPage(p: Plan, table: seq<Row>, cursor: Option<Row>, full: seq<Row>, m: nat, limit: nat)
    requires AllFit(p, table) && Distinct(table) && limit > 0 && (cursor.Some? ==> Fits(p, cursor.value))
    requires full == Sort(p, table) && m + limit < |full| && Sort(p, Remaining(p, table, cursor)) == full[m..]
    requires !CleanBoundary(p, full, m + limit)
    ensures |Follow(p, table, cursor, limit)| < |full| - m
  {
    FirstPage(p, table, cursor, full, m, limit);
    DirtyBoundaryLoses(p, table, full, m + limit, limit);
  }

  lemma DirtyBoundaryLoses(p: Plan, table: seq<Row>, full: seq<Row>, m: nat, limit: nat)
    requires AllFit(p, table) && Distinct(table) && limit > 0 && full == Sort(p, table) && 0 < m <= |full|
    requires !CleanBoundary(p, full, m)
    ensures NoNulls(full[m - 1]) ==> |Follow(p, table, Some(full[m - 1]), limit)| < |full| - m
  {
    if NoNulls(full[m - 1]) {
      var j :| m <= j < |full| && !Selects(p, full[m - 1], full[j]);
      FollowIsBounded(p, table, Some(full[m - 1]), limit);
      LostRow(p, table, full, m, j);
    }
  }

  /** A row the boundary fails to select is one row too few for the rest of the walk. */
  lemma LostRow(p: Plan, table: seq<Row>, full: seq<Row>, m: nat, j: nat)
    requires AllFit(p, table) && Distinct(table) && full == Sort(p, table)
    requires 0 < m <= j < |full| && !Selects(p, full[m - 1], full[j])
    ensures |Remaining(p, table, Some(full[m - 1]))| < |full| - m
  {
    var rest := Remaining(p, table, Some(full[m - 1]));
    SortAscends(p, table);
    RemainingDistinct(p, table, Some(full[m - 1]));
    var others := full[m..j] + full[j + 1..];
    forall r | r in rest ensures r in others {
      BeyondPage(p, full, m, r);
      InOthers(full, m, j, r);
    }
    DistinctSize(rest);
    SubsetSize(set r | r in rest, set r | r in others);
    SizeOfMembers(others);
  }

  lemma InOthers(full: seq<Row>, m: nat, j: nat, r: Row)
    requires m <= j < |full| && r in full && r !in full[..m] && r != full[j]
    ensures r in full[m..j] + full[j + 1..]
  {
    assert full == full[..m] + (full[m..j] + [full[j]] + full[j + 1..]);
  }

  /** Following the cursors gives the fully sorted result, no row lost or repeated, exactly when every page
      boundary is clean. Any mix of directions, any page size; the walk always ends. */
  lemma PagesMakeTheResult(p: Plan, table: seq<Row>, limit: nat)
    requires AllFit(p, table) && Distinct(table) && limit > 0
    ensures Follow(p, table, None, limit) == Sort(p, table) <==> CleanFrom(p, Sort(p, table), 0, limit)
  {
    RemainingAll(p, table);
    assert Sort(p, table)[0..] == Sort(p, table);
    FollowFrom(p, table, None, Sort(p, table), 0, limit);
  }

  lemma {:induction false} RemainingAll(p: Plan, table: seq<Row>)
    requires AllFit(p, table)
    ensures Remaining(p, table, None) == table
  {
    if table != [] {
      RemainingAll(p, table[..|table| - 1]);
    }
  }

  /** Without NULLs in the cursor columns every boundary is clean. */
  lemma PagesWithoutNulls(p: Plan, table: seq<Row>, limit: nat)
    requires AllFit(p, table) && Distinct(table) && limit > 0 && forall r :: r in table ==> NoNulls(r)
    ensures Follow(p, table, None, limit) == Sort(p, table)
  {
    CleanWithoutNulls(p, table, 0, limit);
    PagesMakeTheResult(p, table, limit);
  }

  lemma {:induction false} CleanWithoutNulls(p: Plan, table: seq<Row>, m: nat, limit: nat)
    requires AllFit(p, table) && Distinct(table) && limit > 0 && forall r :: r in table ==> NoNulls(r)
    ensures CleanFrom(p, Sort(p, table), m, limit)
    decreases |table| - m
  {
    var full := Sort(p, table);
    if m + limit < |full| {
      SortAscends(p, table);
      var b := full[m + limit - 1];
      assert b in full;
      forall j | m + limit <= j < |full| ensures Selects(p, b, full[j]) {
        assert full[j] in full;
        SelectedIsAfterFrom(p, b, full[j], 0);
      }
      CleanWithoutNulls(p, table, m + limit, limit);
    }
  }

  // ---------------------------------------------------------------- from the records of a table to what a client gets

  /** The columns that a cursor holds, and how they sort. */
  ghost predicate CursorColumns(columns: set<Column>, keys: seq<Column>, names: seq<Column>, p: Plan) {
    && |names| == |p.desc| && NoRepeats(names)
    && (forall k :: 0 <= k < |names| ==> names[k] in columns)
    && (forall i :: 0 <= i < |keys| && keys[i] in columns ==> keys[i] in names)
  }

  /** The whole sort: the requested columns first, each in its direction, then the rest of the keys ascending. */
  method CursorPlan(columns: set<Column>, businessKey: seq<Column>, physicalKey: seq<Column>, orderBy: seq<SortItem>,
                    nullsLeast: bool)
    returns (r: Result<(seq<Column>, Plan), QueryError>, ghost at: seq<nat>)
    ensures r.Err? && r.error.UnknownColumn? <==>
              exists i :: 0 <= i < |Requested(orderBy, businessKey)| && Requested(orderBy, businessKey)[i].name !in columns
    ensures r == Err(NoSortColumns) <==> Requested(orderBy, businessKey) == []
    ensures r.Ok? ==>
              var (names, p) := r.value;
              && CursorColumns(columns, businessKey + physicalKey, names, p) && p.nullsLeast == nullsLeast
              && |at| <= |names| && Mentioned(Requested(orderBy, businessKey), at, names[..|at|], p.desc[..|at|])
              && (forall k :: |at| <= k < |names| ==> names[k] in businessKey + physicalKey && !p.desc[k])
  {
    var order;
    order, at := OrderPlan(columns, businessKey, orderBy);
    if order.Err? {
      return Err(order.error), at;
    }
    var (names, desc) := order.value;
    var keys := KeyPlan(columns, businessKey, physicalKey, names);
    var rest := seq(|keys|, _ => false);
    forall k | 0 <= k < |names| ensures names[k] in columns {
      assert Requested(orderBy, businessKey)[at[k]].name in columns;
    }
    SortThenKeys(columns, businessKey + physicalKey, names, keys, desc, rest, nullsLeast);
    r := Ok((names + keys, Plan(desc + rest, nullsLeast)));
  }

  lemma SortThenKeys(columns: set<Column>, candidates: seq<Column>, order: seq<Column>, keys: seq<Column>,
                     desc: seq<bool>, rest: seq<bool>, nullsLeast: bool)
    requires |order| == |desc| && |keys| == |rest| && NoRepeats(order + keys)
    requires forall k :: 0 <= k < |order| ==> order[k] in columns
    requires forall name: Column :: name in keys <==> name in candidates && name in columns && name !in order
    ensures CursorColumns(columns, candidates, order + keys, Plan(desc + rest, nullsLeast))
    ensures (order + keys)[..|order|] == order && (desc + rest)[..|order|] == desc
    ensures forall k :: |order| <= k < |order + keys| ==> (order + keys)[k] in candidates && (desc + rest)[k] == rest[k - |order|]
  {
    var names := order + keys;
    forall k | |order| <= k < |names| ensures names[k] in candidates && names[k] in columns {
      assert names[k] == keys[k - |order|];
    }
    forall i | 0 <= i < |candidates| && candidates[i] in columns ensures candidates[i] in names {
      var name := candidates[i];
      assert name in candidates && (name in keys || name in order);
    }
  }

  /** The records of a table with these columns, no two of which agree on its whole physical key. */
  ghost predicate Keyed(records: seq<Record>, columns: set<Column>, physicalKey: seq<Column>) {
    && (forall i :: 0 <= i < |physicalKey| ==> physicalKey[i] in columns)
    && (forall i :: 0 <= i < |records| ==> records[i].Keys == columns)
    && (forall i, j :: 0 <= i < j < |records| ==> DifferentKeys(records[i], records[j], physicalKey))
  }

  function Projected(records: seq<Record>, names: seq<Column>): (rows: seq<Row>)
    requires forall i :: 0 <= i < |records| ==> HasAll(records[i], names)
    ensures |rows| == |records| && forall i :: 0 <= i < |rows| ==> rows[i] == Project(records[i], names)
  {
    seq(|records|, i requires 0 <= i < |records| => Project(records[i], names))
  }

  lemma {:induction false} ProjectedApart(records: seq<Record>, columns: set<Column>, physicalKey: seq<Column>, names: seq<Column>)
    requires Keyed(records, columns, physicalKey)
    requires forall k :: 0 <= k < |names| ==> names[k] in columns
    requires forall i :: 0 <= i < |physicalKey| ==> physicalKey[i] in names
    ensures Distinct(Projected(records, names))
  {
    if records != [] {
      var n := |records| - 1;
      var rows := Projected(records, names);
      ProjectedApart(records[..n], columns, physicalKey, names);
      assert rows[..n] == Projected(records[..n], names);
      forall i | 0 <= i < n ensures rows[i] != rows[n] {
        CursorTellsRecordsApart(records[i], records[n], physicalKey, names);
      }
    }
  }

  /** Any table with a physical key, any request, any page size: following the cursors over the sort that the plan
      builds gives the fully sorted result, each record once, exactly when every page boundary is clean; without
      NULLs in the cursor columns it always does. */
  lemma PagesOfRecords(records: seq<Record>, columns: set<Column>, businessKey: seq<Column>, physicalKey: seq<Column>,
                       names: seq<Column>, p: Plan, limit: nat)
    requires Keyed(records, columns, physicalKey) && CursorColumns(columns, businessKey + physicalKey, names, p) && limit > 0
    ensures var table := Projected(records, names);
            && AllFit(p, table) && Distinct(table)
            && (Follow(p, table, None, limit) == Sort(p, table) <==> CleanFrom(p, Sort(p, table), 0, limit))
            && ((forall r :: r in table ==> NoNulls(r)) ==> Follow(p, table, None, limit) == Sort(p, table))
  {
    forall i | 0 <= i < |physicalKey| ensures physicalKey[i] in names {
      assert (businessKey + physicalKey)[|businessKey| + i] == physicalKey[i];
    }
    ProjectedApart(records, columns, physicalKey, names);
    var table := Projected(records, names);
    PagesMakeTheResult(p, table, limit);
    if forall r :: r in table ==> NoNulls(r) {
      PagesWithoutNulls(p, table, limit);
    }
  }

  /** A silent loss: one ascending column, NULL sorting last, pages of one. The row with the NULL never arrives
      and the client sees no warning. */
  lemma NullRowIsLostSilently(x: int)
    ensures var p := Plan([false], false);
            var table: seq<Row> := [[Some(x)], [None]];
            && Follow(p, table, None, 1) == [[Some(x)]]
            && ReadPage(p, table, Some([Some(x)]), 1) == Page([], None, false)
  {
    var p := Plan([false], false);
    var table: seq<Row> := [[Some(x)], [None]];
    var a: Row := [Some(x)];
    var n: Row := [None];
    assert table[..1] == [a];
    assert Before(p, a, n) && !Before(p, n, a);
    assert Sort(p, [a]) == [a];
    assert Insert(p, n, [a]) == [a, n];
    assert Sort(p, table) == [a, n];
    RemainingAll(p, table);
    assert !Selects(p, a, a) && !Selects(p, a, n);
    assert Remaining(p, [a], Some(a)) == [];
    assert Remaining(p, table, Some(a)) == [];
  }
}
