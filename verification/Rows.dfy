/** Tables as sequences of rows, SQL's three truth values, and the keys JavaScript maps are indexed by. */
module Rows {
  import opened Text

  datatype Value = Null | Num(n: int) | Str(s: string)

  /** A row of a full select, by column: a column that it does not list is NULL. */
  type Row = map<string, Value>

  function Col(row: Row, column: string): Value {
    if column in row then row[column] else Null
  }

  /** `String(value)`. */
  function Spell(v: Value): string {
    match v
    case Null => "null"
    case Num(n) => if n >= 0 then Decimal(n) else "-" + Decimal(-n)
    case Str(s) => s
  }

  /** Keys that JavaScript map lookups tell apart exactly as SQL equality does. */
  ghost predicate Faithful(keys: set<Value>) {
    && (forall v, w :: v in keys && w in keys && v != Null && w != Null && Spell(v) == Spell(w) ==> v == w)
    && (forall v :: v in keys && v != Null ==> Spell(v) != Spell(Null))
  }

  /** Integer keys are always faithful. */
  lemma IntegersAreFaithful(keys: set<Value>)
    requires forall v <- keys :: v.Null? || v.Num?
    ensures Faithful(keys)
  {
    forall v, w | v in keys && w in keys && v != Null && w != Null && Spell(v) == Spell(w) ensures v == w {
      assert v.n >= 0 <==> Spell(v)[0] != '-';
      assert w.n >= 0 <==> Spell(w)[0] != '-';
      if v.n >= 0 {
        DecimalInjective(v.n, w.n);
      } else {
        assert Decimal(-v.n) == Spell(v)[1..] && Decimal(-w.n) == Spell(w)[1..];
        DecimalInjective(-v.n, -w.n);
      }
    }
    forall v | v in keys && v != Null ensures Spell(v) != Spell(Null) {
      assert Spell(v)[0] != 'n';
    }
  }

  /** So are string keys other than the word "null". */
  lemma StringsAreFaithful(keys: set<Value>)
    requires forall v <- keys :: v.Null? || (v.Str? && v.s != "null")
    ensures Faithful(keys)
  {
  }

  // -------------------------------------------------------------- predicates

  datatype Truth = True | False | Unknown

  function And(a: Truth, b: Truth): Truth {
    if a.False? || b.False? then False else if a.True? && b.True? then True else Unknown
  }

  function Or(a: Truth, b: Truth): Truth {
    if a.True? || b.True? then True else if a.False? && b.False? then False else Unknown
  }

  function Not(a: Truth): Truth {
    match a case True => False case False => True case Unknown => Unknown
  }

  function Equal(a: Value, b: Value): Truth {
    if a.Null? || b.Null? then Unknown else if a == b then True else False
  }

  /** One where-clause on a row, with the connector joining it to what precedes it. */
  datatype Clause = Clause(isOr: bool, test: Row -> Truth)

  /** Clauses are joined from the left; the first connector is ignored and no clauses at all accept every row. */
  function Holds(clauses: seq<Clause>, row: Row): Truth {
    if clauses == [] then True
    else
      var last := clauses[|clauses| - 1];
      if |clauses| == 1 then last.test(row)
      else if last.isOr then Or(Holds(clauses[..|clauses| - 1], row), last.test(row))
      else And(Holds(clauses[..|clauses| - 1], row), last.test(row))
  }

  lemma HoldsSnoc(clauses: seq<Clause>, last: Clause, row: Row)
    ensures Holds(clauses + [last], row) ==
      if clauses == [] then last.test(row)
      else if last.isOr then Or(Holds(clauses, row), last.test(row)) else And(Holds(clauses, row), last.test(row))
  {
    assert (clauses + [last])[..|clauses|] == clauses;
  }

  ghost predicate AndOnly(clauses: seq<Clause>) {
    forall i :: 0 <= i < |clauses| ==> !clauses[i].isOr
  }

  /** Without `or`, a row passes exactly when every clause does. */
  lemma {:induction false} AndOnlyHolds(clauses: seq<Clause>, row: Row)
    requires AndOnly(clauses)
    ensures Holds(clauses, row) == True <==> forall i :: 0 <= i < |clauses| ==> clauses[i].test(row) == True
  {
    if |clauses| > 1 {
      var init := clauses[..|clauses| - 1];
      AndOnlyHolds(init, row);
      assert forall i :: 0 <= i < |init| ==> clauses[i] == init[i];
    }
  }

  /** A clause may be exchanged for one with the same connector that gives the same answer on the row. */
  lemma {:induction false} HoldsExchange(before: seq<Clause>, a: Clause, b: Clause, after: seq<Clause>, row: Row)
    requires a.isOr == b.isOr && a.test(row) == b.test(row)
    ensures Holds(before + [a] + after, row) == Holds(before + [b] + after, row)
  {
    if after == [] {
      HoldsSnoc(before, a, row);
      HoldsSnoc(before, b, row);
      assert before + [a] + after == before + [a] && before + [b] + after == before + [b];
    } else {
      var init, last := after[..|after| - 1], after[|after| - 1];
      HoldsExchange(before, a, b, init, row);
      HoldsSnoc(before + [a] + init, last, row);
      HoldsSnoc(before + [b] + init, last, row);
      assert before + [a] + after == before + [a] + init + [last];
      assert before + [b] + after == before + [b] + init + [last];
    }
  }

  // ----------------------------------------------------------------- queries

  /** The rows every clause list accepts, in table order. */
  function Select(rows: seq<Row>, clauses: seq<Clause>): (selected: seq<Row>)
    ensures forall r <- selected :: r in rows && Holds(clauses, r) == True
  {
    if rows == [] then []
    else (if Holds(clauses, rows[0]) == True then [rows[0]] else []) + Select(rows[1..], clauses)
  }

  /** The rows a JavaScript grouping of `rows` by `column` files under `key`. */
  function Filed(rows: seq<Row>, column: string, key: string): (filed: seq<Row>)
    ensures forall r <- filed :: r in rows && Spell(Col(r, column)) == key
  {
    if rows == [] then []
    else (if Spell(Col(rows[0], column)) == key then [rows[0]] else []) + Filed(rows[1..], column, key)
  }

  lemma {:induction false} FiledSnoc(rows: seq<Row>, row: Row, column: string, key: string)
    ensures Filed(rows + [row], column, key)
         == Filed(rows, column, key) + if Spell(Col(row, column)) == key then [row] else []
  {
    if rows == [] {
      assert rows + [row] == [row];
    } else {
      assert (rows + [row])[1..] == rows[1..] + [row];
      FiledSnoc(rows[1..], row, column, key);
    }
  }

  function Is(column: string, v: Value): Clause {
    Clause(false, (row: Row) => Equal(Col(row, column), v))
  }

  /** `column in (keys)`. */
  function In(column: string, keys: set<Value>): Clause {
    Clause(false, (row: Row) =>
      if Col(row, column).Null? then Unknown else if Col(row, column) in keys then True else False)
  }

  const ALWAYS := Clause(false, (row: Row) => True)

  /** The rows whose `column` is `key` and that pass `before`, then `after`. */
  function Matching(rows: seq<Row>, before: seq<Clause>, column: string, key: Value, after: seq<Clause>): (m: seq<Row>)
    ensures forall r <- m :: r in rows && Col(r, column) == key && key != Null
  {
    if rows == [] || key.Null? then []
    else
      (if Col(rows[0], column) == key && Holds(before + [ALWAYS] + after, rows[0]) == True then [rows[0]] else [])
      + Matching(rows[1..], before, column, key, after)
  }

  function Values(rows: seq<Row>, column: string): (values: set<Value>)
    ensures forall r <- rows :: Col(r, column) in values
  {
    set r | r in rows :: Col(r, column)
  }

  /** The keys a batched query asks for. */
  function Defined(rows: seq<Row>, column: string): (keys: set<Value>)
    ensures forall v :: v in keys <==> v != Null && exists r :: r in rows && Col(r, column) == v
  {
    set r | r in rows && Col(r, column) != Null :: Col(r, column)
  }

  /**
   * Fetching a whole set of keys and filing the rows by spelled key gives, for each key in the set,
   * exactly the rows with that key.
   */
  lemma {:induction false} FiledIsMatching(rows: seq<Row>, before: seq<Clause>, column: string, keys: set<Value>,
                                           after: seq<Clause>, key: Value)
    requires Faithful(Values(rows, column) + {key}) && key in keys && key != Null
    ensures Filed(Select(rows, before + [In(column, keys)] + after), column, Spell(key))
         == Matching(rows, before, column, key, after)
  {
    if rows != [] {
      var r, rest := rows[0], rows[1..];
      FaithfulSubset(Values(rows, column) + {key}, Values(rest, column) + {key});
      FiledIsMatching(rest, before, column, keys, after, key);
      var clauses := before + [In(column, keys)] + after;
      assert Col(r, column) in Values(rows, column);
      if Spell(Col(r, column)) == Spell(key) {
        assert Col(r, column) == key;
        HoldsExchange(before, In(column, keys), ALWAYS, after, r);
      }
      if Holds(clauses, r) == True {
        var selected := Select(rows, clauses);
        assert selected == [r] + Select(rest, clauses) && selected[1..] == Select(rest, clauses);
      } else {
        assert Select(rows, clauses) == Select(rest, clauses);
      }
    }
  }

  lemma FaithfulSubset(keys: set<Value>, fewer: set<Value>)
    requires Faithful(keys) && fewer <= keys
    ensures Faithful(fewer)
  {
  }

  /** The rows with a NULL key that get into a batch all the same. */
  function Strays(rows: seq<Row>, before: seq<Clause>, column: string, keys: set<Value>, after: seq<Clause>)
    : (strays: seq<Row>)
    ensures forall r <- strays :: r in rows && Col(r, column) == Null
                                  && Holds(before + [In(column, keys)] + after, r) == True
  {
    if rows == [] then []
    else
      (if Col(rows[0], column) == Null && Holds(before + [In(column, keys)] + after, rows[0]) == True then [rows[0]]
       else [])
      + Strays(rows[1..], before, column, keys, after)
  }

  /** They are what is filed under the spelling of NULL. */
  lemma {:induction false} FiledUnderNull(rows: seq<Row>, before: seq<Clause>, column: string, keys: set<Value>,
                                          after: seq<Clause>)
    requires Faithful(Values(rows, column))
    ensures Filed(Select(rows, before + [In(column, keys)] + after), column, Spell(Null))
         == Strays(rows, before, column, keys, after)
  {
    if rows != [] {
      var r, rest := rows[0], rows[1..];
      FaithfulSubset(Values(rows, column), Values(rest, column));
      FiledUnderNull(rest, before, column, keys, after);
      var clauses := before + [In(column, keys)] + after;
      assert Col(r, column) in Values(rows, column);
      if Holds(clauses, r) == True {
        var selected := Select(rows, clauses);
        assert selected == [r] + Select(rest, clauses) && selected[1..] == Select(rest, clauses);
      } else {
        assert Select(rows, clauses) == Select(rest, clauses);
      }
    }
  }

  /** Without `or` there are none. */
  lemma NothingStrays(rows: seq<Row>, before: seq<Clause>, column: string, keys: set<Value>, after: seq<Clause>)
    requires AndOnly(after)
    ensures Strays(rows, before, column, keys, after) == []
  {
    var strays := Strays(rows, before, column, keys, after);
    if strays != [] {
      assert strays[0] in strays;
      AndTail(before, In(column, keys), after, strays[0]);
      assert false;
    }
  }

  /** A conjoined clause followed by conjoined clauses must itself hold. */
  lemma {:induction false} AndTail(before: seq<Clause>, clause: Clause, after: seq<Clause>, row: Row)
    requires !clause.isOr && AndOnly(after)
    requires Holds(before + [clause] + after, row) == True
    ensures clause.test(row) == True
  {
    if after == [] {
      HoldsSnoc(before, clause, row);
      assert before + [clause] + after == before + [clause];
    } else {
      var init, last := after[..|after| - 1], after[|after| - 1];
      assert before + [clause] + after == before + [clause] + init + [last];
      HoldsSnoc(before + [clause] + init, last, row);
      AndTail(before, clause, init, row);
    }
  }
}
