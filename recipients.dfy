/**
 * Recipient rows as the mailer sees them: the address it sends to, the
 * rendering context it builds from the optional name and company columns,
 * and the filter that keeps the rows worth sending to.
 */
module Recipients {
  import opened Wrappers
  import PyStr
  import Template

  /** One row of the uploaded table: column name to cell text. */
  type Row = map<string, string>

  /** Every row has the given column (the address column is picked from the
      table's own columns, so every row of that table has it). */
  predicate HasColumn(rows: seq<Row>, col: string)
  {
    forall i :: 0 <= i < |rows| ==> col in rows[i]
  }

  /** `str(row[email_col]).strip()`: the address a row is sent to. Empty
      exactly when the cell holds only whitespace. */
  function Address(row: Row, emailCol: string): (a: string)
    requires emailCol in row
    ensures a == [] <==> PyStr.AllSpace(row[emailCol])
  {
    PyStr.Strip(row[emailCol])
  }

  /** The addresses of a batch's rows, by position. */
  function Addresses(rows: seq<Row>, emailCol: string): (addrs: seq<string>)
    requires HasColumn(rows, emailCol)
    ensures |addrs| == |rows|
  {
    seq(|rows|, i requires 0 <= i < |rows| => Address(rows[i], emailCol))
  }

  /** Python truthiness of an optional column name: chosen and non-empty. */
  predicate Chosen(col: Option<string>)
  {
    col.Some? && col.value != []
  }

  /** The optional column is chosen and the row has it. */
  predicate Bound(row: Row, col: Option<string>)
  {
    Chosen(col) && col.value in row
  }

  /**
   * The rendering context of one row. `name` and `company` are bound to the
   * raw cell text only when their column is chosen and present in the row;
   * otherwise the key is absent (there is no default text).
   */
  function BuildContext(row: Row, nameCol: Option<string>, companyCol: Option<string>)
    : (ctx: map<string, string>)
    ensures ctx.Keys <= {"name", "company"}
    ensures "name" in ctx <==> Bound(row, nameCol)
    ensures "name" in ctx ==> ctx["name"] == row[nameCol.value]
    ensures "company" in ctx <==> Bound(row, companyCol)
    ensures "company" in ctx ==> ctx["company"] == row[companyCol.value]
  {
    var withName: map<string, string> :=
      if Bound(row, nameCol) then map["name" := row[nameCol.value]] else map[];
    if Bound(row, companyCol) then withName["company" := row[companyCol.value]] else withName
  }

  /** Is `key` one that BuildContext binds for this row? */
  predicate Supplies(row: Row, nameCol: Option<string>, companyCol: Option<string>, key: string)
  {
    (key == "name" && Bound(row, nameCol)) || (key == "company" && Bound(row, companyCol))
  }

  /**
   * A template naming a field the row does not supply (an unchosen or
   * missing name/company column, or any other key) is used verbatim.
   */
  lemma UnsuppliedFieldKeepsTemplate(row: Row, nameCol: Option<string>, companyCol: Option<string>,
                                     t: string, key: string)
    requires Template.Parse(t).Some? && Template.Field(key) in Template.Parse(t).value
    requires !Supplies(row, nameCol, companyCol, key)
    ensures Template.SafeFormat(t, BuildContext(row, nameCol, companyCol)) == t
  {
    Template.MissingKeyKeepsTemplate(t, BuildContext(row, nameCol, companyCol), key);
  }

  /**
   * A well-formed template whose every field is a supplied `name` or
   * `company` is rendered (not sent verbatim).
   */
  lemma SuppliedFieldsRender(row: Row, nameCol: Option<string>, companyCol: Option<string>, t: string)
    requires Template.Parse(t).Some?
    requires forall k :: 0 <= k < |Template.Parse(t).value| && Template.Parse(t).value[k].Field? ==>
               Supplies(row, nameCol, companyCol, Template.Parse(t).value[k].name)
    ensures Template.Format(t, BuildContext(row, nameCol, companyCol)).Some?
  {
    var ctx := BuildContext(row, nameCol, companyCol);
    var ps := Template.Parse(t).value;
    forall k | 0 <= k < |ps| && ps[k].Field? ensures Template.Resolvable(ps[k].name, ctx) {
      SuppliedIsResolvable(row, nameCol, companyCol, ps[k].name);
    }
    Template.FillSucceedsIff(ps, ctx);
  }

  /** A key the context supplies is one `format` fills from it. */
  lemma SuppliedIsResolvable(row: Row, nameCol: Option<string>, companyCol: Option<string>, key: string)
    requires Supplies(row, nameCol, companyCol, key)
    ensures Template.Resolvable(key, BuildContext(row, nameCol, companyCol))
  {
    assert key == "name" || key == "company";
    assert !Template.IsDigit(key[0]);
  }

  /** The row has a non-blank address. */
  predicate IsValid(row: Row, emailCol: string)
  {
    emailCol in row && Address(row, emailCol) != []
  }

  /**
   * `[row for _, row in df.iterrows() if str(row[email_col]).strip()]`:
   * the rows with a non-blank address, in table order.
   */
  function ValidRows(rows: seq<Row>, emailCol: string): (r: seq<Row>)
    requires HasColumn(rows, emailCol)
    ensures |r| <= |rows|
    ensures forall k :: 0 <= k < |r| ==> IsValid(r[k], emailCol)
  {
    if rows == [] then []
    else
      var m := |rows| - 1;
      var init := ValidRows(rows[..m], emailCol);
      if IsValid(rows[m], emailCol) then init + [rows[m]] else init
  }

  /** Filtering is done row by row, so it keeps the table's order. */
  lemma {:induction false} ValidRowsAppend(a: seq<Row>, b: seq<Row>, emailCol: string)
    requires HasColumn(a, emailCol) && HasColumn(b, emailCol)
    ensures HasColumn(a + b, emailCol)
    ensures ValidRows(a + b, emailCol) == ValidRows(a, emailCol) + ValidRows(b, emailCol)
    decreases |b|
  {
    var ab := a + b;
    assert HasColumn(ab, emailCol) by {
      forall i | 0 <= i < |ab| ensures emailCol in ab[i] {
        if i >= |a| { assert ab[i] == b[i - |a|]; }
      }
    }
    if b == [] {
      assert ab == a;
    } else {
      var m := |b| - 1;
      assert ab[..|ab| - 1] == a + b[..m];
      assert HasColumn(b[..m], emailCol);
      ValidRowsAppend(a, b[..m], emailCol);
      assert ab[|ab| - 1] == b[m];
    }
  }

  /** Each row is kept as often as it occurs, exactly when its address is non-blank. */
  lemma {:induction false} ValidRowsCount(rows: seq<Row>, emailCol: string, x: Row)
    requires HasColumn(rows, emailCol)
    ensures multiset(ValidRows(rows, emailCol))[x] ==
              if IsValid(x, emailCol) then multiset(rows)[x] else 0
  {
    if rows != [] {
      var m := |rows| - 1;
      ValidRowsCount(rows[..m], emailCol, x);
      assert rows == rows[..m] + [rows[m]];
    }
  }

  /** Every kept row is a row of the table. */
  lemma ValidRowsFromTable(rows: seq<Row>, emailCol: string)
    requires HasColumn(rows, emailCol)
    ensures forall r :: r in ValidRows(rows, emailCol) ==> r in rows
  {
    forall r | r in ValidRows(rows, emailCol) ensures r in rows {
      ValidRowsCount(rows, emailCol, r);
    }
  }

  /** The address of a kept row is the address of a row of the table. */
  lemma KeptAddressFromTable(rows: seq<Row>, emailCol: string, r: nat)
    requires HasColumn(rows, emailCol) && r < |ValidRows(rows, emailCol)|
    ensures HasColumn(ValidRows(rows, emailCol), emailCol)
    ensures exists i :: 0 <= i < |rows| && Addresses(ValidRows(rows, emailCol), emailCol)[r] == Address(rows[i], emailCol)
  {
    var kept := ValidRows(rows, emailCol);
    ValidRowsFromTable(rows, emailCol);
    assert kept[r] in kept;
    var i :| 0 <= i < |rows| && rows[i] == kept[r];
  }
}
