/** Rows of a table in the browser, and what a script can do to them. */
module Rows {
  import opened SortKeys

  /** A row: the data attributes a script reads back, and everything else it shows. */
  datatype Row<+C> = Row(id: string, key: string, online: bool, content: C)

  /** The rows, and what the totals and the empty message last said about them. */
  datatype PageState<+C> = PageState(rows: seq<Row<C>>, online: nat, offline: nat, emptyHidden: bool)

  /** The first row with the ID goes. */
  function RemoveRow<C>(rows: seq<Row<C>>, id: string): seq<Row<C>> {
    if rows == [] then []
    else if rows[0].id == id then rows[1..]
    else [rows[0]] + RemoveRow(rows[1..], id)
  }

  /** The row goes in front of the first row whose key comes after its own. */
  function InsertRow<C>(rows: seq<Row<C>>, row: Row<C>): seq<Row<C>> {
    if rows == [] then [row]
    else if JsAfter(rows[0].key, row.key) then [row] + rows
    else [rows[0]] + InsertRow(rows[1..], row)
  }

  /** The row goes in front of row `i`, or somewhere after it. */
  lemma {:induction false} InsertFrom<C>(rows: seq<Row<C>>, row: Row<C>, i: nat)
    requires i < |rows|
    ensures rows[..i] + InsertRow(rows[i..], row)
            == if JsAfter(rows[i].key, row.key) then rows[..i] + ([row] + rows[i..])
               else rows[..i + 1] + InsertRow(rows[i + 1..], row)
  {
    assert rows[i..][1..] == rows[i + 1..];
    if !JsAfter(rows[i].key, row.key) {
      assert rows[..i + 1] == rows[..i] + [rows[i]];
      assert rows[..i] + ([rows[i]] + InsertRow(rows[i + 1..], row)) == rows[..i + 1] + InsertRow(rows[i + 1..], row);
    }
  }

  ghost predicate FirstWithID<C>(rows: seq<Row<C>>, id: string, at: int) {
    && 0 <= at < |rows| && rows[at].id == id
    && forall j :: 0 <= j < at ==> rows[j].id != id
  }

  lemma WithoutOneOfRest<C>(rows: seq<Row<C>>, i: nat)
    requires 0 < i < |rows|
    ensures [rows[0]] + (rows[1..][..i - 1] + rows[1..][i..]) == rows[..i] + rows[i + 1..]
  {
    assert rows[1..][i..] == rows[i + 1..];
    assert [rows[0]] + rows[1..][..i - 1] == rows[..i];
  }

  lemma FirstOfRest<C>(rows: seq<Row<C>>, id: string, i: int)
    requires FirstWithID(rows, id, i) && i > 0
    ensures FirstWithID(rows[1..], id, i - 1)
  {
  }

  lemma {:induction false} RemoveRowMeans<C>(rows: seq<Row<C>>, id: string)
    ensures forall i :: FirstWithID(rows, id, i) ==> RemoveRow(rows, id) == rows[..i] + rows[i + 1..]
    ensures (forall j :: 0 <= j < |rows| ==> rows[j].id != id) ==> RemoveRow(rows, id) == rows
  {
    if rows != [] && rows[0].id != id {
      RemoveRowMeans(rows[1..], id);
      forall i | FirstWithID(rows, id, i) ensures RemoveRow(rows, id) == rows[..i] + rows[i + 1..] {
        FirstOfRest(rows, id, i);
        WithoutOneOfRest(rows, i);
      }
    }
  }

  function OnlineRows<C>(rows: seq<Row<C>>): nat {
    if rows == [] then 0 else OnlineRows(rows[..|rows| - 1]) + if rows[|rows| - 1].online then 1 else 0
  }

  function Recounted<C>(rows: seq<Row<C>>, runningOnly: bool): (page: PageState<C>)
    ensures page.online + page.offline == |rows|
  {
    OnlineRowsAreRows(rows);
    var online := OnlineRows(rows);
    PageState(rows, online, |rows| - online, (if runningOnly then online else |rows|) > 0)
  }

  lemma {:induction false} OnlineRowsAreRows<C>(rows: seq<Row<C>>)
    ensures OnlineRows(rows) <= |rows|
  {
    if rows != [] { OnlineRowsAreRows(rows[..|rows| - 1]); }
  }
}
