/** The OpenCC table the scripts write: one `variant<TAB>key<NEWLINE>` line per dictionary item. */
module Table {
  import opened Wrappers
  import opened PyStr

  /** `f"{key}\t{value}\n"` */
  function Row(item: (String, String)): String
  {
    item.0 + "\t" + item.1 + "\n"
  }

  /** The rows of the items, in order. */
  function Rows(items: seq<(String, String)>): (r: seq<String>)
    ensures |r| == |items|
    decreases |items|
  {
    if items == [] then [] else Rows(items[..|items| - 1]) + [Row(items[|items| - 1])]
  }

  lemma RowsSnoc(items: seq<(String, String)>, item: (String, String))
    ensures Rows(items + [item]) == Rows(items) + [Row(item)]
  {
    assert (items + [item])[..|items|] == items;
  }

  /** Reading a row back: the text before its first tab and the rest without the line end. */
  function ParseRow(row: String): (r: Option<(String, String)>)
  {
    if row == [] || row[|row| - 1] != '\n' then None
    else
      var parts := SplitOnce(row[..|row| - 1], '\t');
      if |parts| == 2 then Some((parts[0], parts[1])) else None
  }

  /** A row reads back as its item when the variant holds no tab. */
  lemma ParseRowRow(item: (String, String))
    requires '\t' !in item.0
    ensures ParseRow(Row(item)) == Some(item)
  {
    var row := Row(item);
    assert row[..|row| - 1] == item.0 + ['\t'] + item.1;
    SplitOnceConcat(item.0, '\t', item.1);
  }

  /** Every row is a line: it ends in its only newline when the item has none. */
  lemma RowIsLine(item: (String, String))
    requires '\n' !in item.0 && '\n' !in item.1
    ensures Row(item)[|Row(item)| - 1] == '\n' && '\n' !in Row(item)[..|Row(item)| - 1]
  {
    var row := Row(item);
    assert row[..|row| - 1] == item.0 + "\t" + item.1;
  }

  lemma {:induction false} RowsIndex(items: seq<(String, String)>, i: nat)
    requires i < |items|
    ensures Rows(items)[i] == Row(items[i])
    decreases |items|
  {
    if i < |items| - 1 {
      RowsIndex(items[..|items| - 1], i);
    }
  }

  /** A table whose variants hold no tab reads back, row by row, as its items. */
  lemma ReadBack(items: seq<(String, String)>)
    requires forall i :: 0 <= i < |items| ==> '\t' !in items[i].0
    ensures forall i :: 0 <= i < |Rows(items)| ==> ParseRow(Rows(items)[i]) == Some(items[i])
  {
    forall i | 0 <= i < |Rows(items)| ensures ParseRow(Rows(items)[i]) == Some(items[i]) {
      RowsIndex(items, i);
      ParseRowRow(items[i]);
    }
  }
}
