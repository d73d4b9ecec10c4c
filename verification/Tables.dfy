/**
  The table pass of the Markdown converter (server/markdown_utils.go), on the lines between the line breaks.
*/
module Tables {
  import opened Prelude
  import opened TableStrings

  // ---------- the pass ----------

  /** A line that is kept: as a table row or as text. */
  datatype Item = Row(html: string) | Text(line: string)

  datatype Block = Table(rows: seq<string>) | Line(text: string)

  predicate LooksLikeRow(line: string) {
    '|' in line && |line| > 1
  }

  /** A row is a header exactly when the next line is a separator. */
  predicate BeforeSeparator(lines: seq<string>, i: int)
    requires 0 <= i < |lines|
  {
    i + 1 < |lines| && IsTableSeparator(TrimSpace(lines[i + 1]))
  }

  function ItemAt(lines: seq<string>, i: int): seq<Item>
    requires 0 <= i < |lines|
  {
    var line := TrimSpace(lines[i]);
    if line == "" then [Text(line)]
    else if IsTableSeparator(line) then []
    else if LooksLikeRow(line) then [Row(RowHTML(line, BeforeSeparator(lines, i)))]
    else [Text(line)]
  }

  function Items(lines: seq<string>, n: int): seq<Item>
    requires 0 <= n <= |lines|
  {
    if n == 0 then [] else Items(lines, n - 1) + ItemAt(lines, n - 1)
  }

  function ItemsOf(b: Block): seq<Item> {
    match b case Table(rows) => seq(|rows|, i requires 0 <= i < |rows| => Row(rows[i])) case Line(t) => [Text(t)]
  }

  function Flattened(blocks: seq<Block>): seq<Item> {
    if blocks == [] then []
    else
      Flattened(blocks[..|blocks| - 1]) + ItemsOf(blocks[|blocks| - 1])
  }

  predicate EndsInTable(blocks: seq<Block>) {
    blocks != [] && blocks[|blocks| - 1].Table?
  }

  /** The blocks hold the items in order, each once, and their tables are exactly the maximal runs of rows. */
  ghost predicate IsGrouping(blocks: seq<Block>, items: seq<Item>) {
    && Flattened(blocks) == items
    && (forall i :: 0 <= i < |blocks| && blocks[i].Table? ==> blocks[i].rows != [])
    && (forall i :: 0 < i < |blocks| ==> !(blocks[i - 1].Table? && blocks[i].Table?))
  }

  function WithItem(blocks: seq<Block>, item: Item): seq<Block> {
    match item
    case Text(line) => blocks + [Line(line)]
    case Row(html) =>
      if EndsInTable(blocks)
      then blocks[..|blocks| - 1] + [Table(blocks[|blocks| - 1].rows + [html])]
      else blocks + [Table([html])]
  }

  function Grouped(items: seq<Item>): seq<Block> {
    if items == [] then [] else WithItem(Grouped(items[..|items| - 1]), items[|items| - 1])
  }

  lemma FlattenedMore(blocks: seq<Block>, b: Block)
    ensures Flattened(blocks + [b]) == Flattened(blocks) + ItemsOf(b)
  {
    assert (blocks + [b])[..|blocks|] == blocks;
  }

  lemma GroupingMore(blocks: seq<Block>, items: seq<Item>, item: Item)
    requires IsGrouping(blocks, items)
    ensures IsGrouping(WithItem(blocks, item), items + [item])
  {
    hide Flattened, ItemsOf;
    if item.Text? {
      FlattenedMore(blocks, Line(item.line));
      LineItems(item.line);
    } else if EndsInTable(blocks) {
      var init, last := blocks[..|blocks| - 1], blocks[|blocks| - 1];
      assert blocks == init + [last];
      FlattenedMore(init, last);
      FlattenedMore(init, Table(last.rows + [item.html]));
      RowItems(last.rows, item.html);
      Regroup(Flattened(init), ItemsOf(last), [item]);
    } else {
      FlattenedMore(blocks, Table([item.html]));
      RowItems([], item.html);
      assert [] + [item.html] == [item.html];
    }
  }

  lemma LineItems(line: string)
    ensures ItemsOf(Line(line)) == [Text(line)]
  {
  }

  lemma RowItems(rows: seq<string>, html: string)
    ensures ItemsOf(Table(rows + [html])) == ItemsOf(Table(rows)) + [Row(html)]
    ensures ItemsOf(Table([])) == [] && [] + [Row(html)] == [Row(html)]
  {
  }

  lemma {:induction false} GroupedIsGrouping(items: seq<Item>)
    ensures IsGrouping(Grouped(items), items)
  {
    hide WithItem;
    if items != [] {
      GroupedIsGrouping(items[..|items| - 1]);
      GroupingMore(Grouped(items[..|items| - 1]), items[..|items| - 1], items[|items| - 1]);
      assert items == items[..|items| - 1] + [items[|items| - 1]];
    }
  }

  /** A nonempty grouping is one of fewer items with the last put back. */
  lemma GroupingLess(blocks: seq<Block>, items: seq<Item>) returns (less: seq<Block>)
    requires IsGrouping(blocks, items) && items != []
    ensures IsGrouping(less, items[..|items| - 1]) && blocks == WithItem(less, items[|items| - 1])
  {
    assert blocks != [];
    hide IsGrouping, WithItem, Flattened;
    if blocks[|blocks| - 1].Line? {
      less := blocks[..|blocks| - 1];
      LessLine(blocks, items);
    } else {
      less := LessRow(blocks, items);
    }
  }

  lemma LessLine(blocks: seq<Block>, items: seq<Item>)
    requires IsGrouping(blocks, items) && blocks != [] && blocks[|blocks| - 1].Line?
    ensures items != [] && IsGrouping(blocks[..|blocks| - 1], items[..|items| - 1])
    ensures blocks == WithItem(blocks[..|blocks| - 1], items[|items| - 1])
  {
    hide Flattened, ItemsOf;
    var init, last := blocks[..|blocks| - 1], blocks[|blocks| - 1];
    assert blocks == init + [last];
    FlattenedMore(init, last);
    LineItems(last.text);
    assert items == Flattened(init) + [Text(last.text)];
  }

  lemma LessRow(blocks: seq<Block>, items: seq<Item>) returns (less: seq<Block>)
    requires IsGrouping(blocks, items) && blocks != [] && blocks[|blocks| - 1].Table? && items != []
    ensures IsGrouping(less, items[..|items| - 1]) && blocks == WithItem(less, items[|items| - 1])
  {
    hide Flattened, ItemsOf;
    var init, last := blocks[..|blocks| - 1], blocks[|blocks| - 1];
    var n := |last.rows| - 1;
    var fewer := Table(last.rows[..n]);
    LastItem(blocks, items);
    if n == 0 {
      less := init;
      assert fewer.rows == [];
      RowItems([], "");
      assert Flattened(init) + [] == Flattened(init);
      assert last.rows == [last.rows[0]];
      assert blocks == init + [last];
    } else {
      less := init + [fewer];
      FlattenedMore(init, fewer);
      assert less[..|less| - 1] == init && last.rows == fewer.rows + [last.rows[n]];
      assert blocks == init + [last];
    }
  }

  lemma LastItem(blocks: seq<Block>, items: seq<Item>)
    requires IsGrouping(blocks, items) && blocks != [] && blocks[|blocks| - 1].Table?
    ensures var init, rows := blocks[..|blocks| - 1], blocks[|blocks| - 1].rows;
            && rows != [] && items != []
            && items[..|items| - 1] == Flattened(init) + ItemsOf(Table(rows[..|rows| - 1]))
            && items[|items| - 1] == Row(rows[|rows| - 1])
  {
    hide Flattened, ItemsOf;
    var init, last := blocks[..|blocks| - 1], blocks[|blocks| - 1];
    var n := |last.rows| - 1;
    assert blocks == init + [last];
    FlattenedMore(init, last);
    assert last.rows == last.rows[..n] + [last.rows[n]];
    RowItems(last.rows[..n], last.rows[n]);
    Regroup(Flattened(init), ItemsOf(Table(last.rows[..n])), [Row(last.rows[n])]);
    assert items == (Flattened(init) + ItemsOf(Table(last.rows[..n]))) + [Row(last.rows[n])];
  }

  lemma NothingFlattened(blocks: seq<Block>)
    requires forall i :: 0 <= i < |blocks| && blocks[i].Table? ==> blocks[i].rows != []
    ensures Flattened(blocks) == [] ==> blocks == []
  {
    if blocks != [] {
      var init, last := blocks[..|blocks| - 1], blocks[|blocks| - 1];
      assert blocks == init + [last];
      FlattenedMore(init, last);
    }
  }

  /** There is only one way to group lines so, and the pass computes it. */
  lemma {:induction false} GroupingUnique(blocks: seq<Block>, items: seq<Item>)
    requires IsGrouping(blocks, items)
    ensures blocks == Grouped(items)
    decreases |items|
  {
    if items == [] {
      NothingFlattened(blocks);
    } else {
      hide WithItem, IsGrouping;
      var less := GroupingLess(blocks, items);
      GroupingUnique(less, items[..|items| - 1]);
    }
  }

  // ---------- the rows of a table ----------

  /** The lines that the pass keeps, up to line n. */
  function Kept(lines: seq<string>, n: int): seq<int>
    requires 0 <= n <= |lines|
  {
    if n == 0 then [] else Kept(lines, n - 1) + if ItemAt(lines, n - 1) == [] then [] else [n - 1]
  }

  lemma {:induction false} KeptItems(lines: seq<string>, n: int)
    requires 0 <= n <= |lines|
    ensures |Kept(lines, n)| == |Items(lines, n)|
    ensures forall k :: 0 <= k < |Kept(lines, n)| ==>
              0 <= Kept(lines, n)[k] < n && ItemAt(lines, Kept(lines, n)[k]) == [Items(lines, n)[k]]
    ensures forall k, l :: 0 <= k < l < |Kept(lines, n)| ==> Kept(lines, n)[k] < Kept(lines, n)[l]
  {
    hide ItemAt;
    if n > 0 {
      KeptItems(lines, n - 1);
      OneItem(lines, n - 1);
      var kept, items := Kept(lines, n - 1), Items(lines, n - 1);
      if ItemAt(lines, n - 1) == [] {
        assert Kept(lines, n) == kept && Items(lines, n) == items;
      } else {
        assert Kept(lines, n) == kept + [n - 1];
        assert Items(lines, n) == items + [ItemAt(lines, n - 1)[0]];
      }
    }
  }

  lemma OneItem(lines: seq<string>, i: int)
    requires 0 <= i < |lines|
    ensures |ItemAt(lines, i)| <= 1
  {
    hide TrimSpace, IsTableSeparator, LooksLikeRow, RowHTML;
  }

  /** Where a block's items are. */
  lemma {:induction false} BlockPlace(blocks: seq<Block>, b: int)
    requires 0 <= b < |blocks|
    ensures Flattened(blocks[..b]) + ItemsOf(blocks[b]) <= Flattened(blocks)
    ensures Flattened(blocks[..b + 1]) == Flattened(blocks[..b]) + ItemsOf(blocks[b])
    decreases |blocks|
  {
    var init, last := blocks[..|blocks| - 1], blocks[|blocks| - 1];
    assert blocks == init + [last];
    assert blocks[..b + 1] == blocks[..b] + [blocks[b]];
    FlattenedMore(init, last);
    FlattenedMore(blocks[..b], blocks[b]);
    hide Flattened;
    if b < |init| {
      BlockPlace(init, b);
      assert init[..b] == blocks[..b];
    } else {
      assert init == blocks[..b];
    }
  }

  predicate IsRowLine(lines: seq<string>, i: int)
    requires 0 <= i < |lines|
  {
    var line := TrimSpace(lines[i]);
    '|' in line && |line| >= 2 && !Separates(line)
  }

  lemma RowLineIff(lines: seq<string>, i: int)
    requires 0 <= i < |lines| && ItemAt(lines, i) != []
    ensures ItemAt(lines, i)[0].Row? <==> IsRowLine(lines, i)
    ensures IsRowLine(lines, i) ==> ItemAt(lines, i)[0].html == RowHTML(TrimSpace(lines[i]), BeforeSeparator(lines, i))
  {
    hide TrimSpace, IsTableSeparator, Separates, RowHTML;
    SeparatorIff(TrimSpace(lines[i]));
  }

  /** Kept lines `from` to `to` are row lines, and their neighbours among the kept lines are not. */
  ghost predicate IsRun(lines: seq<string>, from: int, to: int) {
    var kept := Kept(lines, |lines|);
    && 0 <= from < to <= |kept|
    && (forall k :: 0 <= k < |kept| ==> 0 <= kept[k] < |lines|)
    && (forall k :: from <= k < to ==> IsRowLine(lines, kept[k]))
    && (from > 0 ==> !IsRowLine(lines, kept[from - 1]))
    && (to < |kept| ==> !IsRowLine(lines, kept[to]))
  }

  predicate AreLines(lines: seq<string>, run: seq<int>) {
    forall k :: 0 <= k < |run| ==> 0 <= run[k] < |lines|
  }

  /** The line after this one is a separator. */
  predicate Heads(lines: seq<string>, i: int)
    requires 0 <= i < |lines|
  {
    i + 1 < |lines| && Separates(TrimSpace(lines[i + 1]))
  }

  /** The rows of these lines, each a header or not by the line after it. */
  function RowsAt(lines: seq<string>, run: seq<int>): seq<string>
    requires AreLines(lines, run)
  {
    seq(|run|, k requires 0 <= k < |run| => RowText(TrimSpace(lines[run[k]]), Heads(lines, run[k])))
  }

  lemma RowAt(lines: seq<string>, i: int)
    requires 0 <= i < |lines|
    ensures BeforeSeparator(lines, i) == Heads(lines, i)
    ensures RowHTML(TrimSpace(lines[i]), BeforeSeparator(lines, i)) == RowText(TrimSpace(lines[i]), Heads(lines, i))
  {
    hide RowHTML, RowText, TrimSpace, IsTableSeparator, Separates;
    if i + 1 < |lines| { SeparatorIff(TrimSpace(lines[i + 1])); }
    RowIs(TrimSpace(lines[i]), BeforeSeparator(lines, i));
  }

  /** Of these lines, the rows that do, or do not, stand before a separator. */
  function RowsWhere(lines: seq<string>, run: seq<int>, header: bool): seq<string>
    requires AreLines(lines, run)
  {
    if run == [] then []
    else
      var i := run[|run| - 1];
      RowsWhere(lines, run[..|run| - 1], header)
      + if Heads(lines, i) == header then [RowText(TrimSpace(lines[i]), header)] else []
  }

  lemma {:induction false} HeadsBeforeSeparators(lines: seq<string>, run: seq<int>)
    requires AreLines(lines, run) && forall k :: 0 <= k < |run| ==> Clean(TrimSpace(lines[run[k]]))
    ensures HeadRows(RowsAt(lines, run)) == RowsWhere(lines, run, true)
    ensures BodyRows(RowsAt(lines, run)) == RowsWhere(lines, run, false)
  {
    hide RowHTML, RowText, IsHead, Clean, Heads, TrimSpace;
    if run != [] {
      var n := |run| - 1;
      HeadsBeforeSeparators(lines, run[..n]);
      assert RowsAt(lines, run)[..n] == RowsAt(lines, run[..n]);
      CleanRow(TrimSpace(lines[run[n]]), Heads(lines, run[n]));
      RowIs(TrimSpace(lines[run[n]]), Heads(lines, run[n]));
    }
  }

  /** Each table is one maximal run of row lines. */
  lemma TableIsRun(lines: seq<string>, b: int) returns (from: int, to: int)
    requires 0 <= b < |Grouped(Items(lines, |lines|))| && Grouped(Items(lines, |lines|))[b].Table?
    ensures from == |Flattened(Grouped(Items(lines, |lines|))[..b])|
    ensures to == from + |Grouped(Items(lines, |lines|))[b].rows|
    ensures IsRun(lines, from, to)
    ensures var run := Kept(lines, |lines|)[from..to];
            AreLines(lines, run) && Grouped(Items(lines, |lines|))[b].rows == RowsAt(lines, run)
  {
    hide Items, Kept, Grouped, IsGrouping, Flattened, IsRun, RowsAt, AreLines;
    var items := Items(lines, |lines|);
    var blocks := Grouped(items);
    GroupedIsGrouping(items);
    from := |Flattened(blocks[..b])|;
    to := from + |blocks[b].rows|;
    PlaceInItems(blocks, items, b);
    RunFromItems(lines, from, to);
    RunInRange(lines, from, to);
    RowsOfRun(lines, from, blocks[b].rows);
  }

  /** The row items of kept lines are these lines' rows. */
  lemma RowsOfRun(lines: seq<string>, from: int, rows: seq<string>)
    requires 0 <= from && from + |rows| <= |Items(lines, |lines|)|
    requires forall k :: from <= k < from + |rows| ==> Items(lines, |lines|)[k] == Row(rows[k - from])
    requires from + |rows| <= |Kept(lines, |lines|)|
    ensures var run := Kept(lines, |lines|)[from..from + |rows|];
            AreLines(lines, run) && rows == RowsAt(lines, run)
  {
    hide Items, Kept, ItemAt, IsRowLine, RowHTML, TrimSpace, BeforeSeparator, RowText, Heads;
    var kept := Kept(lines, |lines|);
    KeptItems(lines, |lines|);
    forall k | 0 <= k < |rows|
      ensures rows[k] == RowText(TrimSpace(lines[kept[from + k]]), Heads(lines, kept[from + k]))
    {
      assert Items(lines, |lines|)[from + k] == Row(rows[k]);
      RowLineIff(lines, kept[from + k]);
      RowAt(lines, kept[from + k]);
    }
  }

  lemma RunFromItems(lines: seq<string>, from: int, to: int)
    requires 0 <= from < to <= |Items(lines, |lines|)|
    requires forall k :: from <= k < to ==> Items(lines, |lines|)[k].Row?
    requires from > 0 ==> Items(lines, |lines|)[from - 1].Text?
    requires to < |Items(lines, |lines|)| ==> Items(lines, |lines|)[to].Text?
    ensures IsRun(lines, from, to)
  {
    hide Items, Kept, ItemAt, IsRowLine;
    var items, kept := Items(lines, |lines|), Kept(lines, |lines|);
    KeptItems(lines, |lines|);
    forall k | 0 <= k < |kept| ensures items[k].Row? <==> IsRowLine(lines, kept[k]) {
      RowLineIff(lines, kept[k]);
    }
  }

  /** A table's items in place, and what stands next to them. */
  lemma PlaceInItems(blocks: seq<Block>, items: seq<Item>, b: int)
    requires IsGrouping(blocks, items) && 0 <= b < |blocks| && blocks[b].Table?
    ensures var from := |Flattened(blocks[..b])|;
            var to := from + |blocks[b].rows|;
            && from < to <= |items|
            && (forall k :: from <= k < to ==> items[k] == Row(blocks[b].rows[k - from]))
            && (from > 0 ==> items[from - 1].Text?)
            && (to < |items| ==> items[to].Text?)
  {
    hide Flattened, ItemsOf;
    BlockPlace(blocks, b);
    TableItems(blocks[b].rows);
    Within(Flattened(blocks[..b]), ItemsOf(blocks[b]), items);
    TextBefore(blocks, items, b);
    TextAfter(blocks, items, b);
  }

  lemma TableItems(rows: seq<string>)
    ensures |ItemsOf(Table(rows))| == |rows| && forall k :: 0 <= k < |rows| ==> ItemsOf(Table(rows))[k] == Row(rows[k])
  {
  }

  lemma Within(a: seq<Item>, b: seq<Item>, c: seq<Item>)
    requires a + b <= c
    ensures |a| + |b| <= |c| && forall k :: |a| <= k < |a| + |b| ==> c[k] == b[k - |a|]
  {
    assert forall k :: 0 <= k < |a + b| ==> (a + b)[k] == c[k];
  }

  lemma TextBefore(blocks: seq<Block>, items: seq<Item>, b: int)
    requires IsGrouping(blocks, items) && 0 <= b < |blocks| && blocks[b].Table?
    ensures var from := |Flattened(blocks[..b])|; 0 < from <= |items| ==> items[from - 1].Text?
  {
    if b > 0 {
      assert !blocks[b - 1].Table?;
      hide Flattened, ItemsOf;
      BlockPlace(blocks, b - 1);
      LineItems(blocks[b - 1].text);
      Within(Flattened(blocks[..b - 1]), ItemsOf(blocks[b - 1]), items);
    } else {
      assert blocks[..b] == [];
    }
  }

  lemma TextAfter(blocks: seq<Block>, items: seq<Item>, b: int)
    requires IsGrouping(blocks, items) && 0 <= b < |blocks| && blocks[b].Table?
    ensures var to := |Flattened(blocks[..b])| + |blocks[b].rows|; 0 <= to < |items| ==> items[to].Text?
  {
    BlockPlace(blocks, b);
    TableItems(blocks[b].rows);
    if b + 1 < |blocks| {
      assert !blocks[b + 1].Table?;
      hide Flattened, ItemsOf;
      BlockPlace(blocks, b + 1);
      LineItems(blocks[b + 1].text);
      Within(Flattened(blocks[..b + 1]), ItemsOf(blocks[b + 1]), items);
    } else {
      assert blocks[..b + 1] == blocks;
    }
  }

  /** A part of a table: the rows between its tags, and nothing where there are none. */
  function PartText(open: string, rows: seq<string>, close: string): string {
    if rows == [] then "" else open + Concat(rows) + close
  }

  /**
    Each table of the result holds the rows of one maximal run of row lines, each exactly once and in order: those
    whose next line is a separator between the head's tags, then the others between the body's, for lines whose cells
    hold no header tag.
  */
  lemma HeadsAreHeaders(lines: seq<string>, b: int) returns (from: int, to: int)
    requires 0 <= b < |Grouped(Items(lines, |lines|))| && Grouped(Items(lines, |lines|))[b].Table?
    requires forall i :: 0 <= i < |lines| ==> Clean(TrimSpace(lines[i]))
    ensures IsRun(lines, from, to)
    ensures var run := Kept(lines, |lines|)[from..to];
            && AreLines(lines, run)
            && TableHTML(Grouped(Items(lines, |lines|))[b].rows)
               == "<table>" + PartText("<thead>", RowsWhere(lines, run, true), "</thead>")
                  + PartText("<tbody>", RowsWhere(lines, run, false), "</tbody>") + "</table>"
  {
    from, to := TableIsRun(lines, b);
    hide Items, Kept, Grouped, Clean, TrimSpace, IsRun, HeadRows, BodyRows, RowsWhere, RowsAt, Section, PartText;
    assert 0 <= from < to <= |Kept(lines, |lines|)| by { RunInRange(lines, from, to); }
    var run := Kept(lines, |lines|)[from..to];
    HeadsBeforeSeparators(lines, run);
    assert RowsAt(lines, run) != [] by { RowsAtLength(lines, run); }
    PartIs(RowsWhere(lines, run, true));
    PartIs(RowsWhere(lines, run, false));
  }

  lemma RowsAtLength(lines: seq<string>, run: seq<int>)
    requires AreLines(lines, run)
    ensures |RowsAt(lines, run)| == |run|
  {
  }

  lemma PartIs(rows: seq<string>)
    ensures Section("thead", rows) == PartText("<thead>", rows, "</thead>")
    ensures Section("tbody", rows) == PartText("<tbody>", rows, "</tbody>")
  {
    SectionIs(rows);
    hide Section, Concat;
  }

  lemma RunInRange(lines: seq<string>, from: int, to: int)
    requires IsRun(lines, from, to)
    ensures 0 <= from < to <= |Kept(lines, |lines|)|
  {
  }

  ghost function Rendered(blocks: seq<Block>): seq<string> {
    if blocks == [] then []
    else
      Rendered(blocks[..|blocks| - 1])
      + match blocks[|blocks| - 1] case Table(rows) => [TableHTML(rows)] case Line(t) => [t]
  }

  lemma RenderedMore(blocks: seq<Block>, b: Block)
    ensures Rendered(blocks + [b]) == Rendered(blocks) + [if b.Table? then TableHTML(b.rows) else b.text]
  {
    assert (blocks + [b])[..|blocks|] == blocks;
  }

  /** What the loop holds after some items: all blocks rendered but a table still open. */
  ghost predicate Holds(items: seq<Item>, result: seq<string>, inTable: bool, tableRows: seq<string>) {
    var blocks := Grouped(items);
    if inTable
    then tableRows != [] && EndsInTable(blocks) && blocks[|blocks| - 1].rows == tableRows
        && result == Rendered(blocks[..|blocks| - 1])
    else tableRows == [] && !EndsInTable(blocks) && result == Rendered(blocks)
  }

  lemma TextAdded(blocks: seq<Block>, line: string)
    ensures WithItem(blocks, Text(line)) == blocks + [Line(line)]
  {
  }

  lemma HoldsNothing(lines: seq<string>)
    ensures Holds(Items(lines, 0), [], false, [])
  {
  }

  lemma HoldsText(items: seq<Item>, result: seq<string>, inTable: bool, tableRows: seq<string>, line: string)
    requires Holds(items, result, inTable, tableRows)
    ensures Holds(items + [Text(line)], (if inTable then result + [TableHTML(tableRows)] else result)
                  + [line], false, [])
    ensures inTable || tableRows == []
  {
    hide TableHTML, Rendered, WithItem;
    var blocks := Grouped(items);
    assert Grouped(items + [Text(line)]) == blocks + [Line(line)] by {
      assert (items + [Text(line)])[..|items|] == items;
      TextAdded(blocks, line);
    }
    hide Grouped;
    RenderedMore(blocks, Line(line));
    if inTable {
      var init, last := blocks[..|blocks| - 1], blocks[|blocks| - 1];
      assert blocks == init + [last];
      RenderedMore(init, last);
    }
  }

  lemma HoldsRow(items: seq<Item>, result: seq<string>, inTable: bool, tableRows: seq<string>, html: string)
    requires Holds(items, result, inTable, tableRows)
    ensures Holds(items + [Row(html)], result, true, tableRows + [html])
    ensures inTable || tableRows == []
  {
    assert (items + [Row(html)])[..|items|] == items;
    hide Rendered;
    var blocks := Grouped(items);
    assert EndsInTable(blocks) ==>
        (blocks[..|blocks| - 1] + [Table(tableRows + [html])])[..|blocks| - 1] == blocks[..|blocks| - 1];
    assert (blocks + [Table([html])])[..|blocks|] == blocks;
  }

  lemma HoldsEnd(items: seq<Item>, result: seq<string>, inTable: bool, tableRows: seq<string>)
    requires Holds(items, result, inTable, tableRows)
    ensures (if inTable then result + [TableHTML(tableRows)] else result) == Rendered(Grouped(items))
    ensures inTable ==> tableRows != []
  {
    if inTable {
      var blocks := Grouped(items);
      var init, last := blocks[..|blocks| - 1], blocks[|blocks| - 1];
      assert blocks == init + [last];
      RenderedMore(init, last);
    }
  }

  lemma NextItem(lines: seq<string>, i: int)
    requires 0 <= i < |lines|
    ensures var line := TrimSpace(lines[i]);
            Items(lines, i + 1)
            == if line != "" && IsTableSeparator(line) then Items(lines, i)
               else if line != "" && LooksLikeRow(line)
               then Items(lines, i) + [Row(RowHTML(line, BeforeSeparator(lines, i)))]
               else Items(lines, i) + [Text(line)]
  {
    hide TrimSpace, IsTableSeparator, LooksLikeRow, RowHTML, BeforeSeparator;
    assert Items(lines, i) + [] == Items(lines, i);
  }

  // ---------- the whole result ----------

  /** The kept lines are those that are not separators, in order. */
  lemma KeptAre(lines: seq<string>)
    ensures forall i :: i in Kept(lines, |lines|) <==> 0 <= i < |lines| && !Separates(TrimSpace(lines[i]))
    ensures forall k, l :: 0 <= k < l < |Kept(lines, |lines|)| ==> Kept(lines, |lines|)[k] < Kept(lines, |lines|)[l]
  {
    hide Kept, Items, ItemAt, TrimSpace, Separates;
    KeptItems(lines, |lines|);
    KeptMembers(lines, |lines|);
  }

  lemma {:induction false} KeptMembers(lines: seq<string>, n: int)
    requires 0 <= n <= |lines|
    ensures forall i :: i in Kept(lines, n) <==> 0 <= i < n && !Separates(TrimSpace(lines[i]))
  {
    hide ItemAt, TrimSpace, Separates;
    if n > 0 {
      KeptMembers(lines, n - 1);
      KeptIff(lines, n - 1);
    }
  }

  lemma KeptIff(lines: seq<string>, i: int)
    requires 0 <= i < |lines|
    ensures ItemAt(lines, i) == [] <==> Separates(TrimSpace(lines[i]))
  {
    SeparatorIff(TrimSpace(lines[i]));
    hide TrimSpace, IsTableSeparator, LooksLikeRow, RowHTML, BeforeSeparator;
  }

  /** One line of the result, from the kept lines `from` to `to`: a line that is no row, trimmed, or a run's table. */
  ghost predicate IsPiece(lines: seq<string>, from: int, to: int, out: string) {
    var kept := Kept(lines, |lines|);
    && 0 <= from < to <= |kept| && AreLines(lines, kept)
    && if IsRowLine(lines, kept[from])
       then IsRun(lines, from, to) && out == TableText(RowsAt(lines, kept[from..to]))
       else to == from + 1 && out == TrimSpace(lines[kept[from]])
  }

  lemma TextIsLine(lines: seq<string>, b: int) returns (from: int)
    requires 0 <= b < |Grouped(Items(lines, |lines|))| && Grouped(Items(lines, |lines|))[b].Line?
    ensures from == |Flattened(Grouped(Items(lines, |lines|))[..b])|
    ensures IsPiece(lines, from, from + 1, Grouped(Items(lines, |lines|))[b].text)
    ensures |Flattened(Grouped(Items(lines, |lines|))[..b + 1])| == from + 1
  {
    hide Items, Kept, Grouped, ItemAt, IsRowLine, TrimSpace, IsGrouping, Flattened, ItemsOf, IsRun;
    var items, kept := Items(lines, |lines|), Kept(lines, |lines|);
    var blocks := Grouped(items);
    GroupedIsGrouping(items);
    FlattenedIs(blocks, items);
    KeptItems(lines, |lines|);
    BlockPlace(blocks, b);
    LineItems(blocks[b].text);
    from := |Flattened(blocks[..b])|;
    Within(Flattened(blocks[..b]), ItemsOf(blocks[b]), items);
    assert items[from] == Text(blocks[b].text);
    RowLineIff(lines, kept[from]);
    TextItem(lines, kept[from]);
  }

  lemma FlattenedIs(blocks: seq<Block>, items: seq<Item>)
    requires IsGrouping(blocks, items)
    ensures Flattened(blocks) == items
  {
  }

  lemma TextItem(lines: seq<string>, i: int)
    requires 0 <= i < |lines| && ItemAt(lines, i) != [] && ItemAt(lines, i)[0].Text?
    ensures ItemAt(lines, i)[0].line == TrimSpace(lines[i])
  {
    hide TrimSpace, IsTableSeparator, LooksLikeRow, RowHTML, BeforeSeparator;
  }

  lemma TableIsPiece(lines: seq<string>, b: int) returns (from: int, to: int)
    requires 0 <= b < |Grouped(Items(lines, |lines|))| && Grouped(Items(lines, |lines|))[b].Table?
    ensures from == |Flattened(Grouped(Items(lines, |lines|))[..b])|
    ensures to == |Flattened(Grouped(Items(lines, |lines|))[..b + 1])|
    ensures IsPiece(lines, from, to, TableHTML(Grouped(Items(lines, |lines|))[b].rows))
  {
    hide Items, Kept, Grouped, IsRowLine, TrimSpace, Flattened, ItemsOf, RowsAt, TableHTML, TableText;
    from, to := TableIsRun(lines, b);
    var blocks := Grouped(Items(lines, |lines|));
    BlockPlace(blocks, b);
    TableItems(blocks[b].rows);
    RowsAtLength(lines, Kept(lines, |lines|)[from..to]);
    TableIs(blocks[b].rows);
  }

  lemma {:induction false} RenderedAt(blocks: seq<Block>, b: int)
    requires 0 <= b < |blocks|
    ensures |Rendered(blocks)| == |blocks|
    ensures Rendered(blocks)[b] == match blocks[b] case Table(rows) => TableHTML(rows) case Line(t) => t
    decreases |blocks|
  {
    hide TableHTML;
    var init, last := blocks[..|blocks| - 1], blocks[|blocks| - 1];
    assert blocks == init + [last];
    RenderedMore(init, last);
    if init != [] { RenderedAt(init, if b < |init| then b else 0); }
  }

  /**
    The whole result.  The kept lines, in order, are cut into pieces, one for each line of the result: a line that is
    no row by itself, or a maximal run of row lines as one table.
  */
  lemma ConversionIs(lines: seq<string>) returns (cuts: seq<int>)
    ensures var result := Rendered(Grouped(Items(lines, |lines|)));
            && |cuts| == |result| + 1 && cuts[0] == 0 && cuts[|result|] == |Kept(lines, |lines|)|
            && forall b :: 0 <= b < |result| ==> IsPiece(lines, cuts[b], cuts[b + 1], result[b])
  {
    hide Items, Kept, Grouped, Rendered, IsPiece, Flattened, TableHTML, IsGrouping;
    var blocks := Grouped(Items(lines, |lines|));
    cuts := seq(|blocks| + 1, b requires 0 <= b <= |blocks| => |Flattened(blocks[..b])|);
    GroupedIsGrouping(Items(lines, |lines|));
    FlattenedIs(blocks, Items(lines, |lines|));
    KeptItems(lines, |lines|);
    assert blocks[..|blocks|] == blocks && blocks[..0] == [];
    NoneFlattened();
    if blocks != [] { RenderedAt(blocks, 0); }
    forall b | 0 <= b < |blocks| ensures IsPiece(lines, cuts[b], cuts[b + 1], Rendered(blocks)[b]) {
      RenderedAt(blocks, b);
      if blocks[b].Table? {
        var from, to := TableIsPiece(lines, b);
      } else {
        var from := TextIsLine(lines, b);
      }
    }
  }

  lemma NoneFlattened()
    ensures Flattened([]) == [] && Rendered([]) == []
  {
  }

  /** Separators go, each maximal run of rows becomes one table, every other line stays, trimmed, in its place. */
  method ConvertTables(lines: seq<string>) returns (result: seq<string>)
    ensures result == Rendered(Grouped(Items(lines, |lines|)))
  {
    hide Holds, TableHTML, RowHTML, TrimSpace, IsTableSeparator, LooksLikeRow, Rendered, Grouped, Items;
    result := [];
    var inTable := false;
    var tableRows: seq<string> := [];
    HoldsNothing(lines);
    for i := 0 to |lines|
      invariant Holds(Items(lines, i), result, inTable, tableRows)
    {
      NextItem(lines, i);
      var line := TrimSpace(lines[i]);
      if line != "" && IsTableSeparator(line) {
        continue;
      }
      if line != "" && LooksLikeRow(line) {
        var isHeader := i + 1 < |lines| && IsTableSeparator(TrimSpace(lines[i + 1]));
        HoldsRow(Items(lines, i), result, inTable, tableRows, RowHTML(line, isHeader));
        if !inTable {
          inTable := true;
          tableRows := [];
        }
        var row := ProcessTableRow(line, isHeader);
        tableRows := tableRows + [row];
      } else {
        HoldsText(Items(lines, i), result, inTable, tableRows, line);
        if inTable {
          var table := BuildHTMLTable(tableRows);
          result := result + [table];
          inTable := false;
          tableRows := [];
        }
        result := result + [line];
      }
    }
    HoldsEnd(Items(lines, |lines|), result, inTable, tableRows);
    if inTable && |tableRows| > 0 {
      var table := BuildHTMLTable(tableRows);
      result := result + [table];
    }
  }
}
