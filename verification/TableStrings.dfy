/** The strings of the table pass: trimming, splitting, rows and tables (server/markdown_utils.go). */
module TableStrings {

  // ---------- strings ----------

  /** unicode.IsSpace. */
  predicate IsSpace(c: char) {
    var n := c as int;
    9 <= n <= 13 || n == 0x20 || n == 0x85 || n == 0xA0 || n == 0x1680 || 0x2000 <= n <= 0x200a
    || n == 0x2028 || n == 0x2029 || n == 0x202f || n == 0x205f || n == 0x3000
  }

  /** The white space characters of Unicode. */
  const SPACES: string :=
    "\t\n\U{000b}\U{000c}\r \U{0085}\U{00a0}\U{1680}\U{2000}\U{2001}\U{2002}\U{2003}\U{2004}\U{2005}\U{2006}" +
    "\U{2007}\U{2008}\U{2009}\U{200a}\U{2028}\U{2029}\U{202f}\U{205f}\U{3000}"

  lemma SpacesAre(c: char)
    ensures IsSpace(c) <==> c in SPACES
  {
  }

  predicate IsSpaceOrPipe(c: char) {
    c == ' ' || c == '|'
  }

  function TrimLeft(s: string, cut: char -> bool): string {
    if s != "" && cut(s[0]) then TrimLeft(s[1..], cut) else s
  }

  function TrimRight(s: string, cut: char -> bool): string {
    if s != "" && cut(s[|s| - 1]) then TrimRight(s[..|s| - 1], cut) else s
  }

  function TrimSpace(s: string): string {
    TrimRight(TrimLeft(s, IsSpace), IsSpace)
  }

  /** `t` is `s` without the characters of `cut` around it. */
  ghost predicate IsTrim(t: string, s: string, cut: char -> bool) {
    && (exists a, b :: Around(t, s, a, b) && All(a, cut) && All(b, cut))
    && (t != "" ==> !cut(t[0]) && !cut(t[|t| - 1]))
  }

  predicate Around(t: string, s: string, a: string, b: string) {
    s == a + t + b
  }

  predicate All(s: string, cut: char -> bool) {
    forall i :: 0 <= i < |s| ==> cut(s[i])
  }

  lemma {:induction false} TrimmedLeft(s: string, cut: char -> bool) returns (a: string)
    ensures s == a + TrimLeft(s, cut) && All(a, cut)
    ensures TrimLeft(s, cut) != "" ==> !cut(TrimLeft(s, cut)[0])
  {
    a := "";
    if s != "" && cut(s[0]) {
      a := TrimmedLeft(s[1..], cut);
      a := [s[0]] + a;
    }
  }

  lemma {:induction false} TrimmedRight(s: string, cut: char -> bool) returns (b: string)
    ensures s == TrimRight(s, cut) + b && All(b, cut)
    ensures TrimRight(s, cut) != "" ==> !cut(TrimRight(s, cut)[|TrimRight(s, cut)| - 1])
  {
    b := "";
    if s != "" && cut(s[|s| - 1]) {
      b := TrimmedRight(s[..|s| - 1], cut);
      b := b + [s[|s| - 1]];
    }
  }

  /** What is not cut at either end lies within what is left when only such characters go. */
  lemma TrimWithin(t: string, u: string, s: string, a: string, b: string, x: string, y: string, cut: char -> bool)
    requires Around(t, s, a, b) && Around(u, s, x, y) && All(x, cut) && All(y, cut)
    requires t != "" && !cut(t[0]) && !cut(t[|t| - 1])
    ensures |x| <= |a| && |a| + |t| <= |x| + |u|
  {
    var n := |a| + |t| - 1;
    assert s[|a|] == t[0] && s[n] == t[|t| - 1];
    forall i | 0 <= i < |x| ensures cut(s[i]) {
      assert s[i] == x[i];
    }
    forall i | |x| + |u| <= i < |s| ensures cut(s[i]) {
      assert s[i] == y[i - |x| - |u|];
    }
  }

  lemma TrimUnique(t: string, u: string, s: string, cut: char -> bool)
    requires IsTrim(t, s, cut) && IsTrim(u, s, cut)
    ensures t == u
  {
    var a, b :| Around(t, s, a, b) && All(a, cut) && All(b, cut);
    var x, y :| Around(u, s, x, y) && All(x, cut) && All(y, cut);
    hide All;
    if t != "" { TrimWithin(t, u, s, a, b, x, y, cut); }
    if u != "" { TrimWithin(u, t, s, x, y, a, b, cut); }
    if t != "" {
      assert t == s[|a|..|a| + |t|] && u == s[|a|..|a| + |t|];
    }
  }

  /** Trimming takes away the characters around, as many as there are, and nothing else. */
  lemma TrimIff(t: string, s: string, cut: char -> bool)
    ensures t == TrimRight(TrimLeft(s, cut), cut) <==> IsTrim(t, s, cut)
  {
    var left := TrimLeft(s, cut);
    var u := TrimRight(left, cut);
    var a := TrimmedLeft(s, cut);
    var b := TrimmedRight(left, cut);
    assert Around(u, s, a, b);
    assert u != "" ==> u[0] == left[0];
    if IsTrim(t, s, cut) {
      TrimUnique(t, u, s, cut);
    }
  }

  function Removed(s: string, c: char): string {
    if s == "" then "" else (if s[0] == c then "" else [s[0]]) + Removed(s[1..], c)
  }

  function Split(s: string, c: char): (parts: seq<string>)
    ensures parts != []
  {
    if s == "" then [""]
    else
      var rest := Split(s[1..], c);
      if s[0] == c then [""] + rest else [[s[0]] + rest[0]] + rest[1..]
  }

  function Concat(parts: seq<string>): string {
    if parts == [] then "" else Concat(parts[..|parts| - 1]) + parts[|parts| - 1]
  }

  function Join(parts: seq<string>, c: char): string
    requires parts != []
  {
    if |parts| == 1 then parts[0] else parts[0] + [c] + Join(parts[1..], c)
  }

  /** The parts of `s` between the occurrences of `c`. */
  ghost predicate IsSplit(parts: seq<string>, s: string, c: char) {
    parts != [] && Join(parts, c) == s && forall i :: 0 <= i < |parts| ==> c !in parts[i]
  }

  lemma {:induction false} SplitJoins(s: string, c: char)
    ensures IsSplit(Split(s, c), s, c)
  {
    if s != "" {
      var rest := Split(s[1..], c);
      SplitJoins(s[1..], c);
      if s[0] == c {
        assert ([""] + rest)[1..] == rest;
        assert Join([""] + rest, c) == "" + [c] + Join(rest, c);
      } else {
        JoinFirst(s[0], rest, c);
        assert [s[0]] + s[1..] == s;
      }
    }
  }

  lemma JoinFirst(x: char, parts: seq<string>, c: char)
    requires parts != []
    ensures Join([[x] + parts[0]] + parts[1..], c) == [x] + Join(parts, c)
  {
    assert ([[x] + parts[0]] + parts[1..])[1..] == parts[1..];
    if |parts| > 1 {
      assert [x] + (parts[0] + [c] + Join(parts[1..], c)) == ([x] + parts[0]) + [c] + Join(parts[1..], c);
    }
  }

  lemma {:induction false} JoinedSplits(parts: seq<string>, c: char)
    requires parts != [] && forall i :: 0 <= i < |parts| ==> c !in parts[i]
    ensures Split(Join(parts, c), c) == parts
    decreases |parts|, |parts[0]|
  {
    var s := Join(parts, c);
    if parts[0] == "" {
      if |parts| > 1 {
        JoinedSplits(parts[1..], c);
        assert s[0] == c && s[1..] == Join(parts[1..], c);
        assert parts == [""] + parts[1..];
      } else {
        assert parts == [""];
      }
    } else {
      var x, less := parts[0][0], [parts[0][1..]] + parts[1..];
      assert parts[0] == [x] + less[0] && less[1..] == parts[1..];
      assert forall i :: 1 <= i < |less| ==> less[i] == parts[i];
      JoinFirst(x, less, c);
      assert [[x] + less[0]] + less[1..] == parts;
      JoinedSplits(less, c);
      assert s[0] == x != c && s[1..] == Join(less, c);
    }
  }

  /** Splitting is the only way to write `s` as parts without `c` between which `c` stands. */
  lemma SplitIff(parts: seq<string>, s: string, c: char)
    ensures parts == Split(s, c) <==> IsSplit(parts, s, c)
  {
    SplitJoins(s, c);
    if IsSplit(parts, s, c) {
      JoinedSplits(parts, c);
    }
  }

  lemma {:induction false} ConcatAppend(a: seq<string>, b: seq<string>)
    ensures Concat(a + b) == Concat(a) + Concat(b)
    ensures forall x :: Concat([x]) == x
    decreases |b|
  {
    assert forall x: string :: [x][..0] == [];
    if b == [] {
      assert a + b == a;
    } else {
      var init, last := b[..|b| - 1], b[|b| - 1];
      assert (a + b)[..|a + b| - 1] == a + init && (a + b)[|a + b| - 1] == last;
      ConcatAppend(a, init);
    }
  }

  predicate At(s: string, i: int, pattern: string) {
    0 <= i <= |s| - |pattern| && s[i..i + |pattern|] == pattern
  }

  ghost predicate Contains(s: string, pattern: string) {
    exists i :: At(s, i, pattern)
  }

  method HasSubstring(s: string, pattern: string) returns (found: bool)
    ensures found == Contains(s, pattern)
  {
    for i := 0 to |s| + 1
      invariant forall j :: 0 <= j < i ==> !At(s, j, pattern)
    {
      if i + |pattern| <= |s| && s[i..i + |pattern|] == pattern {
        assert At(s, i, pattern);
        return true;
      }
    }
    return false;
  }

  // ---------- separators ----------

  predicate IsTableSeparator(line: string) {
    '|' in line
    && Removed(Removed(Removed(Removed(line, '|'), ' '), '-'), ':') == ""
    && '-' in line
  }

  lemma {:induction false} RemovedKeeps(s: string, c: char, x: char)
    ensures x in Removed(s, c) <==> x in s && x != c
  {
    if s != "" {
      RemovedKeeps(s[1..], c, x);
      assert s == [s[0]] + s[1..];
    }
  }

  /** A pipe and a dash, and nothing but pipes, spaces, dashes and colons. */
  predicate Separates(line: string) {
    '|' in line && '-' in line && forall i :: 0 <= i < |line| ==> line[i] in "| -:"
  }

  lemma SeparatorIff(line: string)
    ensures IsTableSeparator(line) <==> Separates(line)
  {
    var a := Removed(line, '|');
    var b := Removed(a, ' ');
    var d := Removed(b, '-');
    forall c ensures c in Removed(d, ':') <==> c in line && c !in "| -:" {
      RemovedKeeps(line, '|', c);
      RemovedKeeps(a, ' ', c);
      RemovedKeeps(b, '-', c);
      RemovedKeeps(d, ':', c);
    }
    assert Removed(d, ':') != "" ==> Removed(d, ':')[0] in Removed(d, ':');
  }

  // ---------- rows and tables ----------

  function Cells(line: string): seq<string> {
    var trimmed := TrimRight(TrimLeft(line, IsSpaceOrPipe), IsSpaceOrPipe);
    var parts := Split(trimmed, '|');
    seq(|parts|, i requires 0 <= i < |parts| => TrimSpace(parts[i]))
  }

  function CellHTML(cell: string, isHeader: bool): string {
    var tag := if isHeader then "th" else "td";
    "<" + tag + ">" + cell + "</" + tag + ">"
  }

  function CellsHTML(cells: seq<string>, isHeader: bool): string {
    if cells == [] then ""
    else CellsHTML(cells[..|cells| - 1], isHeader) + CellHTML(cells[|cells| - 1], isHeader)
  }

  function RowHTML(line: string, isHeader: bool): string {
    "<tr>" + CellsHTML(Cells(line), isHeader) + "</tr>"
  }

  ghost predicate IsHead(row: string) {
    Contains(row, "<th>")
  }

  ghost function HeadRows(rows: seq<string>): seq<string> {
    if rows == [] then []
    else HeadRows(rows[..|rows| - 1]) + if IsHead(rows[|rows| - 1]) then [rows[|rows| - 1]] else []
  }

  ghost function BodyRows(rows: seq<string>): seq<string> {
    if rows == [] then []
    else BodyRows(rows[..|rows| - 1]) + if IsHead(rows[|rows| - 1]) then [] else [rows[|rows| - 1]]
  }

  function Section(tag: string, rows: seq<string>): string {
    if rows == [] then "" else "<" + tag + ">" + Concat(rows) + "</" + tag + ">"
  }

  ghost function TableHTML(rows: seq<string>): string {
    if rows == [] then ""
    else "<table>" + Section("thead", HeadRows(rows)) + Section("tbody", BodyRows(rows)) + "</table>"
  }

  // ---------- what rows and tables are ----------

  /** The cells of a line: between its pipes, once the spaces and pipes around it are gone, and each trimmed. */
  lemma CellsAre(line: string) returns (inner: string, parts: seq<string>)
    ensures IsTrim(inner, line, IsSpaceOrPipe) && IsSplit(parts, inner, '|') && |Cells(line)| == |parts|
    ensures forall k :: 0 <= k < |parts| ==> IsTrim(Cells(line)[k], parts[k], IsSpace)
    ensures forall c :: (IsSpaceOrPipe(c) <==> c in " |") && (IsSpace(c) <==> c in SPACES)
  {
    forall c ensures IsSpace(c) <==> c in SPACES { SpacesAre(c); }
    hide IsSpace;
    inner := TrimRight(TrimLeft(line, IsSpaceOrPipe), IsSpaceOrPipe);
    parts := Split(inner, '|');
    TrimIff(inner, line, IsSpaceOrPipe);
    SplitIff(parts, inner, '|');
    forall k | 0 <= k < |parts| ensures IsTrim(Cells(line)[k], parts[k], IsSpace) {
      TrimIff(Cells(line)[k], parts[k], IsSpace);
    }
  }

  /** Each cell between its tags. */
  function Tagged(cells: seq<string>, open: string, close: string): seq<string> {
    seq(|cells|, k requires 0 <= k < |cells| => open + cells[k] + close)
  }

  lemma CellIs(cell: string)
    ensures CellHTML(cell, true) == "<th>" + cell + "</th>" && CellHTML(cell, false) == "<td>" + cell + "</td>"
  {
    assert "<" + "th" + ">" == "<th>" && "</" + "th" + ">" == "</th>";
    assert "<" + "td" + ">" == "<td>" && "</" + "td" + ">" == "</td>";
    assert "<th>" + cell + "</" + "th" + ">" == "<th>" + cell + ("</" + "th" + ">");
    assert "<td>" + cell + "</" + "td" + ">" == "<td>" + cell + ("</" + "td" + ">");
  }

  lemma {:induction false} CellsTagged(cells: seq<string>, isHeader: bool)
    ensures CellsHTML(cells, isHeader)
         == Concat(if isHeader then Tagged(cells, "<th>", "</th>") else Tagged(cells, "<td>", "</td>"))
  {
    hide CellHTML;
    if cells != [] {
      var n := |cells| - 1;
      CellsTagged(cells[..n], isHeader);
      CellIs(cells[n]);
      assert Tagged(cells, "<th>", "</th>")[..n] == Tagged(cells[..n], "<th>", "</th>");
      assert Tagged(cells, "<td>", "</td>")[..n] == Tagged(cells[..n], "<td>", "</td>");
    }
  }

  /** A row as its cells in order, each in the tags of a header or of data. */
  function RowText(line: string, isHeader: bool): string {
    if isHeader then "<tr>" + Concat(Tagged(Cells(line), "<th>", "</th>")) + "</tr>"
    else "<tr>" + Concat(Tagged(Cells(line), "<td>", "</td>")) + "</tr>"
  }

  lemma RowIs(line: string, isHeader: bool)
    ensures RowHTML(line, isHeader) == RowText(line, isHeader)
  {
    hide Cells, CellsHTML, Tagged, Concat;
    CellsTagged(Cells(line), isHeader);
  }

  /** The rows that are, or are not, heads, one after the other. */
  ghost function Picked(rows: seq<string>, heads: bool): string {
    if rows == [] then "" else (if IsHead(rows[0]) == heads then rows[0] else "") + Picked(rows[1..], heads)
  }

  lemma {:induction false} PickedMore(rows: seq<string>, row: string, heads: bool)
    ensures Picked(rows + [row], heads) == Picked(rows, heads) + if IsHead(row) == heads then row else ""
  {
    hide IsHead;
    if rows == [] {
      assert [] + [row] == [row] && [row][1..] == [];
    } else {
      assert (rows + [row])[1..] == rows[1..] + [row];
      PickedMore(rows[1..], row, heads);
    }
  }

  lemma {:induction false} HeadsPicked(rows: seq<string>)
    ensures Concat(HeadRows(rows)) == Picked(rows, true)
    ensures HeadRows(rows) == [] <==> forall i :: 0 <= i < |rows| ==> !IsHead(rows[i])
  {
    hide IsHead, Picked, Concat;
    if rows == [] {
      NothingPicked();
    } else {
      var init, last := rows[..|rows| - 1], rows[|rows| - 1];
      HeadsPicked(init);
      assert rows == init + [last];
      PickedMore(init, last, true);
      ConcatAppend(HeadRows(init), [last]);
      assert HeadRows(init) + [] == HeadRows(init) && Picked(init, true) + "" == Picked(init, true);
      assert forall i :: 0 <= i < |init| ==> rows[i] == init[i];
    }
  }

  lemma {:induction false} BodyPicked(rows: seq<string>)
    ensures Concat(BodyRows(rows)) == Picked(rows, false)
    ensures BodyRows(rows) == [] <==> forall i :: 0 <= i < |rows| ==> IsHead(rows[i])
  {
    hide IsHead, Picked, Concat;
    if rows == [] {
      NothingPicked();
    } else {
      var init, last := rows[..|rows| - 1], rows[|rows| - 1];
      BodyPicked(init);
      assert rows == init + [last];
      PickedMore(init, last, false);
      ConcatAppend(BodyRows(init), [last]);
      assert BodyRows(init) + [] == BodyRows(init) && Picked(init, false) + "" == Picked(init, false);
      assert forall i :: 0 <= i < |init| ==> rows[i] == init[i];
    }
  }

  lemma NothingPicked()
    ensures Concat([]) == "" && forall heads :: Picked([], heads) == ""
  {
  }

  lemma SectionIs(rows: seq<string>)
    ensures Section("thead", rows) == if rows == [] then "" else "<thead>" + Concat(rows) + "</thead>"
    ensures Section("tbody", rows) == if rows == [] then "" else "<tbody>" + Concat(rows) + "</tbody>"
  {
    assert "<" + "thead" + ">" == "<thead>" && "</" + "thead" + ">" == "</thead>";
    assert "<" + "tbody" + ">" == "<tbody>" && "</" + "tbody" + ">" == "</tbody>";
    hide Concat;
    var c := Concat(rows);
    assert "<thead>" + c + "</" + "thead" + ">" == "<thead>" + c + ("</" + "thead" + ">");
    assert "<tbody>" + c + "</" + "tbody" + ">" == "<tbody>" + c + ("</" + "tbody" + ">");
  }

  /** A table: the rows that are heads between the head's tags, then the others between the body's, no part empty. */
  ghost function TableText(rows: seq<string>): string {
    "<table>"
    + (if exists i :: 0 <= i < |rows| && IsHead(rows[i]) then "<thead>" + Picked(rows, true) + "</thead>" else "")
    + (if exists i :: 0 <= i < |rows| && !IsHead(rows[i]) then "<tbody>" + Picked(rows, false) + "</tbody>" else "")
    + "</table>"
  }

  lemma TableIs(rows: seq<string>)
    ensures TableHTML(rows) == if rows == [] then "" else TableText(rows)
  {
    hide IsHead, Picked, HeadRows, BodyRows, Concat, Section;
    HeadsPicked(rows);
    BodyPicked(rows);
    SectionIs(HeadRows(rows));
    SectionIs(BodyRows(rows));
  }

  lemma HTMLOf(line: string, isHeader: bool)
    ensures RowHTML(line, isHeader) == "<tr>" + CellsHTML(Cells(line), isHeader) + "</tr>"
  {
  }

  lemma HTMLOfTable(rows: seq<string>)
    ensures TableHTML(rows)
         == if rows == [] then ""
            else "<table>" + Section("thead", HeadRows(rows)) + Section("tbody", BodyRows(rows)) + "</table>"
  {
  }

  method ProcessTableRow(line: string, isHeader: bool) returns (row: string)
    ensures row == RowHTML(line, isHeader) == RowText(line, isHeader)
  {
    hide RowHTML, RowText, Cells, CellHTML;
    RowIs(line, isHeader);
    HTMLOf(line, isHeader);
    var cells := Cells(line);
    var htmlCells := "";
    for i := 0 to |cells|
      invariant htmlCells == CellsHTML(cells[..i], isHeader)
    {
      assert cells[..i + 1][..i] == cells[..i];
      htmlCells := htmlCells + CellHTML(cells[i], isHeader);
    }
    assert cells[..|cells|] == cells;
    row := "<tr>" + htmlCells + "</tr>";
  }

  method BuildHTMLTable(rows: seq<string>) returns (table: string)
    ensures table == TableHTML(rows)
    ensures table == if rows == [] then "" else TableText(rows)
  {
    hide Contains, Section, TableHTML, TableText;
    TableIs(rows);
    HTMLOfTable(rows);
    if |rows| == 0 {
      return "";
    }
    var headerRows, tbodyRows := [], [];
    for i := 0 to |rows|
      invariant headerRows == HeadRows(rows[..i]) && tbodyRows == BodyRows(rows[..i])
    {
      assert rows[..i + 1][..i] == rows[..i];
      var head := HasSubstring(rows[i], "<th>");
      if head {
        headerRows := headerRows + [rows[i]];
      } else {
        tbodyRows := tbodyRows + [rows[i]];
      }
    }
    assert rows[..|rows|] == rows;
    table := "<table>" + Section("thead", headerRows) + Section("tbody", tbodyRows) + "</table>";
  }

  // ---------- which rows are heads ----------

  /** A tag cannot straddle the start of another. */
  lemma NoStraddle(a: string, b: string)
    requires b == "" || b[0] == '<'
    ensures Contains(a + b, "<th>") <==> Contains(a, "<th>") || Contains(b, "<th>")
  {
    if i :| At(a + b, i, "<th>") {
      var s := (a + b)[i..i + 4];
      assert s == "<th>";
      if i + 4 <= |a| {
        assert a[i..i + 4] == s;
        assert At(a, i, "<th>");
      } else if i >= |a| {
        assert b[i - |a|..i - |a| + 4] == s;
        assert At(b, i - |a|, "<th>");
      } else {
        assert s[|a| - i] == b[0];
      }
    }
    if i :| At(a, i, "<th>") {
      assert (a + b)[i..i + 4] == a[i..i + 4];
      assert At(a + b, i, "<th>");
    }
    if i :| At(b, i, "<th>") {
      assert (a + b)[|a| + i..|a| + i + 4] == b[i..i + 4];
      assert At(a + b, |a| + i, "<th>");
    }
  }

  lemma NotIn(s: string)
    requires forall i :: 0 <= i <= |s| - 4 && s[i] == '<' ==> s[i + 1] != 't' || s[i + 2] != 'h'
    ensures !Contains(s, "<th>")
  {
    forall i ensures !At(s, i, "<th>") {
      if 0 <= i <= |s| - 4 {
        var t := s[i..i + 4];
        assert t[0] == s[i] && t[1] == s[i + 1] && t[2] == s[i + 2];
        assert "<th>"[0] == '<' && "<th>"[1] == 't' && "<th>"[2] == 'h';
      }
    }
  }

  /** What precedes a cell ends in '>' and holds no tag start of its own past its first character. */
  lemma AfterOpening(cell: string)
    ensures Contains("<td>" + cell, "<th>") <==> Contains(cell, "<th>")
  {
    var s := "<td>" + cell;
    if i :| At(s, i, "<th>") {
      assert s[i..i + 4][0] == '<' && s[i..i + 4][1] == 't' && s[i..i + 4][2] == 'h';
      assert s[i] == '<' && s[i + 1] == 't' && s[i + 2] == 'h';
      assert s[0..4] == "<td>";
      assert i >= 4;
      assert cell[i - 4..i] == s[i..i + 4];
      assert At(cell, i - 4, "<th>");
    }
    if i :| At(cell, i, "<th>") {
      assert s[i + 4..i + 8] == cell[i..i + 4];
      assert At(s, i + 4, "<th>");
    }
  }

  lemma CellIsHead(cell: string)
    ensures Contains(CellHTML(cell, true), "<th>")
    ensures Contains(CellHTML(cell, false), "<th>") <==> Contains(cell, "<th>")
  {
    var head := CellHTML(cell, true);
    assert head[0..4] == "<th>";
    assert At(head, 0, "<th>");
    NoStraddle("<td>" + cell, "</td>");
    NotIn("</td>");
    AfterOpening(cell);
    assert CellHTML(cell, false) == ("<td>" + cell) + "</td>";
  }

  lemma {:induction false} CellsAreHead(cells: seq<string>, isHeader: bool)
    ensures Contains(CellsHTML(cells, isHeader), "<th>")
       <==> exists k :: 0 <= k < |cells| && (isHeader || Contains(cells[k], "<th>"))
    ensures cells != [] ==> CellsHTML(cells, isHeader) != "" && CellsHTML(cells, isHeader)[0] == '<'
  {
    hide Contains;
    if cells == [] {
      NotIn("");
    } else {
      var init, last := cells[..|cells| - 1], cells[|cells| - 1];
      CellsAreHead(init, isHeader);
      CellIsHead(last);
      NoStraddle(CellsHTML(init, isHeader), CellHTML(last, isHeader));
      assert forall k :: 0 <= k < |init| ==> init[k] == cells[k];
    }
  }

  /** A header row is a head; another row is one exactly when a cell holds a header tag itself. */
  lemma RowIsHeadIff(line: string, isHeader: bool)
    ensures IsHead(RowHTML(line, isHeader))
       <==> isHeader || exists k :: 0 <= k < |Cells(line)| && Contains(Cells(line)[k], "<th>")
  {
    hide Contains, Cells, CellsHTML;
    var cells := Cells(line);
    CellsSome(line);
    CellsAreHead(cells, isHeader);
    var first := cells[0];
    assert isHeader || Contains(first, "<th>") ==>
             exists k :: 0 <= k < |cells| && (isHeader || Contains(cells[k], "<th>"));
    NotIn("<tr>");
    NotIn("</tr>");
    NoStraddle("<tr>" + CellsHTML(cells, isHeader), "</tr>");
    NoStraddle("<tr>", CellsHTML(cells, isHeader));
    assert RowHTML(line, isHeader) == ("<tr>" + CellsHTML(cells, isHeader)) + "</tr>";
  }

  lemma CellsSome(line: string)
    ensures |Cells(line)| > 0
  {
  }

  ghost predicate Clean(line: string) {
    forall k :: 0 <= k < |Cells(line)| ==> !Contains(Cells(line)[k], "<th>")
  }

  lemma CleanRow(line: string, isHeader: bool)
    requires Clean(line)
    ensures IsHead(RowHTML(line, isHeader)) == isHeader
  {
    RowIsHeadIff(line, isHeader);
  }
}
