/** How `ask` shows a result set: a placeholder when there are no rows,
    otherwise the column names, a rule, and one line per row, the cells of a
    line joined with " | ". Printing is modelled as the sequence of strings
    handed to `print`, one element per call. */
module ResultPrinter {
  import opened Text

  const Separator: string := " | "
  const NoResults: string := "(Sin resultados)"

  /** Python's `c * n` for a one-character string `c`. */
  function Repeat(c: char, n: nat): (s: string)
    ensures |s| == n
    ensures forall k :: 0 <= k < n ==> s[k] == c
  {
    if n == 0 then [] else [c] + Repeat(c, n - 1)
  }

  /** The rule under the header: `"-" * 80`. */
  const Rule: string := Repeat('-', 80)

  /** Python's `sep.join(cells)`. */
  function Join(cells: seq<string>, sep: string): string
    decreases |cells|
  {
    if cells == [] then ""
    else if |cells| == 1 then cells[0]
    else cells[0] + sep + Join(cells[1..], sep)
  }

  /** The printed form of each row, in the order of the rows. */
  function RowLines(rows: seq<seq<string>>): (lines: seq<string>)
    ensures |lines| == |rows|
    ensures forall i :: 0 <= i < |rows| ==> lines[i] == Join(rows[i], Separator)
  {
    if rows == [] then []
    else RowLines(rows[..|rows| - 1]) + [Join(rows[|rows| - 1], Separator)]
  }

  /** Everything `ask` prints for a result set with these columns and rows. */
  function ResultLines(columns: seq<string>, rows: seq<seq<string>>): seq<string> {
    if rows == [] then [NoResults]
    else [Join(columns, Separator), Rule] + RowLines(rows)
  }

  /** No rows: the placeholder alone, no header. Otherwise two more lines than
      rows: the header, a rule of 80 dashes, then each row in its place. */
  lemma ResultLinesShape(columns: seq<string>, rows: seq<seq<string>>)
    ensures rows == [] ==> ResultLines(columns, rows) == [NoResults]
    ensures rows != [] ==> |ResultLines(columns, rows)| == |rows| + 2
    ensures rows != [] ==> ResultLines(columns, rows)[0] == Join(columns, Separator)
    ensures rows != [] ==> ResultLines(columns, rows)[1] == Rule
    ensures rows != [] ==> forall i :: 0 <= i < |rows| ==> ResultLines(columns, rows)[i + 2] == Join(rows[i], Separator)
  {
  }

  /** The loop of `ask` that prints the rows, collecting the lines instead. */
  method FormatResults(columns: seq<string>, rows: seq<seq<string>>) returns (lines: seq<string>)
    ensures lines == ResultLines(columns, rows)
  {
    if |rows| == 0 {
      return [NoResults];
    }
    lines := [Join(columns, Separator), Rule];
    var i := 0;
    while i < |rows|
      invariant 0 <= i <= |rows|
      invariant lines == [Join(columns, Separator), Rule] + RowLines(rows[..i])
    {
      assert rows[..i + 1][..i] == rows[..i];
      lines := lines + [Join(rows[i], Separator)];
      i := i + 1;
    }
    assert rows[..|rows|] == rows;
  }

  /** Reads a printed line back into cells by cutting at each " | ". */
  function Cells(line: string): seq<string>
    decreases |line|
  {
    var i := Find(line, Separator);
    if i < 0 then [line] else [line[..i]] + Cells(line[i + |Separator|..])
  }

  /** A string without '|' holds no separator. */
  lemma NoSeparatorIn(s: string)
    requires '|' !in s
    ensures Find(s, Separator) == -1
  {
    forall j | 0 <= j ensures !OccursAt(s, Separator, j) {
      if j + 3 <= |s| {
        assert s[j..j + 3][1] == s[j + 1];
      }
    }
  }

  /** The first separator of `c + " | " + rest` is the one right after `c`. */
  lemma FirstSeparator(c: string, rest: string)
    requires '|' !in c
    ensures Find(c + Separator + rest, Separator) == |c|
  {
    var line := c + Separator + rest;
    assert line[|c|..|c| + 3] == Separator;
    assert OccursAt(line, Separator, |c|);
    forall j | 0 <= j < |c| ensures !OccursAt(line, Separator, j) {
      if j + 1 < |c| {
        assert line[j..j + 3][1] == c[j + 1];
      } else {
        assert line[j..j + 3][1] == line[|c|] == ' ';
      }
    }
    FindFirst(line, Separator, |c|);
  }

  /** Reading back cuts off the first cell and carries on behind its separator. */
  lemma CellsCons(c: string, rest: string)
    requires '|' !in c
    ensures Cells(c + Separator + rest) == [c] + Cells(rest)
  {
    var line := c + Separator + rest;
    FirstSeparator(c, rest);
    assert line[..|c|] == c;
    assert line[|c| + |Separator|..] == rest;
  }

  /** One printed row reads back into its cells, provided no cell holds '|'. */
  lemma {:induction false} CellsJoin(cells: seq<string>)
    requires |cells| > 0
    requires forall k :: 0 <= k < |cells| ==> '|' !in cells[k]
    ensures Cells(Join(cells, Separator)) == cells
    decreases |cells|
  {
    if |cells| == 1 {
      NoSeparatorIn(cells[0]);
    } else {
      var rest := Join(cells[1..], Separator);
      assert Join(cells, Separator) == cells[0] + Separator + rest;
      CellsCons(cells[0], rest);
      CellsJoin(cells[1..]);
      assert cells == [cells[0]] + cells[1..];
    }
  }

  /** A cell holding the separator makes two different rows print alike. */
  lemma JoinAmbiguous()
    ensures Join(["a | b"], Separator) == Join(["a", "b"], Separator)
  {
  }
}
