/** The CSV files the reader writes, as lines of tokens. A line is a sequence
    of cells and separating commas; the line break after it is implied by the
    line structure. A value cell stands for the text the stream prints for an
    element: the `double` in the stream's default format (six significant
    digits), padded by `std::setw` in input.csv. That text is not modelled, and
    it need not give the element back: the lemmas trace a cell to the element
    it prints, not the other way. */
module Csv {
  import opened Layout

  datatype Token =
    | Heading(text: string)   // a fixed header line
    | IndexCell(index: nat)   // the 1-based instance number
    | ValueCell(value: Elem)  // one element of the dataset
    | Comma

  /** A token that is a cell, not a separator. */
  predicate IsCell(t: Token)
  {
    !t.Comma?
  }

  /** The cells, separated by commas, with none after the last. */
  function Join(cells: seq<Token>): seq<Token>
  {
    if |cells| <= 1 then cells
    else Join(cells[..|cells| - 1]) + [Comma, cells[|cells| - 1]]
  }

  /** The cells of a line, its separators dropped. */
  function Cells(line: seq<Token>): (r: seq<Token>)
    ensures forall k :: 0 <= k < |r| ==> IsCell(r[k])
    ensures |r| <= |line|
  {
    if line == [] then []
    else (if IsCell(line[0]) then [line[0]] else []) + Cells(line[1..])
  }

  /** Appending a cell to a non-empty line of cells adds a comma, then the cell. */
  lemma JoinSnoc(cells: seq<Token>, x: Token)
    requires cells != []
    ensures Join(cells + [x]) == Join(cells) + [Comma, x]
  {
    assert (cells + [x])[..|cells|] == cells;
  }

  lemma {:induction false} JoinLength(cells: seq<Token>)
    requires cells != []
    ensures |Join(cells)| == 2 * |cells| - 1
    decreases |cells|
  {
    if |cells| > 1 {
      JoinLength(cells[..|cells| - 1]);
    }
  }

  /** Cell k of a joined line is its token 2k. */
  lemma {:induction false} JoinCellAt(cells: seq<Token>, k: nat)
    requires k < |cells|
    ensures 2 * k < |Join(cells)| && Join(cells)[2 * k] == cells[k]
    decreases |cells|
  {
    JoinLength(cells);
    var m := |cells| - 1;
    if k < m {
      var init := cells[..m];
      JoinCellAt(init, k);
      assert Join(cells) == Join(init) + [Comma, cells[m]];
    }
  }

  /** A comma follows every cell of a joined line but the last. */
  lemma {:induction false} JoinCommaAt(cells: seq<Token>, k: nat)
    requires k + 1 < |cells|
    ensures 2 * k + 1 < |Join(cells)| && Join(cells)[2 * k + 1] == Comma
    decreases |cells|
  {
    JoinLength(cells);
    var m := |cells| - 1;
    var init := cells[..m];
    assert Join(cells) == Join(init) + [Comma, cells[m]];
    if k + 1 < m {
      JoinCommaAt(init, k);
    } else {
      JoinLength(init);
    }
  }

  /** A joined line alternates cells and commas, starting and ending with a
      cell: cell k is token 2k, and a comma follows every cell but the last. */
  lemma JoinShape(cells: seq<Token>)
    requires cells != []
    ensures |Join(cells)| == 2 * |cells| - 1
    ensures forall k :: 0 <= k < |cells| ==> Join(cells)[2 * k] == cells[k]
    ensures forall k :: 0 <= k < |cells| - 1 ==> Join(cells)[2 * k + 1] == Comma
  {
    JoinLength(cells);
    forall k | 0 <= k < |cells|
      ensures Join(cells)[2 * k] == cells[k]
    {
      JoinCellAt(cells, k);
    }
    forall k | 0 <= k < |cells| - 1
      ensures Join(cells)[2 * k + 1] == Comma
    {
      JoinCommaAt(cells, k);
    }
  }

  lemma {:induction false} CellsAppend(a: seq<Token>, b: seq<Token>)
    ensures Cells(a + b) == Cells(a) + Cells(b)
  {
    if a == [] {
      assert a + b == b;
    } else {
      assert (a + b)[1..] == a[1..] + b;
      CellsAppend(a[1..], b);
    }
  }

  /** Dropping the separators of a joined line gives back its cells. */
  lemma {:induction false} CellsOfJoin(cells: seq<Token>)
    requires forall k :: 0 <= k < |cells| ==> IsCell(cells[k])
    ensures Cells(Join(cells)) == cells
    decreases |cells|
  {
    if |cells| == 1 {
      assert Cells(cells) == [cells[0]] + Cells([]);
    } else if |cells| > 1 {
      var init := cells[..|cells| - 1];
      var last := cells[|cells| - 1];
      CellsOfJoin(init);
      CellsAppend(Join(init), [Comma, last]);
      assert Cells([Comma, last]) == [last] by {
        assert [Comma, last][1..] == [last];
        assert Cells([last]) == [last] + Cells([]);
      }
      assert init + [last] == cells;
    }
  }
}
