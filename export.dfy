/** What `write_csv` writes: input.csv holds the fields of every instance and
    output.csv its eigenvector block, one line per instance after a fixed
    header line. */
module Export {
  import opened Layout
  import opened Dataset
  import opened Csv

  const InputHeader: string := "J[1], Bx[1], Bz[1]... J[n], Bx[n], Bz[n]"
  const OutputHeader: string := "c[1], c[2], c[3]... c[n] "

  /** What an input line reads of a field vector: a transverse and a
      longitudinal field for every site that has a coupling. */
  ghost predicate Aligned(f: Fields)
  {
    |f.coupling| <= |f.transverse| && |f.coupling| <= |f.longitudinal|
  }

  /** The cells of the first j sites: coupling, transverse and longitudinal
      field of each site in turn. */
  function SiteCells(f: Fields, j: nat): seq<Token>
    requires Aligned(f) && j <= |f.coupling|
  {
    if j == 0 then []
    else SiteCells(f, j - 1)
         + [ValueCell(f.coupling[j - 1]), ValueCell(f.transverse[j - 1]), ValueCell(f.longitudinal[j - 1])]
  }

  /** The input.csv line of instance i (counted from 0): its number i + 1, a
      comma, then the cells of every site, separated by commas. */
  function InputRow(i: nat, f: Fields): seq<Token>
    requires Aligned(f)
  {
    [IndexCell(i + 1), Comma] + Join(SiteCells(f, |f.coupling|))
  }

  /** The lines of input.csv. */
  function InputLines(fields: seq<Fields>): (lines: seq<seq<Token>>)
    requires forall i :: 0 <= i < |fields| ==> Aligned(fields[i])
    ensures |lines| == |fields| + 1
  {
    [[Heading(InputHeader)]] + seq(|fields|, i requires 0 <= i < |fields| => InputRow(i, fields[i]))
  }

  /** One cell per stored entry, in storage order. */
  function ValueCells(ws: seq<Elem>): (r: seq<Token>)
    ensures |r| == |ws|
  {
    seq(|ws|, k requires 0 <= k < |ws| => ValueCell(ws[k]))
  }

  /** The output.csv line of instance i (counted from 0): its number i + 1, a
      comma, then every stored entry of its eigenvector block in storage order,
      separated by commas. */
  function OutputRow(i: nat, m: Matrix): seq<Token>
  {
    [IndexCell(i + 1), Comma] + Join(ValueCells(m.storage))
  }

  /** The lines of output.csv for the first `count` blocks: as many lines as
      there are field vectors. */
  function OutputLines(count: nat, wavefx: seq<Matrix>): (lines: seq<seq<Token>>)
    requires count <= |wavefx|
    ensures |lines| == count + 1
  {
    [[Heading(OutputHeader)]] + seq(count, i requires 0 <= i < count => OutputRow(i, wavefx[i]))
  }

  // ----- building a line one site or one entry at a time

  /** Joining the cells of one more site adds a comma (unless it is the first
      site), then its three cells separated by commas. */
  lemma JoinSite(f: Fields, j: nat)
    requires Aligned(f) && j < |f.coupling|
    ensures Join(SiteCells(f, j + 1))
         == (if j == 0 then [] else Join(SiteCells(f, j)) + [Comma])
            + [ValueCell(f.coupling[j]), Comma, ValueCell(f.transverse[j]), Comma, ValueCell(f.longitudinal[j])]
  {
    var s := SiteCells(f, j);
    var a, b, c := ValueCell(f.coupling[j]), ValueCell(f.transverse[j]), ValueCell(f.longitudinal[j]);
    assert SiteCells(f, j + 1) == ((s + [a]) + [b]) + [c];
    if j == 0 {
      assert [a, b, c][..2] == [a, b] && [a, b][..1] == [a];
      assert s + [a] + [b] + [c] == [a, b, c];
    } else {
      SiteCellsLength(f, j);
      JoinSnoc(s, a);
      JoinSnoc(s + [a], b);
      JoinSnoc(s + [a] + [b], c);
    }
  }

  /** Joining the cells of one more entry adds a comma (unless it is the first
      entry), then its cell. */
  lemma JoinValue(w: seq<Elem>, j: nat)
    requires j < |w|
    ensures Join(ValueCells(w[..j + 1]))
         == (if j == 0 then [] else Join(ValueCells(w[..j])) + [Comma]) + [ValueCell(w[j])]
  {
    var init, x := ValueCells(w[..j]), ValueCell(w[j]);
    assert |ValueCells(w[..j + 1])| == |init + [x]|;
    forall k | 0 <= k < j + 1
      ensures ValueCells(w[..j + 1])[k] == (init + [x])[k]
    {
    }
    assert ValueCells(w[..j + 1]) == init + [x];
    if j == 0 {
      assert init + [x] == [x];
    } else {
      JoinSnoc(init, x);
    }
  }

  // ----- the shape of a line

  lemma {:induction false} SiteCellsAt(f: Fields, j: nat, k: nat)
    requires Aligned(f) && j <= |f.coupling| && k < j
    ensures |SiteCells(f, j)| == 3 * j
    ensures SiteCells(f, j)[3 * k] == ValueCell(f.coupling[k])
    ensures SiteCells(f, j)[3 * k + 1] == ValueCell(f.transverse[k])
    ensures SiteCells(f, j)[3 * k + 2] == ValueCell(f.longitudinal[k])
    decreases j
  {
    SiteCellsLength(f, j - 1);
    if k < j - 1 {
      SiteCellsAt(f, j - 1, k);
    }
  }

  lemma {:induction false} SiteCellsLength(f: Fields, j: nat)
    requires Aligned(f) && j <= |f.coupling|
    ensures |SiteCells(f, j)| == 3 * j
    ensures forall k :: 0 <= k < |SiteCells(f, j)| ==> IsCell(SiteCells(f, j)[k])
  {
    if j > 0 {
      SiteCellsLength(f, j - 1);
    }
  }

  /** Site j of an input line: token 2 + 6j is its coupling, then a comma, its
      transverse field, a comma and its longitudinal field. */
  lemma InputRowSite(i: nat, f: Fields, j: nat)
    requires Aligned(f) && j < |f.coupling|
    ensures var row := InputRow(i, f);
      && 6 * j + 6 < |row|
      && row[6 * j + 2] == ValueCell(f.coupling[j])
      && row[6 * j + 3] == Comma
      && row[6 * j + 4] == ValueCell(f.transverse[j])
      && row[6 * j + 5] == Comma
      && row[6 * j + 6] == ValueCell(f.longitudinal[j])
  {
    var n := |f.coupling|;
    var sc := SiteCells(f, n);
    SiteCellsAt(f, n, j);
    JoinLength(sc);
    JoinCellAt(sc, 3 * j);
    JoinCommaAt(sc, 3 * j);
    JoinCellAt(sc, 3 * j + 1);
    JoinCommaAt(sc, 3 * j + 1);
    JoinCellAt(sc, 3 * j + 2);
  }

  /** Sites are separated by one comma, and no comma follows the last one. */
  lemma InputRowEnds(i: nat, f: Fields)
    requires Aligned(f)
    ensures var row := InputRow(i, f);
      var n := |f.coupling|;
      && row[0] == IndexCell(i + 1) && row[1] == Comma
      && (n == 0 ==> row == [IndexCell(i + 1), Comma])
      && (n > 0 ==> |row| == 6 * n + 1 && row[6 * n] == ValueCell(f.longitudinal[n - 1]))
      && (forall j :: 0 <= j < n - 1 ==> row[6 * j + 7] == Comma)
  {
    var n := |f.coupling|;
    var sc := SiteCells(f, n);
    SiteCellsLength(f, n);
    if n > 0 {
      JoinLength(sc);
      InputRowSite(i, f, n - 1);
      forall j | 0 <= j < n - 1
        ensures InputRow(i, f)[6 * j + 7] == Comma
      {
        JoinCommaAt(sc, 3 * j + 2);
      }
    }
  }

  /** An input line of an instance with n sites holds 1 + 3n cells: its number,
      then the three fields of every site in turn. */
  lemma InputRowCells(i: nat, f: Fields)
    requires Aligned(f)
    ensures Cells(InputRow(i, f)) == [IndexCell(i + 1)] + SiteCells(f, |f.coupling|)
    ensures |Cells(InputRow(i, f))| == 1 + 3 * |f.coupling|
  {
    var sc := SiteCells(f, |f.coupling|);
    SiteCellsLength(f, |f.coupling|);
    CellsAppend([IndexCell(i + 1), Comma], Join(sc));
    CellsOfJoin(sc);
    assert Cells([IndexCell(i + 1), Comma]) == [IndexCell(i + 1)] by {
      assert [IndexCell(i + 1), Comma][1..] == [Comma];
      assert Cells([Comma]) == Cells([]);
    }
  }

  /** Entry k of a block is token 2 + 2k of its output line, a comma follows
      every entry but the last, and the line ends with the last entry. */
  lemma OutputRowLayout(i: nat, m: Matrix)
    ensures var row := OutputRow(i, m);
      var w := m.storage;
      && row[0] == IndexCell(i + 1) && row[1] == Comma
      && (w == [] ==> row == [IndexCell(i + 1), Comma])
      && (w != [] ==> |row| == 2 * |w| + 1)
      && (forall k :: 0 <= k < |w| ==> row[2 * k + 2] == ValueCell(w[k]))
      && (forall k :: 0 <= k < |w| - 1 ==> row[2 * k + 3] == Comma)
  {
    var w := m.storage;
    if w != [] {
      JoinShape(ValueCells(w));
    }
  }

  lemma OutputRowEntry(i: nat, m: Matrix, k: nat)
    requires k < |m.storage|
    ensures 2 * k + 2 < |OutputRow(i, m)| && OutputRow(i, m)[2 * k + 2] == ValueCell(m.storage[k])
  {
    JoinLength(ValueCells(m.storage));
    JoinCellAt(ValueCells(m.storage), k);
  }

  /** An output line holds the instance number, then one cell per entry. */
  lemma OutputRowCells(i: nat, m: Matrix)
    ensures Cells(OutputRow(i, m)) == [IndexCell(i + 1)] + ValueCells(m.storage)
  {
    var vc := ValueCells(m.storage);
    CellsAppend([IndexCell(i + 1), Comma], Join(vc));
    CellsOfJoin(vc);
    assert Cells([IndexCell(i + 1), Comma]) == [IndexCell(i + 1)] by {
      assert [IndexCell(i + 1), Comma][1..] == [Comma];
      assert Cells([Comma]) == Cells([]);
    }
  }

  // ----- from file positions to cells

  /** The field vectors of decoded records are aligned. */
  lemma DecodedAligned(sh: Shape, rs: seq<Record>)
    requires forall i :: 0 <= i < |rs| ==> WellShaped(sh, rs[i])
    ensures forall i :: 0 <= i < |FieldsOf(rs)| ==> Aligned(FieldsOf(rs)[i])
  {
  }

  /** The cells written to input.csv for site j of instance i are elements
      i * stride + j, + n + j and + 2n + j of the file. */
  lemma InputCellsFromFile(sh: Shape, f: File, i: nat, j: nat)
    requires i < NumInstances(sh, f.Size()) && j < sh.sites
    ensures var fs := FieldsOf(Decode(sh, f));
      && (forall k :: 0 <= k < |fs| ==> Aligned(fs[k]))
      && i + 1 < |InputLines(fs)|
      && var row := InputLines(fs)[i + 1];
      && 6 * j + 6 < |row|
      && row[6 * j + 2] == ValueCell(RecordElem(sh, f, i, j))
      && row[6 * j + 4] == ValueCell(RecordElem(sh, f, i, sh.sites + j))
      && row[6 * j + 6] == ValueCell(RecordElem(sh, f, i, 2 * sh.sites + j))
  {
    var rs := Decode(sh, f);
    DecodedAligned(sh, rs);
    DecodeLayout(sh, f, i);
    InputRowSite(i, rs[i].fields, j);
  }

  /** The cell written to output.csv for entry k of the eigenvector block of
      instance i is element i * stride + 3n + dim + k of the file. */
  lemma OutputCellFromFile(sh: Shape, f: File, i: nat, k: nat)
    requires i < NumInstances(sh, f.Size()) && k < sh.block
    ensures var rs := Decode(sh, f);
      && i + 1 < |OutputLines(|rs|, WavefxOf(rs))|
      && var row := OutputLines(|rs|, WavefxOf(rs))[i + 1];
      && 2 * k + 2 < |row|
      && row[2 * k + 2] == ValueCell(RecordElem(sh, f, i, 3 * sh.sites + sh.dim + k))
  {
    var rs := Decode(sh, f);
    assert i < |rs| by { DecodeLength(sh, f); }
    var w := rs[i].wavefx.storage;
    assert w[k] == RecordElem(sh, f, i, 3 * sh.sites + sh.dim + k) by {
      DecodeLayout(sh, f, i);
    }
    OutputRowEntry(i, rs[i].wavefx, k);
  }

  // ----- from records to the lines written

  /** The full round trip for input.csv: a file holding the encodings of
      well-shaped records, read back and written out, gives record i the line
      numbered i + 1, whose cells are that record's fields site by site. */
  lemma InputCsvOfEncode(sh: Shape, rs: seq<Record>, f: File, i: nat)
    requires forall k :: 0 <= k < |rs| ==> WellShaped(sh, rs[k])
    requires exists tail :: f.elems == Encode(sh, rs) + tail && |tail| < sh.Stride()
    requires i < |rs|
    ensures var fs := FieldsOf(Decode(sh, f));
      && (forall k :: 0 <= k < |fs| ==> Aligned(fs[k]))
      && i + 1 < |InputLines(fs)|
      && Aligned(rs[i].fields)
      && Cells(InputLines(fs)[i + 1]) == [IndexCell(i + 1)] + SiteCells(rs[i].fields, sh.sites)
  {
    DecodeEncode(sh, rs, f);
    DecodedAligned(sh, rs);
    var fs := FieldsOf(rs);
    assert fs[i] == rs[i].fields;
    assert InputLines(fs)[i + 1] == InputRow(i, rs[i].fields);
    InputRowCells(i, rs[i].fields);
  }

  /** The same round trip for output.csv: the line numbered i + 1 holds the
      eigenvector block of record i, entry by entry in storage order. */
  lemma OutputCsvOfEncode(sh: Shape, rs: seq<Record>, f: File, i: nat)
    requires forall k :: 0 <= k < |rs| ==> WellShaped(sh, rs[k])
    requires exists tail :: f.elems == Encode(sh, rs) + tail && |tail| < sh.Stride()
    requires i < |rs|
    ensures var ws := WavefxOf(Decode(sh, f));
      && |ws| == |rs|
      && Cells(OutputLines(|ws|, ws)[i + 1]) == [IndexCell(i + 1)] + ValueCells(rs[i].wavefx.storage)
  {
    DecodeEncode(sh, rs, f);
    var ws := WavefxOf(rs);
    assert ws[i] == rs[i].wavefx;
    assert OutputLines(|ws|, ws)[i + 1] == OutputRow(i, rs[i].wavefx);
    OutputRowCells(i, rs[i].wavefx);
  }
}
