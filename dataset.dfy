/** The decoded dataset: one record per problem instance, and how a record is
    laid out in the binary file. */
module Dataset {
  import opened Arith
  import opened Layout
  import opened Records

  /** Per-site Hamiltonian parameters of one instance (J, Bx and Bz). */
  datatype Fields = Fields(coupling: seq<Elem>, transverse: seq<Elem>, longitudinal: seq<Elem>)

  /** A dense matrix in Eigen's default column-major storage order: entry (r, c)
      is storage element c * rows + r. */
  datatype Matrix = Matrix(rows: nat, cols: nat, storage: seq<Elem>)
  {
    ghost predicate Shaped()
    {
      |storage| == rows * cols
    }

    function Entry(r: nat, c: nat): Elem
      requires Shaped() && r < rows && c < cols
    {
      assert c * rows + r < cols * rows by {
        MulLe(c + 1, cols, rows);
        MulSucc(c, rows);
      }
      storage[c * rows + r]
    }
  }

  /** One instance: its fields, its eigenvalues and its eigenvector block. */
  datatype Record = Record(fields: Fields, values: seq<Elem>, wavefx: Matrix)

  /** The shapes the reader gives every field vector: one entry per site. */
  ghost predicate FieldsShaped(sh: Shape, f: Fields)
  {
    |f.coupling| == sh.sites && |f.transverse| == sh.sites && |f.longitudinal| == sh.sites
  }

  /** The shape the reader gives every eigenvector block: dim x dim. */
  ghost predicate BlockShaped(sh: Shape, m: Matrix)
  {
    m.rows == sh.dim && m.cols == sh.dim && |m.storage| == sh.block
  }

  /** The shapes the reader gives every record. */
  ghost predicate WellShaped(sh: Shape, r: Record)
  {
    FieldsShaped(sh, r.fields) && |r.values| == sh.dim && BlockShaped(sh, r.wavefx)
  }

  /** Decodes the elements of one record: in order n couplings, n transverse
      fields, n longitudinal fields, dim eigenvalues and the eigenvector block. */
  function DecodeRecord(sh: Shape, rec: seq<Elem>): (r: Record)
    requires |rec| == sh.Stride()
    ensures WellShaped(sh, r)
  {
    var n := sh.sites;
    var d := sh.dim;
    Record(Fields(rec[..n], rec[n..2 * n], rec[2 * n..3 * n]),
           rec[3 * n..3 * n + d],
           Matrix(d, d, rec[3 * n + d..]))
  }

  /** The elements a well-shaped record is stored as: the producer side of the
      format. */
  function EncodeRecord(sh: Shape, r: Record): (es: seq<Elem>)
    requires WellShaped(sh, r)
    ensures |es| == sh.Stride()
  {
    r.fields.coupling + (r.fields.transverse + (r.fields.longitudinal + (r.values + r.wavefx.storage)))
  }

  /** Decodes records of sh.Stride() elements each. */
  function DecodeAll(sh: Shape, ps: seq<seq<Elem>>): (rs: seq<Record>)
    requires forall i :: 0 <= i < |ps| ==> |ps[i]| == sh.Stride()
    ensures |rs| == |ps|
  {
    seq(|ps|, i requires 0 <= i < |ps| => DecodeRecord(sh, ps[i]))
  }

  /** The records held by a sequence of elements: one per whole stride, the
      elements after the last whole stride being dropped. */
  function DecodeElems(sh: Shape, es: seq<Elem>): (rs: seq<Record>)
    ensures forall i :: 0 <= i < |rs| ==> WellShaped(sh, rs[i])
  {
    DecodeAll(sh, Split(es, sh.Stride()))
  }

  /** All records the reader decodes from a file, in file order. */
  function Decode(sh: Shape, f: File): (rs: seq<Record>)
    ensures forall i :: 0 <= i < |rs| ==> WellShaped(sh, rs[i])
  {
    DecodeElems(sh, f.elems)
  }

  /** The elements of each of a sequence of well-shaped records. */
  function EncodeAll(sh: Shape, rs: seq<Record>): (ps: seq<seq<Elem>>)
    requires forall i :: 0 <= i < |rs| ==> WellShaped(sh, rs[i])
    ensures forall i :: 0 <= i < |ps| ==> |ps[i]| == sh.Stride()
    ensures |ps| == |rs|
  {
    seq(|rs|, i requires 0 <= i < |rs| => EncodeRecord(sh, rs[i]))
  }

  /** The elements a producer writes for a sequence of well-shaped records:
      theirs, back to back. */
  function Encode(sh: Shape, rs: seq<Record>): (es: seq<Elem>)
    requires forall i :: 0 <= i < |rs| ==> WellShaped(sh, rs[i])
  {
    Flatten(EncodeAll(sh, rs))
  }

  /** The field vectors of a sequence of records, in order. */
  function FieldsOf(rs: seq<Record>): (fs: seq<Fields>)
    ensures |fs| == |rs| && forall i :: 0 <= i < |rs| ==> fs[i] == rs[i].fields
  {
    seq(|rs|, i requires 0 <= i < |rs| => rs[i].fields)
  }

  /** The eigenvalue vectors of a sequence of records, in order. */
  function ValuesOf(rs: seq<Record>): (vs: seq<seq<Elem>>)
    ensures |vs| == |rs| && forall i :: 0 <= i < |rs| ==> vs[i] == rs[i].values
  {
    seq(|rs|, i requires 0 <= i < |rs| => rs[i].values)
  }

  /** The eigenvector blocks of a sequence of records, in order. */
  function WavefxOf(rs: seq<Record>): (ms: seq<Matrix>)
    ensures |ms| == |rs| && forall i :: 0 <= i < |rs| ==> ms[i] == rs[i].wavefx
  {
    seq(|rs|, i requires 0 <= i < |rs| => rs[i].wavefx)
  }

  /** One more record adds one entry at the end of each projection. */
  lemma ProjectionsSnoc(rs: seq<Record>, r: Record)
    ensures FieldsOf(rs + [r]) == FieldsOf(rs) + [r.fields]
    ensures ValuesOf(rs + [r]) == ValuesOf(rs) + [r.values]
    ensures WavefxOf(rs + [r]) == WavefxOf(rs) + [r.wavefx]
  {
  }

  /** Element k of record i of a file, i.e. element i * stride + k of the file. */
  function RecordElem(sh: Shape, f: File, i: nat, k: nat): Elem
    requires i < NumInstances(sh, f.Size()) && k < sh.Stride()
  {
    RecordInFileElems(sh, f, i);
    f.elems[i * sh.Stride() + k]
  }

  // ----- one record

  /** Decoding what the producer wrote for a record gives the record back. */
  lemma DecodeEncodeRecord(sh: Shape, r: Record)
    requires WellShaped(sh, r)
    ensures DecodeRecord(sh, EncodeRecord(sh, r)) == r
  {
    var f := r.fields;
    var n := sh.sites;
    var d := sh.dim;
    var rec := EncodeRecord(sh, r);
    assert rec[..n] == f.coupling;
    assert rec[n..2 * n] == f.transverse;
    assert rec[2 * n..3 * n] == f.longitudinal;
    assert rec[3 * n..3 * n + d] == r.values;
    assert rec[3 * n + d..] == r.wavefx.storage;
  }

  /** Encoding a decoded record gives back its elements: a record has no
      element the decoder skips. */
  lemma EncodeDecodeRecord(sh: Shape, rec: seq<Elem>)
    requires |rec| == sh.Stride()
    ensures EncodeRecord(sh, DecodeRecord(sh, rec)) == rec
  {
    var n := sh.sites;
    var d := sh.dim;
    assert rec == rec[..n] + (rec[n..2 * n] + (rec[2 * n..3 * n] + (rec[3 * n..3 * n + d] + rec[3 * n + d..])));
  }

  /** Where each decoded value sits in the record, counted in elements from the
      start of the record. */
  lemma RecordLayout(sh: Shape, rec: seq<Elem>)
    requires |rec| == sh.Stride()
    ensures var r := DecodeRecord(sh, rec);
      var n := sh.sites;
      && (forall j :: 0 <= j < n ==> r.fields.coupling[j] == rec[j])
      && (forall j :: 0 <= j < n ==> r.fields.transverse[j] == rec[n + j])
      && (forall j :: 0 <= j < n ==> r.fields.longitudinal[j] == rec[2 * n + j])
      && (forall k :: 0 <= k < sh.dim ==> r.values[k] == rec[3 * n + k])
      && (forall k :: 0 <= k < sh.block ==> r.wavefx.storage[k] == rec[3 * n + sh.dim + k])
  {
  }

  /** Reading the five parts of a record one after another, as the reader
      does, reads the record: n couplings, n transverse fields, n longitudinal
      fields, dim eigenvalues, then the rest of the stride for the eigenvector
      block. */
  lemma DecodeReads(sh: Shape, es: seq<Elem>, p0: nat, p1: nat, p2: nat, p3: nat, p4: nat, p5: nat)
    requires p1 == p0 + sh.sites && p2 == p1 + sh.sites && p3 == p2 + sh.sites
    requires p4 == p3 + sh.dim && p5 == p4 + sh.block && p5 <= |es|
    ensures p5 == p0 + sh.Stride()
    ensures DecodeRecord(sh, es[p0..p5])
         == Record(Fields(es[p0..p1], es[p1..p2], es[p2..p3]), es[p3..p4], Matrix(sh.dim, sh.dim, es[p4..p5]))
  {
    var n := sh.sites;
    var d := sh.dim;
    SliceOfSlice(es, p0, p5, 0, n);
    SliceOfSlice(es, p0, p5, n, 2 * n);
    SliceOfSlice(es, p0, p5, 2 * n, 3 * n);
    SliceOfSlice(es, p0, p5, 3 * n, 3 * n + d);
    SliceOfSlice(es, p0, p5, 3 * n + d, sh.Stride());
    assert es[p0..p5][3 * n + d..] == es[p0..p5][3 * n + d..sh.Stride()];
  }

  // ----- a whole file

  /** Record i of a file lies within the file's whole elements. */
  lemma RecordInFileElems(sh: Shape, f: File, i: nat)
    requires i < NumInstances(sh, f.Size())
    ensures i * sh.Stride() + sh.Stride() <= |f.elems|
  {
    var SE := sh.Stride();
    InstancesInElements(sh, f);
    DivBounds(|f.elems|, SE);
    RecordInFile(i, |f.elems| / SE, SE, |f.elems|);
  }

  /** The number of records decoded is the file size divided by the stride,
      rounded down. */
  lemma DecodeLength(sh: Shape, f: File)
    ensures |Decode(sh, f)| == NumInstances(sh, f.Size())
  {
    SplitLength(f.elems, sh.Stride());
    InstancesInElements(sh, f);
  }

  /** Record i of a file starts at element i * stride; its couplings, transverse
      fields, longitudinal fields, eigenvalues and eigenvector block follow one
      another in that order. */
  lemma DecodeLayout(sh: Shape, f: File, i: nat)
    requires i < NumInstances(sh, f.Size())
    ensures i < |Decode(sh, f)|
    ensures var r := Decode(sh, f)[i];
      var n := sh.sites;
      && (forall j :: 0 <= j < n ==> r.fields.coupling[j] == RecordElem(sh, f, i, j))
      && (forall j :: 0 <= j < n ==> r.fields.transverse[j] == RecordElem(sh, f, i, n + j))
      && (forall j :: 0 <= j < n ==> r.fields.longitudinal[j] == RecordElem(sh, f, i, 2 * n + j))
      && (forall k :: 0 <= k < sh.dim ==> r.values[k] == RecordElem(sh, f, i, 3 * n + k))
      && (forall k :: 0 <= k < sh.block ==> r.wavefx.storage[k] == RecordElem(sh, f, i, 3 * n + sh.dim + k))
  {
    var SE := sh.Stride();
    RecordInFileElems(sh, f, i);
    SplitAt(f.elems, SE, i);
    RecordLayout(sh, f.elems[i * SE..i * SE + SE]);
  }

  lemma EntryIndex(d: nat, row: nat, col: nat)
    requires row < d && col < d
    ensures col * d + row < d * d
  {
    MulLe(col + 1, d, d);
    MulSucc(col, d);
  }

  /** Entry (row, col) of the eigenvector block of record i is element
      3n + dim + col * dim + row of the record: the block is stored column by
      column. */
  lemma EntryAt(sh: Shape, f: File, i: nat, row: nat, col: nat)
    requires sh.block == sh.dim * sh.dim
    requires i < NumInstances(sh, f.Size()) && row < sh.dim && col < sh.dim
    ensures i < |Decode(sh, f)| && col * sh.dim + row < sh.block && Decode(sh, f)[i].wavefx.Shaped()
    ensures Decode(sh, f)[i].wavefx.Entry(row, col)
      == RecordElem(sh, f, i, 3 * sh.sites + sh.dim + (col * sh.dim + row))
  {
    var k := col * sh.dim + row;
    EntryIndex(sh.dim, row, col);
    BlockElemAt(sh, f, i, k);
  }

  /** Entry k of the stored eigenvector block of record i is element
      3n + dim + k of the record. */
  lemma BlockElemAt(sh: Shape, f: File, i: nat, k: nat)
    requires i < NumInstances(sh, f.Size()) && k < sh.block
    ensures i < |Decode(sh, f)| && |Decode(sh, f)[i].wavefx.storage| == sh.block
    ensures Decode(sh, f)[i].wavefx.storage[k] == RecordElem(sh, f, i, 3 * sh.sites + sh.dim + k)
  {
    var SE := sh.Stride();
    RecordInFileElems(sh, f, i);
    SplitAt(f.elems, SE, i);
    var start := i * SE;
    var rec := f.elems[start..start + SE];
    var off := 3 * sh.sites + sh.dim;
    assert Decode(sh, f)[i] == DecodeRecord(sh, rec);
    assert DecodeRecord(sh, rec).wavefx.storage == rec[off..];
    assert rec[off..][k] == f.elems[start + (off + k)];
  }

  lemma DecodeAllCons(sh: Shape, head: seq<Elem>, ps: seq<seq<Elem>>)
    requires |head| == sh.Stride()
    requires forall i :: 0 <= i < |ps| ==> |ps[i]| == sh.Stride()
    ensures DecodeAll(sh, [head] + ps) == [DecodeRecord(sh, head)] + DecodeAll(sh, ps)
  {
  }

  /** Fewer elements than one stride hold no record. */
  lemma DecodeShort(sh: Shape, es: seq<Elem>)
    requires |es| < sh.Stride()
    ensures DecodeElems(sh, es) == []
  {
  }

  /** Decoding the elements from p on takes the record stored at p, then
      decodes the elements after it. */
  lemma DecodeStep(sh: Shape, es: seq<Elem>, p: nat)
    requires p + sh.Stride() <= |es|
    ensures DecodeElems(sh, es[p..]) == [DecodeRecord(sh, es[p..p + sh.Stride()])] + DecodeElems(sh, es[p + sh.Stride()..])
  {
    var SE := sh.Stride();
    var head := es[p..p + SE];
    var tail := es[p + SE..];
    assert es[p..] == head + tail;
    SplitCons(head, tail, SE);
    DecodeAllCons(sh, head, Split(tail, SE));
  }

  /** Reading what the producer wrote for a sequence of records, followed by
      fewer bytes than one record, gives exactly those records, in order: the
      trailing partial record is dropped without error. */
  lemma DecodeEncode(sh: Shape, rs: seq<Record>, f: File)
    requires forall k :: 0 <= k < |rs| ==> WellShaped(sh, rs[k])
    requires exists tail :: f.elems == Encode(sh, rs) + tail && |tail| < sh.Stride()
    ensures Decode(sh, f) == rs
  {
    var tail :| f.elems == Encode(sh, rs) + tail && |tail| < sh.Stride();
    var ps := EncodeAll(sh, rs);
    SplitFlatten(ps, tail, sh.Stride());
    forall i | 0 <= i < |rs|
      ensures DecodeAll(sh, ps)[i] == rs[i]
    {
      DecodeEncodeRecord(sh, rs[i]);
    }
  }

  /** The file is the encoding of the decoded records followed by less than one
      record: the reader uses every element before that tail, once. */
  lemma EncodeDecode(sh: Shape, f: File)
    ensures var e := Encode(sh, Decode(sh, f));
      |e| <= |f.elems| && f.elems == e + f.elems[|e|..]
      && f.Size() - 8 * |e| < sh.StrideBytes()
  {
    var SE := sh.Stride();
    var ps := Split(f.elems, SE);
    var rs := DecodeAll(sh, ps);
    forall i | 0 <= i < |ps|
      ensures EncodeAll(sh, rs)[i] == ps[i]
    {
      EncodeDecodeRecord(sh, ps[i]);
    }
    assert EncodeAll(sh, rs) == ps;
    FlattenSplit(f.elems, SE);
  }

  /** Decoding distributes over a split of the elements at a record boundary. */
  lemma DecodeAppend(sh: Shape, x: seq<Elem>, y: seq<Elem>, q: nat)
    requires |x| == q * sh.Stride()
    ensures DecodeElems(sh, x + y) == DecodeElems(sh, x) + DecodeElems(sh, y)
  {
    var SE := sh.Stride();
    SplitAppend(x, y, SE, q);
    var a := Split(x, SE);
    var b := Split(y, SE);
    assert DecodeAll(sh, a + b) == DecodeAll(sh, a) + DecodeAll(sh, b);
  }

  /** Truncation: with two qubits, a file of 466 bytes yields exactly two
      records, the same two as the file of its first 416 bytes; the last 50
      bytes are dropped. */
  lemma TwoQubitTruncation(f: File)
    requires f.Size() == 466
    ensures |Decode(ShapeOf(2), f)| == 2
    ensures Decode(ShapeOf(2), f) == Decode(ShapeOf(2), FileImage(f.elems[..52], 0))
  {
    var sh := ShapeOf(2);
    StrideTwoQubits();
    InstancesTwoQubits();
    DecodeLength(sh, f);
    var es := f.elems;
    assert |es| == 58;
    assert es == es[..52] + es[52..];
    DecodeAppend(sh, es[..52], es[52..], 2);
    DecodeShort(sh, es[52..]);
    assert DecodeElems(sh, es[..52]) + [] == DecodeElems(sh, es[..52]);
  }
}
