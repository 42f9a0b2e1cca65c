/** The dataset reader: an object holding the register size, the file path and
    three parallel sequences that `Read` appends decoded instances to, and that
    `WriteCsv` turns into the lines of input.csv and output.csv. */
module Dump {
  import opened Arith
  import opened Layout
  import opened Records
  import opened Dataset
  import opened Csv
  import opened Export

  /** What the file system holds at the reader's path. */
  datatype FileState =
    | Missing                                   // no regular file: its size cannot be taken
    | Unopenable                                // a file that cannot be opened for reading
    | Readable(image: File, eofAtOpen: bool)    // its contents, and whether the stream opened at end-of-file

  /** How `Read` ended. `SizeError` stands for the exception that
      `boost::filesystem::file_size` throws when there is no file to measure;
      nothing in `read` or its caller catches it, so it ends the program.
      `OpenError` and `StreamError` are the two checks that print a message and
      call `exit(-1)`: a stream that did not open, and one at end-of-file. */
  datatype Outcome = Done | SizeError | OpenError | StreamError

  /** The outcome `Read` has on a file, decided before any record is read. */
  function OutcomeOf(file: FileState): Outcome
  {
    match file
    case Missing => SizeError
    case Unopenable => OpenError
    case Readable(_, eof) => if eof then StreamError else Done
  }

  /** A binary input stream over a file's whole elements; `pos` counts the
      elements read so far. */
  class InputStream {
    const elems: seq<Elem>
    var pos: nat

    constructor (image: File)
      ensures elems == image.elems && pos == 0
    {
      elems := image.elems;
      pos := 0;
    }

    /** Reads the next `count` elements (`count * sizeof(double)` bytes). */
    method ReadElems(count: nat) returns (es: seq<Elem>)
      requires pos + count <= |elems|
      modifies this
      ensures es == elems[old(pos)..old(pos) + count]
      ensures pos == old(pos) + count
    {
      es := elems[pos..pos + count];
      pos := pos + count;
    }

    /** Reads the next instance: the three field vectors, the eigenvalues and
        the dim * dim eigenvector block, in that order. */
    method ReadRecord(sh: Shape) returns (r: Record)
      requires Square(sh)
      requires pos + sh.Stride() <= |elems|
      modifies this
      ensures pos == old(pos) + sh.Stride()
      ensures r == DecodeRecord(sh, elems[old(pos)..pos])
    {
      ghost var p0 := pos;
      var coupling := ReadElems(sh.sites);
      ghost var p1 := pos;
      var transverse := ReadElems(sh.sites);
      ghost var p2 := pos;
      var longitudinal := ReadElems(sh.sites);
      ghost var p3 := pos;
      var eigenvalues := ReadElems(sh.dim);
      ghost var p4 := pos;
      var block := ReadElems(sh.dim * sh.dim);
      r := Record(Fields(coupling, transverse, longitudinal), eigenvalues, Matrix(sh.dim, sh.dim, block));
      assert coupling == elems[p0..p1] && transverse == elems[p1..p2] && longitudinal == elems[p2..p3];
      assert eigenvalues == elems[p3..p4] && block == elems[p4..pos];
      DecodeReads(sh, elems, p0, p1, p2, p3, p4, pos);
      assert r == DecodeRecord(sh, elems[p0..pos]);
    }
  }

  class Reader {
    const numQubits: nat
    const fpath: string
    var fields: seq<Fields>
    var values: seq<seq<Elem>>
    var wavefx: seq<Matrix>

    /** The sizes of every record of this reader's files. */
    function Sh(): Shape
    {
      ShapeOf(numQubits)
    }

    /** One entry in each sequence per instance read, each of the shape the
        register size fixes. */
    ghost predicate Valid()
      reads this
    {
      numQubits <= MaxQubits && Parallel(Sh(), fields, values, wavefx)
    }

    constructor (numQubits: nat, fpath: string)
      requires numQubits <= MaxQubits
      ensures Valid()
      ensures this.numQubits == numQubits && this.fpath == fpath
      ensures fields == [] && values == [] && wavefx == []
    {
      this.numQubits := numQubits;
      this.fpath := fpath;
      fields, values, wavefx := [], [], [];
    }

    /** Reads every whole record of the file and appends it, in file order, to
        `fields`, `values` and `wavefx`; a trailing partial record is ignored.
        On an error nothing is appended. */
    method Read(file: FileState) returns (outcome: Outcome)
      requires Valid()
      requires file.Readable? ==> NumInstances(Sh(), file.image.Size()) <= IntMax
      modifies this
      ensures Valid()
      ensures outcome == OutcomeOf(file)
      ensures outcome != Done ==> fields == old(fields) && values == old(values) && wavefx == old(wavefx)
      ensures outcome == Done ==>
        var rs := Decode(Sh(), file.image);
        && fields == old(fields) + FieldsOf(rs)
        && values == old(values) + ValuesOf(rs)
        && wavefx == old(wavefx) + WavefxOf(rs)
      ensures outcome == Done ==> |fields| == |old(fields)| + NumInstances(Sh(), file.image.Size())
    {
      var n := numQubits;
      var sh := Sh();
      if file.Missing? {
        return SizeError;
      }
      if file.Unopenable? {
        return OpenError;
      }
      var numInstances := NumInstances(sh, file.image.Size());
      if file.eofAtOpen {
        return StreamError;
      }
      var stream := new InputStream(file.image);
      assert Quotient(|stream.elems|, sh.Stride()) == numInstances by {
        InstancesInElements(sh, file.image);
      }
      assert Square(sh) by {
        Dim2IsSquare(n);
      }
      ReadInstances(stream, sh, numInstances);
      DecodeLength(sh, file.image);
      AppendParallel(sh, old(fields), old(values), old(wavefx), Decode(sh, file.image));
      return Done;
    }

    /** The loop of `Read`: reads `numInstances` records from the stream and
        appends each to `fields`, `values` and `wavefx`. */
    method ReadInstances(stream: InputStream, sh: Shape, numInstances: nat)
      requires Square(sh)
      requires stream.pos == 0 && Quotient(|stream.elems|, sh.Stride()) == numInstances
      modifies this, stream
      ensures fields == old(fields) + FieldsOf(DecodeElems(sh, stream.elems))
      ensures values == old(values) + ValuesOf(DecodeElems(sh, stream.elems))
      ensures wavefx == old(wavefx) + WavefxOf(DecodeElems(sh, stream.elems))
    {
      ghost var es := stream.elems;
      ghost var done: seq<Record> := [];
      ConsumedStart(sh, es);
      var i := 0;
      while i < numInstances
        invariant 0 <= i <= numInstances
        invariant stream.elems == es
        invariant Consumed(sh, es, stream.pos, numInstances - i, done)
        invariant Appended(fields, values, wavefx, old(fields), old(values), old(wavefx), done)
      {
        ghost var p := stream.pos;
        RecordRemains(sh, es, p, numInstances - i - 1, done);
        var r := stream.ReadRecord(sh);
        ConsumeRecord(sh, es, p, stream.pos, numInstances - i - 1, done);
        AppendRecord(fields, values, wavefx, old(fields), old(values), old(wavefx), done, r);
        fields := fields + [r.fields];
        values := values + [r.values];
        wavefx := wavefx + [r.wavefx];
        done := done + [r];
        i := i + 1;
      }
      ConsumedAll(sh, es, stream.pos, done);
    }

    /** The lines written to input.csv and to output.csv. The reader is left
        unchanged, and the eigenvalues appear in neither file. */
    method WriteCsv() returns (inputs: seq<seq<Token>>, outputs: seq<seq<Token>>)
      requires Valid()
      ensures inputs == InputLines(fields)
      ensures outputs == OutputLines(|fields|, wavefx)
    {
      inputs := [[Heading(InputHeader)]];
      var i := 0;
      while i < |fields|
        invariant i <= |fields|
        invariant inputs == InputLines(fields[..i])
      {
        var row := InputLine(i, fields[i]);
        assert InputLines(fields[..i + 1]) == InputLines(fields[..i]) + [row];
        inputs := inputs + [row];
        i := i + 1;
      }
      assert fields[..i] == fields;

      outputs := [[Heading(OutputHeader)]];
      i := 0;
      while i < |fields|
        invariant i <= |fields|
        invariant outputs == OutputLines(i, wavefx)
      {
        var row := OutputLine(i, wavefx[i]);
        assert OutputLines(i + 1, wavefx) == OutputLines(i, wavefx) + [row];
        outputs := outputs + [row];
        i := i + 1;
      }
    }
  }

  /** The eigenvector block of a record is a square matrix. */
  ghost predicate Square(sh: Shape)
  {
    sh.block == sh.dim * sh.dim
  }

  /** Three sequences with one entry per instance, each of the given shape. */
  ghost predicate Parallel(sh: Shape, fields: seq<Fields>, values: seq<seq<Elem>>, wavefx: seq<Matrix>)
  {
    && |values| == |fields| && |wavefx| == |fields|
    && (forall i :: 0 <= i < |fields| ==> FieldsShaped(sh, fields[i]))
    && (forall i :: 0 <= i < |values| ==> |values[i]| == sh.dim)
    && (forall i :: 0 <= i < |wavefx| ==> BlockShaped(sh, wavefx[i]))
  }

  /** Appending the parts of well-shaped records keeps the sequences parallel. */
  lemma AppendParallel(sh: Shape, fields: seq<Fields>, values: seq<seq<Elem>>, wavefx: seq<Matrix>, rs: seq<Record>)
    requires Parallel(sh, fields, values, wavefx)
    requires forall k :: 0 <= k < |rs| ==> WellShaped(sh, rs[k])
    ensures Parallel(sh, fields + FieldsOf(rs), values + ValuesOf(rs), wavefx + WavefxOf(rs))
  {
  }

  /** The first p elements of `es` have been read as the records `done`, and
      `left` whole records remain after them. */
  ghost predicate Consumed(sh: Shape, es: seq<Elem>, p: nat, left: nat, done: seq<Record>)
  {
    && p <= |es|
    && Quotient(|es| - p, sh.Stride()) == left
    && DecodeElems(sh, es) == done + DecodeElems(sh, es[p..])
  }

  lemma ConsumedStart(sh: Shape, es: seq<Elem>)
    ensures Consumed(sh, es, 0, Quotient(|es|, sh.Stride()), [])
  {
    assert es[0..] == es;
  }

  /** While whole records remain, a whole record follows position p. */
  lemma RecordRemains(sh: Shape, es: seq<Elem>, p: nat, left: nat, done: seq<Record>)
    requires Consumed(sh, es, p, left + 1, done)
    ensures p + sh.Stride() <= |es|
  {
    DivBounds(|es| - p, sh.Stride());
    MulLe(1, left + 1, sh.Stride());
  }

  /** Reading the record from p to q when whole records remain: it is the one
      decoded there, and one fewer whole record remains. */
  lemma ConsumeRecord(sh: Shape, es: seq<Elem>, p: nat, q: nat, left: nat, done: seq<Record>)
    requires Consumed(sh, es, p, left + 1, done) && q == p + sh.Stride()
    ensures q <= |es|
    ensures Consumed(sh, es, q, left, done + [DecodeRecord(sh, es[p..q])])
  {
    RecordRemains(sh, es, p, left, done);
    DivStep(|es| - p, sh.Stride());
    DecodeStep(sh, es, p);
  }

  /** When no whole record remains, every record has been read. */
  lemma ConsumedAll(sh: Shape, es: seq<Elem>, p: nat, done: seq<Record>)
    requires Consumed(sh, es, p, 0, done)
    ensures done == DecodeElems(sh, es)
  {
    DivBounds(|es| - p, sh.Stride());
    DecodeShort(sh, es[p..]);
    assert done + [] == done;
  }

  /** The three sequences are the initial ones with the parts of `rs` appended. */
  ghost predicate Appended(fields: seq<Fields>, values: seq<seq<Elem>>, wavefx: seq<Matrix>,
                           fields0: seq<Fields>, values0: seq<seq<Elem>>, wavefx0: seq<Matrix>, rs: seq<Record>)
  {
    && fields == fields0 + FieldsOf(rs)
    && values == values0 + ValuesOf(rs)
    && wavefx == wavefx0 + WavefxOf(rs)
  }

  lemma AppendRecord(fields: seq<Fields>, values: seq<seq<Elem>>, wavefx: seq<Matrix>,
                     fields0: seq<Fields>, values0: seq<seq<Elem>>, wavefx0: seq<Matrix>, rs: seq<Record>, r: Record)
    requires Appended(fields, values, wavefx, fields0, values0, wavefx0, rs)
    ensures Appended(fields + [r.fields], values + [r.values], wavefx + [r.wavefx], fields0, values0, wavefx0, rs + [r])
  {
    ProjectionsSnoc(rs, r);
  }

  /** The input.csv line of instance i: its number and a comma, then per site
      its coupling, transverse and longitudinal field, a comma after every
      cell but the last. */
  method InputLine(i: nat, f: Fields) returns (row: seq<Token>)
    requires Aligned(f)
    ensures row == InputRow(i, f)
  {
    var n := |f.coupling|;
    row := [IndexCell(i + 1), Comma];
    var j := 0;
    while j < n
      invariant j <= n
      invariant row == [IndexCell(i + 1), Comma] + Join(SiteCells(f, j)) + (if 0 < j < n then [Comma] else [])
    {
      JoinSite(f, j);
      row := row + [ValueCell(f.coupling[j]), Comma, ValueCell(f.transverse[j]), Comma, ValueCell(f.longitudinal[j])];
      if j != n - 1 {
        row := row + [Comma];
      }
      j := j + 1;
    }
  }

  /** The output.csv line of instance i: its number and a comma, then the
      stored entries of the block with a comma between consecutive ones. */
  method OutputLine(i: nat, m: Matrix) returns (row: seq<Token>)
    ensures row == OutputRow(i, m)
  {
    var w := m.storage;
    row := [IndexCell(i + 1), Comma];
    var j := 0;
    while j < |w|
      invariant j <= |w|
      invariant row == [IndexCell(i + 1), Comma] + Join(ValueCells(w[..j])) + (if 0 < j < |w| then [Comma] else [])
    {
      JoinValue(w, j);
      row := row + [ValueCell(w[j])];
      if j != |w| - 1 {
        row := row + [Comma];
      }
      j := j + 1;
    }
    assert w[..j] == w;
  }
}
