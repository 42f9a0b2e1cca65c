/** Sizes and positions in the binary dataset file read by Reader<double>.

    A file holds fixed-stride records of 8-byte elements and no header. It is
    modelled as its whole elements followed by the fewer than 8 bytes after the
    last whole element, which no record can use. An element (one `double`) is
    represented by its 8 raw bytes: nothing in the reader interprets them as a
    number, it only copies them. */
module Layout {
  import opened Arith

  newtype byte = x: int | 0 <= x < 256

  /** One element of the file, kept as the 8 bytes it is stored as, in storage
      order: the only instantiation of the reader is Reader<double>, and
      sizeof(double) is 8. */
  datatype Elem = Elem(b0: byte, b1: byte, b2: byte, b3: byte, b4: byte, b5: byte, b6: byte, b7: byte)

  /** Largest value of a 32-bit `int`, the type of `dim` and `num_instances`. */
  const IntMax: int := 0x7fff_ffff

  /** Largest register size for which `dim * dim` still fits an `int`. */
  const MaxQubits: nat := 15

  /** The state-space dimension 2^n of an n-qubit register. */
  function Dim(n: nat): (r: nat)
    ensures r >= 1
  {
    if n == 0 then 1 else 2 * Dim(n - 1)
  }

  /** The number of entries of the dim x dim eigenvector block, 4^n
      (Dim2IsSquare shows it is dim * dim). */
  function Dim2(n: nat): (r: nat)
    ensures r >= 1
  {
    if n == 0 then 1 else 4 * Dim2(n - 1)
  }

  /** The sizes the reader derives from the register size before reading: n
      sites, the dimension dim and the dim * dim entries of the eigenvector
      block. */
  datatype Sizes = Sizes(sites: nat, dim: nat, block: nat)
  {
    /** Elements per record: n couplings, n transverse and n longitudinal
        fields, dim eigenvalues and the eigenvector block. */
    function Stride(): nat
    {
      3 * sites + dim + block
    }

    /** Bytes per record, the `offset` of the reader. */
    function StrideBytes(): nat
    {
      8 * Stride()
    }
  }

  /** Sizes with a positive dimension, so that a record is never empty. */
  type Shape = sh: Sizes | sh.dim >= 1 witness Sizes(0, 1, 1)

  /** The sizes of an n-qubit file. */
  function ShapeOf(n: nat): Shape
  {
    Sizes(n, Dim(n), Dim2(n))
  }

  /** The number of records the reader decodes from a file of `fileSize`
      bytes, the reader's `num_instances`. */
  function NumInstances(sh: Shape, fileSize: nat): nat
  {
    Quotient(fileSize, sh.StrideBytes())
  }

  /** A dataset file of 8 * |elems| + trailing bytes: the whole elements it
      stores, in file order, and the fewer than 8 bytes after the last of them. */
  datatype FileImage = FileImage(elems: seq<Elem>, trailing: nat)
  {
    /** The file size in bytes, as `boost::filesystem::file_size` reports it. */
    function Size(): nat
    {
      8 * |elems| + trailing
    }
  }

  /** A file image whose trailing part is shorter than one element. */
  type File = f: FileImage | f.trailing < 8 witness FileImage([], 0)

  // ----- the stride

  lemma {:induction false} Dim2IsSquare(n: nat)
    ensures Dim2(n) == Dim(n) * Dim(n)
  {
    if n > 0 {
      Dim2IsSquare(n - 1);
      var h := Dim(n - 1);
      assert Dim(n) * Dim(n) == (2 * h) * (2 * h) == 4 * (h * h);
    }
  }

  lemma {:induction false} DimMonotone(m: nat, n: nat)
    requires m <= n
    ensures Dim(m) <= Dim(n)
    decreases n
  {
    if m < n {
      DimMonotone(m, n - 1);
    }
  }

  /** With at most MaxQubits qubits, the reader's `int` and `long` arithmetic
      (dim, dim*dim, the element stride) cannot overflow. */
  lemma StrideFitsInt(n: nat)
    requires n <= MaxQubits
    ensures Dim(n) <= 0x8000
    ensures Dim2(n) <= 0x4000_0000
    ensures ShapeOf(n).Stride() <= IntMax
  {
    DimMonotone(n, MaxQubits);
    assert Dim(MaxQubits) == 0x8000;
    var d := Dim(n);
    Dim2IsSquare(n);
    MulLe(d, 0x8000, d);
    MulLe(d, 0x8000, 0x8000);
    assert d * d <= 0x8000 * 0x8000;
  }

  /** The concrete stride with two qubits: 3*2 + 4 + 16 = 26 elements, 208 bytes. */
  lemma StrideTwoQubits()
    ensures ShapeOf(2) == Sizes(2, 4, 16)
    ensures ShapeOf(2).Stride() == 26
    ensures ShapeOf(2).StrideBytes() == 208
  {
  }

  /** The number of records is floor(file size / stride): what is left after
      the last whole record is shorter than a record. */
  lemma NumInstancesBounds(sh: Shape, fileSize: nat)
    ensures NumInstances(sh, fileSize) * sh.StrideBytes() <= fileSize
    ensures fileSize < NumInstances(sh, fileSize) * sh.StrideBytes() + sh.StrideBytes()
  {
    DivBounds(fileSize, sh.StrideBytes());
  }

  /** Two-qubit files of 416 and of 466 bytes both hold exactly two records. */
  lemma InstancesTwoQubits()
    ensures NumInstances(ShapeOf(2), 416) == 2
    ensures NumInstances(ShapeOf(2), 466) == 2
    ensures NumInstances(ShapeOf(2), 415) == 1
  {
    StrideTwoQubits();
  }

  /** Counting records in bytes is counting them in whole elements. */
  lemma InstancesInElements(sh: Shape, f: File)
    ensures NumInstances(sh, f.Size()) == |f.elems| / sh.Stride()
  {
    DivUnique(f.Size(), 8, |f.elems|);
    DivDiv(f.Size(), 8, sh.Stride());
  }
}
