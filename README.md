# Dataset reader: a verified model

This project models the `Reader` of a quantum Ising dataset tool. The reader
opens a binary dataset written for an `n`-qubit transverse-field Ising chain.
It decodes the file's fixed-stride records and appends them to three parallel
member vectors:
- `fields`: per-site coupling J, transverse field Bx and longitudinal field Bz;
- `values`: the `dim = 2^n` eigenvalues;
- `wavefx`: the `dim x dim` eigenvector block.

`write_csv` writes two files from that state. input.csv gets one line per
instance with its fields. output.csv gets one line per instance with its
eigenvector block.

The model is in seven modules:

- `Arith` holds the facts about multiplication and floor division that the
  record arithmetic needs.
- `Records` cuts a sequence into consecutive fixed-size records (`Split`) and
  joins them back (`Flatten`). It works for any element type and any positive
  record size.
- `Layout` covers sizes and positions:
  - an element is the 8 raw bytes of one `double`;
  - `dim = 2^n` and the block size is `4^n`;
  - the stride is `3n + dim + dim*dim` elements, or 8 times that in bytes;
  - `NumInstances` is the reader's `num_instances`, the file size divided by
    the stride and rounded down;
  - a file (`File`) is its whole elements, followed by fewer than 8 trailing
    bytes.
- `Dataset` decodes records. `DecodeRecord` cuts one record into couplings,
  transverse fields, longitudinal fields, eigenvalues and the eigenvector
  block, in that order. `Decode` decodes every whole record of a file.
  `Encode` is the producer's side of the format, used to state the round trips.
  `Matrix` is a dense matrix in Eigen's default column-major storage.
- `Csv` models the CSV files as lines of tokens: fixed headings, index cells,
  value cells and commas. `Join` separates cells with commas and puts none
  after the last.
- `Export` defines the lines of input.csv and output.csv as functions of the
  decoded state. It also proves lemmas that trace every cell back to a position
  in the binary file. `InputCsvOfEncode` and `OutputCsvOfEncode` state the
  whole round trip: stored records, read back and written out, give each
  record's lines of both files.
- `Dump` holds the reader itself:
  - an `InputStream` class over the file's elements with a read position;
  - the `Reader` class, with the fields `fields`, `values` and `wavefx` that
    its methods change in place;
  - `Read`, whose loop appends one decoded record per iteration;
  - `WriteCsv`, whose nested loops build the lines cell by cell.

`Read` is specified against `Decode`. On success each sequence is its old
contents followed by the projection of `Decode(file)`, in file order. The
lemmas about `Decode` then state:
- the stride;
- the record count;
- where each slice of a record lies in the file;
- that a trailing partial record is dropped;
- the round trips with `Encode`.

`WriteCsv` is specified against `InputLines` and `OutputLines`. The lemmas in
`Export` and `Csv` state the shape of every line and the file position of
every cell. The method has no `modifies` clause, so it leaves the reader
unchanged, as the `const` method does. Its results depend only on `fields`
and `wavefx`, so no eigenvalue appears in either file.

## Model

| member | source | states |
|---|---|---|
| Layout.Dim | code/src/dump/Reader.cxx:15 | the state-space dimension 2^n of an n-qubit register, never below 1 |
| Layout.Sizes.Stride | code/src/dump/Reader.cxx:17 | the elements of one record: 3n field values, dim eigenvalues and the block entries |
| Layout.Sizes.StrideBytes | code/src/dump/Reader.cxx:17 | the record size in bytes, 8 bytes per element: the reader's offset |
| Layout.NumInstances | code/src/dump/Reader.cxx:18 | the file size divided by 8 * stride, rounded down: the reader's num_instances |
| Layout.StrideTwoQubits | code/src/dump/Reader.cxx:15-17 | with two qubits a record has 2 sites, dim 4 and a 16-entry block: 26 elements, 208 bytes |
| Layout.Dim2IsSquare | code/src/dump/Reader.cxx:15-17 | the block size 4^n is dim * dim for dim = 2^n |
| Layout.StrideFitsInt | code/src/dump/Reader.cxx:15-17 | for at most 15 qubits dim, dim*dim and the element stride fit a 32-bit int |
| Layout.NumInstancesBounds | code/src/dump/Reader.cxx:18 | the record count is floor(file size / stride): records * stride <= size < (records + 1) * stride |
| Layout.InstancesTwoQubits | code/src/dump/Reader.cxx:18 | two-qubit files of 416 and 466 bytes both give 2 records, one of 415 bytes gives 1 |
| Layout.InstancesInElements | code/src/dump/Reader.cxx:17-18 | counting records in bytes equals counting them in whole 8-byte elements |
| Records.Split | code/src/dump/Reader.cxx:38-44 | the consecutive whole records of a sequence, each exactly one stride long; a shorter rest is dropped |
| Records.SplitLength | code/src/dump/Reader.cxx:18 | a sequence holds floor(length / stride) whole records |
| Records.SplitAt | code/src/dump/Reader.cxx:38-44 | record i is the stride-long slice starting at i * stride |
| Records.SplitFlatten | code/src/dump/Reader.cxx:38-44 | records laid back to back, followed by less than one record, cut back into exactly those records |
| Records.FlattenSplit | code/src/dump/Reader.cxx:18 | the whole records of a sequence, back to back, are all of it except a tail shorter than one record |
| Dataset.DecodeRecord | code/src/dump/Reader.cxx:28-30 | every decoded record has n couplings, n transverse and n longitudinal fields, dim eigenvalues and a dim x dim block of 4^n entries |
| Dataset.DecodeAll | code/src/dump/Reader.cxx:38-44 | one decoded record per stride-long slice, as many as there are slices, in order |
| Dataset.DecodeElems | code/src/dump/Reader.cxx:38-44 | the records decoded from a sequence of elements, one per whole stride, each well shaped |
| Dataset.Decode | code/src/dump/Reader.cxx:38-44 | every record the loop reads from a file, in file order, each well shaped |
| Dataset.EncodeRecord | code/src/dump/Reader.cxx:17 | a well-shaped record is stored in exactly one stride of elements |
| Dataset.DecodeReads | code/src/dump/Reader.cxx:40-44 | five consecutive reads of n, n, n, dim and dim*dim elements cover exactly one stride and give the decoded record |
| Dataset.RecordLayout | code/src/dump/Reader.cxx:40-44 | inside a record, coupling j is element j, transverse j is n + j, longitudinal j is 2n + j, eigenvalue k is 3n + k, block entry k is 3n + dim + k |
| Dataset.DecodeLayout | code/src/dump/Reader.cxx:38-44 | every value of decoded record i is the file element at i * stride plus its offset in the record |
| Dataset.BlockElemAt | code/src/dump/Reader.cxx:44 | stored block entry k of record i is file element i * stride + 3n + dim + k |
| Dataset.EntryAt | code/src/dump/Reader.cxx:30-44 | matrix entry (row, col) of block i is the record's element 3n + dim + col * dim + row |
| Dataset.DecodeLength | code/src/dump/Reader.cxx:18 | the number of decoded records is num_instances |
| Dataset.DecodeShort | code/src/dump/Reader.cxx:18 | fewer elements than one stride give no record |
| Dataset.DecodeStep | code/src/dump/Reader.cxx:38-44 | decoding from position p gives the record at p, followed by the records after it |
| Dataset.DecodeAppend | code/src/dump/Reader.cxx:38-44 | decoding distributes over a cut at a record boundary |
| Dataset.DecodeEncodeRecord | code/src/dump/Reader.cxx:40-44 | decoding the stored form of a well-shaped record gives it back |
| Dataset.EncodeDecodeRecord | code/src/dump/Reader.cxx:40-44 | a record's elements are its stored form again: the decoder skips no element |
| Dataset.DecodeEncode | code/src/dump/Reader.cxx:38-44 | a file holding the stored records followed by less than one record decodes to exactly those records |
| Dataset.EncodeDecode | code/src/dump/Reader.cxx:18-44 | the file is the stored form of its decoded records plus a tail shorter than one stride, in bytes |
| Dataset.TwoQubitTruncation | code/src/dump/Reader.cxx:18 | a 466-byte two-qubit file gives 2 records, the same as its first 416 bytes; the last 50 bytes are dropped without error |
| Csv.Join | code/src/dump/Reader.cxx:64-68 | cells separated by one comma each, with no comma after the last |
| Csv.JoinSnoc | code/src/dump/Reader.cxx:64-68 | appending a cell to a non-empty line adds one comma, then the cell |
| Csv.JoinLength | code/src/dump/Reader.cxx:64-68 | k cells joined take 2k - 1 tokens |
| Csv.JoinCellAt | code/src/dump/Reader.cxx:64-68 | cell k of a joined line is its token 2k |
| Csv.JoinCommaAt | code/src/dump/Reader.cxx:64-68 | a comma follows every cell but the last |
| Csv.JoinShape | code/src/dump/Reader.cxx:64-68 | cells and commas alternate, starting and ending with a cell |
| Csv.CellsOfJoin | code/src/dump/Reader.cxx:64-68 | dropping the commas of a joined line gives back its cells in order |
| Csv.CellsAppend | code/src/dump/Reader.cxx:61-69 | the cells of two concatenated line pieces are the cells of each, in order |
| Export.SiteCells | code/src/dump/Reader.cxx:62-66 | the cells of the first j sites: coupling, transverse and longitudinal field of each in turn |
| Export.InputRow | code/src/dump/Reader.cxx:61-69 | an input line: the index i+1, a comma, then the site cells separated by commas |
| Export.ValueCells | code/src/dump/Reader.cxx:78-80 | one cell per stored block entry, as many as there are entries, in storage order |
| Export.OutputRow | code/src/dump/Reader.cxx:77-81 | an output line: the index i+1, a comma, then the stored entries separated by commas |
| Export.SiteCellsAt | code/src/dump/Reader.cxx:62-66 | the site cells are coupling, transverse and longitudinal field of each site in turn |
| Export.JoinSite | code/src/dump/Reader.cxx:62-69 | one more site adds a comma (unless first), then its three cells with commas between them |
| Export.JoinValue | code/src/dump/Reader.cxx:78-81 | one more block entry adds a comma (unless first), then its cell |
| Export.InputRowSite | code/src/dump/Reader.cxx:64-66 | site j of an input line is tokens 6j+2 to 6j+6: coupling, comma, transverse, comma, longitudinal |
| Export.InputRowEnds | code/src/dump/Reader.cxx:61-69 | an input line starts with the index i+1 and a comma; sites are separated by one comma and none follows the last site; with no site the line is the index and a comma |
| Export.InputRowCells | code/src/dump/Reader.cxx:61-69 | an input line holds 1 + 3n cells: the index, then the three fields of every site |
| Export.OutputRowLayout | code/src/dump/Reader.cxx:77-81 | an output line is the index i+1 and a comma, then entry k of the stored block at token 2k+2, with commas between entries and none after the last |
| Export.OutputRowEntry | code/src/dump/Reader.cxx:80 | stored block entry k is token 2k + 2 of its output line |
| Export.OutputRowCells | code/src/dump/Reader.cxx:77-81 | an output line holds the index, then one cell per stored entry, in storage order |
| Export.InputLines | code/src/dump/Reader.cxx:58-72 | input.csv has one header line plus one line per instance |
| Export.OutputLines | code/src/dump/Reader.cxx:74-84 | output.csv has one header line plus one line per field vector |
| Export.InputCellsFromFile | code/src/dump/Reader.cxx:40-66 | the input.csv cells of site j of instance i are file elements i * stride + j, + n + j and + 2n + j |
| Export.OutputCellFromFile | code/src/dump/Reader.cxx:44-80 | output.csv cell k of instance i is file element i * stride + 3n + dim + k |
| Export.InputCsvOfEncode | code/src/dump/Reader.cxx:38-69 | a file holding the stored form of well-shaped records, read back, gives record i the input.csv line i+1 holding that record's fields site by site |
| Export.OutputCsvOfEncode | code/src/dump/Reader.cxx:38-81 | the same file gives record i the output.csv line i+1 holding that record's block entries in storage order |
| Dump.OutcomeOf | code/src/dump/Reader.cxx:18-36 | the outcome fixed before any record is read: size error for a missing file, open error, stream error at end-of-file, otherwise done |
| Dump.InputStream.constructor | code/src/dump/Reader.cxx:20 | a stream opened on a file sees its whole elements, starting at position 0 |
| Dump.InputStream.ReadElems | code/src/dump/Reader.cxx:40-44 | a read returns the next count elements and advances the position by count |
| Dump.InputStream.ReadRecord | code/src/dump/Reader.cxx:40-44 | the five reads of one iteration consume one stride and give the record decoded there |
| Dump.Reader.constructor | code/include/dump/Reader.hpp:24-25 | a new reader keeps its register size and path and holds no instance |
| Dump.Reader.Valid | code/include/dump/Reader.hpp:34-36 | the three member vectors have one entry per instance, each of the shape n qubits fix |
| Dump.Reader.Read | code/src/dump/Reader.cxx:12-50 | a missing file, an unopenable file and a stream at end-of-file each fail with nothing appended; otherwise every whole record is appended in file order, each sequence grows by num_instances and its old contents remain a prefix; the sequences stay parallel and well shaped |
| Dump.Reader.ReadInstances | code/src/dump/Reader.cxx:38-49 | the loop appends the decoded records of the stream in order to fields, values and wavefx |
| Dump.Reader.WriteCsv | code/src/dump/Reader.cxx:52-85 | the lines produced are exactly InputLines(fields) and OutputLines(size of fields, wavefx); the reader is unchanged |
| Dump.InputLine | code/src/dump/Reader.cxx:61-71 | the cell-by-cell loop builds exactly InputRow(i, f) |
| Dump.OutputLine | code/src/dump/Reader.cxx:77-83 | the cell-by-cell loop builds exactly OutputRow(i, m) |
| Dump.RecordRemains | code/src/dump/Reader.cxx:38 | while records remain to be read, a whole record follows the read position |
| Dump.ConsumeRecord | code/src/dump/Reader.cxx:38-44 | reading the next record decodes the record there and leaves one fewer whole record |
| Dump.ConsumedAll | code/src/dump/Reader.cxx:38 | after num_instances records nothing decodable is left |
| Dump.AppendRecord | code/src/dump/Reader.cxx:46-48 | pushing the three parts of one more record extends each projection by that record |
| Dump.AppendParallel | code/src/dump/Reader.cxx:46-48 | appending well-shaped records keeps the three sequences of equal length and of fixed shapes |

## Left out

- File access is a parameter. `boost::filesystem::file_size`, `std::ifstream`
  and the file contents become a `FileState` value: missing, unopenable, or
  readable with its contents and an end-of-file flag.
- The ways `read` stops the program become an `Outcome` that leaves the reader
  unchanged; the model does not stop a program. `SizeError` stands for the
  exception `boost::filesystem::file_size` throws for a missing file, which
  nothing catches. `OpenError` and `StreamError` stand for the two checks that
  print to stderr and call `exit(-1)`.
- The end-of-file flag of a freshly opened stream is an input of the model. A
  successful `std::ifstream` open leaves it clear, so in practice that error
  path cannot be reached.
- The bytes of an element are never interpreted as a `double`. Elements are
  copied as 8 opaque bytes, which is all the reader does with them.
- Number formatting is not modelled. `ValueCell(e)` stands for the text the
  stream prints for element `e`: the `double` at the default six significant
  digits, padded by `std::setw` in input.csv. That text can lose precision, so
  the model traces each cell to the element it prints and does not claim the
  text gives the element back. A line break is implied by the line structure.
- `dim` is the exact integer 2^n. `(int)(pow(2, n) + 0.5)` is not modelled in
  floating point.
- Dump.Reader.constructor: requires at most 15 qubits (`MaxQubits`), so that
  `dim * dim` and the stride cannot overflow a 32-bit `int`. For the same
  reason the register size is a `nat`, whereas the source's `int` can be
  negative.
- Dump.Reader.Read: requires the record count to fit an `int`. The source
  would truncate a larger `num_instances`.
- Dump.InputStream.ReadElems: the model has no short reads. Read never asks
  for more elements than the file holds, so file.read's failure state and the
  reuse of stale temporary buffers are not modelled.
- `Reader<T>::print` is not modelled. It only writes the state to stdout.
- The command-line driver is not part of this model.
- The network model declarations are not part of this model.
- Dump.Reader.WriteCsv: requires `Valid()`. output.csv is written for `i` below
  the number of field vectors but indexes `wavefx`, so the two must have equal
  length, which is what `Read` keeps.
- Which files the lines go to (`input.csv`, `output.csv` in the working
  directory) is not modelled. `WriteCsv` returns the two files' lines.
