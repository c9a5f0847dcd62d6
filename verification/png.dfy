/**
 The row reconstruction loop of the screenshot checker's PNG reader, against the
 filters of section 9.2 of the W3C PNG specification.

 Filtering is stated forwards, as the specification gives it: each byte minus a
 prediction from the unfiltered bytes to its left, above it, and above to its left.
 The loop works backwards and in place, and is proved to undo it.
 */
module Png {
  import opened Wrappers

  type Byte = b: int | 0 <= b < 256

  /** `& 0xFF`. */
  function Wrap(x: int): Byte {
    x % 256
  }

  function Abs(x: int): nat {
    if x < 0 then -x else x
  }

  /** `_paeth`. */
  function Paeth(a: int, b: int, c: int): (r: int)
    ensures r == a || r == b || r == c
  {
    var p := a + b - c;
    var pa, pb, pc := Abs(p - a), Abs(p - b), Abs(p - c);
    if pa <= pb && pa <= pc then a else if pb <= pc then b else c
  }

  /** The Paeth predictor is the neighbour nearest to left + up - upper left; ties go to left, then up. */
  lemma PaethIsNearest(a: int, b: int, c: int)
    ensures var p := a + b - c;
            var r := Paeth(a, b, c);
            && Abs(p - r) <= Abs(p - a) && Abs(p - r) <= Abs(p - b) && Abs(p - r) <= Abs(p - c)
            && (Abs(p - a) == Abs(p - r) ==> r == a)
            && (Abs(p - b) == Abs(p - r) && r != a ==> r == b)
  {}

  /** The byte `channels` back in a row, 0 before its start. */
  function Back(row: seq<Byte>, i: nat, channels: nat): Byte
    requires i < |row| && channels > 0
  {
    if i >= channels then row[i - channels] else 0
  }

  function Prediction(filter: nat, left: Byte, up: Byte, upLeft: Byte): Byte
    requires filter <= 4
  {
    match filter
    case 0 => 0
    case 1 => left
    case 2 => up
    case 3 => (left + up) / 2
    case _ => Paeth(left, up, upLeft)
  }

  function Predicted(filter: nat, row: seq<Byte>, prior: seq<Byte>, i: nat, channels: nat): Byte
    requires filter <= 4 && i < |row| == |prior| && channels > 0
  {
    Prediction(filter, Back(row, i, channels), prior[i], Back(prior, i, channels))
  }

  /** Section 9.2: the filtered row. */
  function FilteredRow(filter: nat, row: seq<Byte>, prior: seq<Byte>, channels: nat): seq<Byte>
    requires filter <= 4 && |row| == |prior| && channels > 0
    ensures |FilteredRow(filter, row, prior, channels)| == |row|
  {
    seq(|row|, i requires 0 <= i < |row| => Wrap(row[i] - Predicted(filter, row, prior, i, channels)))
  }

  /** The row above row `n`; all zero above the first. */
  function Prior(rows: seq<seq<Byte>>, n: nat, stride: nat): seq<Byte>
    requires n <= |rows|
  {
    if n == 0 then seq(stride, _ => 0) else rows[n - 1]
  }

  /** A filter choice for each row, and rows of one length. */
  predicate IsImage(filters: seq<nat>, rows: seq<seq<Byte>>, stride: nat) {
    && |filters| == |rows|
    && (forall i | 0 <= i < |filters| :: filters[i] <= 4)
    && (forall i | 0 <= i < |rows| :: |rows[i]| == stride)
  }

  function Encoded(filters: seq<nat>, rows: seq<seq<Byte>>, stride: nat, channels: nat): seq<Byte>
    requires IsImage(filters, rows, stride) && channels > 0
    decreases |rows|
  {
    if rows == [] then []
    else
      var n := |rows| - 1;
      Encoded(filters[..n], rows[..n], stride, channels)
      + [filters[n]] + FilteredRow(filters[n], rows[n], Prior(rows, n, stride), channels)
  }

  function Flat(rows: seq<seq<Byte>>): seq<Byte>
    decreases |rows|
  {
    if rows == [] then [] else Flat(rows[..|rows| - 1]) + rows[|rows| - 1]
  }

  lemma MulSucc(n: nat, k: nat)
    ensures (n + 1) * k == n * k + k
  {}

  lemma {:induction false} EncodedLength(filters: seq<nat>, rows: seq<seq<Byte>>, stride: nat, channels: nat)
    requires IsImage(filters, rows, stride) && channels > 0
    ensures |Encoded(filters, rows, stride, channels)| == |rows| * (stride + 1)
    decreases |rows|
  {
    if rows != [] {
      hide FilteredRow;
      var n := |rows| - 1;
      EncodedLength(filters[..n], rows[..n], stride, channels);
      MulSucc(n, stride + 1);
    }
  }

  lemma {:induction false} FlatLength(filters: seq<nat>, rows: seq<seq<Byte>>, stride: nat)
    requires IsImage(filters, rows, stride)
    ensures |Flat(rows)| == |rows| * stride
    decreases |rows|
  {
    if rows != [] {
      FlatLength(filters[..|rows| - 1], rows[..|rows| - 1], stride);
      MulSucc(|rows| - 1, stride);
    }
  }

  /** Two rows that filter alike under the same filter and the same row above are the same row. */
  lemma FilteringARowIsInjective(filter: nat, a: seq<Byte>, b: seq<Byte>, prior: seq<Byte>, channels: nat)
    requires filter <= 4 && |a| == |b| == |prior| && channels > 0
    requires FilteredRow(filter, a, prior, channels) == FilteredRow(filter, b, prior, channels)
    ensures a == b
  {
    for i := 0 to |a|
      invariant a[..i] == b[..i]
    {
      assert Back(a, i, channels) == Back(b, i, channels) by {
        if i >= channels {
          assert a[..i][i - channels] == b[..i][i - channels];
        }
      }
      var p: int := Predicted(filter, a, prior, i, channels);
      assert Wrap(a[i] - p) == FilteredRow(filter, a, prior, channels)[i];
      assert Wrap(b[i] - p) == FilteredRow(filter, b, prior, channels)[i];
      SameByte(a[i], b[i], p);
    }
  }

  lemma SameByte(x: Byte, y: Byte, p: Byte)
    requires Wrap(x - p) == Wrap(y - p)
    ensures x == y
  {}

  /** The last row's filter byte and filtered bytes stand behind the encoding of the rows above. */
  lemma LastRowEncoded(filters: seq<nat>, rows: seq<seq<Byte>>, stride: nat, channels: nat)
    requires IsImage(filters, rows, stride) && channels > 0 && rows != []
    ensures var n, k := |rows| - 1, (|rows| - 1) * (stride + 1);
            var data := Encoded(filters, rows, stride, channels);
            && |data| == k + 1 + stride
            && data[..k] == Encoded(filters[..n], rows[..n], stride, channels)
            && data[k] == filters[n]
            && data[k + 1..] == FilteredRow(filters[n], rows[n], Prior(rows, n, stride), channels)
  {
    hide FilteredRow;
    EncodedLength(filters[..|rows| - 1], rows[..|rows| - 1], stride, channels);
  }

  lemma AboveLast(filters: seq<nat>, rows: seq<seq<Byte>>, stride: nat)
    requires IsImage(filters, rows, stride) && rows != []
    ensures var n := |rows| - 1;
            && |filters| == |rows| && IsImage(filters[..n], rows[..n], stride)
            && filters[n] <= 4 && |rows[n]| == stride == |Prior(rows, n, stride)|
            && Prior(rows, n, stride) == Prior(rows[..n], n, stride)
  {
  }

  /** Nothing is lost by filtering: the encoded bytes determine the filters and the image. */
  lemma {:induction false} FilteringIsInjective(
    filters: seq<nat>, rows: seq<seq<Byte>>, filters': seq<nat>, rows': seq<seq<Byte>>, stride: nat, channels: nat)
    requires IsImage(filters, rows, stride) && IsImage(filters', rows', stride) && channels > 0
    requires |rows| == |rows'|
    requires Encoded(filters, rows, stride, channels) == Encoded(filters', rows', stride, channels)
    ensures filters == filters' && rows == rows'
    decreases |rows|
  {
    if rows != [] {
      var n := |rows| - 1;
      LastRowEncoded(filters, rows, stride, channels);
      LastRowEncoded(filters', rows', stride, channels);
      AboveLast(filters, rows, stride);
      AboveLast(filters', rows', stride);
      hide *;
      FilteringIsInjective(filters[..n], rows[..n], filters'[..n], rows'[..n], stride, channels);
      FilteringARowIsInjective(filters[n], rows[n], rows'[n], Prior(rows, n, stride), channels);
      assert filters == filters[..n] + [filters[n]] && filters' == filters'[..n] + [filters'[n]];
      assert rows == rows[..n] + [rows[n]] && rows' == rows'[..n] + [rows'[n]];
    }
  }

  // ------------------------------------------------------ the loops

  lemma Undone(x: Byte, p: Byte)
    ensures Wrap(Wrap(x + p) - p) == x
  {}

  /** The part of a row in front of `i` already determines the prediction at `i`. */
  predicate UndoneTo(filter: nat, line: seq<Byte>, coded: seq<Byte>, prior: seq<Byte>, channels: nat, n: nat)
    requires filter <= 4 && |line| == |coded| == |prior| && channels > 0
  {
    && n <= |line|
    && (forall i | 0 <= i < n :: Wrap(line[i] - Predicted(filter, line, prior, i, channels)) == coded[i])
    && (forall i | n <= i < |line| :: line[i] == coded[i])
  }

  lemma PredictedFrom(filter: nat, row: seq<Byte>, prior: seq<Byte>, i: nat, channels: nat)
    requires filter <= 4 && i < |row| == |prior| && channels > 0
    ensures var left := if i >= channels then row[i - channels] else 0;
            var upLeft := if i >= channels then prior[i - channels] else 0;
            Predicted(filter, row, prior, i, channels) == Prediction(filter, left, prior[i], upLeft)
  {
  }

  lemma UndoOne(
    filter: nat, before: seq<Byte>, line: seq<Byte>, coded: seq<Byte>, prior: seq<Byte>, channels: nat, n: nat)
    requires filter <= 4 && |before| == |coded| == |prior| && channels > 0
    requires UndoneTo(filter, before, coded, prior, channels, n) && n < |before|
    requires line == before[n := Wrap(before[n] + Predicted(filter, before, prior, n, channels))]
    ensures UndoneTo(filter, line, coded, prior, channels, n + 1)
  {
    forall i | 0 <= i <= n
      ensures Predicted(filter, line, prior, i, channels) == Predicted(filter, before, prior, i, channels)
    {}
    Undone(coded[n], Predicted(filter, before, prior, n, channels));
  }

  /** A row starts out coded; under Sub its first pixel predicts nothing and is already right. */
  lemma UndoneAtStart(filter: nat, coded: seq<Byte>, prior: seq<Byte>, channels: nat, n: nat)
    requires filter <= 4 && |coded| == |prior| && channels > 0 && n <= |coded|
    requires n == 0 || filter == 0 || (filter == 1 && n <= channels)
    ensures UndoneTo(filter, coded, coded, prior, channels, n)
  {}

  lemma UndoneAtEnd(filter: nat, line: seq<Byte>, coded: seq<Byte>, prior: seq<Byte>, channels: nat)
    requires filter <= 4 && |line| == |coded| == |prior| && channels > 0
    requires UndoneTo(filter, line, coded, prior, channels, |line|)
    ensures FilteredRow(filter, line, prior, channels) == coded
  {}

  /** The loop for the Sub filter; the first pixel of the row is left alone. */
  method UndoSub(line: array<Byte>, prior: array<Byte>, channels: nat, ghost coded: seq<Byte>)
    requires line.Length == prior.Length == |coded| && line != prior && channels > 0
    requires UndoneTo(1, line[..], coded, prior[..], channels, if channels < line.Length then channels else line.Length)
    modifies line
    ensures UndoneTo(1, line[..], coded, prior[..], channels, line.Length)
  {
    hide UndoneTo, Predicted, Paeth, Wrap;
    var stride := line.Length;
    var i := channels;
    while i < stride
      invariant channels <= i
      invariant UndoneTo(1, line[..], coded, prior[..], channels, if i < stride then i else stride)
    {
      ghost var before := line[..];
      line[i] := Wrap(line[i] as int + line[i - channels]);
      PredictedFrom(1, before, prior[..], i, channels);
      UndoOne(1, before, line[..], coded, prior[..], channels, i);
      i := i + 1;
    }
  }

  /** The loop for the Up filter. */
  method UndoUp(line: array<Byte>, prior: array<Byte>, channels: nat, ghost coded: seq<Byte>)
    requires line.Length == prior.Length == |coded| && line != prior && channels > 0
    requires UndoneTo(2, line[..], coded, prior[..], channels, 0)
    modifies line
    ensures UndoneTo(2, line[..], coded, prior[..], channels, line.Length)
  {
    hide UndoneTo, Predicted, Paeth, Wrap;
    var stride := line.Length;
    for i := 0 to stride
      invariant UndoneTo(2, line[..], coded, prior[..], channels, i)
    {
      ghost var before := line[..];
      line[i] := Wrap(line[i] as int + prior[i]);
      PredictedFrom(2, before, prior[..], i, channels);
      UndoOne(2, before, line[..], coded, prior[..], channels, i);
    }
  }

  /** The loop for the Average filter. */
  method UndoAverage(line: array<Byte>, prior: array<Byte>, channels: nat, ghost coded: seq<Byte>)
    requires line.Length == prior.Length == |coded| && line != prior && channels > 0
    requires UndoneTo(3, line[..], coded, prior[..], channels, 0)
    modifies line
    ensures UndoneTo(3, line[..], coded, prior[..], channels, line.Length)
  {
    hide UndoneTo, Predicted, Paeth, Wrap;
    var stride := line.Length;
    for i := 0 to stride
      invariant UndoneTo(3, line[..], coded, prior[..], channels, i)
    {
      ghost var before := line[..];
      var left: int := if i >= channels then line[i - channels] else 0;
      line[i] := Wrap(line[i] as int + (left + prior[i]) / 2);
      PredictedFrom(3, before, prior[..], i, channels);
      UndoOne(3, before, line[..], coded, prior[..], channels, i);
    }
  }

  /** The loop for the Paeth filter. */
  method UndoPaeth(line: array<Byte>, prior: array<Byte>, channels: nat, ghost coded: seq<Byte>)
    requires line.Length == prior.Length == |coded| && line != prior && channels > 0
    requires UndoneTo(4, line[..], coded, prior[..], channels, 0)
    modifies line
    ensures UndoneTo(4, line[..], coded, prior[..], channels, line.Length)
  {
    hide UndoneTo, Predicted, Paeth, Wrap;
    var stride := line.Length;
    for i := 0 to stride
      invariant UndoneTo(4, line[..], coded, prior[..], channels, i)
    {
      ghost var before := line[..];
      var left: int := if i >= channels then line[i - channels] else 0;
      var upLeft: int := if i >= channels then prior[i - channels] else 0;
      line[i] := Wrap(line[i] as int + Paeth(left, prior[i], upLeft));
      PredictedFrom(4, before, prior[..], i, channels);
      UndoOne(4, before, line[..], coded, prior[..], channels, i);
    }
  }

  /** One row of the reconstruction loop, in place. */
  method UnfilterRow(filter: nat, line: array<Byte>, prior: array<Byte>, channels: nat)
    requires filter <= 4 && line.Length == prior.Length && line != prior && channels > 0
    modifies line
    ensures FilteredRow(filter, line[..], prior[..], channels) == old(line[..])
  {
    ghost var coded := line[..];
    var stride := line.Length;
    UndoneAtStart(filter, coded, prior[..], channels, if filter == 0 || (filter == 1 && stride <= channels) then stride
                                                      else if filter == 1 then channels else 0);
    hide UndoneTo, FilteredRow;
    if filter == 1 {
      UndoSub(line, prior, channels, coded);
    } else if filter == 2 {
      UndoUp(line, prior, channels, coded);
    } else if filter == 3 {
      UndoAverage(line, prior, channels, coded);
    } else if filter == 4 {
      UndoPaeth(line, prior, channels, coded);
    }
    UndoneAtEnd(filter, line[..], coded, prior[..], channels);
  }

  datatype PngError = BadFilter(filter: int, row: nat)

  /** The size of `n` rows of `k` bytes. */
  function Area(n: nat, k: nat): nat {
    n * k
  }

  lemma {:induction false} RowFits(y: nat, height: nat, k: nat)
    requires y < height
    ensures Area(y, k) + k == Area(y + 1, k) <= Area(height, k)
    decreases height
  {
    MulSucc(y, k);
    if y + 1 < height {
      RowFits(y, height - 1, k);
      MulSucc(height - 1, k);
    }
  }

  lemma EmptyImage(stride: nat, channels: nat)
    requires channels > 0
    ensures forall data: seq<Byte> :: Found(data, 0, [], [], stride, channels)
    ensures Flat([]) == []
  {}

  /** The first rows of the image, found from the first bytes of the data. */
  predicate Found(data: seq<Byte>, src: nat, filters: seq<nat>, rows: seq<seq<Byte>>, stride: nat, channels: nat) {
    && channels > 0 && src <= |data|
    && IsImage(filters, rows, stride) && Encoded(filters, rows, stride, channels) == data[..src]
  }

  lemma RowAppended(filters: seq<nat>, rows: seq<seq<Byte>>, stride: nat, channels: nat, filter: nat, row: seq<Byte>)
    requires IsImage(filters, rows, stride) && channels > 0 && filter <= 4 && |row| == stride
    ensures IsImage(filters + [filter], rows + [row], stride)
    ensures Encoded(filters + [filter], rows + [row], stride, channels)
         == Encoded(filters, rows, stride, channels) + [filter]
            + FilteredRow(filter, row, Prior(rows, |rows|, stride), channels)
    ensures Flat(rows + [row]) == Flat(rows) + row
    ensures Prior(rows + [row], |rows| + 1, stride) == row
  {
    hide FilteredRow;
    assert (filters + [filter])[..|rows|] == filters && (rows + [row])[..|rows|] == rows;
    assert Prior(rows + [row], |rows|, stride) == Prior(rows, |rows|, stride);
  }

  lemma PrefixGrows(data: seq<Byte>, src: nat, stride: nat)
    requires src + 1 + stride <= |data|
    ensures data[..src] + [data[src]] + data[src + 1..src + 1 + stride] == data[..src + 1 + stride]
  {
  }

  lemma OneMoreRow(
    data: seq<Byte>, src: nat, filters: seq<nat>, rows: seq<seq<Byte>>, stride: nat, channels: nat, row: seq<Byte>)
    requires Found(data, src, filters, rows, stride, channels) && src + 1 + stride <= |data|
    requires data[src] <= 4 && |row| == stride
    requires FilteredRow(data[src], row, Prior(rows, |rows|, stride), channels) == data[src + 1..src + 1 + stride]
    ensures Found(data, src + 1 + stride, filters + [data[src]], rows + [row], stride, channels)
    ensures Flat(rows + [row]) == Flat(rows) + row
    ensures Prior(rows + [row], |rows| + 1, stride) == row
  {
    RowAppended(filters, rows, stride, channels, data[src], row);
    hide FilteredRow, Encoded, Flat, IsImage, Prior;
    PrefixGrows(data, src, stride);
  }

  /** One iteration of the row loop: the row's bytes are undone into a fresh row and copied out. */
  method ReconstructRow(
    data: seq<Byte>, src: nat, filter: nat, prior: array<Byte>, channels: nat, out: array<Byte>, dst: nat)
    returns (line: array<Byte>)
    requires filter <= 4 && channels > 0
    requires src + prior.Length <= |data| && dst + prior.Length <= out.Length && prior != out
    modifies out
    ensures fresh(line) && line.Length == prior.Length
    ensures FilteredRow(filter, line[..], prior[..], channels) == data[src..src + prior.Length]
    ensures out[..dst + prior.Length] == old(out[..dst]) + line[..]
  {
    hide FilteredRow;
    var stride := prior.Length;
    line := new Byte[stride](i requires 0 <= i < stride => data[src + i]);
    assert line[..] == data[src..src + stride];
    UnfilterRow(filter, line, prior, channels);
    ghost var undone, above := line[..], prior[..];
    forall j | 0 <= j < stride {
      out[dst + j] := line[j];
    }
    assert line[..] == undone && prior[..] == above;
    assert out[..dst + stride] == out[..dst] + out[dst..dst + stride];
  }

  /** The bytes of the one image of `height` rows whose filtered form the data begins with. */
  ghost predicate IsPicture(pixels: seq<Byte>, data: seq<Byte>, height: nat, stride: nat, channels: nat) {
    exists filters, rows :: Depicts(pixels, data, height, filters, rows, stride, channels)
  }

  predicate Depicts(
    pixels: seq<Byte>, data: seq<Byte>, height: nat, filters: seq<nat>, rows: seq<seq<Byte>>, stride: nat,
    channels: nat) {
    |rows| == height && Found(data, Area(height, stride + 1), filters, rows, stride, channels) && pixels == Flat(rows)
  }

  /** Whether the filter byte of row `y` is one of the five. */
  predicate GoodFilter(data: seq<Byte>, y: nat, stride: nat) {
    Area(y, stride + 1) < |data| && data[Area(y, stride + 1)] <= 4
  }

  /** One iteration of the row loop, with what has been found so far. */
  method NextRow(
    data: seq<Byte>, src: nat, prior: array<Byte>, channels: nat, out: array<Byte>, dst: nat,
    ghost filters: seq<nat>, ghost rows: seq<seq<Byte>>)
    returns (line: array<Byte>)
    requires Found(data, src, filters, rows, prior.Length, channels) && prior[..] == Prior(rows, |rows|, prior.Length)
    requires channels > 0 && src + 1 + prior.Length <= |data| && dst + prior.Length <= out.Length && prior != out
    requires data[src] <= 4 && out[..dst] == Flat(rows)
    modifies out
    ensures fresh(line) && line.Length == prior.Length
    ensures Found(data, src + 1 + prior.Length, filters + [data[src]], rows + [line[..]], prior.Length, channels)
    ensures out[..dst + prior.Length] == Flat(rows + [line[..]])
    ensures line[..] == Prior(rows + [line[..]], |rows| + 1, prior.Length)
  {
    hide FilteredRow, Flat, Prior, Found;
    line := ReconstructRow(data, src + 1, data[src], prior, channels, out, dst);
    OneMoreRow(data, src, filters, rows, prior.Length, channels, line[..]);
  }

  lemma FilterByteOf(data: seq<Byte>, y: nat, stride: nat)
    requires Area(y, stride + 1) < |data|
    ensures GoodFilter(data, y, stride) <==> data[Area(y, stride + 1)] <= 4
  {
  }

  lemma PictureFound(
    pixels: seq<Byte>, data: seq<Byte>, filters: seq<nat>, rows: seq<seq<Byte>>, stride: nat, channels: nat)
    requires Found(data, Area(|rows|, stride + 1), filters, rows, stride, channels) && pixels == Flat(rows)
    ensures IsPicture(pixels, data, |rows|, stride, channels)
  {
    assert Depicts(pixels, data, |rows|, filters, rows, stride, channels);
  }

  /**
   The row loop of `decode_png`, on decompressed data that is at least as long as the
   header promises: it returns the picture exactly when every filter byte is good, and
   otherwise names the first bad row.
   */
  method Reconstruct(data: seq<Byte>, height: nat, stride: nat, channels: nat)
    returns (r: Result<array<Byte>, PngError>)
    requires channels > 0 && |data| >= Area(height, stride + 1)
    ensures r.Ok? ==> forall y | 0 <= y < height :: GoodFilter(data, y, stride)
    ensures r.Ok? ==> IsPicture(r.value[..], data, height, stride, channels)
    ensures r.Err? ==>
              && r.error.row < height && !GoodFilter(data, r.error.row, stride)
              && Area(r.error.row, stride + 1) < |data| && r.error.filter == data[Area(r.error.row, stride + 1)]
              && forall y | 0 <= y < r.error.row :: GoodFilter(data, y, stride)
  {
    var out := new Byte[Area(height, stride)](_ => 0);
    assert Area(0, stride) == 0 && Area(0, stride + 1) == 0;
    EmptyImage(stride, channels);
    var prior := new Byte[stride](_ => 0);
    assert prior[..] == Prior([], 0, stride);
    hide *;
    var src, dst := 0, 0;
    ghost var filters, rows := [], [];
    for y := 0 to height
      invariant |rows| == y && Found(data, src, filters, rows, stride, channels)
      invariant src == Area(y, stride + 1) && dst == Area(y, stride) <= out.Length
      invariant out[..dst] == Flat(rows)
      invariant prior.Length == stride && prior[..] == Prior(rows, y, stride) && prior != out && fresh(out)
      invariant forall y' | 0 <= y' < y :: GoodFilter(data, y', stride)
    {
      RowFits(y, height, stride + 1);
      RowFits(y, height, stride);
      FilterByteOf(data, y, stride);
      var filter: nat := data[src];
      if filter > 4 {
        return Err(BadFilter(filter, y));
      }
      var line := NextRow(data, src, prior, channels, out, dst, filters, rows);
      filters, rows := filters + [filter], rows + [line[..]];
      src, dst, prior := src + 1 + stride, dst + stride, line;
    }
    assert out[..dst] == out[..];
    PictureFound(out[..], data, filters, rows, stride, channels);
    return Ok(out);
  }

  lemma {:induction false} FilterByteAt(filters: seq<nat>, rows: seq<seq<Byte>>, stride: nat, channels: nat, y: nat)
    requires IsImage(filters, rows, stride) && channels > 0 && y < |rows|
    ensures |Encoded(filters, rows, stride, channels)| == Area(|rows|, stride + 1)
    ensures Area(y, stride + 1) < |Encoded(filters, rows, stride, channels)|
    ensures Encoded(filters, rows, stride, channels)[Area(y, stride + 1)] == filters[y]
    decreases |rows|
  {
    hide FilteredRow;
    var n := |rows| - 1;
    EncodedLength(filters, rows, stride, channels);
    EncodedLength(filters[..n], rows[..n], stride, channels);
    RowFits(y, |rows|, stride + 1);
    if y < n {
      FilterByteAt(filters[..n], rows[..n], stride, channels, y);
    }
  }

  /** Section 9.2 in numbers: what each filter type predicts from the bytes to the left, above, and above the left. */
  predicate Predicts(filter: nat, left: int, up: int, upLeft: int, p: int) {
    var target := left + up - upLeft;
    match filter
    case 0 => p == 0
    case 1 => p == left
    case 2 => p == up
    case 3 => 2 * p <= left + up < 2 * p + 2
    case 4 =>
      && (p == left || p == up || p == upLeft)
      && Abs(target - p) <= Abs(target - left) && Abs(target - p) <= Abs(target - up)
      && Abs(target - p) <= Abs(target - upLeft)
      && (p != left ==> Abs(target - p) < Abs(target - left))
      && (p != left && p != up ==> Abs(target - p) < Abs(target - up))
    case _ => false
  }

  /** The coded byte is the byte less what the filter predicts, modulo 256. */
  predicate Codes(coded: int, byte: int, filter: nat, left: int, up: int, upLeft: int) {
    || Predicts(filter, left, up, upLeft, byte - coded)
    || Predicts(filter, left, up, upLeft, byte - coded + 256)
  }

  lemma PredictionIs(filter: nat, left: Byte, up: Byte, upLeft: Byte)
    requires filter <= 4
    ensures Predicts(filter, left, up, upLeft, Prediction(filter, left, up, upLeft))
  {
    PaethIsNearest(left, up, upLeft);
  }

  lemma FilteredByteIs(filter: nat, row: seq<Byte>, prior: seq<Byte>, channels: nat, i: nat)
    requires filter <= 4 && i < |row| == |prior| && channels > 0
    ensures Codes(FilteredRow(filter, row, prior, channels)[i], row[i], filter,
                  Back(row, i, channels), prior[i], Back(prior, i, channels))
  {
    PredictionIs(filter, Back(row, i, channels), prior[i], Back(prior, i, channels));
    hide Predicts, Prediction, Back;
  }

  lemma {:induction false} RowAt(filters: seq<nat>, rows: seq<seq<Byte>>, stride: nat, channels: nat, y: nat)
    requires IsImage(filters, rows, stride) && channels > 0 && y < |rows|
    ensures |filters| == |rows| && |rows[y]| == stride == |Prior(rows, y, stride)| && filters[y] <= 4
    ensures var data, at := Encoded(filters, rows, stride, channels), Area(y, stride + 1);
            && at + 1 + stride <= |data|
            && data[at] == filters[y]
            && data[at + 1..at + 1 + stride] == FilteredRow(filters[y], rows[y], Prior(rows, y, stride), channels)
    decreases |rows|
  {
    var n, data := |rows| - 1, Encoded(filters, rows, stride, channels);
    LastRowEncoded(filters, rows, stride, channels);
    AboveLast(filters, rows, stride);
    EncodedLength(filters[..n], rows[..n], stride, channels);
    RowFits(y, |rows|, stride + 1);
    hide FilteredRow, Encoded, IsImage;
    if y < n {
      RowAt(filters[..n], rows[..n], stride, channels, y);
      assert Prior(rows[..n], y, stride) == Prior(rows, y, stride);
      assert data[..n * (stride + 1)][Area(y, stride + 1)] == data[Area(y, stride + 1)];
    }
  }

  /**
   Every byte of the encoding: row `y` begins with its filter type, and byte `i` of it
   codes byte `i` of the picture's row by what section 9.2 has that type predict.
   */
  lemma EncodedByteIs(filters: seq<nat>, rows: seq<seq<Byte>>, stride: nat, channels: nat, y: nat, i: nat)
    requires IsImage(filters, rows, stride) && channels > 0 && y < |rows| && i < stride
    ensures var data, at := Encoded(filters, rows, stride, channels), Area(y, stride + 1);
            var left := if i < channels then 0 else rows[y][i - channels] as int;
            var up := if y == 0 then 0 else rows[y - 1][i] as int;
            var upLeft := if y == 0 || i < channels then 0 else rows[y - 1][i - channels] as int;
            && at + 1 + i < |data| && data[at] == filters[y]
            && Codes(data[at + 1 + i], rows[y][i], filters[y], left, up, upLeft)
  {
    RowAt(filters, rows, stride, channels, y);
    FilteredByteIs(filters[y], rows[y], Prior(rows, y, stride), channels, i);
    hide Encoded, FilteredRow, Codes, Area;
    var data, at := Encoded(filters, rows, stride, channels), Area(y, stride + 1);
    assert data[at + 1..at + 1 + stride][i] == data[at + 1 + i];
  }

  /** Filtered rows are the filtered form of one picture only. */
  lemma PictureIsUnique(pixels: seq<Byte>, filters: seq<nat>, rows: seq<seq<Byte>>, stride: nat, channels: nat)
    requires IsImage(filters, rows, stride) && channels > 0
    requires IsPicture(pixels, Encoded(filters, rows, stride, channels), |rows|, stride, channels)
    ensures pixels == Flat(rows)
  {
    var data := Encoded(filters, rows, stride, channels);
    EncodedLength(filters, rows, stride, channels);
    hide Encoded, Flat;
    var filters', rows' :| Depicts(pixels, data, |rows|, filters', rows', stride, channels);
    assert data[..|data|] == data;
    FilteringIsInjective(filters, rows, filters', rows', stride, channels);
  }

  /**
   Reconstruction undoes filtering: whatever the image and whichever filter each row was
   given, the loop run on the filtered bytes returns the original ones.
   */
  method UndoFiltering(filters: seq<nat>, rows: seq<seq<Byte>>, stride: nat, channels: nat)
    returns (pixels: array<Byte>)
    requires IsImage(filters, rows, stride) && channels > 0
    ensures pixels[..] == Flat(rows)
  {
    var data := Encoded(filters, rows, stride, channels);
    EncodedLength(filters, rows, stride, channels);
    hide FilteredRow, Encoded, Flat;
    var r := Reconstruct(data, |rows|, stride, channels);
    if r.Err? {
      FilterByteAt(filters, rows, stride, channels, r.error.row);
      assert false;
    }
    PictureIsUnique(r.value[..], filters, rows, stride, channels);
    return r.value;
  }
}
