/**
 The dense layer and the convolution of the runtime, over reals. Weights and biases come from a
 hash in the source; here they are arbitrary functions of the same indices.
 */
module Tensors {
  import opened Division

  /** Row-major cells. */
  class Tensor {
    const rows: nat
    const cols: nat
    const data: array<real>

    constructor (rows: nat, cols: nat)
      ensures this.rows == rows && this.cols == cols && Valid() && fresh(data)
    {
      this.rows, this.cols := rows, cols;
      data := new real[rows * cols];
    }

    predicate Valid() {
      data.Length == rows * cols
    }

    ghost function At(row: int, col: int): real
      requires Valid() && 0 <= row < rows && 0 <= col < cols
      reads data
    {
      CellInBounds(row, col, rows, cols);
      data[row * cols + col]
    }
  }

  lemma CellInBounds(row: int, col: int, rows: int, cols: int)
    requires 0 <= row < rows && 0 <= col < cols
    ensures 0 <= row * cols <= row * cols + col < rows * cols
  {
    MulSub(rows, row, cols);
    MulAtLeast(rows - row, cols);
    if row > 0 {
      MulAtLeast(row, cols);
    }
  }

  /** A cell of `width` columns is found again from its offset. */
  lemma CellOffset(row: int, col: int, width: int)
    requires 0 <= row && 0 <= col < width
    ensures (row * width + col) / width == row && (row * width + col) % width == col
  {
    DivisionUnique(row * width + col, row, col, width);
  }

  lemma RowEnds(row: int, width: int)
    ensures (row + 1) * width == row * width + width
  {
  }

  // ----- what a cell should be

  /** The direct sum over the first `k` products of one input row and one weight column. */
  function Dot(data: seq<real>, offset: nat, col: int, weight: (int, int) -> real, k: nat): real
    requires offset + k <= |data|
  {
    if k == 0 then 0.0 else
    Dot(data, offset, col, weight, k - 1) + data[offset + (k - 1)] * weight(k - 1, col)
  }

  function Relu(x: real): real {
    if x > 0.0 then x else 0.0
  }

  function DenseCell(data: seq<real>, rows: nat, cols: nat, bias: int -> real, weight: (int, int) -> real,
                     row: nat, col: int): real
    requires |data| == rows * cols && row < rows
  {
    RowInBounds(row, rows, cols);
    Relu(bias(col) + Dot(data, row * cols, col, weight, cols))
  }

  lemma RowInBounds(row: nat, rows: nat, cols: nat)
    requires row < rows
    ensures 0 <= row * cols && row * cols + cols <= rows * cols
  {
    MulSub(rows, row, cols);
    RowEnds(row, cols);
    if cols > 0 {
      MulAtLeast(rows - row, cols);
      if row > 0 {
        MulAtLeast(row, cols);
      }
    } else {
      assert row * cols == 0 && rows * cols == 0;
    }
  }

  /** The products of one kernel row with the cells under it. */
  function KernelRow(data: seq<real>, offset: nat, ky: int, weight: (int, int) -> real, k: nat): real
    requires offset + k <= |data|
  {
    if k == 0 then 0.0 else
    KernelRow(data, offset, ky, weight, k - 1) + data[offset + (k - 1)] * weight(ky, k - 1)
  }

  /** The window of size `k` at `(y, x)` fits in the tensor. */
  predicate WindowFits(data: seq<real>, rows: nat, cols: nat, y: nat, x: nat, k: nat) {
    |data| == rows * cols && y + k <= rows && x + k <= cols
  }

  lemma WindowRowInBounds(rows: nat, cols: nat, y: nat, x: nat, k: nat, ky: nat)
    requires ky < k && y + k <= rows && x + k <= cols
    ensures 0 <= (y + ky) * cols + x && (y + ky) * cols + x + k <= rows * cols
  {
    RowInBounds(y + ky, rows, cols);
  }

  /** The direct double sum over the first `n` kernel rows. */
  function WindowSum(data: seq<real>, rows: nat, cols: nat, y: nat, x: nat, weight: (int, int) -> real,
                     k: nat, n: nat): real
    requires WindowFits(data, rows, cols, y, x, k) && n <= k
    decreases n
  {
    if n == 0 then 0.0 else
    WindowRowInBounds(rows, cols, y, x, k, n - 1);
    WindowSum(data, rows, cols, y, x, weight, k, n - 1)
    + KernelRow(data, (y + (n - 1)) * cols + x, n - 1, weight, k)
  }

  // ----- the kernels

  method DenseRow(input: Tensor, row: nat, col: int, bias: int -> real, weight: (int, int) -> real)
    returns (acc: real)
    requires input.Valid() && row < input.rows
    ensures Relu(acc) == DenseCell(input.data[..], input.rows, input.cols, bias, weight, row, col)
  {
    RowInBounds(row, input.rows, input.cols);
    acc := bias(col);
    ghost var data := input.data[..];
    for inner := 0 to input.cols
      invariant data == input.data[..]
      invariant acc == bias(col) + Dot(data, row * input.cols, col, weight, inner)
    {
      CellInBounds(row, inner, input.rows, input.cols);
      acc := acc + input.data[row * input.cols + inner] * weight(inner, col);
    }
  }

  /** The offsets `0` to `n - 1`, each once and in this order. */
  ghost predicate EachOnce(writes: seq<int>, n: int) {
    |writes| == n && forall k | 0 <= k < n :: writes[k] == k
  }

  /** `agam_dense_layer`; `writes` lists the offsets written, as they are written. */
  method DenseLayer(input: Tensor?, outFeatures: int, bias: int -> real, weight: (int, int) -> real)
    returns (output: Tensor?, ghost writes: seq<int>)
    requires input != null ==> input.Valid()
    ensures output == null <==> input == null || outFeatures <= 0
    ensures output != null ==> fresh(output) && output.Valid()
                               && output.rows == input.rows && output.cols == outFeatures
    ensures output != null ==> forall row, col | 0 <= row < input.rows && 0 <= col < outFeatures ::
              output.At(row, col) == DenseCell(input.data[..], input.rows, input.cols, bias, weight, row, col)
    ensures output != null ==> EachOnce(writes, input.rows * outFeatures)
  {
    writes := [];
    if input == null || outFeatures <= 0 {
      return null, writes;
    }
    var result := new Tensor(input.rows, outFeatures);
    ghost var data := input.data[..];
    ghost var cell := (row: int, col: int) =>
      if 0 <= row < input.rows then DenseCell(data, input.rows, input.cols, bias, weight, row, col) else 0.0;
    for row := 0 to input.rows
      invariant data == input.data[..] && fresh(result.data)
      invariant Written(result.data[..], cell, outFeatures, row * outFeatures)
      invariant EachOnce(writes, row * outFeatures)
    {
      for col := 0 to outFeatures
        invariant data == input.data[..] && fresh(result.data)
        invariant 0 <= row * outFeatures && row * outFeatures + col <= result.data.Length
        invariant Written(result.data[..], cell, outFeatures, row * outFeatures + col)
        invariant EachOnce(writes, row * outFeatures + col)
      {
        CellInBounds(row, col, input.rows, outFeatures);
        var acc := DenseRow(input, row, col, bias, weight);
        ghost var before := result.data[..];
        result.data[row * outFeatures + col] := if acc > 0.0 then acc else 0.0;
        writes := writes + [row * outFeatures + col];
        WriteNext(before, cell, outFeatures, row, col, result.data[row * outFeatures + col]);
        assert result.data[..] == before[row * outFeatures + col := result.data[row * outFeatures + col]];
      }
      RowEnds(row, outFeatures);
    }
    output := result;
    AllWritten(result, cell);
  }

  /** The first `n` cells hold their values, the cell at offset `k` being `(k / width, k % width)`. */
  ghost predicate Written(cells: seq<real>, cell: (int, int) -> real, width: int, n: int)
    requires 0 < width
  {
    0 <= n <= |cells| && forall k | 0 <= k < n :: cells[k] == cell(k / width, k % width)
  }

  lemma WriteNext(cells: seq<real>, cell: (int, int) -> real, width: int, row: int, col: int, value: real)
    requires 0 <= row && 0 <= col < width && 0 <= row * width + col < |cells|
    requires Written(cells, cell, width, row * width + col) && value == cell(row, col)
    ensures Written(cells[row * width + col := value], cell, width, row * width + (col + 1))
  {
    CellOffset(row, col, width);
  }

  lemma AllWritten(output: Tensor, cell: (int, int) -> real)
    requires output.Valid() && 0 < output.cols
    requires Written(output.data[..], cell, output.cols, output.rows * output.cols)
    ensures forall row, col | 0 <= row < output.rows && 0 <= col < output.cols :: output.At(row, col) == cell(row, col)
  {
    forall row, col | 0 <= row < output.rows && 0 <= col < output.cols
      ensures output.At(row, col) == cell(row, col)
    {
      CellInBounds(row, col, output.rows, output.cols);
      CellOffset(row, col, output.cols);
    }
  }

  method ConvolveWindow(input: Tensor, y: nat, x: nat, k: nat, weight: (int, int) -> real) returns (acc: real)
    requires input.Valid() && WindowFits(input.data[..], input.rows, input.cols, y, x, k)
    ensures acc == WindowSum(input.data[..], input.rows, input.cols, y, x, weight, k, k)
  {
    acc := 0.0;
    ghost var data := input.data[..];
    for ky := 0 to k
      invariant data == input.data[..] && acc == WindowSum(data, input.rows, input.cols, y, x, weight, k, ky)
    {
      WindowRowInBounds(input.rows, input.cols, y, x, k, ky);
      ghost var offset := (y + ky) * input.cols + x;
      ghost var before := acc;
      for kx := 0 to k
        invariant data == input.data[..] && acc == before + KernelRow(data, offset, ky, weight, kx)
      {
        var kernel := weight(ky, kx);
        var value := input.data[(y + ky) * input.cols + (x + kx)];
        acc := acc + value * kernel;
      }
    }
  }

  /** `agam_conv2d`: no result when the kernel does not fit; `writes` as for the dense layer. */
  method Conv2d(input: Tensor?, kernelSize: int, weight: (int, int) -> real)
    returns (output: Tensor?, ghost writes: seq<int>)
    requires input != null ==> input.Valid()
    ensures output == null
            <==> input == null || kernelSize <= 0 || input.rows < kernelSize || input.cols < kernelSize
    ensures output != null ==> fresh(output) && output.Valid()
                               && output.rows == input.rows - kernelSize + 1
                               && output.cols == input.cols - kernelSize + 1
    ensures output != null ==> forall y, x | 0 <= y < output.rows && 0 <= x < output.cols ::
              output.At(y, x) == WindowSum(input.data[..], input.rows, input.cols, y, x, weight, kernelSize, kernelSize)
    ensures output != null ==> EachOnce(writes, output.rows * output.cols)
  {
    writes := [];
    if input == null || kernelSize <= 0 || input.rows < kernelSize || input.cols < kernelSize {
      return null, writes;
    }
    var outRows, outCols := input.rows - kernelSize + 1, input.cols - kernelSize + 1;
    var result := new Tensor(outRows, outCols);
    ghost var data := input.data[..];
    ghost var cell := (y: int, x: int) =>
      if 0 <= y < outRows && 0 <= x < outCols
      then WindowSum(data, input.rows, input.cols, y, x, weight, kernelSize, kernelSize) else 0.0;
    for y := 0 to outRows
      invariant data == input.data[..] && fresh(result.data)
      invariant Written(result.data[..], cell, outCols, y * outCols)
      invariant EachOnce(writes, y * outCols)
    {
      for x := 0 to outCols
        invariant data == input.data[..] && fresh(result.data)
        invariant 0 <= y * outCols && y * outCols + x <= result.data.Length
        invariant Written(result.data[..], cell, outCols, y * outCols + x)
        invariant EachOnce(writes, y * outCols + x)
      {
        CellInBounds(y, x, outRows, outCols);
        var acc := ConvolveWindow(input, y, x, kernelSize, weight);
        ghost var before := result.data[..];
        result.data[y * outCols + x] := acc;
        writes := writes + [y * outCols + x];
        WriteNext(before, cell, outCols, y, x, acc);
        assert result.data[..] == before[y * outCols + x := acc];
      }
      RowEnds(y, outCols);
    }
    output := result;
    AllWritten(result, cell);
  }

  // ----- what the cells mean

  /** `scale * a + b`, cell by cell. */
  function Blend(scale: real, a: seq<real>, b: seq<real>): (r: seq<real>)
    requires |a| == |b|
    ensures |r| == |a|
  {
    seq(|a|, i requires 0 <= i < |a| => scale * a[i] + b[i])
  }

  lemma Distribute(scale: real, a: real, b: real, w: real)
    ensures (scale * a + b) * w == scale * (a * w) + b * w
  {
  }

  lemma ScaleSum(scale: real, p: real, q: real)
    ensures scale * (p + q) == scale * p + scale * q
  {
  }

  lemma {:induction false} KernelRowLinear(scale: real, a: seq<real>, b: seq<real>, offset: nat, ky: int,
                                           weight: (int, int) -> real, k: nat)
    requires |a| == |b| && offset + k <= |a|
    ensures KernelRow(Blend(scale, a, b), offset, ky, weight, k)
         == scale * KernelRow(a, offset, ky, weight, k) + KernelRow(b, offset, ky, weight, k)
  {
    if k > 0 {
      KernelRowLinear(scale, a, b, offset, ky, weight, k - 1);
      var w := weight(ky, k - 1);
      Distribute(scale, a[offset + (k - 1)], b[offset + (k - 1)], w);
      ScaleSum(scale, KernelRow(a, offset, ky, weight, k - 1), a[offset + (k - 1)] * w);
    }
  }

  /** Convolution is linear in its input. */
  lemma {:induction false} ConvolutionLinear(scale: real, a: seq<real>, b: seq<real>, rows: nat, cols: nat,
                                             y: nat, x: nat, weight: (int, int) -> real, k: nat, n: nat)
    requires |a| == |b| && WindowFits(a, rows, cols, y, x, k) && n <= k
    ensures WindowSum(Blend(scale, a, b), rows, cols, y, x, weight, k, n)
         == scale * WindowSum(a, rows, cols, y, x, weight, k, n) + WindowSum(b, rows, cols, y, x, weight, k, n)
  {
    hide KernelRow, Blend;
    if n > 0 {
      WindowRowInBounds(rows, cols, y, x, k, n - 1);
      var offset := (y + (n - 1)) * cols + x;
      var sum, row := WindowSum(a, rows, cols, y, x, weight, k, n - 1), KernelRow(a, offset, n - 1, weight, k);
      ConvolutionLinear(scale, a, b, rows, cols, y, x, weight, k, n - 1);
      KernelRowLinear(scale, a, b, offset, n - 1, weight, k);
      ScaleSum(scale, sum, row);
    }
  }

  /** All cells are zero but the one at offset `p`. */
  ghost predicate Impulse(data: seq<real>, p: nat) {
    p < |data| && forall i | 0 <= i < |data| && i != p :: data[i] == 0.0
  }

  lemma {:induction false} KernelRowImpulse(data: seq<real>, p: nat, offset: nat, ky: int,
                                            weight: (int, int) -> real, k: nat)
    requires Impulse(data, p) && offset + k <= |data|
    ensures KernelRow(data, offset, ky, weight, k)
         == if offset <= p < offset + k then data[p] * weight(ky, p - offset) else 0.0
  {
    if k > 0 {
      KernelRowImpulse(data, p, offset, ky, weight, k - 1);
    }
  }

  /** A window row covers the cell `(row, col)` exactly when it is in that row and the column is inside. */
  lemma RowCovers(cols: nat, row: nat, col: nat, at: nat, x: nat, k: nat)
    requires col < cols && x + k <= cols
    ensures at * cols + x <= row * cols + col < at * cols + x + k <==> at == row && x <= col < x + k
  {
    if at * cols + x <= row * cols + col < at * cols + x + k {
      CellOffset(row, col, cols);
      CellOffset(at, row * cols + col - at * cols, cols);
    }
  }

  /** A single cell that is not zero answers with the kernel around it. By linearity this fixes the operation. */
  lemma {:induction false} ImpulseResponse(data: seq<real>, rows: nat, cols: nat, row: nat, col: nat,
                                           y: nat, x: nat, weight: (int, int) -> real, k: nat, n: nat)
    requires WindowFits(data, rows, cols, y, x, k) && n <= k
    requires row < rows && col < cols && 0 <= row * cols + col && Impulse(data, row * cols + col)
    ensures WindowSum(data, rows, cols, y, x, weight, k, n)
         == if y <= row < y + n && x <= col < x + k
            then data[row * cols + col] * weight(row - y, col - x) else 0.0
  {
    if n > 0 {
      ImpulseResponse(data, rows, cols, row, col, y, x, weight, k, n - 1);
      WindowRowInBounds(rows, cols, y, x, k, n - 1);
      KernelRowImpulse(data, row * cols + col, (y + (n - 1)) * cols + x, n - 1, weight, k);
      RowCovers(cols, row, col, y + (n - 1), x, k);
      hide KernelRow, Impulse;
    }
  }

  lemma {:induction false} DotLinear(scale: real, a: seq<real>, b: seq<real>, offset: nat, col: int,
                                     weight: (int, int) -> real, k: nat)
    requires |a| == |b| && offset + k <= |a|
    ensures Dot(Blend(scale, a, b), offset, col, weight, k)
         == scale * Dot(a, offset, col, weight, k) + Dot(b, offset, col, weight, k)
  {
    if k > 0 {
      DotLinear(scale, a, b, offset, col, weight, k - 1);
      var w := weight(k - 1, col);
      Distribute(scale, a[offset + (k - 1)], b[offset + (k - 1)], w);
      ScaleSum(scale, Dot(a, offset, col, weight, k - 1), a[offset + (k - 1)] * w);
    }
  }

  lemma {:induction false} DotImpulse(data: seq<real>, p: nat, offset: nat, col: int,
                                      weight: (int, int) -> real, k: nat)
    requires Impulse(data, p) && offset + k <= |data|
    ensures Dot(data, offset, col, weight, k)
         == if offset <= p < offset + k then data[p] * weight(p - offset, col) else 0.0
  {
    if k > 0 {
      DotImpulse(data, p, offset, col, weight, k - 1);
    }
  }

  /** A single input that is not zero reaches the cells of its row, through its weight and past the bias. */
  lemma DenseImpulse(data: seq<real>, rows: nat, cols: nat, r: nat, c: nat, bias: int -> real,
                     weight: (int, int) -> real, row: nat, col: int)
    requires |data| == rows * cols && row < rows && c < cols
    requires 0 <= r * cols + c && Impulse(data, r * cols + c)
    ensures var sum := bias(col) + if r == row then data[r * cols + c] * weight(c, col) else 0.0;
            DenseCell(data, rows, cols, bias, weight, row, col) == if sum > 0.0 then sum else 0.0
  {
    RowInBounds(row, rows, cols);
    DotImpulse(data, r * cols + c, row * cols, col, weight, cols);
    RowCovers(cols, r, c, row, 0, cols);
    hide Dot, Impulse;
  }

  /** The two windows hold the same cells. */
  ghost predicate SameWindow(a: seq<real>, b: seq<real>, rows: nat, cols: nat, y: nat, x: nat, y': nat, x': nat, k: nat)
    requires WindowFits(a, rows, cols, y, x, k) && WindowFits(b, rows, cols, y', x', k)
  {
    forall ky | 0 <= ky < k ::
      WindowRow(a, rows, cols, y, x, k, ky) == WindowRow(b, rows, cols, y', x', k, ky)
  }

  function WindowRow(a: seq<real>, rows: nat, cols: nat, y: nat, x: nat, k: nat, ky: nat): seq<real>
    requires WindowFits(a, rows, cols, y, x, k) && ky < k
  {
    WindowRowInBounds(rows, cols, y, x, k, ky);
    a[(y + ky) * cols + x..(y + ky) * cols + x + k]
  }

  lemma {:induction false} KernelRowLocal(a: seq<real>, b: seq<real>, offset: nat, offset': nat, ky: int,
                                          weight: (int, int) -> real, k: nat)
    requires offset + k <= |a| && offset' + k <= |b|
    requires a[offset..offset + k] == b[offset'..offset' + k]
    ensures KernelRow(a, offset, ky, weight, k) == KernelRow(b, offset', ky, weight, k)
  {
    if k > 0 {
      assert a[offset..offset + k][..k - 1] == a[offset..offset + (k - 1)];
      assert b[offset'..offset' + k][..k - 1] == b[offset'..offset' + (k - 1)];
      KernelRowLocal(a, b, offset, offset', ky, weight, k - 1);
      assert a[offset + (k - 1)] == a[offset..offset + k][k - 1];
      assert b[offset' + (k - 1)] == b[offset'..offset' + k][k - 1];
    }
  }

  /** A cell depends on its window alone, wherever the window lies: moving the input moves the output. */
  lemma {:induction false} ConvolutionLocal(a: seq<real>, b: seq<real>, rows: nat, cols: nat, y: nat, x: nat,
                                            y': nat, x': nat, weight: (int, int) -> real, k: nat, n: nat)
    requires WindowFits(a, rows, cols, y, x, k) && WindowFits(b, rows, cols, y', x', k) && n <= k
    requires SameWindow(a, b, rows, cols, y, x, y', x', k)
    ensures WindowSum(a, rows, cols, y, x, weight, k, n) == WindowSum(b, rows, cols, y', x', weight, k, n)
  {
    if n > 0 {
      ConvolutionLocal(a, b, rows, cols, y, x, y', x', weight, k, n - 1);
      WindowRowLocal(a, b, rows, cols, y, x, y', x', weight, k, n - 1);
      hide KernelRow, SameWindow;
    }
  }

  lemma WindowRowLocal(a: seq<real>, b: seq<real>, rows: nat, cols: nat, y: nat, x: nat,
                       y': nat, x': nat, weight: (int, int) -> real, k: nat, ky: nat)
    requires WindowFits(a, rows, cols, y, x, k) && WindowFits(b, rows, cols, y', x', k) && ky < k
    requires SameWindow(a, b, rows, cols, y, x, y', x', k)
    ensures 0 <= (y + ky) * cols + x && (y + ky) * cols + x + k <= |a|
    ensures 0 <= (y' + ky) * cols + x' && (y' + ky) * cols + x' + k <= |b|
    ensures KernelRow(a, (y + ky) * cols + x, ky, weight, k) == KernelRow(b, (y' + ky) * cols + x', ky, weight, k)
  {
    WindowRowInBounds(rows, cols, y, x, k, ky);
    WindowRowInBounds(rows, cols, y', x', k, ky);
    assert WindowRow(a, rows, cols, y, x, k, ky) == WindowRow(b, rows, cols, y', x', k, ky);
    hide KernelRow, SameWindow;
    KernelRowLocal(a, b, (y + ky) * cols + x, (y' + ky) * cols + x', ky, weight, k);
  }
}
