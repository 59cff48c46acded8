/** The write of one output file (producer.cpp, lines 92-104): the
    window-sized buffer is written `fileSize / window` times, then the first
    `fileSize % window` bytes of it once more when that remainder is not
    zero. The file is an in-memory byte sequence that each write appends to. */
module Chunking {

  type Byte = bv8

  /** `buf` written `n` times, one copy after the other. */
  function Repeat(buf: seq<Byte>, n: nat): (r: seq<Byte>)
    ensures |r| == n * |buf|
  {
    if n == 0 then [] else Repeat(buf, n - 1) + buf
  }

  /** One or more copies of `buf` start with a whole copy of it. */
  lemma {:induction false} RepeatStartsWithBuffer(buf: seq<Byte>, n: nat)
    requires n >= 1
    ensures Repeat(buf, n)[..|buf|] == buf
  {
    if n > 1 {
      RepeatStartsWithBuffer(buf, n - 1);
      assert |Repeat(buf, n - 1)| >= |buf| by { MulAtLeast(n - 1, |buf|); }
    }
  }

  /** The bytes of one produced file: the whole buffer once per full write,
      followed by the prefix of the buffer that the extra write copies. The
      file is exactly `fileSize` bytes long, and a file at least one window
      long starts with the whole buffer. */
  function FileImage(buf: seq<Byte>, fileSize: nat): (r: seq<Byte>)
    requires |buf| > 0
    ensures |r| == fileSize
    ensures fileSize >= |buf| ==> r[..|buf|] == buf
  {
    var w := |buf|;
    assert fileSize == (fileSize / w) * w + fileSize % w;
    if fileSize >= w then
      assert fileSize / w >= 1;
      RepeatStartsWithBuffer(buf, fileSize / w);
      assert |Repeat(buf, fileSize / w)| >= w by { MulAtLeast(fileSize / w, w); }
      Repeat(buf, fileSize / w) + buf[..fileSize % w]
    else
      Repeat(buf, fileSize / w) + buf[..fileSize % w]
  }

  /** The lengths of the write calls issued for one file, in order. Every
      write is of at least one byte and at most a window, so it reads
      within the buffer. */
  function WritePlan(fileSize: nat, window: nat): (r: seq<nat>)
    requires window > 0
    ensures forall k :: 0 <= k < |r| ==> 0 < r[k] <= window
  {
    seq(fileSize / window, _ => window)
      + (if fileSize % window != 0 then [fileSize % window] else [])
  }

  /** Total number of bytes of a sequence of writes. */
  function Sum(writes: seq<nat>): nat
  {
    if writes == [] then 0 else Sum(writes[..|writes| - 1]) + writes[|writes| - 1]
  }

  /** Division of `k` by `w` when `k` is known to lie in the `q`-th window. */
  lemma WindowOf(k: int, q: int, w: int)
    requires w > 0 && q * w <= k < q * w + w
    ensures k / w == q && k % w == k - q * w
  {
    var d, m := k / w, k % w;
    assert k == d * w + m && 0 <= m < w;
    if d < q {
      assert (q - d) * w >= w by { MulAtLeast(q - d, w); }
      assert false;
    } else if d > q {
      assert (d - q) * w >= w by { MulAtLeast(d - q, w); }
      assert false;
    }
  }

  lemma MulAtLeast(a: int, w: int)
    requires a >= 1 && w >= 0
    ensures a * w >= w
  {
  }

  /** Byte `k` of `Repeat(buf, n)` is the byte at the same offset within its window. */
  lemma {:induction false} RepeatAt(buf: seq<Byte>, n: nat, k: nat)
    requires k < n * |buf|
    ensures Repeat(buf, n)[k] == buf[k % |buf|]
  {
    var w := |buf|;
    if k < (n - 1) * w {
      RepeatAt(buf, n - 1, k);
    } else {
      WindowOf(k, n - 1, w);
    }
  }

  /** An independent description of a produced file: byte `k` is the
      buffer's byte at offset `k % window`, for every offset of the file. */
  lemma FileImageCyclic(buf: seq<Byte>, fileSize: nat)
    requires |buf| > 0
    ensures |FileImage(buf, fileSize)| == fileSize
    ensures forall k :: 0 <= k < fileSize ==> FileImage(buf, fileSize)[k] == buf[k % |buf|]
  {
    var w, q, r := |buf|, fileSize / |buf|, fileSize % |buf|;
    forall k | 0 <= k < fileSize
      ensures FileImage(buf, fileSize)[k] == buf[k % w]
    {
      if k < q * w {
        RepeatAt(buf, q, k);
      } else {
        WindowOf(k, q, w);
      }
    }
  }

  /** `n` writes of `w` bytes each write `n * w` bytes. */
  lemma {:induction false} SumFull(n: nat, w: nat)
    ensures Sum(seq(n, _ => w)) == n * w
  {
    if n > 0 {
      assert seq(n, _ => w)[..n - 1] == seq(n - 1, _ => w);
      SumFull(n - 1, w);
    }
  }

  /** The writes issued for one file add up to exactly `fileSize` bytes. */
  lemma WritePlanTotal(fileSize: nat, window: nat)
    requires window > 0
    ensures Sum(WritePlan(fileSize, window)) == fileSize
  {
    var q, r := fileSize / window, fileSize % window;
    var plan := WritePlan(fileSize, window);
    SumFull(q, window);
    if r != 0 {
      assert plan[..|plan| - 1] == seq(q, _ => window);
      assert Sum(plan) == q * window + r;
    } else {
      assert plan == seq(q, _ => window);
    }
    assert fileSize == q * window + r;
  }

  /** Exactly `fileSize / window` full-window writes, then one extra write
      if and only if the remainder is not zero, and that write is exactly
      the remainder long. */
  lemma WritePlanShape(fileSize: nat, window: nat)
    requires window > 0
    ensures |WritePlan(fileSize, window)|
      == fileSize / window + (if fileSize % window != 0 then 1 else 0)
    ensures forall k :: 0 <= k < fileSize / window ==> WritePlan(fileSize, window)[k] == window
    ensures fileSize % window != 0 ==>
      WritePlan(fileSize, window)[fileSize / window] == fileSize % window < window
  {
  }

  /** Writes one file: the loop of full-window writes, then the extra write
      of the remainder. `data` is what the file holds afterwards and
      `writes` the lengths of the write calls issued. The buffer is only
      read. */
  method WriteFile(buffer: array<Byte>, fileSize: nat) returns (data: seq<Byte>, writes: seq<nat>)
    requires buffer.Length > 0
    ensures data == FileImage(buffer[..], fileSize)
    ensures writes == WritePlan(fileSize, buffer.Length)
  {
    var writeOperations := fileSize / buffer.Length;
    var extraWriteSize := fileSize % buffer.Length;
    data, writes := [], [];
    var operation := 0;
    while operation < writeOperations
      invariant 0 <= operation <= writeOperations
      invariant data == Repeat(buffer[..], operation)
      invariant writes == seq(operation, _ => buffer.Length)
    {
      data := data + buffer[..];
      writes := writes + [buffer.Length];
      operation := operation + 1;
    }
    if extraWriteSize != 0 {
      data := data + buffer[..extraWriteSize];
      writes := writes + [extraWriteSize];
    }
  }
}
