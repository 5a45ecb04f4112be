/**
 * The sample ring `ring_buff<T>`: 1024 samples filled once at construction
 * and then served one at a time (`get`) or eight at a time (`get_8`) through
 * an `int` cursor `n`. The element type is a type parameter: nothing here
 * computes with samples, only with indices and the cursor.
 */
module RingBuffer {
  import opened Int32Bits

  /** `size`: the capacity, the power of two 2^10. */
  const Size: int := 1024
  /** The number of samples one `get_8` call copies. */
  const BatchLen: int := 8

  lemma SizeIsPow2()
    ensures Size == Pow2(10)
  {
  }

  /** Reading n as its 32-bit pattern does not change n mod 1024, since 1024 divides 2^32. */
  lemma UnsignedModSize(n: Int32)
    ensures Unsigned(n) % Size == n % Size
  {
    var u := Unsigned(n);
    DivModUnique(u, Size, u / Size, u % Size);
    if n < 0 {
      DivModUnique(n, Size, u / Size - Modulus32 / Size, u % Size);
    }
  }

  /** The index mask of `get`: `n & (size - 1)` is n mod 1024, for every `int` n. */
  lemma AndSizeMinusOne(n: Int32)
    ensures And32(n, Size - 1) == n % Size
  {
    var u := Unsigned(n);
    SizeIsPow2();
    AndLowMask(u, 10, 32);
    assert Unsigned(Size - 1) == Pow2(10) - 1;
    var r := AndBits(u, Unsigned(Size - 1), 32);
    assert r == u % Size;
    UnsignedModSize(n);
    assert And32(n, Size - 1) == Signed(r) == r;
  }

  /** The normalisation of `get_8`: `m & size` is 1024 when bit 10 of m is set, else 0. */
  lemma AndSize(m: Int32)
    requires 0 <= m
    ensures And32(m, Size) == if (m / Size) % 2 == 1 then Size else 0
  {
    SizeIsPow2();
    AndSingleBit(m, 10, 32);
  }

  /** After a batch from a cursor m with m + 8 <= 1024, `n &= size` gives 0, or 1024 when the batch ended exactly at the end. */
  lemma NormaliseAfterBatch(m: Int32)
    requires BatchLen <= m <= Size
    ensures And32(m, Size) == if m == Size then Size else 0
  {
    AndSize(m);
  }

  class RingBuff<T(0)> {
    /** The cursor `n`. */
    var n: Int32
    /** The sample array `values[size]`; the array itself never changes after construction. */
    const values: array<T>

    ghost predicate Valid()
      reads this
    {
      values.Length == Size && 0 <= n
    }

    /**
     * `ring_buff(from, to)`. The samples the random generator would draw are
     * given as `samples`, in the order they are drawn; the array is
     * value-initialised and then filled slot by slot, in index order.
     */
    constructor (samples: seq<T>)
      requires |samples| == Size
      ensures Valid() && fresh(values)
      ensures n == 0
      ensures values[..] == samples
    {
      n := 0;
      values := new T[Size];
      new;
      for i := 0 to Size
        modifies values
        invariant values[..i] == samples[..i]
      {
        values[i] := samples[i];
      }
      assert values[..] == values[..Size];
    }

    /** `get()`: the sample at the masked cursor; the cursor advances by one. */
    method Get() returns (x: T)
      requires Valid()
      requires n < Int32Max
      modifies this
      ensures Valid() && unchanged(values)
      ensures x == values[old(n) % Size]
      ensures n == old(n) + 1
    {
      var tmp := n;
      n := n + 1;
      AndSizeMinusOne(tmp);
      x := values[And32(tmp, Size - 1)];
    }

    /** The eight unmasked copies `*(ptr+k) = values[n++]` that begin `get_8`. */
    method CopyBatch(ptr: array<T>)
      requires Valid()
      requires 0 <= n && n + BatchLen <= Size
      requires BatchLen <= ptr.Length && ptr != values
      modifies this, ptr
      ensures Valid() && unchanged(values)
      ensures ptr[..BatchLen] == values[old(n)..old(n) + BatchLen]
      ensures ptr[BatchLen..] == old(ptr[BatchLen..])
      ensures n == old(n) + BatchLen
    {
      ptr[0] := values[n];  n := n + 1;
      ptr[1] := values[n];  n := n + 1;
      ptr[2] := values[n];  n := n + 1;
      ptr[3] := values[n];  n := n + 1;
      ptr[4] := values[n];  n := n + 1;
      ptr[5] := values[n];  n := n + 1;
      ptr[6] := values[n];  n := n + 1;
      ptr[7] := values[n];  n := n + 1;
    }

    /**
     * `get_8(ptr)`: eight consecutive samples from the unmasked cursor into
     * ptr[0..8], then `n &= size`. Callers may use only `get_8` on a ring, so
     * the eight reads stay inside the array.
     */
    method Get8(ptr: array<T>)
      requires Valid()
      requires 0 <= n && n + BatchLen <= Size
      requires BatchLen <= ptr.Length && ptr != values
      modifies this, ptr
      ensures Valid() && unchanged(values)
      ensures ptr[..BatchLen] == values[old(n)..old(n) + BatchLen]
      ensures ptr[BatchLen..] == old(ptr[BatchLen..])
      ensures n == And32(old(n) + BatchLen, Size)
      ensures n == if old(n) + BatchLen == Size then Size else 0
    {
      CopyBatch(ptr);
      NormaliseAfterBatch(n);
      n := And32(n, Size);
    }

    /** `get_8` with the normalisation `n &= size - 1`: the cursor advances by 8 modulo 1024. */
    method Get8Advancing(ptr: array<T>)
      requires Valid()
      requires 0 <= n && n + BatchLen <= Size
      requires BatchLen <= ptr.Length && ptr != values
      modifies this, ptr
      ensures Valid() && unchanged(values)
      ensures ptr[..BatchLen] == values[old(n)..old(n) + BatchLen]
      ensures ptr[BatchLen..] == old(ptr[BatchLen..])
      ensures n == (old(n) + BatchLen) % Size
    {
      CopyBatch(ptr);
      AndSizeMinusOne(n);
      n := And32(n, Size - 1);
    }
  }

  /**
   * `count` calls of `get()` on a fresh ring, as the single-read benchmark
   * loop makes them: the i-th call returns sample i mod 1024, so the
   * results repeat with period 1024.
   */
  method ReadSingles<T(0)>(samples: seq<T>, count: nat) returns (out: seq<T>)
    requires |samples| == Size && count <= Int32Max
    ensures |out| == count
    ensures forall i :: 0 <= i < count ==> out[i] == samples[i % Size]
    ensures forall i :: 0 <= i < count - Size ==> out[i + Size] == out[i]
  {
    var ring := new RingBuff(samples);
    out := [];
    while |out| < count
      invariant ring.Valid() && ring.values[..] == samples
      invariant ring.n == |out| <= count
      invariant forall i :: 0 <= i < |out| ==> out[i] == samples[i % Size]
    {
      var x := ring.Get();
      out := out + [x];
    }
  }

  /**
   * `k` calls of `get_8` on a fresh ring, as the batch benchmark loops make
   * them, each into a new eight-slot buffer. The cursor is 0 before and after
   * every call, so every batch is samples[0..8].
   */
  method ReadBatches<T(0)>(samples: seq<T>, k: nat) returns (batches: seq<seq<T>>, cursor: int)
    requires |samples| == Size
    ensures |batches| == k
    ensures forall j :: 0 <= j < k ==> batches[j] == samples[..BatchLen]
    ensures cursor == 0
  {
    var ring := new RingBuff(samples);
    batches := [];
    while |batches| < k
      invariant ring.Valid() && ring.values[..] == samples
      invariant ring.n == 0
      invariant |batches| <= k
      invariant forall j :: 0 <= j < |batches| ==> batches[j] == samples[..BatchLen]
    {
      var tmp := new T[BatchLen];
      ring.Get8(tmp);
      batches := batches + [tmp[..]];
    }
    cursor := ring.n;
  }

  /**
   * `k` calls of `Get8Advancing` on a fresh ring: batch j is the eight
   * samples from position 8j mod 1024, so the batches walk the whole array.
   */
  method ReadBatchesAdvancing<T(0)>(samples: seq<T>, k: nat) returns (batches: seq<seq<T>>, cursor: int)
    requires |samples| == Size
    ensures |batches| == k
    ensures forall j :: 0 <= j < k ==>
      batches[j] == samples[(BatchLen * j) % Size..(BatchLen * j) % Size + BatchLen]
    ensures cursor == (BatchLen * k) % Size
  {
    var ring := new RingBuff(samples);
    batches := [];
    while |batches| < k
      invariant ring.Valid() && ring.values[..] == samples
      invariant ring.n == (BatchLen * |batches|) % Size
      invariant |batches| <= k
      invariant forall j :: 0 <= j < |batches| ==>
        batches[j] == samples[(BatchLen * j) % Size..(BatchLen * j) % Size + BatchLen]
    {
      var tmp := new T[BatchLen];
      ring.Get8Advancing(tmp);
      batches := batches + [tmp[..]];
    }
    cursor := ring.n;
  }
}
