# Sample ring of the float-sign benchmark, in Dafny

The benchmark times several ways of reading the sign of a `float`. It feeds
them from `ring_buff<T>`. This is a ring of 1024 samples, filled once when the
ring is built. It then serves the samples through an `int` cursor `n`, in one
of two ways:

- `get()` returns `values[n & (size - 1)]` and then increments `n`.
- `get_8(ptr)` copies `values[n]`…`values[n+7]` into `ptr[0..8]`, with no mask.
  It then normalises the cursor with `n &= size`.

This project models that class in Dafny and proves what each operation does to
the cursor and to the caller's buffer. It also proves what repeated use from a
fresh ring yields.

- `int32_bits.dfy` (module `Int32Bits`) models C++ `int` as the subset type
  `Int32`, and `&` as `And32`: AND bit by bit on the two's-complement
  encoding. Dafny's own `&` works only on bit-vectors. The lemmas give the
  arithmetic meaning of the two masks the ring uses. `x & (2^k - 1)` is
  `x mod 2^k`. `x & 2^k` isolates bit k.
- `ring_buffer.dfy` (module `RingBuffer`) holds the class `RingBuff<T>`. It
  has the cursor `n: Int32` and the sample array `values: array<T>`. The
  methods `Get`, `CopyBatch`, `Get8` and `Get8Advancing` carry `modifies`
  frames; the constructor's fill loop carries one too.
  - `CopyBatch` is the eight copies that begin `get_8`.
  - `Get8Advancing` is the corrected batch read (see Findings).
  - The methods `ReadSingles` and `ReadBatches` drive a fresh ring the way
    the benchmark loops do. `ReadBatchesAdvancing` drives one the same way
    through the corrected `Get8Advancing`; no benchmark loop calls that.
    Their contracts state the whole sequence of results.

The element type `T` is a type parameter. No arithmetic is done on samples.

The constructor draws its samples from `std::random_device`, `std::mt19937_64`
and `std::uniform_real_distribution`. These are not modelled. Instead, the
samples it would draw are passed in as a sequence of 1024 values, in the order
they are drawn. The constructor copies them into the array slot by slot, in
index order, as `std::generate` does.

Three behaviours of the code are easy to miss; this model follows the code
in each:

- The constructor does not check `to <= from`. It reports no construction
  error.
- `get_8` normalises with `n &= size`, not modulo 1024 (see Findings).
- An `int` cursor that overflows is undefined behaviour in C++. `Get`
  therefore requires `n < 2^31 - 1`, rather than modelling wrap-around.

## Model

| member | source | states |
|---|---|---|
| `RingBuffer.RingBuff.constructor` | ring_buffer.hpp:15-24 | the cursor starts at 0; the new array holds exactly the 1024 drawn samples; the body fills each slot once, in index order, as `std::generate` does |
| `RingBuffer.RingBuff.Get` | ring_buffer.hpp:26-30 | returns `values[old_n mod 1024]`; the cursor becomes `old_n + 1`; `values` is unchanged; requires no `int` overflow |
| `RingBuffer.AndSizeMinusOne` | ring_buffer.hpp:29 | `n & (size - 1)` equals `n mod 1024` for every `int` n, negative ones included, so the index of `get` is always in `[0, 1024)` |
| `RingBuffer.UnsignedModSize` | ring_buffer.hpp:29 | taking the 32-bit two's-complement pattern of n does not change n mod 1024 |
| `RingBuffer.SizeIsPow2` | ring_buffer.hpp:49 | `size` is the power of two 2^10 |
| `Int32Bits.And32` | ring_buffer.hpp:29 | C++ `&` on two `int`s (also `n &= size` at line 44): the AND of the two 32-bit two's-complement patterns, read back as an `int`; with a non-negative mask the result lies between 0 and the mask. `RingBuffer.AndSizeMinusOne` and `RingBuffer.AndSize` give its exact meaning for the two masks the ring uses |
| `Int32Bits.AndBits` | ring_buffer.hpp:29 | bitwise AND of w bits is below 2^w and no larger than the mask operand |
| `Int32Bits.AndLowMask` | ring_buffer.hpp:29 | AND with `2^k - 1` is the remainder mod `2^k`, shown by induction over the bits |
| `Int32Bits.AndSingleBit` | ring_buffer.hpp:44 | AND with `2^k` is `2^k` when bit k is set and 0 otherwise, shown by induction over the bits |
| `Int32Bits.Unsigned` | ring_buffer.hpp:48 | the 32-bit pattern of an `int`: n itself when n is non-negative, `n + 2^32` when it is negative |
| `Int32Bits.Signed` | ring_buffer.hpp:48 | reading a 32-bit pattern back as an `int` inverts `Unsigned` |
| `RingBuffer.RingBuff.CopyBatch` | ring_buffer.hpp:35-42 | `ptr[k] == values[old_n + k]` for k = 0..7, every other slot of `ptr` unchanged, the cursor at `old_n + 8`; requires `0 <= n` and `n + 8 <= 1024` |
| `RingBuffer.AndSize` | ring_buffer.hpp:44 | `m & size` is 1024 when bit 10 of m is set and 0 otherwise |
| `RingBuffer.NormaliseAfterBatch` | ring_buffer.hpp:44 | for a cursor m between 8 and 1024, `m & size` is 0, or 1024 when m is exactly 1024 |
| `RingBuffer.RingBuff.Get8` | ring_buffer.hpp:32-45 | the eight copies of `CopyBatch`, then the cursor is `(old_n + 8) & 1024`: 0, or 1024 when `old_n == 1016`; `values` is unchanged |
| `RingBuffer.ReadSingles` | ring_buffer.hpp:26-30 | from a fresh ring, the i-th `get()` returns sample `i mod 1024`, and call i + 1024 returns the same value as call i |
| `RingBuffer.ReadBatches` | ring_buffer.hpp:34-44 | from a fresh ring used only through `get_8`, the cursor is 0 before and after every call, so every batch is `values[0..8]` |
| `RingBuffer.RingBuff.Get8Advancing` | ring_buffer.hpp:44 | the corrected normalisation `n &= size - 1`: the cursor becomes `(old_n + 8) mod 1024` |
| `RingBuffer.ReadBatchesAdvancing` | ring_buffer.hpp:32-45 | with the corrected normalisation, batch j holds the eight samples from position `8j mod 1024`, and the cursor after k batches is `8k mod 1024` |

## Left out

- Random generation in the constructor (`std::random_device`, `std::mt19937_64`, `std::uniform_real_distribution`, ring_buffer.hpp:17-23): these are nondeterministic library calls. The draws are a parameter instead. Because of this, the `from` and `to` arguments are not modelled, and neither is the claim that every sample lies in `[from, to)`. That claim would need rounding from `double` to `float`.
- `RingBuffer.RingBuff.Get`: does not model signed overflow of `n`. Overflow is undefined behaviour in C++, so the method requires `n < 2^31 - 1`. `ReadSingles` is therefore bounded to `2^31 - 1` calls.
- `RingBuffer.RingBuff.Get8`: requires `0 <= n` and `n + 8 <= 1024`. Mixing `get` and `get_8` on one ring can break this and make the unmasked reads leave the array. The source excludes mixed use in a comment, so that behaviour is not modelled.
- `RingBuffer.RingBuff.Get8`: the caller's pointer is an array of at least eight elements that is not the ring's own storage. In C++, `values` is private, so no caller can pass it.
- The sign-extraction functions (`is_negative_with_branch`, `is_negative_ub`, `is_negative_sb`, `std::signbit`): they rest on floating-point comparison and on reinterpreting a float's bits. They are not part of the ring.
- The Google Benchmark harness (timing loops, `DoNotOptimize`, byte counts, argument registration): measurement plumbing only. `ReadSingles` and `ReadBatches` stand for the loops' calls into the ring.

## Findings

| source | as written | input that shows it | evidently intended | confidence | as-written member | corrected member |
|---|---|---|---|---|---|---|
| ring_buffer.hpp:44 | `n &= size` keeps only bit 10 of the cursor. From a fresh ring every `get_8` leaves `n == 0` | a fresh ring, then two `get_8` calls: both batches are `values[0..8]`, so 1016 of the 1024 samples are never served | `n &= size - 1`, so the cursor advances by 8 modulo 1024 and the batches walk the whole array | medium; not executed | `RingBuffer.ReadBatches` | `RingBuffer.ReadBatchesAdvancing` |
