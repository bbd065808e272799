# Partial-match bucket enumeration for multi-attribute hashing

This project models the query step of multi-attribute (choice-vector) hashing in
`solution/buckets.c`. A query hash is a string over `'0'`, `'1'` and `'*'`,
written most significant bit first. The program splits it into two bit-strings:

- `known` holds the `'1'` positions;
- `unknown` holds the `'*'` (wildcard) positions.

It counts the wildcards (`nstars`). Then, for every counter value from `0` to
`2^nstars - 1`, it scatters the counter's low bits into the wildcard positions of
a copy of `known`, lowest bit to lowest wildcard. It reports the integer value of
each result as a bucket to examine.

The model is in four modules:

- `Wrappers` (`wrappers.dfy`): the `Result` datatype.
- `BitStrings` (`bits.dfy`): the `Bits` abstraction that buckets.c uses. A
  bit-string is a `seq<bool>` indexed from the least significant bit. Its width
  is the length. `zeroBits`, `setBit`, `bitIsSet`, `nBits` and `bitsToInt` are
  specified only by how buckets.c uses them. The C implementation in `bits.c`
  is not part of this model, and nothing here claims to match it.
- `QueryHash` (`query.dfy`): the parse loop, as the method `ParseQueryHash`. It
  is proved against the function `Parse`, and the function `QueryString` is
  its inverse.
- `Buckets` (`buckets.dfy`): the wildcard count (`CountStars`), the inner
  scatter loop (`FitCounter`), the counter loop (`Enumerate`), and the whole
  program without its printing (`Examine`). Each method is proved against a
  function: `PopCount`, `Scatter`, `BucketIds` and `QueryBuckets`. `Gather`
  is the inverse of `Scatter`.

The four loops of `main` (the parse loop, the wildcard count, the counter loop
and the inner loop over bit positions) become four methods with loop
invariants: `ParseQueryHash`, `CountStars`, `Enumerate` and `FitCounter`. The
re-assigned `Bits` values (`known = setBit(known, j)`, `b = setBit(b, i)`)
become local variables of a value type.

## Model

| member | source | states |
|---|---|---|
| `BitStrings.Pow2` | solution/buckets.c:87 | `2^n`, the loop bound `1<<nstars` for `nstars <= 30`; it is positive, so at least one bucket is produced |
| `BitStrings.TestBit` | solution/buckets.c:96 | bit `j` of `x` (the test `x & (1<<j)`) is set exactly when the quotient of `x` by `2^j` is odd |
| `BitStrings.NBits` | solution/buckets.c:81 | `nBits(b)` is the width of `b`, and the value of `b` is below `2^nBits(b)` |
| `BitStrings.BitIsSet` | solution/buckets.c:82 | `bitIsSet(b, i)` holds exactly when bit `i` of `bitsToInt(b)` is set |
| `BitStrings.ZeroBits` | solution/buckets.c:53 | `zeroBits(n)` for `0 < n < 32` has width `n` and no bit set |
| `BitStrings.ZeroBitsValue` | solution/buckets.c:53 | the value of `zeroBits(n)` is 0 |
| `BitStrings.SetBit` | solution/buckets.c:59 | `setBit(b, i)` keeps the width, sets bit `i` and leaves every other bit as it was |
| `BitStrings.BitsToIntSetBit` | solution/buckets.c:98 | setting a clear bit `i` adds exactly `2^i` to the value |
| `BitStrings.SetBitOfZero` | solution/buckets.c:53-59 | `bitsToInt(setBit(zeroBits(n), i)) == 2^i` |
| `BitStrings.BitsToInt` | solution/buckets.c:104 | the value of an `n`-bit string is below `2^n` |
| `BitStrings.BitsToIntRoundTrip` | solution/buckets.c:104 | expanding the value of a bit-string back to its width gives the bit-string again |
| `BitStrings.IntToBitsRoundTrip` | solution/buckets.c:104 | every integer below `2^n` is the value of its `n`-bit expansion |
| `BitStrings.BitsToIntInjective` | solution/buckets.c:104 | two bit-strings of one width with equal values are equal |
| `BitStrings.IntToBitsAt` | solution/buckets.c:96 | element `j` of an integer's bit expansion is the C test `x & (1<<j)` |
| `QueryHash.Parse` | solution/buckets.c:48-70 | a length outside 1..31 is rejected before anything else; otherwise any character other than `'0'`, `'1'`, `'*'` is rejected; on success string index `i` is bit `n-1-i`, `'1'` sets it in `known` only, `'*'` in `unknown` only, `'0'` in neither; the two are disjoint and both are below `2^n` |
| `QueryHash.ParseThenRender` | solution/buckets.c:53-70 | a parsed query hash renders back to itself, so parsing loses nothing |
| `QueryHash.RenderThenParse` | solution/buckets.c:53-70 | every disjoint pair of bit-strings of width 1..31 is the parse of the string it renders to |
| `QueryHash.ParseQueryHash` | solution/buckets.c:48-70 | the loop with `j` walking down from `nbits-1` computes exactly `Parse`, including both error cases |
| `Buckets.StarCount` | solution/buckets.c:80-83 | the number of set bits of `unknown` is the number of `'*'` characters in the query |
| `Buckets.CountStars` | solution/buckets.c:80-83 | the counting loop returns the number of set bits of `unknown` |
| `Buckets.Scatter` | solution/buckets.c:89-102 | every scattered bucket agrees with `known` off the wildcards (`bucket & ~unknown == known`) and keeps every bit of `known` |
| `Buckets.ScatterAt` | solution/buckets.c:93-100 | bit `i` of the scatter is set exactly when it is set in `known`, or `i` is the `j`-th wildcard (counting from 0) and bit `j` of the counter is set |
| `Buckets.ScatterZero` | solution/buckets.c:87-89 | counter 0 yields `known` unchanged |
| `Buckets.Gather` | solution/buckets.c:93-100 | reading the wildcard bits back gives a counter below `2^nstars` |
| `Buckets.GatherScatter` | solution/buckets.c:86-102 | for disjoint inputs, gathering the scatter of a counter below `2^nstars` gives that counter, so no two counters share a bucket |
| `Buckets.ScatterGather` | solution/buckets.c:86-102 | every bit-string that agrees with `known` off the wildcards is the scatter of the counter gathered from it, so every wildcard assignment is reached |
| `Buckets.ScatterMonotone` | solution/buckets.c:87-105 | for disjoint inputs, a larger counter below `2^nstars` gives a strictly larger bucket |
| `Buckets.BucketIds` | solution/buckets.c:86-87 | there are exactly `2^nstars` buckets, one per counter value |
| `Buckets.BucketIdsFirst` | solution/buckets.c:87-89 | the first bucket is `bitsToInt(known)`; with no wildcard it is the only bucket |
| `Buckets.BucketIdsAscending` | solution/buckets.c:86-105 | the buckets come out in strictly increasing order, so they are all distinct |
| `Buckets.BucketIdsBits` | solution/buckets.c:89-102 | bit `i` of bucket `c` is the bit of `known` off the wildcards, and bit `j` of `c` at the `j`-th wildcard |
| `Buckets.BucketIdsCover` | solution/buckets.c:86-102 | every bit-string agreeing with `known` off the wildcards is among the buckets, at exactly one counter value |
| `Buckets.FitCounter` | solution/buckets.c:88-102 | the inner loop over bit positions, with `j` counting wildcards, computes `Scatter` |
| `Buckets.Enumerate` | solution/buckets.c:79-105 | counting the wildcards and then running the counter from 0 to `2^nstars - 1` produces exactly `BucketIds` |
| `Buckets.QueryBuckets` | solution/buckets.c:48-105 | a query hash is rejected exactly when parsing rejects it, with the same error; otherwise it yields `2^k` buckets, where `k` is its number of `'*'` characters |
| `Buckets.QueryBucketsOrdered` | solution/buckets.c:86-105 | the buckets of a valid query hash are strictly increasing; a query hash without `'*'` yields exactly the bucket its `'1'`s spell |
| `Buckets.WorkedExampleOne` | solution/buckets.c:16-19 | query hash `1*0*1` gives buckets 17, 19, 25, 27 |
| `Buckets.WorkedExampleTwo` | solution/buckets.c:21-24 | query hash `01*01` gives buckets 9, 13 |
| `Buckets.InvalidCharacterExample` | solution/buckets.c:66-69 | query hash `1x0` is rejected and yields no bucket |
| `Buckets.Examine` | solution/buckets.c:48-105 | parse, then enumerate: the result is `QueryBuckets` of the query hash, with no bucket when the parse fails |

## Left out

- Command-line handling is left out: the usage message, `fprintf`/`printf`, and the exit codes (buckets.c lines 43-46, 67-68, 104 and 107). `Examine` takes the query hash as a parameter. It returns the buckets in order, or the reason for rejection.
- The `assert` on the length (line 49) becomes the error result `BadLength`, not a process abort. The C code checks the length only when assertions are compiled in. Under `NDEBUG` a length of 0 or 32 and more goes unchecked. The model always checks it.
- Parse: one Dafny `char` stands for one C `char` (one byte). The C code measures the query with `strlen` and reads it byte by byte (lines 48, 57). A non-ASCII character takes several bytes in C but one `char` here. So 16 copies of `'é'` fail the length check in C but are rejected as an invalid query hash here. Both reject the input with no bucket, but the reason differs. Non-ASCII input is not modelled.
- `showBits` and the `Known:` / `Unknown:` display lines are left out (lines 41, 72-73). They are diagnostic output into a fixed buffer, and `showBits` is implemented in `bits.c`, which is not part of this model.
- The commented-out debug prints are left out (lines 90, 92, 94, 97, 103).
- Hash functions, choice vectors and overflow pages are out of scope in the source as well (lines 26-29).
- `bits.h` and `bits.c` are not part of this model. `Bits` is a `seq<bool>`, and each operation has only the contract its use in buckets.c needs.
- Enumerate: the loop bound is the mathematical `2^nstars`. In C, `1<<nstars` overflows `int` when the query hash is 31 `'*'` characters, which is undefined behaviour. The model does not reproduce that case. For every other input, all values are below `2^31` and fit a C `int`.
- BucketIds: the ascending-order and coverage lemmas assume `known` and `unknown` are disjoint. `Parse` always produces disjoint pairs. `BucketIds` itself is also defined for overlapping pairs, where buckets can repeat.
