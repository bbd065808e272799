/**
  The partial-match bucket enumerator of multi-attribute hashing
  (buckets.c lines 75-105): count the wildcard bits of the query hash, and for
  every counter value from 0 to 2^nstars - 1 scatter the counter's low bits, in
  ascending order, into the wildcard positions of a copy of `known`; the value
  of each result is a bucket to examine.
 */
module Buckets {
  import opened Wrappers
  import opened BitStrings
  import opened QueryHash

  /** The number of set bits of `b`. */
  function PopCount(b: Bits): (r: nat)
    ensures r <= |b|
  {
    if b == [] then 0 else (if b[0] then 1 else 0) + PopCount(b[1..])
  }

  /** Extending a prefix by one bit adds that bit to its count. */
  lemma {:induction false} PopCountSnoc(b: Bits, i: nat)
    requires i < |b|
    ensures PopCount(b[..i + 1]) == PopCount(b[..i]) + (if b[i] then 1 else 0)
  {
    if i == 0 {
      assert b[..1][1..] == [];
    } else {
      assert b[..i + 1][1..] == b[1..][..i];
      assert b[..i][1..] == b[1..][..i - 1];
      PopCountSnoc(b[1..], i - 1);
    }
  }

  /** The number of wildcards counted from `unknown` is the number of '*'
      characters in the query hash. */
  lemma {:induction false} StarCount(q: string)
    ensures PopCount(BitsOf(q, '*')) == multiset(q)['*']
  {
    if q != [] {
      var n := |q|;
      var rest := q[..n - 1];
      assert BitsOf(q, '*')[1..] == BitsOf(rest, '*');
      StarCount(rest);
      assert q == rest + [q[n - 1]];
    }
  }

  /** buckets.c lines 80-83: count the set bits of `unknown`. */
  method CountStars(unknown: Bits) returns (nstars: nat)
    ensures nstars == PopCount(unknown)
  {
    nstars := 0;
    var i := 0;
    while i < NBits(unknown)
      invariant 0 <= i <= |unknown|
      invariant nstars == PopCount(unknown[..i])
    {
      PopCountSnoc(unknown, i);
      if BitIsSet(unknown, i) {
        nstars := nstars + 1;
      }
      i := i + 1;
    }
    assert unknown[..i] == unknown;
  }

  /** `known` with the low bits of `counter` placed, lowest first, at the
      wildcard positions of `unknown` in ascending order: a wildcard whose
      counter bit is 1 is set, every other position keeps its bit of `known`. */
  function Scatter(known: Bits, unknown: Bits, counter: nat): (b: Bits)
    requires |known| == |unknown|
    ensures |b| == |known|
    ensures forall i :: 0 <= i < |b| && !unknown[i] ==> b[i] == known[i]
    ensures forall i :: 0 <= i < |b| && known[i] ==> b[i]
  {
    if unknown == [] then []
    else
      [if unknown[0] then known[0] || counter % 2 == 1 else known[0]]
      + Scatter(known[1..], unknown[1..], if unknown[0] then counter / 2 else counter)
  }

  /** The wildcard bits of `b`, lowest first, read back as a counter value:
      the inverse of Scatter. */
  function Gather(b: Bits, unknown: Bits): (counter: nat)
    requires |b| == |unknown|
    ensures counter < Pow2(PopCount(unknown))
  {
    if unknown == [] then 0
    else if unknown[0] then (if b[0] then 1 else 0) + 2 * Gather(b[1..], unknown[1..])
    else Gather(b[1..], unknown[1..])
  }

  /** Bit i of a scattered counter: the j-th wildcard position (counting from
      0, lowest first) is set iff bit j of the counter is, or `known` has it. */
  lemma {:induction false} ScatterAt(known: Bits, unknown: Bits, counter: nat, i: nat)
    requires |known| == |unknown| && i < |unknown|
    ensures Scatter(known, unknown, counter)[i] ==
      if unknown[i] then known[i] || TestBit(counter, PopCount(unknown[..i])) else known[i]
  {
    if i > 0 {
      var c := if unknown[0] then counter / 2 else counter;
      ScatterAt(known[1..], unknown[1..], c, i - 1);
      assert unknown[..i][1..] == unknown[1..][..i - 1];
    }
  }

  /** Counter 0 leaves `known` as it is. */
  lemma {:induction false} ScatterZero(known: Bits, unknown: Bits)
    requires |known| == |unknown|
    ensures Scatter(known, unknown, 0) == known
  {
    if unknown != [] {
      ScatterZero(known[1..], unknown[1..]);
      assert known == [known[0]] + known[1..];
    }
  }

  /** Scattering a counter below 2^nstars and gathering it back gives the counter. */
  lemma {:induction false} GatherScatter(known: Bits, unknown: Bits, counter: nat)
    requires Disjoint(known, unknown) && counter < Pow2(PopCount(unknown))
    ensures Gather(Scatter(known, unknown, counter), unknown) == counter
  {
    if unknown != [] {
      var b := Scatter(known, unknown, counter);
      var c := if unknown[0] then counter / 2 else counter;
      assert b[1..] == Scatter(known[1..], unknown[1..], c);
      GatherScatter(known[1..], unknown[1..], c);
    }
  }

  /** Every bit-string that agrees with `known` off the wildcards is the
      scatter of the counter gathered from it. */
  lemma {:induction false} ScatterGather(known: Bits, unknown: Bits, b: Bits)
    requires Disjoint(known, unknown) && |b| == |known|
    requires forall i :: 0 <= i < |b| && !unknown[i] ==> b[i] == known[i]
    ensures Scatter(known, unknown, Gather(b, unknown)) == b
  {
    if unknown != [] {
      var c, c' := Gather(b, unknown), Gather(b[1..], unknown[1..]);
      var next := if unknown[0] then c / 2 else c;
      assert next == c';
      ScatterGather(known[1..], unknown[1..], b[1..]);
      assert Scatter(known, unknown, c) == [b[0]] + b[1..];
      assert b == [b[0]] + b[1..];
    }
  }

  /** Larger counters below 2^nstars give strictly larger buckets. */
  lemma {:induction false} ScatterMonotone(known: Bits, unknown: Bits, c1: nat, c2: nat)
    requires Disjoint(known, unknown) && c1 < c2 < Pow2(PopCount(unknown))
    ensures BitsToInt(Scatter(known, unknown, c1)) < BitsToInt(Scatter(known, unknown, c2))
  {
    var b1 := Scatter(known, unknown, c1);
    var b2 := Scatter(known, unknown, c2);
    if unknown[0] {
      assert b1[1..] == Scatter(known[1..], unknown[1..], c1 / 2);
      assert b2[1..] == Scatter(known[1..], unknown[1..], c2 / 2);
      if c1 / 2 < c2 / 2 {
        ScatterMonotone(known[1..], unknown[1..], c1 / 2, c2 / 2);
      }
    } else {
      assert b1[1..] == Scatter(known[1..], unknown[1..], c1);
      assert b2[1..] == Scatter(known[1..], unknown[1..], c2);
      ScatterMonotone(known[1..], unknown[1..], c1, c2);
    }
  }

  /** The buckets to examine, in the order they are produced: one per counter
      value from 0 to 2^nstars - 1. */
  function BucketIds(known: Bits, unknown: Bits): (ids: seq<nat>)
    requires |known| == |unknown|
    ensures |ids| == Pow2(PopCount(unknown))
  {
    seq(Pow2(PopCount(unknown)), c requires 0 <= c => BitsToInt(Scatter(known, unknown, c)))
  }

  /** The first bucket is `known` itself; with no wildcard it is the only one. */
  lemma BucketIdsFirst(known: Bits, unknown: Bits)
    requires |known| == |unknown|
    ensures BucketIds(known, unknown)[0] == BitsToInt(known)
    ensures PopCount(unknown) == 0 ==> BucketIds(known, unknown) == [BitsToInt(known)]
  {
    ScatterZero(known, unknown);
  }

  /** Buckets come out in strictly increasing order, hence all distinct. */
  lemma BucketIdsAscending(known: Bits, unknown: Bits)
    requires Disjoint(known, unknown)
    ensures forall i, j :: 0 <= i < j < |BucketIds(known, unknown)| ==>
      BucketIds(known, unknown)[i] < BucketIds(known, unknown)[j]
  {
    forall i, j | 0 <= i < j < |BucketIds(known, unknown)|
      ensures BucketIds(known, unknown)[i] < BucketIds(known, unknown)[j]
    {
      ScatterMonotone(known, unknown, i, j);
    }
  }

  /** Bit i of bucket c: off the wildcards it is the bit of `known`
      (bucket & ~unknown == known); at the j-th wildcard it is bit j of c. */
  lemma BucketIdsBits(known: Bits, unknown: Bits, c: nat, i: nat)
    requires Disjoint(known, unknown) && c < Pow2(PopCount(unknown)) && i < |unknown|
    ensures IntToBits(BucketIds(known, unknown)[c], |unknown|)[i] ==
      if unknown[i] then TestBit(c, PopCount(unknown[..i])) else known[i]
  {
    BitsToIntRoundTrip(Scatter(known, unknown, c));
    ScatterAt(known, unknown, c, i);
  }

  /** Every bit-string that agrees with `known` off the wildcards is examined,
      as the bucket of exactly one counter value. */
  lemma BucketIdsCover(known: Bits, unknown: Bits, b: Bits)
    requires Disjoint(known, unknown) && |b| == |known|
    requires forall i :: 0 <= i < |b| && !unknown[i] ==> b[i] == known[i]
    ensures Gather(b, unknown) < |BucketIds(known, unknown)|
    ensures BucketIds(known, unknown)[Gather(b, unknown)] == BitsToInt(b)
    ensures forall c :: 0 <= c < |BucketIds(known, unknown)| && BucketIds(known, unknown)[c] == BitsToInt(b) ==>
      c == Gather(b, unknown)
  {
    ScatterGather(known, unknown, b);
    forall c | 0 <= c < |BucketIds(known, unknown)| && BucketIds(known, unknown)[c] == BitsToInt(b)
      ensures c == Gather(b, unknown)
    {
      BitsToIntInjective(Scatter(known, unknown, c), b);
      GatherScatter(known, unknown, c);
    }
  }

  /** buckets.c lines 88-102: start from `known` and walk the bit positions
      upwards with j counting the wildcards seen; at a wildcard, set the
      position if bit j of the counter is 1. */
  method FitCounter(known: Bits, unknown: Bits, counter: nat) returns (b: Bits)
    requires |known| == |unknown|
    ensures b == Scatter(known, unknown, counter)
  {
    var i, j := 0, 0;
    b := known;
    while i < NBits(unknown)
      invariant 0 <= i <= |unknown| && |b| == |known|
      invariant j == PopCount(unknown[..i])
      invariant forall p :: 0 <= p < i ==>
        b[p] == if unknown[p] then known[p] || TestBit(counter, PopCount(unknown[..p])) else known[p]
      invariant forall p :: i <= p < |b| ==> b[p] == known[p]
    {
      PopCountSnoc(unknown, i);
      if BitIsSet(unknown, i) {
        if TestBit(counter, j) {
          b := SetBit(b, i);
        }
        j := j + 1;
      }
      i := i + 1;
    }
    forall p | 0 <= p < |b|
      ensures b[p] == Scatter(known, unknown, counter)[p]
    {
      ScatterAt(known, unknown, counter, p);
    }
  }

  /** buckets.c lines 79-105: count the wildcards, then produce the bucket of
      every counter value from 0 to 2^nstars - 1 in ascending order. */
  method Enumerate(known: Bits, unknown: Bits) returns (ids: seq<nat>)
    requires |known| == |unknown|
    ensures ids == BucketIds(known, unknown)
  {
    var nstars := CountStars(unknown);
    ids := [];
    var counter := 0;
    while counter < Pow2(nstars)
      invariant counter <= Pow2(nstars)
      invariant ids == BucketIds(known, unknown)[..counter]
    {
      var b := FitCounter(known, unknown, counter);
      ids := ids + [BitsToInt(b)];
      counter := counter + 1;
    }
  }

  /** The buckets to examine for a query hash, or why it was rejected. */
  function QueryBuckets(q: string): (r: Result<seq<nat>, ParseError>)
    ensures r.Err? <==> Parse(q).Err?
    ensures r.Err? ==> r.error == Parse(q).error
    ensures r.Ok? ==> |r.value| == Pow2(multiset(q)['*'])
  {
    match Parse(q)
    case Err(e) => Err(e)
    case Ok(query) =>
      StarCount(q);
      Ok(BucketIds(query.known, query.unknown))
  }

  /** The buckets of a valid query hash are strictly increasing, and a query
      hash without '*' names exactly the bucket its bits spell. */
  lemma QueryBucketsOrdered(q: string)
    requires QueryBuckets(q).Ok?
    ensures forall i, j :: 0 <= i < j < |QueryBuckets(q).value| ==>
      QueryBuckets(q).value[i] < QueryBuckets(q).value[j]
    ensures multiset(q)['*'] == 0 ==> QueryBuckets(q).value == [BitsToInt(BitsOf(q, '1'))]
  {
    var query := Parse(q).value;
    BucketIdsAscending(query.known, query.unknown);
    BucketIdsFirst(query.known, query.unknown);
    StarCount(q);
  }

  /** Worked example #1 of buckets.c's header comment: "1*0*1". */
  lemma WorkedExampleOne()
    ensures QueryBuckets("1*0*1") == Ok([17, 19, 25, 27])
  {
    var k, u := [true, false, false, false, true], [false, true, false, true, false];
    assert Parse("1*0*1") == Ok(Query(k, u)) by {
      assert BitsOf("1*0*1", '1') == k;
      assert BitsOf("1*0*1", '*') == u;
    }
    ExampleOneBuckets();
  }

  /** The buckets of example #1's bit-strings. */
  lemma ExampleOneBuckets()
    ensures BucketIds([true, false, false, false, true], [false, true, false, true, false]) == [17, 19, 25, 27]
  {
    var k, u := [true, false, false, false, true], [false, true, false, true, false];
    assert Pow2(PopCount(u)) == 4;
    assert BitsToInt(Scatter(k, u, 0)) == 17 by {
      ExampleOneScatter(0);
      ExampleOneValues();
    }
    assert BitsToInt(Scatter(k, u, 1)) == 19 by {
      ExampleOneScatter(1);
      ExampleOneValues();
    }
    assert BitsToInt(Scatter(k, u, 2)) == 25 by {
      ExampleOneScatter(2);
      ExampleOneValues();
    }
    assert BitsToInt(Scatter(k, u, 3)) == 27 by {
      ExampleOneScatter(3);
      ExampleOneValues();
    }
    FourBuckets(k, u, 17, 19, 25, 27);
  }

  /** In "1*0*1" counter bit 0 lands on bit 1 and counter bit 1 on bit 3. */
  lemma ExampleOneScatter(c: nat)
    ensures Scatter([true, false, false, false, true], [false, true, false, true, false], c)
      == [true, c % 2 == 1, false, c / 2 % 2 == 1, true]
  {
    assert Scatter([true], [false], c / 2) == [true];
    assert Scatter([false, true], [true, false], c / 2) == [c / 2 % 2 == 1, true];
    assert Scatter([false, false, true], [false, true, false], c / 2) == [false, c / 2 % 2 == 1, true];
    assert Scatter([false, false, false, true], [true, false, true, false], c)
      == [c % 2 == 1, false, c / 2 % 2 == 1, true];
  }

  /** The values of example #1's four buckets. */
  lemma ExampleOneValues()
    ensures BitsToInt([true, false, false, false, true]) == 17
    ensures BitsToInt([true, true, false, false, true]) == 19
    ensures BitsToInt([true, false, false, true, true]) == 25
    ensures BitsToInt([true, true, false, true, true]) == 27
  {
    assert BitsToInt([false, false, true]) == 4;
    assert BitsToInt([true, false, false, true]) == 9;
    assert BitsToInt([true, true]) == 3;
    assert BitsToInt([false, true, true]) == 6;
    assert BitsToInt([false, false, true, true]) == 12;
    assert BitsToInt([true, false, true, true]) == 13;
  }

  /** Four buckets, given the value of each scatter. */
  lemma FourBuckets(known: Bits, unknown: Bits, b0: nat, b1: nat, b2: nat, b3: nat)
    requires |known| == |unknown| && Pow2(PopCount(unknown)) == 4
    requires BitsToInt(Scatter(known, unknown, 0)) == b0 && BitsToInt(Scatter(known, unknown, 1)) == b1
    requires BitsToInt(Scatter(known, unknown, 2)) == b2 && BitsToInt(Scatter(known, unknown, 3)) == b3
    ensures BucketIds(known, unknown) == [b0, b1, b2, b3]
  {
  }

  /** Worked example #2 of buckets.c's header comment: "01*01". */
  lemma WorkedExampleTwo()
    ensures QueryBuckets("01*01") == Ok([9, 13])
  {
    var k, u := [true, false, false, true, false], [false, false, true, false, false];
    assert Parse("01*01") == Ok(Query(k, u)) by {
      assert BitsOf("01*01", '1') == k;
      assert BitsOf("01*01", '*') == u;
    }
    ExampleTwoBuckets();
  }

  /** The buckets of example #2's bit-strings. */
  lemma ExampleTwoBuckets()
    ensures BucketIds([true, false, false, true, false], [false, false, true, false, false]) == [9, 13]
  {
    var k, u := [true, false, false, true, false], [false, false, true, false, false];
    assert Pow2(PopCount(u)) == 2;
    assert BitsToInt(Scatter(k, u, 0)) == 9 by {
      ExampleTwoScatter(0);
      ExampleTwoValues();
    }
    assert BitsToInt(Scatter(k, u, 1)) == 13 by {
      ExampleTwoScatter(1);
      ExampleTwoValues();
    }
    TwoBuckets(k, u, 9, 13);
  }

  /** In "01*01" counter bit 0 lands on bit 2. */
  lemma ExampleTwoScatter(c: nat)
    ensures Scatter([true, false, false, true, false], [false, false, true, false, false], c)
      == [true, false, c % 2 == 1, true, false]
  {
    assert Scatter([true, false], [false, false], c / 2) == [true, false];
    assert Scatter([false, true, false], [true, false, false], c) == [c % 2 == 1, true, false];
  }

  /** The values of example #2's two buckets. */
  lemma ExampleTwoValues()
    ensures BitsToInt([true, false, false, true, false]) == 9
    ensures BitsToInt([true, false, true, true, false]) == 13
  {
    assert BitsToInt([true, false]) == 1;
    assert BitsToInt([false, true, false]) == 2;
    assert BitsToInt([false, false, true, false]) == 4;
    assert BitsToInt([true, true, false]) == 3;
    assert BitsToInt([false, true, true, false]) == 6;
  }

  /** Two buckets, given the value of each scatter. */
  lemma TwoBuckets(known: Bits, unknown: Bits, b0: nat, b1: nat)
    requires |known| == |unknown| && Pow2(PopCount(unknown)) == 2
    requires BitsToInt(Scatter(known, unknown, 0)) == b0 && BitsToInt(Scatter(known, unknown, 1)) == b1
    ensures BucketIds(known, unknown) == [b0, b1]
  {
  }

  /** A character outside '0', '1', '*' rejects the query before any bucket. */
  lemma InvalidCharacterExample()
    ensures QueryBuckets("1x0") == Err(InvalidQueryHash)
  {
    assert !ValidChar("1x0"[1]);
  }

  /** buckets.c lines 48-105 without the printing: parse the query hash, then
      enumerate its buckets; a rejected query hash yields no bucket at all. */
  method Examine(q: string) returns (r: Result<seq<nat>, ParseError>)
    ensures r == QueryBuckets(q)
  {
    var parsed := ParseQueryHash(q);
    match parsed
    case Err(e) =>
      r := Err(e);
    case Ok(query) =>
      var ids := Enumerate(query.known, query.unknown);
      r := Ok(ids);
  }
}
