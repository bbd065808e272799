/**
  The query hash: a string over '0', '1' and '*', most significant bit first,
  decomposed into the bit-string of known 1s and the bit-string of wildcards
  (buckets.c lines 48-70).
 */
module QueryHash {
  import opened Wrappers
  import opened BitStrings

  /** Why a query hash is rejected: its length is not in 1..31, or it holds a
      character other than '0', '1' and '*'. */
  datatype ParseError = BadLength | InvalidQueryHash

  /** The two bit-strings a query hash decomposes into. */
  datatype Query = Query(known: Bits, unknown: Bits)

  predicate ValidChar(c: char)
  {
    c == '0' || c == '1' || c == '*'
  }

  predicate ValidLength(q: string)
  {
    0 < |q| < 32
  }

  /** No bit position is set in both bit-strings. */
  predicate Disjoint(a: Bits, b: Bits)
  {
    |a| == |b| && forall i :: 0 <= i < |a| ==> !(a[i] && b[i])
  }

  /** Bit i is set iff the character at string index |q|-1-i is `c`. */
  function BitsOf(q: string, c: char): (r: Bits)
    ensures |r| == |q|
  {
    seq(|q|, i requires 0 <= i < |q| => q[|q| - 1 - i] == c)
  }

  /** The query hash as the enumerator reads it: the length is checked first,
      then every character; on success `known` marks the '1's and `unknown`
      the '*'s, with string index i at bit |q|-1-i. */
  function Parse(q: string): (r: Result<Query, ParseError>)
    ensures r.Ok? <==> ValidLength(q) && forall i :: 0 <= i < |q| ==> ValidChar(q[i])
    ensures r == Err(BadLength) <==> !ValidLength(q)
    ensures r.Ok? ==> Disjoint(r.value.known, r.value.unknown) && |r.value.known| == |q|
    // a corollary of the bound on BitsToInt: both values fit the query's width
    ensures r.Ok? ==> BitsToInt(r.value.known) < Pow2(|q|) && BitsToInt(r.value.unknown) < Pow2(|q|)
    ensures r.Ok? ==> forall i :: 0 <= i < |q| ==>
      && (q[i] == '1' <==> r.value.known[|q| - 1 - i])
      && (q[i] == '*' <==> r.value.unknown[|q| - 1 - i])
      && (q[i] == '0' <==> !r.value.known[|q| - 1 - i] && !r.value.unknown[|q| - 1 - i])
  {
    if !ValidLength(q) then Err(BadLength)
    else if exists i :: 0 <= i < |q| && !ValidChar(q[i]) then Err(InvalidQueryHash)
    else Ok(Query(BitsOf(q, '1'), BitsOf(q, '*')))
  }

  /** The query hash that a pair of disjoint bit-strings stands for: the
      inverse of Parse. */
  function QueryString(query: Query): (q: string)
    requires |query.known| == |query.unknown|
    ensures |q| == |query.unknown|
  {
    var n := |query.unknown|;
    seq(n, i requires 0 <= i < n =>
      if query.unknown[n - 1 - i] then '*' else if query.known[n - 1 - i] then '1' else '0')
  }

  /** Parsing loses nothing: a parsed query hash renders back to itself. */
  lemma ParseThenRender(q: string)
    requires Parse(q).Ok?
    ensures QueryString(Parse(q).value) == q
  {
    var q' := QueryString(Parse(q).value);
    forall i | 0 <= i < |q|
      ensures q'[i] == q[i]
    {
      assert ValidChar(q[i]);
    }
  }

  /** Every disjoint pair of bit-strings of a valid width is the parse of
      exactly the query hash it renders to. */
  lemma RenderThenParse(query: Query)
    requires Disjoint(query.known, query.unknown) && 0 < |query.unknown| < 32
    ensures Parse(QueryString(query)) == Ok(query)
  {
    var q := QueryString(query);
    var n := |q|;
    assert Parse(q) == Ok(Query(BitsOf(q, '1'), BitsOf(q, '*'))) by {
      assert !exists i :: 0 <= i < n && !ValidChar(q[i]);
    }
    assert BitsOf(q, '1') == query.known by {
      forall i | 0 <= i < n
        ensures BitsOf(q, '1')[i] == query.known[i]
      {
        assert q[n - 1 - i] == if query.unknown[i] then '*' else if query.known[i] then '1' else '0';
      }
    }
    assert BitsOf(q, '*') == query.unknown by {
      forall i | 0 <= i < n
        ensures BitsOf(q, '*')[i] == query.unknown[i]
      {
        assert q[n - 1 - i] == if query.unknown[i] then '*' else if query.known[i] then '1' else '0';
      }
    }
  }

  /** buckets.c lines 48-70: check the length, start from two zero bit-strings
      and walk the string left to right while the bit index j walks down from
      nbits-1, setting bit j of `known` for '1' and of `unknown` for '*', and
      rejecting any other character. */
  method ParseQueryHash(q: string) returns (r: Result<Query, ParseError>)
    ensures r == Parse(q)
  {
    var nbits := |q|;
    if !(nbits > 0 && nbits < 32) {
      return Err(BadLength);
    }
    var known := ZeroBits(nbits);
    var unknown := ZeroBits(nbits);
    var i := 0;
    var j := nbits - 1;
    while i < nbits
      invariant 0 <= i <= nbits && j == nbits - 1 - i
      invariant |known| == nbits && |unknown| == nbits
      invariant forall k :: 0 <= k < nbits ==>
        known[k] == (nbits - 1 - k < i && q[nbits - 1 - k] == '1')
      invariant forall k :: 0 <= k < nbits ==>
        unknown[k] == (nbits - 1 - k < i && q[nbits - 1 - k] == '*')
      invariant forall k :: 0 <= k < i ==> ValidChar(q[k])
    {
      var c := q[i];
      if c == '1' {
        known := SetBit(known, j);
      } else if c == '0' {
        // nothing to do
      } else if c == '*' {
        unknown := SetBit(unknown, j);
      } else {
        return Err(InvalidQueryHash);
      }
      i, j := i + 1, j - 1;
    }
    assert known == BitsOf(q, '1');
    assert unknown == BitsOf(q, '*');
    return Ok(Query(known, unknown));
  }
}
