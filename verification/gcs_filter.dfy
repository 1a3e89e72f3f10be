/** GCSFilter as imperative code over bit streams. */
module GcsFilter {
  import opened Wrappers
  import opened ArithValue
  import opened M = GcsModel
  import opened GcsProofs

  /** Append the code of a number: the unary quotient is written in runs of at most 64 ones. */
  method GolombRiceEncode(bits0: seq<bool>, p: nat, x: nat) returns (bits: seq<bool>)
    ensures bits == bits0 + Code(x, p)
  {
    hide Quotient;
    bits := bits0;
    var q := Quotient(x, p);
    while q > 0
      invariant 0 <= q <= Quotient(x, p) && bits == bits0 + Ones(Quotient(x, p) - q)
    {
      var nbits := if q <= 64 then q else 64;
      assert Ones(Quotient(x, p) - q) + Ones(nbits) == Ones(Quotient(x, p) - (q - nbits));
      bits := bits + Ones(nbits);
      q := q - nbits;
    }
    bits := bits + [false];
    bits := bits + BitsOf(x, p);
  }

  /** Read a number, or fail at the end of the stream. */
  method GolombRiceDecode(bits: seq<bool>, p: nat, pos: nat) returns (r: Option<(nat, nat)>)
    requires pos <= |bits|
    ensures r == DecodeAt(bits, p, pos)
  {
    var q := 0;
    while pos + q < |bits| && bits[pos + q]
      invariant q >= 0 && pos + q <= |bits| && UnaryEnd(bits, pos + q) == UnaryEnd(bits, pos)
    {
      q := q + 1;
    }
    if pos + q == |bits| { return None; }
    if pos + q + 1 + p > |bits| { return None; }
    r := Some((Join(q, p, NumberOf(bits[pos + q + 1..pos + q + 1 + p])), pos + q + 1 + p));
  }

  class GCSFilter {
    const params: Params
    var n: nat
    var f: nat
    var encoded: Encoding

    ghost predicate Valid()
      reads this
    {
      n == encoded.n && Accepts(params, encoded)
    }

    /** The values the filter stands for. */
    ghost function Values(): seq<nat>
      requires Valid()
      reads this
    {
      DecodeAll(encoded.bits, params.p, encoded.n, 0, 0).value.0
    }

    /** Build a filter; the hashes are sorted and their differences written. */
    constructor (q: Params, elements: seq<Element>)
      requires |elements| < BASE && q.m < BASE && q.p <= 64
      ensures params == q && f == |elements| * q.m && Some(encoded) == Build(q, elements)
      ensures Valid() && Values() == BuildHashedSet(q, f, elements)
    {
      params, n, f := q, |elements|, |elements| * q.m;
      var values := BuildHashedSet(q, |elements| * q.m, elements);
      SetBelow(q, elements);
      var bits := WriteAll(values, q.p);
      encoded := Encoded(|elements|, Padded(bits));
      new;
      BuiltIsAccepted(q, elements);
    }

    /** Take over an encoding that passed the check. */
    constructor FromEncoding(q: Params, c: Encoding)
      requires Accepts(q, c) && q.m < BASE
      ensures params == q && encoded == c && f == HashRange(c.n, q.m) && Valid()
    {
      hide Accepts, HashRange;
      params, n, f, encoded := q, c.n, HashRange(c.n, q.m), c;
    }

    static method WriteAll(values: seq<nat>, p: nat) returns (bits: seq<bool>)
      requires Ascending(values)
      ensures bits == Codes(values, p, 0)
    {
      hide Code;
      bits := [];
      var last: nat := 0;
      for i := 0 to |values|
        invariant i > 0 ==> last == values[i - 1]
        invariant i < |values| ==> last <= values[i]
        invariant bits + Codes(values[i..], p, last) == Codes(values, p, 0)
      {
        assert values[i..][0] == values[i] && values[i..][1..] == values[i + 1..];
        ghost var was := bits;
        bits := GolombRiceEncode(bits, p, values[i] - last);
        assert was + (Code(values[i] - last, p) + Codes(values[i + 1..], p, values[i])) == bits + Codes(values[i + 1..], p, values[i]);
        last := values[i];
      }
      assert bits + [] == bits;
    }

    /** The check of the constructor that takes an encoding. */
    static method CheckEncoding(q: Params, c: Encoding) returns (ok: bool)
      ensures ok <==> Accepts(q, c)
    {
      hide DecodeAt;
      if c.n >= BASE { return false; }
      if q.p > 64 && c.n != 0 { return false; }
      var pos := 0;
      ghost var value: nat := 0;
      ghost var target := DecodeAll(c.bits, q.p, c.n, 0, 0);
      for i := 0 to c.n
        invariant 0 <= pos <= |c.bits|
        invariant var r := DecodeAll(c.bits, q.p, c.n - i, pos, value); if r.None? then target.None? else target.Some? && target.value.1 == r.value.1
      {
        var d := GolombRiceDecode(c.bits, q.p, pos);
        if d.None? { return false; }
        value := (value + d.value.0) % TWO64;
        pos := d.value.1;
      }
      ok := (pos + 7) / 8 * 8 >= |c.bits|;
    }

    /** The single pass: values are decoded as they are needed. */
    method MatchInternal(queries: seq<nat>) returns (found: bool)
      requires Valid()
      ensures found == Merge(Values(), queries)
      ensures Ascending(queries) && Findable(Values()) ==> (found <==> Common(Values(), queries))
    {
      hide DecodeAt, Ascending, Findable, Common;
      MergeRightIff(Values());
      var pos, value, index := 0, 0, 0;
      ghost var rest := Values();
      assert queries[0..] == queries;
      for i := 0 to n
        invariant 0 <= pos <= |encoded.bits| && 0 <= index <= |queries| && value >= 0
        invariant var r := DecodeAll(encoded.bits, params.p, n - i, pos, value); r.Some? && r.value.0 == rest
        invariant Merge(Values(), queries) == Merge(rest, queries[index..])
      {
        var d := GolombRiceDecode(encoded.bits, params.p, pos);
        value := (value + d.value.0) % TWO64;
        pos := d.value.1;
        assert rest[0] == value;
        while true
          invariant 0 <= index <= |queries| && rest != [] && rest[0] == value
          invariant Merge(Values(), queries) == Merge(rest, queries[index..])
          decreases |queries| - index
        {
          if index == |queries| { return false; }
          assert queries[index..][0] == queries[index] && queries[index..][1..] == queries[index + 1..];
          if queries[index] == value { return true; }
          if queries[index] > value { break; }
          index := index + 1;
        }
        rest := rest[1..];
      }
      found := false;
    }

    /** Whether some of the elements may be in the set. */
    method MatchAny(elements: seq<Element>) returns (found: bool)
      requires Valid()
      ensures found == Merge(Values(), BuildHashedSet(params, f, elements))
      ensures Findable(Values()) ==> (found <==> exists e :: e in elements && HashToRange(params, f, e) in Values())
    {
      hide Findable, HashToRange, Merge;
      HashedMembers(params, f, elements, Values());
      found := MatchInternal(BuildHashedSet(params, f, elements));
    }

    /** Whether one element may be in the set. */
    method Match(element: Element) returns (found: bool)
      requires Valid()
      ensures Findable(Values()) ==> (found <==> HashToRange(params, f, element) in Values())
    {
      hide Findable, HashToRange, Merge;
      found := MatchInternal([HashToRange(params, f, element)]);
    }
  }

  /** A filter built from a set and asked about it: exactly the elements that share a hash with one of the set match. */
  method BuildAndMatch(q: Params, elements: seq<Element>, queries: seq<Element>) returns (found: bool)
    requires |elements| < BASE && q.m < BASE && q.p <= 64
    ensures found <==> Meet(q, |elements| * q.m, elements, queries)
    ensures (exists e :: e in elements && e in queries) ==> found
  {
    var filter := new GCSFilter(q, elements);
    found := filter.MatchAny(queries);
    MatchAnyIff(q, elements, queries);
  }

  /** The same for one element. */
  method BuildAndMatchOne(q: Params, elements: seq<Element>, query: Element) returns (found: bool)
    requires |elements| < BASE && q.m < BASE && q.p <= 64
    ensures found <==> exists i :: 0 <= i < |elements| && HashToRange(q, |elements| * q.m, elements[i]) == HashToRange(q, |elements| * q.m, query)
    ensures query in elements ==> found
  {
    hide HashToRange;
    var filter := new GCSFilter(q, elements);
    found := filter.Match(query);
    ghost var f := |elements| * q.m;
    SetBelow(q, elements);
    HashAllIs(q, f, elements);
    SortMembers(HashAll(q, f, elements));
  }

  /** A filter taken from any accepted encoding answers right for every set of queries, if no sum of its differences wraps around. */
  method LoadAndMatch(q: Params, c: Encoding, queries: seq<Element>) returns (found: bool)
    requires Accepts(q, c) && q.m < BASE && SumsFit(c.bits, q.p, c.n, 0, 0)
    ensures found <==> exists e :: e in queries && HashToRange(q, HashRange(c.n, q.m), e) in DecodeAll(c.bits, q.p, c.n, 0, 0).value.0
  {
    hide HashRange, HashToRange, DecodeAll, SumsFit;
    var filter := new GCSFilter.FromEncoding(q, c);
    FittingIsFindable(q, c);
    found := filter.MatchAny(queries);
  }
}
