/** The response-cache key: `<mlen>:<method><plen>:<path><ilen>:<identity>` (src/cache.rs).
    The join is injective for every content of the three parts, and the stack-built, heap-built and
    owned forms carry the same bytes. */
module CacheKey {
  import opened Bytes

  const COLON: Byte := 58
  const ZERO: Byte := 48

  /** Stack capacity of the lookup key. */
  const STACK_CAP: nat := 512

  datatype Triple = Triple(verb: Data, path: Data, identity: Data)

  /** Decimal digits of n in ASCII, without leading zeros. */
  function Digits(n: nat): Data {
    if n < 10 then [ZERO + n] else Digits(n / 10) + [ZERO + n % 10]
  }

  /** The number a digit string denotes. */
  ghost function Value(s: Data): int {
    if s == [] then 0 else 10 * Value(s[..|s| - 1]) + (s[|s| - 1] - ZERO)
  }

  lemma {:induction false} DigitsDenote(n: nat)
    ensures Value(Digits(n)) == n
    ensures forall i :: 0 <= i < |Digits(n)| ==> ZERO <= Digits(n)[i] < COLON
  {
    if n >= 10 {
      DigitsDenote(n / 10);
      assert Digits(n)[..|Digits(n)| - 1] == Digits(n / 10);
    } else {
      assert Digits(n)[..0] == [];
    }
  }

  /** The nine strings handed to the writer, in order. */
  function Pieces(t: Triple): seq<Data> {
    [Digits(|t.verb|), [COLON], t.verb,
     Digits(|t.path|), [COLON], t.path,
     Digits(|t.identity|), [COLON], t.identity]
  }

  function Field(p: Data): Data { Digits(|p|) + [COLON] + p }

  function Key(t: Triple): Data { Field(t.verb) + Field(t.path) + Field(t.identity) }

  lemma PiecesMakeKey(t: Triple)
    ensures Concat(Pieces(t)) == Key(t)
  {
    var p := Pieces(t);
    assert p == [p[0], p[1], p[2]] + [p[3], p[4], p[5]] + [p[6], p[7], p[8]];
    ConcatSplit([p[0], p[1], p[2]] + [p[3], p[4], p[5]], [p[6], p[7], p[8]]);
    ConcatSplit([p[0], p[1], p[2]], [p[3], p[4], p[5]]);
    ConcatThree(p[0], p[1], p[2]);
    ConcatThree(p[3], p[4], p[5]);
    ConcatThree(p[6], p[7], p[8]);
  }

  lemma ConcatThree(a: Data, b: Data, c: Data)
    ensures Concat([a, b, c]) == a + b + c
  {
    assert [a, b, c] == ([] + [a] + [b]) + [c];
    ConcatOne([] + [a] + [b], c);
    ConcatOne([] + [a], b);
    ConcatOne([], a);
  }

  /** A length-prefixed field can be split off the front of any string in one way only. */
  lemma FieldIsSelfDelimiting(a: Data, b: Data, x: Data, y: Data)
    requires Field(a) + x == Field(b) + y
    ensures a == b && x == y
  {
    var s, t := Field(a) + x, Field(b) + y;
    var da, db := Digits(|a|), Digits(|b|);
    DigitsDenote(|a|);
    DigitsDenote(|b|);
    assert s[|da|] == COLON && t[|db|] == COLON;
    assert forall i :: 0 <= i < |da| ==> s[i] == da[i];
    assert forall i :: 0 <= i < |db| ==> t[i] == db[i];
    assert |da| == |db|;
    assert da == s[..|da|] == t[..|db|] == db;
    var n := |da| + 1;
    assert a == s[n..n + |a|] && x == s[n + |a|..];
    assert b == t[n..n + |b|] && y == t[n + |b|..];
  }

  /** Two distinct (method, path, identity) triples never share a key. */
  lemma KeyInjective(s: Triple, t: Triple)
    ensures Key(s) == Key(t) <==> s == t
  {
    if Key(s) == Key(t) {
      assert Key(s) == Field(s.verb) + (Field(s.path) + (Field(s.identity) + []));
      assert Key(t) == Field(t.verb) + (Field(t.path) + (Field(t.identity) + []));
      var x, y := Field(s.identity) + [], Field(t.identity) + [];
      FieldIsSelfDelimiting(s.verb, t.verb, Field(s.path) + x, Field(t.path) + y);
      FieldIsSelfDelimiting(s.path, t.path, x, y);
      FieldIsSelfDelimiting(s.identity, t.identity, [], []);
    }
  }

  /** The lookup key: on the stack when it fits, else on the heap. */
  datatype KeyBuf = Stack(bytes: Data) | Heap(bytes: Data)

  /** Writing a list of pieces into a buffer of bounded capacity: every piece is appended whole or the write
      fails. Succeeds exactly when everything fits. */
  method WritePieces(pieces: seq<Data>, capacity: nat) returns (ok: bool, buf: Data)
    ensures ok <==> |Concat(pieces)| <= capacity
    ensures ok ==> buf == Concat(pieces)
    ensures |buf| <= capacity
  {
    buf, ok := [], true;
    var i := 0;
    while i < |pieces|
      invariant 0 <= i <= |pieces|
      invariant buf == Concat(pieces[..i])
      invariant |buf| <= capacity
    {
      assert pieces[..i + 1][..i] == pieces[..i];
      if |buf| + |pieces[i]| > capacity {
        ConcatSplit(pieces[..i + 1], pieces[i + 1..]);
        assert pieces == pieces[..i + 1] + pieces[i + 1..];
        return false, buf;
      }
      buf := buf + pieces[i];
      i := i + 1;
    }
    assert pieces[..i] == pieces;
  }

  /** Writing the same pieces into a growable string cannot fail. */
  method WriteAllPieces(pieces: seq<Data>) returns (buf: Data)
    ensures buf == Concat(pieces)
  {
    buf := [];
    for i := 0 to |pieces|
      invariant buf == Concat(pieces[..i])
    {
      assert pieces[..i + 1][..i] == pieces[..i];
      buf := buf + pieces[i];
    }
    assert pieces[..|pieces|] == pieces;
  }

  /** The owned key a put stores under. */
  method OwnedKey(t: Triple) returns (key: Data)
    ensures key == Key(t)
  {
    key := WriteAllPieces(Pieces(t));
    PiecesMakeKey(t);
  }

  /** The borrowed key a get looks up: the same bytes as the owned key, stack-built exactly when they fit. */
  method BuildLookupKey(t: Triple) returns (buf: KeyBuf)
    ensures buf.bytes == Key(t)
    ensures buf.Stack? <==> |Key(t)| <= STACK_CAP
  {
    PiecesMakeKey(t);
    var ok, stack := WritePieces(Pieces(t), STACK_CAP);
    if ok {
      return Stack(stack);
    }
    var heap := WriteAllPieces(Pieces(t));
    return Heap(heap);
  }
}
