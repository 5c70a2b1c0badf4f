/** Exact codecs: encoders and decoders that undo each other, byte for byte, and the ways to combine
    them. A decoder reads a value off the front of its input and returns the rest. */
module Codec {
  import opened Wrappers
  import opened Octets

  datatype Decoded<+T> = Decoded(value: T, rest: seq<Byte>)

  datatype Codec<!T> = Codec(
    encode: T -> seq<Byte>,
    decode: seq<Byte> -> Option<Decoded<T>>,
    valid: T -> bool)

  /** Decoding what was encoded returns the value. */
  ghost predicate Returns<T>(c: Codec<T>, x: T, rest: seq<Byte>)
  {
    c.valid(x) ==> c.decode(c.encode(x) + rest) == Some(Decoded(x, rest))
  }

  /** Encoding what was decoded reproduces the input. */
  ghost predicate Reproduces<T>(c: Codec<T>, bytes: seq<Byte>)
  {
    match c.decode(bytes)
    case None => true
    case Some(d) => c.valid(d.value) && bytes == c.encode(d.value) + d.rest
  }

  ghost predicate Exact<T(!new)>(c: Codec<T>)
  {
    (forall x, rest :: Returns(c, x, rest)) && (forall bytes :: Reproduces(c, bytes))
  }

  /** An exact codec is injective and prefix-free. */
  lemma {:induction false} PrefixFree<T(!new)>(c: Codec<T>, x: T, y: T, tail: seq<Byte>)
    requires Exact(c) && c.valid(x) && c.valid(y) && c.encode(y) == c.encode(x) + tail
    ensures x == y && tail == []
  {
    assert Returns(c, x, tail) && Returns(c, y, []);
    assert c.encode(y) + [] == c.encode(x) + tail;
  }

  // ---- raw bytes ----

  /** Exactly n bytes. */
  function Raw(n: nat): Codec<seq<Byte>>
  {
    Codec((x: seq<Byte>) => x,
          (bytes: seq<Byte>) => if n <= |bytes| then Some(Decoded(bytes[..n], bytes[n..])) else None,
          (x: seq<Byte>) => |x| == n)
  }

  lemma {:induction false} RawExact(n: nat)
    ensures Exact(Raw(n))
  {
    forall x, rest ensures Returns(Raw(n), x, rest) {
      if |x| == n { assert (x + rest)[..n] == x && (x + rest)[n..] == rest; }
    }
    forall bytes ensures Reproduces(Raw(n), bytes) {
      if n <= |bytes| { assert bytes == bytes[..n] + bytes[n..]; }
    }
  }

  // ---- little-endian numbers ----

  function Bound(k: nat): (b: nat)
    ensures b > 0
  {
    if k == 0 then 1 else 0x100 * Bound(k - 1)
  }

  function NumberBytes(n: nat, k: nat): (bytes: seq<Byte>)
    ensures |bytes| == k
    decreases k
  {
    if k == 0 then [] else [n % 0x100] + NumberBytes(n / 0x100, k - 1)
  }

  lemma {:induction false} NumberOfBytes(bytes: seq<Byte>)
    ensures LittleEndian(bytes) < Bound(|bytes|) && NumberBytes(LittleEndian(bytes), |bytes|) == bytes
  {
    if |bytes| > 0 {
      NumberOfBytes(bytes[1..]);
      LowByte(bytes[0], LittleEndian(bytes[1..]));
      assert bytes == [bytes[0]] + bytes[1..];
    }
  }

  lemma {:induction false} LowByte(b: Byte, r: nat)
    ensures ((b as nat) + 0x100 * r) % 0x100 == b && ((b as nat) + 0x100 * r) / 0x100 == r
  {
  }

  lemma {:induction false} BytesOfNumber(n: nat, k: nat)
    requires n < Bound(k)
    ensures LittleEndian(NumberBytes(n, k)) == n
    decreases k
  {
    if k > 0 {
      BytesOfNumber(n / 0x100, k - 1);
      assert NumberBytes(n, k)[1..] == NumberBytes(n / 0x100, k - 1);
    }
  }

  // ---- mapped values ----

  /** A codec for B on top of one for A: `into` may refuse, `back` says how to write. */
  function Mapped<A, B>(c: Codec<A>, into: A -> Option<B>, back: B -> A): Codec<B>
  {
    Codec((b: B) => c.encode(back(b)),
          (bytes: seq<Byte>) => MapDecoded(c.decode(bytes), into),
          (b: B) => c.valid(back(b)) && into(back(b)).Some?)
  }

  function MapDecoded<A, B>(d: Option<Decoded<A>>, into: A -> Option<B>): Option<Decoded<B>>
  {
    match d
    case None => None
    case Some(x) => (match into(x.value) case None => None case Some(b) => Some(Decoded(b, x.rest)))
  }

  /** `back` writes exactly what `into` accepts. */
  ghost predicate Inverse<A(!new), B(!new)>(into: A -> Option<B>, back: B -> A)
  {
    && (forall a :: into(a).Some? ==> back(into(a).value) == a)
    && (forall b :: into(back(b)).Some? ==> into(back(b)).value == b)
  }

  lemma {:induction false} MappedExact<A(!new), B(!new)>(c: Codec<A>, into: A -> Option<B>, back: B -> A)
    requires Exact(c) && Inverse(into, back)
    ensures Exact(Mapped(c, into, back))
  {
    var m := Mapped(c, into, back);
    forall b, rest ensures Returns(m, b, rest) { assert Returns(c, back(b), rest); }
    forall bytes ensures Reproduces(m, bytes) { assert Reproduces(c, bytes); }
  }

  function Number(k: nat): Codec<nat>
  {
    Codec((n: nat) => NumberBytes(n, k),
          (bytes: seq<Byte>) => if k <= |bytes| then Some(Decoded(LittleEndian(bytes[..k]), bytes[k..])) else None,
          (n: nat) => n < Bound(k))
  }

  lemma {:induction false} NumberExact(k: nat)
    ensures Exact(Number(k))
  {
    forall n: nat, rest ensures Returns(Number(k), n, rest) {
      if n < Bound(k) {
        BytesOfNumber(n, k);
        var bytes := NumberBytes(n, k);
        assert (bytes + rest)[..k] == bytes && (bytes + rest)[k..] == rest;
      }
    }
    forall bytes ensures Reproduces(Number(k), bytes) {
      if k <= |bytes| {
        NumberOfBytes(bytes[..k]);
        assert bytes == bytes[..k] + bytes[k..];
      }
    }
  }

  // ---- sequences and choices ----

  function Both<A, B>(a: Codec<A>, b: Codec<B>): Codec<(A, B)>
  {
    Codec((x: (A, B)) => a.encode(x.0) + b.encode(x.1),
          (bytes: seq<Byte>) => DecodeBoth(a, b, bytes),
          (x: (A, B)) => a.valid(x.0) && b.valid(x.1))
  }

  function DecodeBoth<A, B>(a: Codec<A>, b: Codec<B>, bytes: seq<Byte>): Option<Decoded<(A, B)>>
  {
    match a.decode(bytes)
    case None => None
    case Some(x) =>
      match b.decode(x.rest)
      case None => None
      case Some(y) => Some(Decoded((x.value, y.value), y.rest))
  }

  lemma {:induction false} BothExact<A(!new), B(!new)>(a: Codec<A>, b: Codec<B>)
    requires Exact(a) && Exact(b)
    ensures Exact(Both(a, b))
  {
    forall x: (A, B), rest ensures Returns(Both(a, b), x, rest) {
      assert Returns(a, x.0, b.encode(x.1) + rest) && Returns(b, x.1, rest);
      assert a.encode(x.0) + b.encode(x.1) + rest == a.encode(x.0) + (b.encode(x.1) + rest);
    }
    forall bytes ensures Reproduces(Both(a, b), bytes) {
      assert Reproduces(a, bytes);
      if a.decode(bytes).Some? {
        var x := a.decode(bytes).value;
        assert Reproduces(b, x.rest);
        if b.decode(x.rest).Some? {
          var y := b.decode(x.rest).value;
          assert a.encode(x.value) + (b.encode(y.value) + y.rest) == a.encode(x.value) + b.encode(y.value) + y.rest;
        }
      }
    }
  }

  datatype Either<+A, +B> = First(a: A) | Second(b: B)

  /** A tag byte, 0 or 1, and the alternative it selects. */
  function Choice<A, B>(a: Codec<A>, b: Codec<B>): Codec<Either<A, B>>
  {
    Codec((x: Either<A, B>) => (match x case First(v) => [0] + a.encode(v) case Second(v) => [1] + b.encode(v)),
          (bytes: seq<Byte>) => DecodeChoice(a, b, bytes),
          (x: Either<A, B>) => (match x case First(v) => a.valid(v) case Second(v) => b.valid(v)))
  }

  function DecodeChoice<A, B>(a: Codec<A>, b: Codec<B>, bytes: seq<Byte>): Option<Decoded<Either<A, B>>>
  {
    if |bytes| == 0 then None
    else if bytes[0] == 0 then
      (match a.decode(bytes[1..]) case None => None case Some(d) => Some(Decoded(First(d.value), d.rest)))
    else if bytes[0] == 1 then
      (match b.decode(bytes[1..]) case None => None case Some(d) => Some(Decoded(Second(d.value), d.rest)))
    else None
  }

  lemma {:induction false} ChoiceExact<A(!new), B(!new)>(a: Codec<A>, b: Codec<B>)
    requires Exact(a) && Exact(b)
    ensures Exact(Choice(a, b))
  {
    forall x: Either<A, B>, rest ensures Returns(Choice(a, b), x, rest) {
      match x
      case First(v) => assert Returns(a, v, rest); assert ([0] + a.encode(v) + rest)[1..] == a.encode(v) + rest;
      case Second(v) => assert Returns(b, v, rest); assert ([1] + b.encode(v) + rest)[1..] == b.encode(v) + rest;
    }
    forall bytes ensures Reproduces(Choice(a, b), bytes) {
      if |bytes| > 0 {
        assert Reproduces(a, bytes[1..]) && Reproduces(b, bytes[1..]);
        assert bytes == [bytes[0]] + bytes[1..];
      }
    }
  }

  // ---- length-prefixed text ----

  /** A 32-bit length of at most `limit`, and that many bytes of text. */
  function Text(limit: nat, utf8: seq<Byte> -> bool): Codec<seq<Byte>>
  {
    Codec((t: seq<Byte>) => NumberBytes(|t|, 4) + t,
          (bytes: seq<Byte>) => DecodeText(limit, utf8, bytes),
          (t: seq<Byte>) => |t| <= limit && |t| < Bound(4) && utf8(t))
  }

  function DecodeText(limit: nat, utf8: seq<Byte> -> bool, bytes: seq<Byte>): Option<Decoded<seq<Byte>>>
  {
    match Number(4).decode(bytes)
    case None => None
    case Some(d) =>
      if d.value > limit || d.value > |d.rest| || !utf8(d.rest[..d.value]) then None
      else Some(Decoded(d.rest[..d.value], d.rest[d.value..]))
  }

  lemma {:induction false} TextReturns(limit: nat, utf8: seq<Byte> -> bool, t: seq<Byte>, rest: seq<Byte>)
    ensures Returns(Text(limit, utf8), t, rest)
  {
    NumberExact(4);
    assert Returns(Number(4), |t|, t + rest);
    assert NumberBytes(|t|, 4) + t + rest == NumberBytes(|t|, 4) + (t + rest);
    assert (t + rest)[..|t|] == t && (t + rest)[|t|..] == rest;
  }

  lemma {:induction false} TextReproduces(limit: nat, utf8: seq<Byte> -> bool, bytes: seq<Byte>)
    ensures Reproduces(Text(limit, utf8), bytes)
  {
    NumberExact(4);
    assert Reproduces(Number(4), bytes);
    if Number(4).decode(bytes).Some? {
      var d := Number(4).decode(bytes).value;
      if d.value <= |d.rest| {
        var t, rest := d.rest[..d.value], d.rest[d.value..];
        assert d.rest == t + rest;
        assert NumberBytes(|t|, 4) + (t + rest) == NumberBytes(|t|, 4) + t + rest;
      }
    }
  }

  lemma {:induction false} TextExact(limit: nat, utf8: seq<Byte> -> bool)
    ensures Exact(Text(limit, utf8))
  {
    forall t, rest ensures Returns(Text(limit, utf8), t, rest) { TextReturns(limit, utf8, t, rest); }
    forall bytes ensures Reproduces(Text(limit, utf8), bytes) { TextReproduces(limit, utf8, bytes); }
  }

  // ---- guards ----

  /** Guards for predicates about what a codec does to some bytes: such a predicate looks into the codec
      only where its guards are mentioned. */
  ghost predicate Opened<T>(k: int, c: Codec<T>, bytes: seq<Byte>) { true }
  ghost predicate Closed<T>(k: int, c: Codec<T>, bytes: seq<Byte>) { true }
}
