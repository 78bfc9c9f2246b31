/**
 The bytes of a collection (collection.cpp, serialization.hpp) and what the iterators read from them.

 Lengths and counts are cut to their fields as the source does: an unsigned 16-bit field up to protocol version 2, a
 signed 32-bit field from version 3 on.
 */
module CollectionSpec {
  import opened Options

  type Byte = n: nat | n < 256

  type Bytes = seq<Byte>

  const TWO16: nat := 0x1_0000
  const TWO31: nat := 0x8000_0000
  const TWO32: nat := 0x1_0000_0000

  // ---------- Fields ----------

  function BigEndian16(n: nat): (b: Bytes)
    ensures |b| == 2
  {
    [n / 256 % 256, n % 256]
  }

  function BigEndian32(n: nat): (b: Bytes)
    ensures |b| == 4
  {
    BigEndian16(n / TWO16) + BigEndian16(n)
  }

  function Unsigned16(b: Bytes): (n: nat)
    requires |b| == 2
    ensures n < TWO16
  {
    var high, low: nat := b[0], b[1];
    high * 256 + low
  }

  function Signed32(b: Bytes): (n: int)
    requires |b| == 4
    ensures 0 - TWO31 <= n < TWO31
  {
    var u := Unsigned16(b[..2]) * TWO16 + Unsigned16(b[2..]);
    if u < TWO31 then u else u - TWO32
  }

  /** How a count or a length is written and read; numbers below `limit` come back. */
  datatype Field = Field(width: nat, limit: nat, encode: nat -> Bytes, decode: Bytes -> int)
  {
    ghost predicate Proper() {
      && width > 0 && limit > 0
      && forall n: nat :: |encode(n)| == width && (decode(encode(n)) == n <==> n < limit)
    }
  }

  const NARROW := Field(2, TWO16, n => BigEndian16(n), b => if |b| == 2 then Unsigned16(b) else 0)

  const WIDE := Field(4, TWO31, n => BigEndian32(n), b => if |b| == 4 then Signed32(b) else 0)

  /** Protocol versions from 3 on have wide fields. */
  function FieldOf(version: int): Field { if version >= 3 then WIDE else NARROW }

  lemma Reads16(n: nat)
    ensures Unsigned16(BigEndian16(n)) == n % TWO16
  {
    assert n / 256 % 256 * 256 + n % 256 == n % TWO16;
  }

  lemma TwoHalves(n: nat)
    ensures n / TWO16 % TWO16 * TWO16 + n % TWO16 == n % TWO32
  {
    var high, low := n / TWO16, n % TWO16;
    assert n == high * TWO16 + low;
    assert high == high / TWO16 * TWO16 + high % TWO16;
    assert n == high / TWO16 * TWO32 + (high % TWO16 * TWO16 + low);
  }

  lemma Reads32(n: nat)
    ensures Signed32(BigEndian32(n)) == if n % TWO32 < TWO31 then n % TWO32 else n % TWO32 - TWO32
  {
    var b := BigEndian32(n);
    assert b[..2] == BigEndian16(n / TWO16) && b[2..] == BigEndian16(n);
    Reads16(n / TWO16);
    Reads16(n);
    TwoHalves(n);
  }

  lemma WideIsProper()
    ensures WIDE.Proper()
  {
    hide BigEndian32, Signed32;
    forall n: nat ensures WIDE.decode(WIDE.encode(n)) == n <==> n < TWO31 { WideReadsBack(n); }
  }

  lemma WideReadsBack(n: nat)
    ensures Signed32(BigEndian32(n)) == n <==> n < TWO31
  {
    hide BigEndian32, Signed32;
    Reads32(n);
  }

  lemma NarrowIsProper()
    ensures NARROW.Proper()
  {
    forall n: nat ensures NARROW.decode(NARROW.encode(n)) == n <==> n < TWO16 {
      hide BigEndian16, Unsigned16;
      Reads16(n);
    }
    hide BigEndian16, Unsigned16;
  }

  lemma FieldsAreProper(version: int)
    ensures FieldOf(version).Proper() && WIDE.Proper()
  {
    WideIsProper();
    NarrowIsProper();
    hide Field.Proper;
  }

  /** The number that bytes stand for, high-order byte first. */
  function Unsigned(b: Bytes): nat { if b == [] then 0 else Unsigned(b[..|b| - 1]) * 256 + b[|b| - 1] as nat }

  lemma UnsignedTwo(b: Bytes)
    requires |b| == 2
    ensures Unsigned(b) == b[0] as nat * 256 + b[1] as nat
  {
    assert Unsigned(b[..1]) == Unsigned([]) * 256 + b[0] as nat;
    assert b[..1][..0] == [];
  }

  lemma UnsignedFour(b: Bytes)
    requires |b| == 4
    ensures Unsigned(b) == Unsigned(b[..2]) * TWO16 + Unsigned(b[2..])
  {
    UnsignedTwo(b[..2]);
    UnsignedTwo(b[2..]);
    assert b[..3][..2] == b[..2];
    assert Unsigned(b) == Unsigned(b[..3]) * 256 + b[3] as nat;
    assert Unsigned(b[..3]) == Unsigned(b[..2]) * 256 + b[2] as nat;
  }

  /** What is on the wire: from version 3 on a number takes four bytes, high-order byte first, and is read as a signed
      number; up to version 2 it takes two and is read as an unsigned one. */
  lemma FieldBytes(version: int, n: nat)
    ensures
      var f := FieldOf(version);
      if version >= 3 then f.width == 4 && |f.encode(n)| == 4 && Unsigned(f.encode(n)) == n % 0x1_0000_0000
      else f.width == 2 && |f.encode(n)| == 2 && Unsigned(f.encode(n)) == n % 0x1_0000
  {
    UnsignedTwo(BigEndian16(n));
    Reads16(n);
    if version >= 3 {
      var b := BigEndian32(n);
      assert b[..2] == BigEndian16(n / TWO16) && b[2..] == BigEndian16(n);
      UnsignedTwo(BigEndian16(n / TWO16));
      Reads16(n / TWO16);
      UnsignedFour(b);
      TwoHalves(n);
    }
  }

  lemma FieldReads(version: int, b: Bytes)
    requires |b| == if version >= 3 then 4 else 2
    ensures
      FieldOf(version).decode(b) ==
        if version >= 3 && b[0] >= 128 then Unsigned(b) - 0x1_0000_0000 else Unsigned(b)
  {
    if version >= 3 {
      UnsignedFour(b);
      UnsignedTwo(b[..2]);
      UnsignedTwo(b[2..]);
    } else {
      UnsignedTwo(b);
    }
  }

  // ---------- Encoding ----------

  function EncodeItem(item: Bytes, f: Field): Bytes {
    f.encode(|item|) + item
  }

  function EncodeItems(items: seq<Bytes>, f: Field): Bytes {
    if items == [] then [] else EncodeItem(items[0], f) + EncodeItems(items[1..], f)
  }

  /** `get_count`: a map counts pairs. */
  function Count(items: seq<Bytes>, isMap: bool): nat { if isMap then |items| / 2 else |items| }

  function Encode(items: seq<Bytes>, isMap: bool, f: Field): Bytes {
    f.encode(Count(items, isMap)) + EncodeItems(items, f)
  }

  function EncodeWithLength(items: seq<Bytes>, isMap: bool, f: Field): Bytes {
    var body := Encode(items, isMap, f);
    WIDE.encode(|body|) + body
  }

  // ---------- Decoding ----------

  /** One value and what follows; none if its length is negative or it would run over the end. */
  function DecodeValue(data: Bytes, f: Field): Option<(Bytes, Bytes)> {
    if |data| < f.width then None
    else
      var size, rest := f.decode(data[..f.width]), data[f.width..];
      if size < 0 || size > |rest| then None else Some((rest[..size], rest[size..]))
  }

  function Prepend<T>(front: seq<T>, o: Option<(seq<T>, Bytes)>): Option<(seq<T>, Bytes)> {
    if o.None? then None else Some((front + o.value.0, o.value.1))
  }

  lemma PrependNothing<T>(o: Option<(seq<T>, Bytes)>)
    ensures Prepend([], o) == o
  {
    if o.Some? { assert [] + o.value.0 == o.value.0; }
  }

  lemma PrependTwice<T>(a: seq<T>, b: seq<T>, o: Option<(seq<T>, Bytes)>)
    ensures Prepend(a, Prepend(b, o)) == Prepend(a + b, o)
  {
    if o.Some? { assert a + (b + o.value.0) == (a + b) + o.value.0; }
  }

  function DecodeValues(data: Bytes, n: nat, f: Field): (o: Option<(seq<Bytes>, Bytes)>)
    ensures o.Some? ==> |o.value.0| == n
  {
    if n == 0 then Some(([], data))
    else
      match DecodeValue(data, f)
      case None => None
      case Some((v, rest)) => Prepend([v], DecodeValues(rest, n - 1, f))
  }

  /** A collection value: its count from the front, then what the collection iterator returns. */
  function DecodeCollection(data: Bytes, isMap: bool, f: Field): Option<(seq<Bytes>, Bytes)> {
    if |data| < f.width then None
    else
      var count := f.decode(data[..f.width]);
      var n := if isMap then 2 * count else count;
      DecodeValues(data[f.width..], if n < 0 then 0 else n, f)
  }

  // ---------- Round trip ----------

  predicate AllFit(items: seq<Bytes>, f: Field) {
    items == [] || (|items[0]| < f.limit && AllFit(items[1..], f))
  }

  lemma PrependIs<T>(s: seq<T>, o: Option<(seq<T>, Bytes)>, rest: Bytes)
    requires s != []
    ensures Prepend([s[0]], o) == Some((s, rest)) <==> o == Some((s[1..], rest))
  {
    assert s == [s[0]] + s[1..];
    if o.Some? { assert ([s[0]] + o.value.0)[1..] == o.value.0; }
  }

  /** An item comes back exactly if its length fits the field. */
  lemma ItemRoundTrip(item: Bytes, rest: Bytes, f: Field)
    requires f.Proper()
    ensures |item| < f.limit ==> DecodeValue(EncodeItem(item, f) + rest, f) == Some((item, rest))
    ensures |item| >= f.limit ==>
              var o := DecodeValue(EncodeItem(item, f) + rest, f);
              o.Some? ==> o.value.0 != item
  {
    var data := EncodeItem(item, f) + rest;
    assert data[..f.width] == f.encode(|item|) && data[f.width..] == item + rest;
    assert (item + rest)[..|item|] == item && (item + rest)[|item|..] == rest;
  }

  lemma EncodeItemsStep(items: seq<Bytes>, rest: Bytes, f: Field)
    requires items != []
    ensures EncodeItems(items, f) + rest == EncodeItem(items[0], f) + (EncodeItems(items[1..], f) + rest)
  {
  }

  /** The first item that does not fit spoils the result; if the first one fits, the others decide. */
  lemma ItemsStep(items: seq<Bytes>, rest: Bytes, f: Field)
    requires f.Proper() && items != []
    ensures
      var o := DecodeValues(EncodeItems(items, f) + rest, |items|, f);
      var others := DecodeValues(EncodeItems(items[1..], f) + rest, |items| - 1, f);
      if |items[0]| < f.limit then
        o == Prepend([items[0]], others)
      else o.Some? ==> o.value.0[0] != items[0]
  {
    EncodeItemsStep(items, rest, f);
    ItemRoundTrip(items[0], EncodeItems(items[1..], f) + rest, f);
  }

  /** Items come back in order, and up to the end of their bytes, exactly if the length of each fits the field. */
  lemma {:induction false} ItemsRoundTrip(items: seq<Bytes>, rest: Bytes, f: Field)
    requires f.Proper()
    ensures AllFit(items, f) <==> DecodeValues(EncodeItems(items, f) + rest, |items|, f) == Some((items, rest))
  {
    if items == [] {
      assert EncodeItems(items, f) + rest == rest;
    } else {
      ItemsStep(items, rest, f);
      ItemsRoundTrip(items[1..], rest, f);
      PrependIs(items, DecodeValues(EncodeItems(items[1..], f) + rest, |items| - 1, f), rest);
    }
  }

  /** What a collection must meet to come back: its count and every length fit the field, and a map has no key without
      a value. */
  predicate Representable(items: seq<Bytes>, isMap: bool, f: Field) {
    Count(items, isMap) < f.limit && AllFit(items, f) && (isMap ==> |items| % 2 == 0)
  }

  lemma CountedRoundTrip(items: seq<Bytes>, rest: Bytes, isMap: bool, f: Field)
    requires f.Proper()
    ensures DecodeCollection(Encode(items, isMap, f) + rest, isMap, f) == Some((items, rest)) <==>
            Representable(items, isMap, f)
  {
    var data := Encode(items, isMap, f) + rest;
    var behind := EncodeItems(items, f) + rest;
    assert data[..f.width] == f.encode(Count(items, isMap)) && data[f.width..] == behind;
    ItemsRoundTrip(items, rest, f);
  }

  /** Main result: encoding and iterating gives the items back, and consumes exactly their bytes, if and only if the
      collection is representable. */
  lemma CollectionRoundTrip(items: seq<Bytes>, rest: Bytes, isMap: bool, version: int)
    ensures
      var f := FieldOf(version);
      DecodeCollection(Encode(items, isMap, f) + rest, isMap, f) == Some((items, rest)) <==>
        Representable(items, isMap, f)
  {
    FieldsAreProper(version);
    CountedRoundTrip(items, rest, isMap, FieldOf(version));
  }

  /** A column: the length of the value, then the value; a length that is not positive reads as no collection. */
  function DecodeColumn(data: Bytes, isMap: bool, f: Field): Option<(seq<Bytes>, Bytes)> {
    if |data| < 4 || WIDE.decode(data[..4]) <= 0 then None else DecodeCollection(data[4..], isMap, f)
  }

  /** As a column, a collection comes back exactly if it is representable and its length is read as positive. */
  lemma ColumnRoundTrip(items: seq<Bytes>, rest: Bytes, isMap: bool, version: int)
    ensures
      var f := FieldOf(version);
      DecodeColumn(EncodeWithLength(items, isMap, f) + rest, isMap, f) == Some((items, rest)) <==>
        Representable(items, isMap, f) && 0 < |Encode(items, isMap, f)| % TWO32 < TWO31
  {
    var f := FieldOf(version);
    FieldsAreProper(version);
    LengthIsRead(items, rest, isMap, f);
    CountedRoundTrip(items, rest, isMap, f);
  }

  lemma LengthIsRead(items: seq<Bytes>, rest: Bytes, isMap: bool, f: Field)
    requires f.Proper() && WIDE.Proper()
    ensures DecodeColumn(EncodeWithLength(items, isMap, f) + rest, isMap, f) ==
              if 0 < |Encode(items, isMap, f)| % TWO32 < TWO31
              then DecodeCollection(Encode(items, isMap, f) + rest, isMap, f) else None
  {
    var body := Encode(items, isMap, f);
    var data := EncodeWithLength(items, isMap, f) + rest;
    assert data[..4] == WIDE.encode(|body|) && data[4..] == body + rest;
    WideReads(|body|);
  }

  lemma WideReads(n: nat)
    ensures WIDE.decode(WIDE.encode(n)) == if n % TWO32 < TWO31 then n % TWO32 else n % TWO32 - TWO32
  {
    Reads32(n);
  }

  lemma HighHalf(n: nat)
    ensures n / TWO16 % TWO16 <= n && (n > 0 ==> n / TWO16 % TWO16 < n) && (n < TWO16 ==> n / TWO16 == 0)
  {
  }

  /** A collection inside a collection is always written with wide fields.  Up to version 2 its count is read from the
      high half of the field, so it comes back exactly if it is empty, and any other of a usual size reads as empty. */
  lemma NestedReadsEmpty(items: seq<Bytes>, rest: Bytes, isMap: bool, version: int)
    requires version < 3
    ensures
      var o := DecodeCollection(Encode(items, isMap, WIDE) + rest, isMap, FieldOf(version));
      && (o.Some? && o.value.0 == items <==> items == [])
      && (Count(items, isMap) < TWO16 ==> o.Some? && o.value.0 == [])
  {
    hide DecodeValues, EncodeItems;
    var n := Count(items, isMap);
    var data := Encode(items, isMap, WIDE) + rest;
    assert data[..2] == BigEndian16(n / TWO16);
    Reads16(n / TWO16);
    HighHalf(n);
    NoValues(data[2..], FieldOf(version));
  }

  lemma NoValues(data: Bytes, f: Field)
    ensures DecodeValues(data, 0, f) == Some(([], data))
  {
  }

  // ---------- Pairs of a map ----------

  /** What the map iterator returns: `n` keys with their values. */
  function DecodePairs(data: Bytes, n: nat, f: Field): (o: Option<(seq<(Bytes, Bytes)>, Bytes)>)
    ensures o.Some? ==> |o.value.0| == n
    decreases n
  {
    if n == 0 then Some(([], data))
    else
      match DecodeValues(data, 2, f)
      case None => None
      case Some((kv, rest)) =>
        Prepend([(kv[0], kv[1])], DecodePairs(rest, n - 1, f))
  }

  function Flatten(pairs: seq<(Bytes, Bytes)>): seq<Bytes> {
    if pairs == [] then [] else [pairs[0].0, pairs[0].1] + Flatten(pairs[1..])
  }

  /** The map iterator returns, pair by pair, what the collection iterator returns one by one. */
  lemma {:induction false} PairsAreValues(data: Bytes, n: nat, f: Field)
    ensures DecodePairs(data, n, f).Some? <==> DecodeValues(data, 2 * n, f).Some?
    ensures DecodePairs(data, n, f).Some? ==>
              DecodeValues(data, 2 * n, f).value ==
                (Flatten(DecodePairs(data, n, f).value.0), DecodePairs(data, n, f).value.1)
    decreases n
  {
    if n > 0 {
      ValuesSplit(data, 2, 2 * n - 2, f);
      var first := DecodeValues(data, 2, f);
      if first.Some? {
        var kv, rest := first.value.0, first.value.1;
        PairsAreValues(rest, n - 1, f);
        var others := DecodePairs(rest, n - 1, f);
        if others.Some? {
          FlattenFirst((kv[0], kv[1]), others.value.0);
          assert kv == [kv[0], kv[1]];
        }
      }
    }
  }

  lemma FlattenFirst(p: (Bytes, Bytes), ps: seq<(Bytes, Bytes)>)
    ensures Flatten([p] + ps) == [p.0, p.1] + Flatten(ps)
  {
    assert ([p] + ps)[1..] == ps;
  }

  lemma {:induction false} FlattenIsInjective(ps: seq<(Bytes, Bytes)>, qs: seq<(Bytes, Bytes)>)
    ensures |Flatten(ps)| == 2 * |ps|
    ensures Flatten(ps) == Flatten(qs) ==> ps == qs
  {
    if ps != [] && qs != [] {
      FlattenIsInjective(ps[1..], qs[1..]);
      var f, g := Flatten(ps), Flatten(qs);
      assert f[0] == ps[0].0 && f[1] == ps[0].1 && f[2..] == Flatten(ps[1..]);
      assert g[0] == qs[0].0 && g[1] == qs[0].1 && g[2..] == Flatten(qs[1..]);
      assert ps == [ps[0]] + ps[1..] && qs == [qs[0]] + qs[1..];
    } else if ps != [] {
      FlattenIsInjective(ps[1..], []);
    }
  }

  /** The keys and values of a map come back as pairs, exactly if the length of each fits the field. */
  lemma PairsRoundTrip(pairs: seq<(Bytes, Bytes)>, rest: Bytes, version: int)
    ensures
      var f := FieldOf(version);
      DecodePairs(EncodeItems(Flatten(pairs), f) + rest, |pairs|, f) == Some((pairs, rest)) <==>
        AllFit(Flatten(pairs), f)
  {
    var f := FieldOf(version);
    var data := EncodeItems(Flatten(pairs), f) + rest;
    FieldsAreProper(version);
    FlattenIsInjective(pairs, pairs);
    ItemsRoundTrip(Flatten(pairs), rest, f);
    PairsAreValues(data, |pairs|, f);
    var o := DecodePairs(data, |pairs|, f);
    if o.Some? { FlattenIsInjective(o.value.0, pairs); }
  }

  lemma {:induction false} ValuesSplit(data: Bytes, m: nat, n: nat, f: Field)
    ensures
      var first := DecodeValues(data, m, f);
      DecodeValues(data, m + n, f) ==
        if first.None? then None else Prepend(first.value.0, DecodeValues(first.value.1, n, f))
  {
    if m == 0 {
      var o := DecodeValues(data, n, f);
      if o.Some? { assert [] + o.value.0 == o.value.0; }
    } else {
      var v := DecodeValue(data, f);
      if v.Some? {
        ValuesSplit(v.value.1, m - 1, n, f);
        var first := DecodeValues(v.value.1, m - 1, f);
        if first.Some? { PrependTwice([v.value.0], first.value.0, DecodeValues(first.value.1, n, f)); }
      }
    }
  }

  // ---------- Tuples ----------

  /** The length -1, which stands for null. */
  const NULL_LENGTH: Bytes := [255, 255, 255, 255]

  ghost predicate HasNull(f: Field) { f.Proper() && f.width == 4 && f.decode(NULL_LENGTH) == -1 }

  lemma WideHasNull()
    ensures HasNull(WIDE) && NULL_LENGTH == WIDE.encode(TWO32 - 1)
  {
    FieldsAreProper(3);
    Reads32(TWO32 - 1);
  }

  /** An element of a tuple. */
  function EncodeElement(e: Option<Bytes>, f: Field): Bytes {
    match e
    case None => NULL_LENGTH
    case Some(b) => EncodeItem(b, f)
  }

  function EncodeElements(es: seq<Option<Bytes>>, f: Field): Bytes {
    if es == [] then [] else EncodeElement(es[0], f) + EncodeElements(es[1..], f)
  }

  /** `TupleIterator`: nothing is skipped for a length that is not positive. */
  function DecodeElement(data: Bytes, f: Field): Option<(Option<Bytes>, Bytes)> {
    if |data| < f.width then None
    else
      var size, rest := f.decode(data[..f.width]), data[f.width..];
      if size < 0 then Some((None, rest))
      else if size > |rest| then None
      else Some((Some(rest[..size]), rest[size..]))
  }

  function DecodeElements(data: Bytes, n: nat, f: Field): (o: Option<(seq<Option<Bytes>>, Bytes)>)
    ensures o.Some? ==> |o.value.0| == n
  {
    if n == 0 then Some(([], data))
    else
      match DecodeElement(data, f)
      case None => None
      case Some((e, rest)) => Prepend([e], DecodeElements(rest, n - 1, f))
  }

  predicate ElementFits(e: Option<Bytes>, f: Field) { e.Some? ==> |e.value| < f.limit }

  predicate ElementsFit(es: seq<Option<Bytes>>, f: Field) {
    es == [] || (ElementFits(es[0], f) && ElementsFit(es[1..], f))
  }

  /** An element that is not null is read as a value. */
  lemma ElementIsValue(data: Bytes, f: Field)
    ensures
      var e, v := DecodeElement(data, f), DecodeValue(data, f);
      && (v.Some? ==> e == Some((Some(v.value.0), v.value.1)))
      && (v.None? && e.Some? ==> e.value.0 == None)
  {
  }

  lemma ElementRoundTrip(e: Option<Bytes>, rest: Bytes, f: Field)
    requires HasNull(f)
    ensures ElementFits(e, f) ==> DecodeElement(EncodeElement(e, f) + rest, f) == Some((e, rest))
    ensures !ElementFits(e, f) ==>
              var o := DecodeElement(EncodeElement(e, f) + rest, f);
              o.Some? ==> o.value.0 != e
  {
    match e
    case None =>
      assert (NULL_LENGTH + rest)[..4] == NULL_LENGTH && (NULL_LENGTH + rest)[4..] == rest;
    case Some(b) =>
      ItemRoundTrip(b, rest, f);
      ElementIsValue(EncodeElement(e, f) + rest, f);
  }

  lemma ElementsStep(es: seq<Option<Bytes>>, rest: Bytes, f: Field)
    requires HasNull(f) && es != []
    ensures
      var o := DecodeElements(EncodeElements(es, f) + rest, |es|, f);
      var others := DecodeElements(EncodeElements(es[1..], f) + rest, |es| - 1, f);
      if ElementFits(es[0], f) then o == Prepend([es[0]], others) else o.Some? ==> o.value.0[0] != es[0]
  {
    var behind := EncodeElements(es[1..], f) + rest;
    assert EncodeElements(es, f) + rest == EncodeElement(es[0], f) + behind;
    ElementRoundTrip(es[0], behind, f);
  }

  lemma {:induction false} ElementsRoundTrip(es: seq<Option<Bytes>>, rest: Bytes, f: Field)
    requires HasNull(f)
    ensures ElementsFit(es, f) <==> DecodeElements(EncodeElements(es, f) + rest, |es|, f) == Some((es, rest))
  {
    if es == [] {
      assert EncodeElements(es, f) + rest == rest;
    } else {
      ElementsStep(es, rest, f);
      ElementsRoundTrip(es[1..], rest, f);
      PrependIs(es, DecodeElements(EncodeElements(es[1..], f) + rest, |es| - 1, f), rest);
    }
  }

  /** The elements of a tuple come back, null ones as null, exactly if the length of each of the others fits. */
  lemma TupleRoundTrip(es: seq<Option<Bytes>>, rest: Bytes)
    ensures ElementsFit(es, WIDE) <==>
            DecodeElements(EncodeElements(es, WIDE) + rest, |es|, WIDE) == Some((es, rest))
  {
    WideHasNull();
    ElementsRoundTrip(es, rest, WIDE);
  }
}
