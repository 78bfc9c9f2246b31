/**
 The collection of collection.cpp, which writes into a buffer of the size it has computed, and the iterators of
 collection_iterator.cpp and map_iterator.cpp, proved to write and read the bytes of `CollectionSpec`.
 */
module Collection {
  import opened Options
  import opened Spec = CollectionSpec

  method CopyTo(buf: array<Byte>, pos: nat, data: Bytes)
    requires pos + |data| <= buf.Length
    modifies buf
    ensures buf[..pos] == old(buf[..pos]) && buf[pos + |data|..] == old(buf[pos + |data|..])
    ensures buf[..pos + |data|] == old(buf[..pos]) + data
  {
    forall k | 0 <= k < |data| {
      buf[pos + k] := data[k];
    }
  }

  lemma {:induction false} SizeOfAppended(items: seq<Bytes>, item: Bytes, f: Field)
    ensures EncodeItems(items + [item], f) == EncodeItems(items, f) + EncodeItem(item, f)
  {
    if items == [] {
      assert [] + [item] == [item];
    } else {
      assert (items + [item])[1..] == items[1..] + [item];
      SizeOfAppended(items[1..], item, f);
      AppendThrice(EncodeItem(items[0], f), EncodeItems(items[1..], f), EncodeItem(item, f));
    }
  }

  lemma AppendThrice(a: Bytes, b: Bytes, c: Bytes)
    ensures a + (b + c) == (a + b) + c
  {
  }

  lemma ValueAt(data: Bytes, pos: nat, f: Field)
    requires pos <= |data| && DecodeValue(data[pos..], f).Some?
    ensures pos + f.width <= |data|
    ensures
      var start, size := pos + f.width, f.decode(data[pos..pos + f.width]);
      && 0 <= size && start + size <= |data|
      && DecodeValue(data[pos..], f) == Some((data[start..start + size], data[start + size..]))
  {
    assert data[pos..][..f.width] == data[pos..pos + f.width];
    var rest, size := data[pos + f.width..], f.decode(data[pos..pos + f.width]);
    assert data[pos..][f.width..] == rest;
    assert rest[..size] == data[pos + f.width..pos + f.width + size];
    assert rest[size..] == data[pos + f.width + size..];
  }

  lemma ElementAt(data: Bytes, pos: nat, f: Field)
    requires pos <= |data| && DecodeElement(data[pos..], f).Some?
    ensures pos + f.width <= |data|
    ensures
      var start, size := pos + f.width, f.decode(data[pos..pos + f.width]);
      var end := if size > 0 then start + size else start;
      && end <= |data|
      && DecodeElement(data[pos..], f) ==
           Some((if size < 0 then None else Some(data[start..start + size]), data[end..]))
  {
    assert data[pos..][..f.width] == data[pos..pos + f.width];
    var rest, size := data[pos + f.width..], f.decode(data[pos..pos + f.width]);
    assert data[pos..][f.width..] == rest;
    if size >= 0 {
      assert rest[..size] == data[pos + f.width..pos + f.width + size];
      assert rest[size..] == data[pos + f.width + size..];
    }
  }

  lemma TwoValues(data: Bytes, f: Field)
    requires DecodeValues(data, 2, f).Some?
    ensures
      var first := DecodeValue(data, f);
      && first.Some? && DecodeValue(first.value.1, f).Some?
      && var second := DecodeValue(first.value.1, f);
         DecodeValues(data, 2, f) == Some(([first.value.0, second.value.0], second.value.1))
  {
    var (v, rest) := DecodeValue(data, f).value;
    var (w, end) := DecodeValue(rest, f).value;
    assert DecodeValues(end, 0, f) == Some(([], end));
    assert DecodeValues(rest, 1, f) == Prepend([w], Some(([], end)));
    assert DecodeValues(data, 2, f) == Prepend([v], DecodeValues(rest, 1, f));
    assert [v] + ([w] + []) == [v, w];
  }

  class Collection {
    const isMap: bool
    var items: seq<Bytes>

    constructor (isMap: bool)
      ensures items == [] && this.isMap == isMap
    {
      this.isMap, items := isMap, [];
    }

    /** The encoded value goes to the end; null is an empty buffer. */
    method Append(value: Option<Bytes>)
      modifies this
      ensures items == old(items) + [if value.Some? then value.value else []]
    {
      items := items + [if value.Some? then value.value else []];
    }

    method GetItemsSize(f: Field) returns (size: nat)
      requires f.Proper()
      ensures size == |EncodeItems(items, f)|
    {
      size := 0;
      for i := 0 to |items|
        invariant size == |EncodeItems(items[..i], f)|
      {
        assert items[..i + 1] == items[..i] + [items[i]];
        SizeOfAppended(items[..i], items[i], f);
        size := size + f.width;
        size := size + |items[i]|;
      }
      assert items[..|items|] == items;
    }

    method EncodeItemsTo(buf: array<Byte>, start: nat, f: Field)
      requires f.Proper() && start + |EncodeItems(items, f)| == buf.Length
      modifies buf
      ensures buf[..] == old(buf[..start]) + EncodeItems(items, f)
    {
      var pos := start;
      for i := 0 to |items|
        invariant pos == start + |EncodeItems(items[..i], f)|
        invariant pos + |EncodeItems(items[i..], f)| == buf.Length
        invariant buf[..pos] == old(buf[..start]) + EncodeItems(items[..i], f)
      {
        ghost var written := EncodeItems(items[..i], f);
        var item := items[i];
        assert items[i..][1..] == items[i + 1..] && items[..i + 1] == items[..i] + [item];
        SizeOfAppended(items[..i], item, f);
        EncodeItemTo(buf, pos, item, f);
        pos := pos + f.width + |item|;
        AppendThrice(old(buf[..start]), written, EncodeItem(item, f));
      }
      assert items[..|items|] == items && items[|items|..] == [];
    }

    method EncodeItemTo(buf: array<Byte>, pos: nat, item: Bytes, f: Field)
      requires f.Proper() && pos + f.width + |item| <= buf.Length
      modifies buf
      ensures buf[..pos + f.width + |item|] == old(buf[..pos]) + EncodeItem(item, f)
    {
      CopyTo(buf, pos, f.encode(|item|));
      CopyTo(buf, pos + f.width, item);
      AppendThrice(old(buf[..pos]), f.encode(|item|), item);
    }

    method GetCount() returns (n: nat)
      ensures n == Count(items, isMap)
    {
      n := if isMap then |items| / 2 else |items|;
    }

    /** Inner collections are encoded without their length, always with wide fields. */
    method EncodeInner() returns (buf: array<Byte>)
      ensures fresh(buf) && buf[..] == Spec.Encode(items, isMap, WIDE)
    {
      FieldsAreProper(3);
      var size := GetItemsSize(WIDE);
      buf := new Byte[4 + size];
      var count := GetCount();
      CopyTo(buf, 0, WIDE.encode(count));
      assert buf[..4] == WIDE.encode(count);
      EncodeItemsTo(buf, 4, WIDE);
    }

    /** The size of the buffer is exactly what is written. */
    method EncodeWithLength(version: int) returns (buf: array<Byte>)
      ensures fresh(buf) && buf[..] == Spec.EncodeWithLength(items, isMap, FieldOf(version))
    {
      FieldsAreProper(version);
      var f := FieldOf(version);
      var size := GetItemsSize(f);
      var count := GetCount();
      ghost var body := Spec.Encode(items, isMap, f);
      assert |body| == f.width + size;
      buf := new Byte[4 + (f.width + size)];
      CopyTo(buf, 0, WIDE.encode(f.width + size));
      assert buf[..4] == WIDE.encode(|body|);
      CopyTo(buf, 4, f.encode(count));
      EncodeItemsTo(buf, 4 + f.width, f);
      AppendThrice(WIDE.encode(|body|), f.encode(count), EncodeItems(items, f));
    }
  }

  /** A cursor over the bytes behind the count; reading outside of them is excluded by the contracts. */
  class CollectionIterator {
    const data: Bytes
    const f: Field
    const count: int
    var position: nat
    var index: int
    var value: Bytes

    ghost predicate Valid()
      reads this
    {
      position <= |data| && index >= -1
    }

    /** How many values are still to come. */
    ghost function Left(): nat
      reads this
    {
      if index + 1 < count then count - (index + 1) else 0
    }

    constructor (data: Bytes, f: Field, count: int)
      ensures Valid() && position == 0 && index == -1 && this.data == data && this.f == f && this.count == count
    {
      this.data, this.f, this.count := data, f, count;
      position, index, value := 0, -1, [];
    }

    method Next() returns (more: bool)
      requires Valid() && (index + 1 < count ==> DecodeValue(data[position..], f).Some?)
      modifies this
      ensures Valid() && (more <==> old(index) + 1 < count)
      ensures if more then index == old(index) + 1 &&
                           (value, data[position..]) == DecodeValue(data[old(position)..], f).value
              else index == old(index) && position == old(position)
    {
      if index + 1 >= count {
        return false;
      }
      index := index + 1;
      ValueAt(data, position, f);
      var size := f.decode(data[position..position + f.width]);
      var start := position + f.width;
      value := data[start..start + size];
      position := start + size;
      return true;
    }

    /** Iterating to the end returns all the values and stops behind them. */
    method Drain() returns (values: seq<Bytes>)
      requires Valid() && DecodeValues(data[position..], Left(), f).Some?
      modifies this
      ensures Valid() && Left() == 0
      ensures Some((values, data[position..])) == old(DecodeValues(data[position..], Left(), f))
    {
      values := [];
      ghost var all := DecodeValues(data[position..], Left(), f);
      PrependNothing(all);
      while true
        invariant Valid() && DecodeValues(data[position..], Left(), f).Some?
        invariant all == Prepend(values, DecodeValues(data[position..], Left(), f))
        decreases Left()
      {
        ghost var before := values;
        var more := Next();
        if !more { break; }
        values := values + [value];
        PrependTwice(before, [value], DecodeValues(data[position..], Left(), f));
      }
      assert values + [] == values;
    }
  }

  /** A representable collection that is encoded for a protocol version is read back by the iterator, which stops at
      the end of the buffer. */
  method EncodeThenIterate(c: Collection, version: int) returns (values: seq<Bytes>, behind: Bytes)
    requires Representable(c.items, c.isMap, FieldOf(version))
    ensures values == c.items && behind == []
  {
    var f := FieldOf(version);
    FieldsAreProper(version);
    CollectionRoundTrip(c.items, [], c.isMap, version);
    var buf := c.EncodeWithLength(version);
    ghost var body := Spec.Encode(c.items, c.isMap, f);
    assert buf[4..] == body == body + [];
    var count := f.decode(buf[4..4 + f.width]);
    assert buf[4..4 + f.width] == body[..f.width] == f.encode(Count(c.items, c.isMap));
    var cursor := new CollectionIterator(buf[4 + f.width..], f, if c.isMap then 2 * count else count);
    assert cursor.data[0..] == body[f.width..];
    values := cursor.Drain();
    behind := cursor.data[cursor.position..];
  }

  class MapIterator {
    const data: Bytes
    const f: Field
    const count: int
    var position: nat
    var index: int
    var key: Bytes
    var value: Bytes

    ghost predicate Valid()
      reads this
    {
      position <= |data| && index >= -1
    }

    constructor (data: Bytes, f: Field, count: int)
      ensures Valid() && position == 0 && index == -1 && this.data == data && this.f == f && this.count == count
    {
      this.data, this.f, this.count := data, f, count;
      position, index, key, value := 0, -1, [], [];
    }

    method DecodeSizeAt(pos: nat) returns (start: nat, size: int)
      requires pos + f.width <= |data|
      ensures start == pos + f.width && size == f.decode(data[pos..pos + f.width])
    {
      start, size := pos + f.width, f.decode(data[pos..pos + f.width]);
    }

    /** Reads one pair, as two values of the collection. */
    method DecodePair()
      requires Valid() && DecodeValues(data[position..], 2, f).Some?
      modifies this`position, this`key, this`value
      ensures Valid() && Some(([key, value], data[position..])) == DecodeValues(data[old(position)..], 2, f)
    {
      TwoValues(data[position..], f);
      ValueAt(data, position, f);
      var start, size := DecodeSizeAt(position);
      key := data[start..start + size];
      ValueAt(data, start + size, f);
      start, size := DecodeSizeAt(start + size);
      value := data[start..start + size];
      position := start + size;
    }

    method Next() returns (more: bool)
      requires Valid() && (index + 1 < count ==> DecodeValues(data[position..], 2, f).Some?)
      modifies this
      ensures Valid() && (more <==> old(index) + 1 < count)
      ensures if more then index == old(index) + 1 &&
                           Some(([key, value], data[position..])) == DecodeValues(data[old(position)..], 2, f)
              else index == old(index) && position == old(position)
    {
      if index + 1 >= count {
        return false;
      }
      index := index + 1;
      DecodePair();
      return true;
    }

    ghost function Left(): nat
      reads this
    {
      if index + 1 < count then count - (index + 1) else 0
    }

    method Drain() returns (pairs: seq<(Bytes, Bytes)>)
      requires Valid() && DecodePairs(data[position..], Left(), f).Some?
      modifies this
      ensures Valid() && Left() == 0
      ensures Some((pairs, data[position..])) == old(DecodePairs(data[position..], Left(), f))
    {
      pairs := [];
      ghost var all := DecodePairs(data[position..], Left(), f);
      PrependNothing(all);
      while true
        invariant Valid() && DecodePairs(data[position..], Left(), f).Some?
        invariant all == Prepend(pairs, DecodePairs(data[position..], Left(), f))
        decreases Left()
      {
        ghost var before := pairs;
        var more := Next();
        if !more { break; }
        pairs := pairs + [(key, value)];
        PrependTwice(before, [(key, value)], DecodePairs(data[position..], Left(), f));
      }
      assert pairs + [] == pairs;
    }
  }

  class TupleIterator {
    const data: Bytes
    const f: Field // wide
    const types: nat // how many types are to come at the start
    var position: nat
    var next: nat
    var value: Option<Bytes> // none is null

    ghost predicate Valid()
      reads this
    {
      position <= |data| && next <= types
    }

    constructor (data: Bytes, f: Field, types: nat)
      ensures Valid() && position == 0 && next == 0 && this.data == data && this.f == f && this.types == types
    {
      this.data, this.f, this.types, position, next, value := data, f, types, 0, 0, None;
    }

    method Next() returns (more: bool)
      requires Valid() && (next < types ==> DecodeElement(data[position..], f).Some?)
      modifies this
      ensures Valid() && (more <==> old(next) < types)
      ensures if more then next == old(next) + 1 &&
                           (value, data[position..]) == DecodeElement(data[old(position)..], f).value
              else next == old(next) && position == old(position)
    {
      if next == types {
        return false;
      }
      next := next + 1;
      ElementAt(data, position, f);
      var size := f.decode(data[position..position + f.width]);
      var start := position + f.width;
      if size < 0 {
        value := None;
      } else {
        value := Some(data[start..start + size]);
      }
      position := if size > 0 then start + size else start;
      return true;
    }

    method Drain() returns (values: seq<Option<Bytes>>)
      requires Valid() && DecodeElements(data[position..], types - next, f).Some?
      modifies this
      ensures Valid() && next == types
      ensures Some((values, data[position..])) == old(DecodeElements(data[position..], types - next, f))
    {
      values := [];
      ghost var all := DecodeElements(data[position..], types - next, f);
      PrependNothing(all);
      while true
        invariant Valid() && DecodeElements(data[position..], types - next, f).Some?
        invariant all == Prepend(values, DecodeElements(data[position..], types - next, f))
        decreases types - next
      {
        ghost var before := values;
        var more := Next();
        if !more { break; }
        values := values + [value];
        PrependTwice(before, [value], DecodeElements(data[position..], types - next, f));
      }
      assert values + [] == values;
    }
  }
}
