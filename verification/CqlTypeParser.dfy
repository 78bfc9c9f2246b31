/**
 The parser of data_type_parser.cpp with its cursor, proved to compute the functions of `CqlTypeSpec`.
 */
module CqlTypeParser {
  import opened Options
  import opened Strings
  import opened Spec = CqlTypeSpec

  /** Moving the cursor by one. */
  lemma Forward(str: string, i: nat)
    requires i < |str|
    ensures str[i..] != "" && str[i..][0] == str[i] && str[i..][1..] == str[i + 1..]
  {
  }

  /** What lies between two positions of the cursor. */
  lemma Between(str: string, i: nat, j: nat)
    requires i <= j <= |str|
    ensures str[i..][..j - i] == str[i..j] && str[i..][j - i..] == str[j..]
  {
  }

  lemma EmptyHasNoQuote(str: string)
    ensures QuotedLength(str[|str|..]) == 0
  {
  }

  lemma QuotedFrom(str: string, i: nat)
    requires i < |str|
    ensures QuotedLength(str[i..]) ==
              if str[i] != '"' then 1 + QuotedLength(str[i + 1..])
              else if i + 1 < |str| && str[i + 1] == '"' then 2 + QuotedLength(str[i + 2..])
              else 1
  {
    var r := str[i..];
    assert r[1..] == str[i + 1..];
    if |r| > 1 { assert r[1] == str[i + 1] && r[2..] == str[i + 2..]; }
  }

  lemma RawFrom(str: string, i: nat, open: nat, inQuotes: bool)
    requires i <= |str| && open > 0
    ensures RawLength(str[i..], open, inQuotes) ==
              if i == |str| then None
              else
                var c := str[i];
                var quotes := if c == '"' then !inQuotes else inQuotes;
                var more := if inQuotes then open
                            else if c == '<' then open + 1 else if c == '>' then open - 1 else open;
                Plus(1, RawLength(str[i + 1..], more, quotes))
  {
    if i < |str| { Forward(str, i); }
  }

  lemma NothingOpen(r: string, inQuotes: bool)
    ensures RawLength(r, 0, inQuotes) == Some(0)
  {
  }

  class Parser {
    const str: string
    var index: nat

    ghost predicate Valid()
      reads this
    {
      index <= |str|
    }

    /** What has not been read yet. */
    ghost function Rest(): string
      reads this
      requires Valid()
    {
      str[index..]
    }

    constructor (str: string)
      ensures Valid() && Rest() == str && this.str == str
    {
      this.str, index := str, 0;
    }

    predicate IsEos()
      reads this
    {
      index >= |str|
    }

    /** The character at the cursor; at the end it is the terminating null character. */
    function Current(): char
      reads this
    {
      if index < |str| then str[index] else '\0'
    }

    method SkipBlank()
      requires Valid()
      modifies this
      ensures Valid() && Rest() == Spec.SkipBlank(old(Rest()))
    {
      while !IsEos() && IsBlank(str[index])
        invariant Valid() && Spec.SkipBlank(Rest()) == Spec.SkipBlank(old(Rest()))
        decreases |str| - index
      {
        assert Rest()[1..] == str[index + 1..];
        index := index + 1;
      }
    }

    method SkipBlankAndComma() returns (more: bool)
      requires Valid()
      modifies this
      ensures Valid() && (more, Rest()) == Spec.SkipBlankAndComma(old(Rest()), false)
    {
      var commaFound := false;
      while !IsEos()
        invariant Valid()
        invariant Spec.SkipBlankAndComma(Rest(), commaFound) == Spec.SkipBlankAndComma(old(Rest()), false)
        decreases |str| - index
      {
        var c := str[index];
        if c == ',' {
          if commaFound { return true; }
          commaFound := true;
        } else if !IsBlank(c) {
          return true;
        }
        assert Rest()[1..] == str[index + 1..];
        index := index + 1;
      }
      return false;
    }

    method ReadQuoted()
      requires Valid() && !IsEos() && str[index] == '"'
      modifies this
      ensures index == old(index) + 1 + QuotedLength(old(str[index + 1..])) && Valid()
    {
      hide QuotedLength;
      EmptyHasNoQuote(str);
      index := index + 1;
      ghost var first := index;
      while !IsEos()
        invariant first <= index && Valid()
        invariant QuotedLength(str[first..]) == index - first + QuotedLength(Rest())
        decreases |str| - index
      {
        QuotedFrom(str, index);
        var isQuote := str[index] == '"';
        index := index + 1;
        if isQuote {
          if !IsEos() && str[index] == '"' {
            index := index + 1;
          } else {
            return;
          }
        }
      }
    }

    /** A name without quotes at its front. */
    method ReadIdentifier()
      requires Valid()
      modifies this
      ensures index == old(index) + IdentifierLength(old(Rest())) && Valid()
    {
      ghost var first := index;
      while !IsEos() && (IsIdentifierChar(str[index]) || str[index] == '"')
        invariant first <= index && Valid()
        invariant IdentifierLength(str[first..]) == index - first + IdentifierLength(Rest())
        decreases |str| - index
      {
        Forward(str, index);
        index := index + 1;
      }
    }

    method ReadNextIdentifier() returns (name: string)
      requires Valid()
      modifies this
      ensures Valid()
      ensures
        var r := old(Rest());
        name == r[..NameLength(r)] && Rest() == r[NameLength(r)..]
    {
      var start := index;
      if Current() == '"' {
        Forward(str, index);
        ReadQuoted();
      } else {
        ReadIdentifier();
      }
      name := str[start..index];
      Between(str, start, index);
    }

    method ParseTypeName() returns (name: string)
      requires Valid()
      modifies this
      ensures Valid()
      ensures
        var r := Spec.SkipBlank(old(Rest()));
        name == r[..NameLength(r)] && Rest() == r[NameLength(r)..]
    {
      SkipBlank();
      name := ReadNextIdentifier();
    }

    /** The scan to the closing bracket; the cursor is at the opening one. */
    method ReadBracketed() returns (ok: bool)
      requires Valid() && !IsEos() && str[index] == '<'
      modifies this
      ensures Valid() && (ok <==> RawLength(old(str[index + 1..]), 1, false).Some?)
      ensures ok ==> index == old(index) + 1 + RawLength(old(str[index + 1..]), 1, false).value
    {
      hide RawLength;
      var open, inQuotes := 1, false;
      ghost var first := index + 1;
      while open > 0
        invariant 0 <= open && first <= index + 1 <= |str|
        invariant RawLength(str[first..], 1, false) ==
                    Plus(index + 1 - first, RawLength(str[index + 1..], open, inQuotes))
        decreases |str| - index
      {
        index := index + 1;
        RawFrom(str, index, open, inQuotes);
        if IsEos() { return false; }
        if !inQuotes {
          if str[index] == '"' {
            inQuotes := true;
          } else if str[index] == '<' {
            open := open + 1;
          } else if str[index] == '>' {
            open := open - 1;
          }
        } else if str[index] == '"' {
          inQuotes := false;
        }
      }
      NothingOpen(str[index + 1..], inQuotes);
      index := index + 1;
      return true;
    }

    method ReadRawTypeParameters() returns (ok: bool, params: string)
      requires Valid()
      modifies this
      ensures Valid()
      ensures
        var o := ReadRaw(old(Rest()));
        (ok <==> o.Some?) && (ok ==> o.value == (params, Rest()))
    {
      hide RawLength, Spec.SkipBlank;
      SkipBlank();
      params := "";
      if IsEos() || str[index] == '>' || str[index] == ',' { return true, params; }
      if str[index] != '<' { return false, params; }
      var start := index;
      Forward(str, start);
      ok := ReadBracketed();
      if !ok { return; }
      params := str[start..index];
      Between(str, start, index);
    }

    /** One round of the loop in `parse_type_parameters`. */
    method ParseParameter() returns (found: bool, param: string)
      requires Valid()
      modifies this
      ensures Valid()
      ensures !found ==> ParametersLoop(old(Rest())) == []
      ensures found ==> ParametersLoop(old(Rest())) == [param] + ParametersLoop(Rest()) && index > old(index)
    {
      hide Spec.SkipBlankAndComma, Spec.SkipBlank, NameLength, ReadRaw;
      ghost var r := Rest();
      param := "";
      var more := SkipBlankAndComma();
      if !more { return false, param; }
      assert Rest()[0] == str[index];
      if str[index] == '>' {
        index := index + 1;
        return false, param;
      }
      var name := ParseTypeName();
      var ok, args := ReadRawTypeParameters();
      if !ok { return false, param; }
      assert |Rest()| < |r|;
      return true, name + args;
    }

    method ParseTypeParameters() returns (params: seq<string>)
      requires Valid()
      modifies this
      ensures Valid() && params == Parameters(old(Rest()))
    {
      params := [];
      if IsEos() { return; }
      var more := SkipBlankAndComma();
      assert more ==> Rest()[0] == str[index] && Rest()[1..] == str[index + 1..];
      if Current() != '<' { return; }
      index := index + 1;
      params := ParseParametersLoop();
    }

    method ParseParametersLoop() returns (params: seq<string>)
      requires Valid()
      modifies this
      ensures Valid() && params == ParametersLoop(old(Rest()))
    {
      params := [];
      var found, param := ParseParameter();
      while found
        invariant Valid()
        invariant ParametersLoop(old(Rest())) ==
                    params + if found then [param] + ParametersLoop(Rest()) else []
        decreases found, |str| - index
      {
        params := params + [param];
        found, param := ParseParameter();
      }
    }
  }

  /** `DataTypeCqlNameParser::parse`. */
  method ParseType(text: string, natives: set<string>) returns (t: DataType)
    ensures t == Parse(text, natives)
    decreases |text|, 1
  {
    var parser := new Parser(text);
    var name := parser.ParseTypeName();
    name := Lower(name);
    if name in natives { return Native(name); }
    if name == "list" || name == "set" || name == "map" || name == "tuple" || name == "frozen" {
      var params := parser.ParseTypeParameters();
      if name == "map" {
        if |params| != 2 { return Nil; }
      } else if name == "tuple" {
        if params == [] { return Nil; }
      } else {
        if |params| != 1 { return Nil; }
      }
      var types := ParseTypes(text, params, natives);
      return Build(name, types, natives);
    }
    if name == "empty" { return Custom(name); }
    if name == "" { return Nil; }
    return User(name);
  }

  /** The parameters of a type, in order. */
  method ParseTypes(text: string, params: seq<string>, natives: set<string>) returns (types: seq<DataType>)
    requires forall i :: 0 <= i < |params| ==> |params[i]| < |text|
    ensures types == ParseAll(params, |text|, natives)
    decreases |text|, 0
  {
    hide Parse, ParseAll;
    types := [];
    for i := 0 to |params|
      invariant |types| == i && forall k :: 0 <= k < i ==> types[k] == Parse(params[k], natives)
    {
      var t := ParseType(params[i], natives);
      types := types + [t];
    }
    forall i | 0 <= i < |params| ensures types[i] == ParseAll(params, |text|, natives)[i] {
      ParseAllAt(params, |text|, natives, i);
    }
  }
}
