/**
 The CQL type-name parser (data_type_parser.cpp), as functions on what is left of the string, and a grammar of the
 type names with any blanks, any case and quoted names.  The main result is that the parser gives every type name of
 the grammar its meaning.
 */
module CqlTypeSpec {
  import opened Options
  import opened Strings

  /** `Nil` is the null pointer that the parser returns for a type it cannot read. */
  datatype DataType =
    | Nil
    | Native(name: string)
    | List(element: DataType)
    | Set(element: DataType)
    | Map(key: DataType, value: DataType)
    | Tuple(types: seq<DataType>)
    | Custom(name: string)
    | User(name: string)

  // ---------- The cursor ----------

  predicate IsBlank(c: char) { c == ' ' || c == '\t' || c == '\n' }

  predicate IsIdentifierChar(c: char) {
    '0' <= c <= '9' || 'a' <= c <= 'z' || 'A' <= c <= 'Z' || c == '-' || c == '+' || c == '.' || c == '_' || c == '&'
  }

  function SkipBlank(r: string): (rest: string)
    ensures |rest| <= |r| && (rest != "" ==> !IsBlank(rest[0]))
  {
    if r != "" && IsBlank(r[0]) then SkipBlank(r[1..]) else r
  }

  /** Skips blanks and one comma; false at the end of the string. */
  function SkipBlankAndComma(r: string, commaFound: bool): (p: (bool, string))
    ensures |p.1| <= |r| && (p.0 <==> p.1 != "") && (p.0 ==> !IsBlank(p.1[0]))
    ensures p.1 == r || |p.1| < |r|
    ensures p.0 && p.1[0] == ',' ==> commaFound || |p.1| < |r|
  {
    if r == "" then (false, r)
    else if r[0] == ',' then if commaFound then (true, r) else SkipBlankAndComma(r[1..], true)
    else if !IsBlank(r[0]) then (true, r)
    else SkipBlankAndComma(r[1..], commaFound)
  }

  function IdentifierLength(r: string): (n: nat)
    ensures n <= |r|
  {
    if r != "" && (IsIdentifierChar(r[0]) || r[0] == '"') then 1 + IdentifierLength(r[1..]) else 0
  }

  /** Behind an opening quote: up to and with the closing quote, where two quotes stand for one. */
  function QuotedLength(r: string): (n: nat)
    ensures n <= |r|
  {
    if r == "" then 0
    else if r[0] != '"' then 1 + QuotedLength(r[1..])
    else if |r| > 1 && r[1] == '"' then 2 + QuotedLength(r[2..])
    else 1
  }

  function NameLength(r: string): (n: nat)
    ensures n <= |r|
  {
    if r != "" && r[0] == '"' then 1 + QuotedLength(r[1..]) else IdentifierLength(r)
  }

  function Plus(n: nat, o: Option<nat>): Option<nat> { if o.None? then None else Some(n + o.value) }

  /** The characters up to and with the bracket that closes the last of `open` open ones. */
  function RawLength(r: string, open: nat, inQuotes: bool): (o: Option<nat>)
    ensures o.Some? ==> o.value <= |r|
  {
    if open == 0 then Some(0)
    else if r == "" then None
    else if r[0] == '"' then Plus(1, RawLength(r[1..], open, !inQuotes))
    else if !inQuotes && r[0] == '<' then Plus(1, RawLength(r[1..], open + 1, inQuotes))
    else if !inQuotes && r[0] == '>' then Plus(1, RawLength(r[1..], open - 1, inQuotes))
    else Plus(1, RawLength(r[1..], open, inQuotes))
  }

  /** The parameters of a parameter, brackets included and unparsed, and what follows. */
  function ReadRaw(r: string): (o: Option<(string, string)>)
    ensures o.Some? ==> |o.value.0| + |o.value.1| <= |r|
    ensures o.Some? && o.value.0 == "" ==> o.value.1 == SkipBlank(r) && (o.value.1 == "" || o.value.1[0] in ">,")
  {
    var b := SkipBlank(r);
    if b == "" || b[0] == '>' || b[0] == ',' then Some(("", b))
    else if b[0] != '<' then None
    else
      match RawLength(b[1..], 1, false)
      case None => None
      case Some(n) => Some((b[..n + 1], b[n + 1..]))
  }

  /** The loop of `parse_type_parameters`, behind the opening bracket. */
  function ParametersLoop(r: string): (params: seq<string>)
    ensures forall i :: 0 <= i < |params| ==> |params[i]| <= |r|
    decreases |r|
  {
    var (more, s) := SkipBlankAndComma(r, false);
    if !more || s[0] == '>' then []
    else
      var t := SkipBlank(s);
      var n := NameLength(t);
      match ReadRaw(t[n..])
      case None => []
      case Some((args, rest)) => [t[..n] + args] + ParametersLoop(rest)
  }

  function Parameters(r: string): (params: seq<string>)
    ensures forall i :: 0 <= i < |params| ==> |params[i]| < |r|
  {
    var (more, s) := SkipBlankAndComma(r, false);
    if more && s[0] == '<' then ParametersLoop(s[1..]) else []
  }

  // ---------- The types ----------

  /** What a type name makes of its parameters. */
  function Build(name: string, args: seq<DataType>, natives: set<string>): DataType {
    if name in natives then Native(name)
    else if name == "list" then if |args| == 1 then List(args[0]) else Nil
    else if name == "set" then if |args| == 1 then Set(args[0]) else Nil
    else if name == "map" then if |args| == 2 then Map(args[0], args[1]) else Nil
    else if name == "tuple" then if |args| > 0 then Tuple(args) else Nil
    else if name == "frozen" then if |args| == 1 then args[0] else Nil
    else if name == "empty" then Custom(name)
    else if name == "" then Nil
    else User(name)
  }

  /** `parse`, which is total: every parameter is shorter than the string it stands in. */
  function Parse(s: string, natives: set<string>): DataType
    decreases |s|, 1, 0
  {
    var r := SkipBlank(s);
    var n := NameLength(r);
    Build(Lower(r[..n]), ParseAll(Parameters(r[n..]), |s|, natives), natives)
  }

  function ParseAll(params: seq<string>, limit: nat, natives: set<string>): (types: seq<DataType>)
    requires forall i :: 0 <= i < |params| ==> |params[i]| < limit
    ensures |types| == |params|
    decreases limit, 0, |params|
  {
    if params == [] then [] else [Parse(params[0], natives)] + ParseAll(params[1..], limit, natives)
  }

  lemma {:induction false} ParseAllAt(params: seq<string>, limit: nat, natives: set<string>, i: nat)
    requires (forall i :: 0 <= i < |params| ==> |params[i]| < limit) && i < |params|
    ensures ParseAll(params, limit, natives)[i] == Parse(params[i], natives)
    decreases |params|
  {
    hide Parse;
    if i > 0 {
      ParseAllAt(params[1..], limit, natives, i - 1);
    }
  }

  // ---------- The grammar ----------

  /** A type name as it may be written: blanks, a name in any case, and parameters in brackets. */
  datatype Written = Written(before: string, name: string, middle: string, bracketed: bool, args: seq<Written>,
                             after: string)

  predicate Blank(s: string) { forall i :: 0 <= i < |s| ==> IsBlank(s[i]) }

  predicate Identifier(s: string) { s != "" && forall i :: 0 <= i < |s| ==> IsIdentifierChar(s[i]) }

  /** Behind an opening quote: the closing one is the last character, and every quote before it comes twice. */
  predicate ClosesAtEnd(t: string) {
    && t != ""
    && if t[0] != '"' then ClosesAtEnd(t[1..]) else |t| == 1 || (t[1] == '"' && ClosesAtEnd(t[2..]))
  }

  /** A name in quotes can hold any characters. */
  predicate IsQuoted(s: string) { s != "" && s[0] == '"' && ClosesAtEnd(s[1..]) }

  predicate IsName(s: string) { Identifier(s) || IsQuoted(s) }

  predicate WellFormed(w: Written) {
    && Blank(w.before) && Blank(w.middle) && Blank(w.after) && IsName(w.name)
    && (w.args != [] ==> w.bracketed)
    && forall i :: 0 <= i < |w.args| ==> WellFormed(w.args[i])
  }

  function Text(w: Written): string {
    w.before + w.name + (if w.bracketed then w.middle + "<" + TextOfAll(w.args) + ">" else "") + w.after
  }

  function TextOfAll(ws: seq<Written>): string {
    if ws == [] then ""
    else if |ws| == 1 then Text(ws[0])
    else Text(ws[0]) + "," + TextOfAll(ws[1..])
  }

  function Meaning(w: Written, natives: set<string>): DataType
    decreases w, 0
  {
    Build(Lower(w.name), MeaningOfAll(w.args, natives), natives)
  }

  function MeaningOfAll(ws: seq<Written>, natives: set<string>): (types: seq<DataType>)
    ensures |types| == |ws| && forall i :: 0 <= i < |ws| ==> types[i] == Meaning(ws[i], natives)
    decreases ws, |ws|
  {
    if ws == [] then [] else [Meaning(ws[0], natives)] + MeaningOfAll(ws[1..], natives)
  }

  /** The same type name without the blanks outside its brackets. */
  function Bare(w: Written): Written { w.(before := "", middle := "", after := "") }

  // ---------- Scanning ----------

  lemma {:induction false} SkipsBlank(b: string, r: string)
    requires Blank(b) && (r != "" ==> !IsBlank(r[0]))
    ensures SkipBlank(b + r) == r
  {
    if b == "" {
      assert b + r == r;
    } else {
      assert (b + r)[1..] == b[1..] + r;
      SkipsBlank(b[1..], r);
    }
  }

  lemma {:induction false} SkipsBlankOrComma(b: string, r: string, commaFound: bool)
    requires Blank(b) && (r != "" ==> !IsBlank(r[0]))
    ensures SkipBlankAndComma(b + r, commaFound) == SkipBlankAndComma(r, commaFound)
  {
    if b == "" {
      assert b + r == r;
    } else {
      assert (b + r)[1..] == b[1..] + r;
      SkipsBlankOrComma(b[1..], r, commaFound);
    }
  }

  lemma {:induction false} ReadsName(name: string, r: string)
    requires forall i :: 0 <= i < |name| ==> IsIdentifierChar(name[i])
    requires r != "" ==> !IsIdentifierChar(r[0]) && r[0] != '"'
    ensures IdentifierLength(name + r) == |name|
  {
    if name == "" {
      assert name + r == r;
    } else {
      assert (name + r)[1..] == name[1..] + r;
      ReadsName(name[1..], r);
    }
  }

  lemma {:induction false} ReadsQuoted(t: string, r: string)
    requires ClosesAtEnd(t) && (r != "" ==> r[0] != '"')
    ensures QuotedLength(t + r) == |t|
  {
    assert (t + r)[1..] == t[1..] + r;
    if t[0] != '"' {
      ReadsQuoted(t[1..], r);
    } else if |t| > 1 {
      assert (t + r)[2..] == t[2..] + r;
      ReadsQuoted(t[2..], r);
    }
  }

  predicate Plain(s: string) { forall i :: 0 <= i < |s| ==> s[i] !in "\"<>" }

  lemma {:induction false} ScansPlain(s: string, r: string, open: nat)
    requires Plain(s) && open > 0
    ensures RawLength(s + r, open, false) == Plus(|s|, RawLength(r, open, false))
  {
    if s == "" {
      assert s + r == r;
    } else {
      assert (s + r)[1..] == s[1..] + r;
      ScansPlain(s[1..], r, open);
    }
  }

  /** Brackets in quotes are passed over. */
  lemma {:induction false} ScansQuoted(t: string, r: string, open: nat)
    requires ClosesAtEnd(t) && open > 0
    ensures RawLength(t + r, open, true) == Plus(|t|, RawLength(r, open, false))
  {
    assert (t + r)[1..] == t[1..] + r;
    if t[0] != '"' {
      ScansQuoted(t[1..], r, open);
    } else if |t| > 1 {
      assert (t[1..] + r)[1..] == t[2..] + r;
      ScansQuoted(t[2..], r, open);
    }
  }

  lemma ScansName(name: string, r: string, open: nat)
    requires IsName(name) && open > 0
    ensures RawLength(name + r, open, false) == Plus(|name|, RawLength(r, open, false))
  {
    hide RawLength, ClosesAtEnd;
    if Identifier(name) {
      ScansPlain(name, r, open);
    } else {
      OpensQuote(name + r, open);
      assert (name + r)[1..] == name[1..] + r;
      ScansQuoted(name[1..], r, open);
    }
  }

  lemma OpensQuote(s: string, open: nat)
    requires s != "" && s[0] == '"' && open > 0
    ensures RawLength(s, open, false) == Plus(1, RawLength(s[1..], open, true))
  {
  }

  /** A type name followed by `tail`, grouped from the right as the parser meets it. */
  function TextThen(w: Written, tail: string): string
    decreases w, 1
  {
    w.before + (w.name + BehindThen(w, tail))
  }

  function BehindThen(w: Written, tail: string): string
    decreases w, 0
  {
    if w.bracketed then w.middle + ("<" + TextsThen(w.args, ">" + (w.after + tail))) else w.after + tail
  }

  function TextsThen(ws: seq<Written>, tail: string): string
    decreases ws, |ws|
  {
    if ws == [] then tail
    else if |ws| == 1 then TextThen(ws[0], tail)
    else TextThen(ws[0], "," + TextsThen(ws[1..], tail))
  }

  lemma {:induction false} TextThenAppends(w: Written, tail: string)
    ensures TextThen(w, tail) == Text(w) + tail
    decreases w, 0
  {
    if w.bracketed {
      var all, t := TextOfAll(w.args), ">" + (w.after + tail);
      TextsThenAppends(w.args, t);
      Regroup(w.before, w.name, w.middle, all, w.after, tail);
    } else {
      assert w.before + (w.name + (w.after + tail)) == (w.before + w.name + "" + w.after) + tail;
    }
  }

  lemma Regroup(a: string, b: string, c: string, all: string, d: string, tail: string)
    ensures a + (b + (c + ("<" + (all + (">" + (d + tail)))))) == (a + b + (c + "<" + all + ">") + d) + tail
  {
    assert all + (">" + (d + tail)) == (all + ">") + (d + tail);
    assert c + ("<" + ((all + ">") + (d + tail))) == (c + "<" + all + ">") + (d + tail);
    assert b + ((c + "<" + all + ">") + (d + tail)) == (b + (c + "<" + all + ">")) + (d + tail);
  }

  lemma {:induction false} TextsThenAppends(ws: seq<Written>, tail: string)
    ensures TextsThen(ws, tail) == TextOfAll(ws) + tail
    decreases ws, |ws|
  {
    if |ws| == 1 {
      TextThenAppends(ws[0], tail);
    } else if |ws| > 1 {
      TextsThenAppends(ws[1..], tail);
      TextThenAppends(ws[0], "," + TextsThen(ws[1..], tail));
      assert Text(ws[0]) + ("," + (TextOfAll(ws[1..]) + tail)) == (Text(ws[0]) + "," + TextOfAll(ws[1..])) + tail;
    }
  }

  lemma PlainParts(w: Written)
    requires WellFormed(w)
    ensures Plain(w.before) && Plain(w.middle) && Plain(w.after)
  {
  }

  lemma ScansBrackets(inner: string, behind: string, open: nat)
    requires open > 0
    ensures RawLength("<" + inner, open, false) == Plus(1, RawLength(inner, open + 1, false))
    ensures RawLength(">" + behind, open + 1, false) == Plus(1, RawLength(behind, open, false))
  {
    assert ("<" + inner)[1..] == inner;
    assert (">" + behind)[1..] == behind;
  }

  /** The brackets of a type name are balanced. */
  lemma {:induction false} ScansText(w: Written, r: string, open: nat)
    requires WellFormed(w) && open > 0
    ensures RawLength(TextThen(w, r), open, false) == Plus(|Text(w)|, RawLength(r, open, false))
    decreases w, 0
  {
    hide RawLength;
    PlainParts(w);
    ScansPlain(w.before, w.name + BehindThen(w, r), open);
    ScansName(w.name, BehindThen(w, r), open);
    if w.bracketed {
      var r1, all := ">" + (w.after + r), TextsThen(w.args, ">" + (w.after + r));
      ScansPlain(w.middle, "<" + all, open);
      ScansBrackets(all, w.after + r, open);
      ScansTexts(w.args, r1, open + 1);
    }
    ScansPlain(w.after, r, open);
  }

  lemma {:induction false} ScansTexts(ws: seq<Written>, r: string, open: nat)
    requires (forall i :: 0 <= i < |ws| ==> WellFormed(ws[i])) && open > 0
    ensures RawLength(TextsThen(ws, r), open, false) == Plus(|TextOfAll(ws)|, RawLength(r, open, false))
    decreases ws, |ws|
  {
    hide WellFormed, Text, TextThen;
    if |ws| == 1 {
      ScansText(ws[0], r, open);
    } else if |ws| > 1 {
      var r1 := TextsThen(ws[1..], r);
      ScansText(ws[0], "," + r1, open);
      assert ("," + r1)[1..] == r1;
      ScansTexts(ws[1..], r, open);
    }
  }

  // ---------- Reading ----------

  function Brackets(w: Written): string { if w.bracketed then "<" + TextOfAll(w.args) + ">" else "" }

  predicate EndsParameter(tail: string) { tail != "" && (tail[0] == ',' || tail[0] == '>') }

  lemma NameThenBlank(name: string, b: string, r: string)
    requires IsName(name) && Blank(b) && (r != "" ==> !IsBlank(r[0]) && !IsIdentifierChar(r[0]) && r[0] != '"')
    ensures
      var s := name + (b + r);
      NameLength(s) == |name| && s[..|name|] == name && s[|name|..] == b + r && SkipBlank(b + r) == r
  {
    SkipsBlank(b, r);
    if Identifier(name) {
      ReadsName(name, b + r);
    } else {
      assert (name + (b + r))[1..] == name[1..] + (b + r);
      ReadsQuoted(name[1..], b + r);
    }
  }

  lemma ClosesBracket(rest: string)
    ensures RawLength(">" + rest, 1, false) == Some(1)
  {
    assert (">" + rest)[1..] == rest;
  }

  lemma ReadsBrackets(ws: seq<Written>, rest: string)
    requires forall i :: 0 <= i < |ws| ==> WellFormed(ws[i])
    ensures
      var b, n := "<" + TextsThen(ws, ">" + rest), |TextOfAll(ws)| + 1;
      && RawLength(b[1..], 1, false) == Some(n)
      && b[..n + 1] == "<" + TextOfAll(ws) + ">" && b[n + 1..] == rest
  {
    hide WellFormed, TextsThen, TextOfAll, RawLength;
    var all := TextsThen(ws, ">" + rest);
    assert ("<" + all)[1..] == all;
    ScansTexts(ws, ">" + rest, 1);
    ClosesBracket(rest);
    TextsThenAppends(ws, ">" + rest);
    assert "<" + all == ("<" + TextOfAll(ws) + ">") + rest;
  }

  /** The body of the loop reads one parameter; blanks behind it are left if it has brackets. */
  lemma ReadsParameter(w: Written, tail: string)
    requires WellFormed(w) && EndsParameter(tail)
    ensures
      var r := w.name + BehindThen(w, tail);
      && !IsBlank(r[0]) && r[0] != ',' && r[0] != '>'
      && NameLength(r) == |w.name| && r[..|w.name|] == w.name
      && ReadRaw(r[|w.name|..]) == Some((Brackets(w), (if w.bracketed then w.after else "") + tail))
  {
    hide RawLength, NameLength, SkipBlank, IsName;
    NameStarts(w.name);
    if w.bracketed {
      NameThenBlank(w.name, w.middle, "<" + TextsThen(w.args, ">" + (w.after + tail)));
      ReadsBrackets(w.args, w.after + tail);
    } else {
      NameThenBlank(w.name, w.after, tail);
      assert "" + tail == tail;
    }
  }

  lemma NameStarts(name: string)
    requires IsName(name)
    ensures name != "" && !IsBlank(name[0]) && name[0] != ',' && name[0] != '>' && name[0] != '<'
  {
  }

  /** What is passed on to the parser for each parameter. */
  function BareTexts(ws: seq<Written>): (texts: seq<string>)
    ensures |texts| == |ws| && forall i :: 0 <= i < |ws| ==> texts[i] == Text(Bare(ws[i]))
  {
    if ws == [] then [] else [Text(Bare(ws[0]))] + BareTexts(ws[1..])
  }

  function Lead(b: string, comma: bool, r: string): string { if comma then b + ("," + r) else b + r }

  lemma SkipsToParameter(b: string, comma: bool, w: Written, tail: string)
    requires Blank(b) && WellFormed(w) && EndsParameter(tail)
    ensures SkipBlankAndComma(Lead(b, comma, TextThen(w, tail)), false) == (true, w.name + BehindThen(w, tail))
  {
    var t := w.name + BehindThen(w, tail);
    ReadsParameter(w, tail);
    SkipsBlankOrComma(w.before, t, comma);
    if comma {
      SkipsBlankOrComma(b, "," + (w.before + t), false);
      assert ("," + (w.before + t))[1..] == w.before + t;
    } else {
      assert b + (w.before + t) == (b + w.before) + t;
      SkipsBlankOrComma(b + w.before, t, false);
    }
  }

  lemma BareText(w: Written)
    ensures Text(Bare(w)) == w.name + Brackets(w)
  {
    assert "" + w.name == w.name;
  }

  /** One round of the loop. */
  lemma LoopReadsOne(w: Written, b: string, comma: bool, tail: string)
    requires WellFormed(w) && Blank(b) && EndsParameter(tail)
    ensures ParametersLoop(Lead(b, comma, TextThen(w, tail))) ==
              [Text(Bare(w))] + ParametersLoop((if w.bracketed then w.after else "") + tail)
  {
    var r := w.name + BehindThen(w, tail);
    SkipsToParameter(b, comma, w, tail);
    ReadsParameter(w, tail);
    BareText(w);
    assert SkipBlank(r) == r;
  }

  lemma {:induction false} LoopReads(ws: seq<Written>, b: string, comma: bool, post: string)
    requires (forall i :: 0 <= i < |ws| ==> WellFormed(ws[i])) && Blank(b) && (comma ==> ws != [])
    ensures ParametersLoop(Lead(b, comma, TextsThen(ws, ">" + post))) == BareTexts(ws)
    decreases |ws|
  {
    if ws == [] {
      SkipsBlankOrComma(b, ">" + post, false);
    } else {
      var w, rest := ws[0], ws[1..];
      var more := TextsThen(rest, ">" + post);
      var tail := if rest != [] then "," + more else ">" + post;
      LoopReadsOne(w, b, comma, tail);
      var a := if w.bracketed then w.after else "";
      LoopReads(rest, a, rest != [], post);
      assert a + tail == Lead(a, rest != [], more);
    }
  }

  lemma ReadsParameters(w: Written)
    requires WellFormed(w)
    ensures
      var r := w.name + BehindThen(w, "");
      NameLength(r) == |w.name| && r[..|w.name|] == w.name && Parameters(r[|w.name|..]) == BareTexts(w.args)
  {
    assert w.after + "" == w.after;
    if w.bracketed {
      var all := TextsThen(w.args, ">" + w.after);
      NameThenBlank(w.name, w.middle, "<" + all);
      SkipsBlankOrComma(w.middle, "<" + all, false);
      assert ("<" + all)[1..] == all;
      LoopReads(w.args, "", false, w.after);
      assert "" + all == all;
    } else {
      NameThenBlank(w.name, w.after, "");
      SkipsBlankOrComma(w.after, "", false);
    }
  }

  /** Main result: every type name of the grammar is parsed to its meaning. */
  lemma {:induction false} ParseGivesMeaning(w: Written, natives: set<string>)
    requires WellFormed(w)
    ensures Parse(Text(w), natives) == Meaning(w, natives)
    decreases w.args
  {
    var params := BareTexts(w.args);
    forall i | 0 <= i < |params| ensures Parse(params[i], natives) == Meaning(w.args[i], natives) {
      ParseGivesMeaning(Bare(w.args[i]), natives);
    }
    ParseStep(w, natives);
    forall i | 0 <= i < |params|
      ensures ParseAll(params, |Text(w)|, natives)[i] == MeaningOfAll(w.args, natives)[i]
    {
      ParseAllAt(params, |Text(w)|, natives, i);
    }
    assert ParseAll(params, |Text(w)|, natives) == MeaningOfAll(w.args, natives);
  }

  lemma ParseStep(w: Written, natives: set<string>)
    requires WellFormed(w)
    ensures
      var params := BareTexts(w.args);
      && (forall i :: 0 <= i < |params| ==> |params[i]| < |Text(w)|)
      && Parse(Text(w), natives) == Build(Lower(w.name), ParseAll(params, |Text(w)|, natives), natives)
  {
    TextThenAppends(w, "");
    assert Text(w) + "" == Text(w);
    SkipsBlank(w.before, w.name + BehindThen(w, ""));
    ReadsParameters(w);
  }

  // ---------- Blanks, case, frozen ----------

  /** Two ways to write a type that differ in blanks and case only. */
  predicate SameName(w: Written, v: Written) {
    && Lower(w.name) == Lower(v.name) && |w.args| == |v.args|
    && forall i :: 0 <= i < |w.args| ==> SameName(w.args[i], v.args[i])
  }

  lemma {:induction false} SameNameSameMeaning(w: Written, v: Written, natives: set<string>)
    requires SameName(w, v)
    ensures Meaning(w, natives) == Meaning(v, natives)
  {
    forall i | 0 <= i < |w.args| ensures Meaning(w.args[i], natives) == Meaning(v.args[i], natives) {
      SameNameSameMeaning(w.args[i], v.args[i], natives);
    }
    assert MeaningOfAll(w.args, natives) == MeaningOfAll(v.args, natives);
  }

  lemma BlanksAndCaseAreIgnored(w: Written, v: Written, natives: set<string>)
    requires WellFormed(w) && WellFormed(v) && SameName(w, v)
    ensures Parse(Text(w), natives) == Parse(Text(v), natives)
  {
    ParseGivesMeaning(w, natives);
    ParseGivesMeaning(v, natives);
    SameNameSameMeaning(w, v, natives);
  }

  /** A type name without any of its `frozen<>`. */
  function Thaw(w: Written): Written {
    if Lower(w.name) == "frozen" && |w.args| == 1 then Thaw(w.args[0])
    else w.(args := seq(|w.args|, i requires 0 <= i < |w.args| => Thaw(w.args[i])))
  }

  lemma {:induction false} ThawKeepsMeaning(w: Written, natives: set<string>)
    requires WellFormed(w) && "frozen" !in natives
    ensures WellFormed(Thaw(w)) && Meaning(Thaw(w), natives) == Meaning(w, natives)
  {
    forall i | 0 <= i < |w.args|
      ensures WellFormed(Thaw(w.args[i])) && Meaning(Thaw(w.args[i]), natives) == Meaning(w.args[i], natives)
    {
      ThawKeepsMeaning(w.args[i], natives);
    }
    if !(Lower(w.name) == "frozen" && |w.args| == 1) {
      var t := Thaw(w);
      assert forall i :: 0 <= i < |t.args| ==> t.args[i] == Thaw(w.args[i]);
      assert MeaningOfAll(t.args, natives) == MeaningOfAll(w.args, natives);
    }
  }

  /** Wrapping any parts of a type in `frozen<>` does not change the result. */
  lemma FrozenIsTransparent(w: Written, natives: set<string>)
    requires WellFormed(w) && "frozen" !in natives
    ensures Parse(Text(w), natives) == Parse(Text(Thaw(w)), natives)
  {
    ThawKeepsMeaning(w, natives);
    ParseGivesMeaning(w, natives);
    ParseGivesMeaning(Thaw(w), natives);
  }

  // ---------- Round trip ----------

  /** The names that `parse` treats by itself, unless they name a native type. */
  predicate Keyword(name: string) {
    name == "list" || name == "set" || name == "map" || name == "tuple" || name == "frozen" || name == "empty"
  }

  predicate NameInLowerCase(name: string) { IsName(name) && Lower(name) == name }

  ghost predicate NativesApart(natives: set<string>) {
    forall n :: n in natives ==> !Keyword(n) && Identifier(n) && Lower(n) == n
  }

  predicate Printable(t: DataType, natives: set<string>) {
    match t
    case Nil => false
    case Native(n) => n in natives
    case List(e) => Printable(e, natives)
    case Set(e) => Printable(e, natives)
    case Map(k, v) => Printable(k, natives) && Printable(v, natives)
    case Tuple(ts) => ts != [] && forall i :: 0 <= i < |ts| ==> Printable(ts[i], natives)
    case Custom(n) => n == "empty"
    case User(n) => NameInLowerCase(n) && !Keyword(n) && n !in natives
  }

  function Leaf(name: string): Written { Written("", name, "", false, [], "") }

  function Generic(name: string, args: seq<Written>): Written { Written("", name, "", true, args, "") }

  function Spaced(w: Written): Written { w.(before := " ") }

  /** The canonical way to write a type, with a comma and a blank between parameters. */
  function Write(t: DataType): Written {
    match t
    case Nil => Leaf("")
    case Native(n) => Leaf(n)
    case List(e) => Generic("list", [Write(e)])
    case Set(e) => Generic("set", [Write(e)])
    case Map(k, v) => Generic("map", [Write(k), Spaced(Write(v))])
    case Tuple(ts) =>
      Generic("tuple", seq(|ts|, i requires 0 <= i < |ts| => if i == 0 then Write(ts[i]) else Spaced(Write(ts[i]))))
    case Custom(n) => Leaf(n)
    case User(n) => Leaf(n)
  }

  function Print(t: DataType): string { Text(Write(t)) }

  lemma KeywordsAreLowerCase(name: string)
    requires name == "list" || name == "set" || name == "map" || name == "tuple" || name == "empty"
    ensures NameInLowerCase(name)
  {
    forall i | 0 <= i < |name| ensures IsIdentifierChar(name[i]) && LowerChar(name[i]) == name[i] {}
    assert Lower(name) == name;
  }

  lemma {:induction false} WriteIsWellFormed(t: DataType, natives: set<string>)
    requires Printable(t, natives) && NativesApart(natives)
    ensures WellFormed(Write(t)) && Meaning(Write(t), natives) == t
  {
    match t
    case Native(n) => LeafMeans(n, natives);
    case Custom(n) => KeywordsAreLowerCase(n); LeafMeans(n, natives);
    case User(n) => LeafMeans(n, natives);
    case List(e) => WriteIsWellFormed(e, natives); GenericMeans("list", [Write(e)], [e], natives);
    case Set(e) => WriteIsWellFormed(e, natives); GenericMeans("set", [Write(e)], [e], natives);
    case Map(k, v) =>
      WriteIsWellFormed(k, natives);
      WriteIsWellFormed(v, natives);
      SpacedMeans(Write(v), natives);
      GenericMeans("map", [Write(k), Spaced(Write(v))], [k, v], natives);
    case Tuple(ts) =>
      var args := Write(t).args;
      forall i | 0 <= i < |ts| ensures WellFormed(args[i]) && Meaning(args[i], natives) == ts[i] {
        WriteIsWellFormed(ts[i], natives);
        SpacedMeans(Write(ts[i]), natives);
      }
      GenericMeans("tuple", args, ts, natives);
  }

  lemma SpacedMeans(w: Written, natives: set<string>)
    ensures WellFormed(w) ==> WellFormed(Spaced(w))
    ensures Meaning(Spaced(w), natives) == Meaning(w, natives)
  {
  }

  lemma LeafMeans(name: string, natives: set<string>)
    requires NameInLowerCase(name)
    ensures WellFormed(Leaf(name)) && Meaning(Leaf(name), natives) == Build(name, [], natives)
  {
    var w := Leaf(name);
    assert MeaningOfAll(w.args, natives) == [];
  }

  lemma GenericMeans(name: string, args: seq<Written>, types: seq<DataType>, natives: set<string>)
    requires name == "list" || name == "set" || name == "map" || name == "tuple"
    requires |args| == |types| > 0
    requires forall i :: 0 <= i < |args| ==> WellFormed(args[i]) && Meaning(args[i], natives) == types[i]
    ensures WellFormed(Generic(name, args)) && Meaning(Generic(name, args), natives) == Build(name, types, natives)
  {
    KeywordsAreLowerCase(name);
    var w := Generic(name, args);
    assert MeaningOfAll(w.args, natives) == types;
  }

  /** Printing and parsing gives the type back. */
  lemma RoundTrip(t: DataType, natives: set<string>)
    requires Printable(t, natives) && NativesApart(natives)
    ensures Parse(Print(t), natives) == t
  {
    WriteIsWellFormed(t, natives);
    ParseGivesMeaning(Write(t), natives);
  }

  /** The names of `NativeDataTypes::init_cql_names`. */
  const NATIVE_NAMES: set<string> := {
    "ascii", "bigint", "blob", "boolean", "counter", "date", "decimal", "double", "float", "inet",
    "int", "smallint", "time", "timestamp", "timeuuid", "tinyint", "text", "uuid", "varchar", "varint"}

  lemma LettersAreLowerCase(name: string)
    requires name != "" && forall i :: 0 <= i < |name| ==> 'a' <= name[i] <= 'z'
    ensures Identifier(name) && Lower(name) == name
  {
    assert Lower(name) == name;
  }

  lemma DriverNativesApart()
    ensures NativesApart(NATIVE_NAMES)
  {
    hide Identifier, Lower;
    LettersAreLowerCase("ascii");
    LettersAreLowerCase("bigint");
    LettersAreLowerCase("blob");
    LettersAreLowerCase("boolean");
    LettersAreLowerCase("counter");
    LettersAreLowerCase("date");
    LettersAreLowerCase("decimal");
    LettersAreLowerCase("double");
    LettersAreLowerCase("float");
    LettersAreLowerCase("inet");
    LettersAreLowerCase("int");
    LettersAreLowerCase("smallint");
    LettersAreLowerCase("time");
    LettersAreLowerCase("timestamp");
    LettersAreLowerCase("timeuuid");
    LettersAreLowerCase("tinyint");
    LettersAreLowerCase("text");
    LettersAreLowerCase("uuid");
    LettersAreLowerCase("varchar");
    LettersAreLowerCase("varint");
  }

  // ---------- Quotes ----------

  function Doubled(s: string): (d: string)
    ensures |d| >= |s|
  {
    if s == "" then "" else (if s[0] == '"' then "\"\"" else [s[0]]) + Doubled(s[1..])
  }

  /** How the server writes a name that is not in lower case. */
  function Quote(s: string): string { "\"" + (Doubled(s) + "\"") }

  lemma ClosesBehind(c: char, t: string)
    requires ClosesAtEnd(t)
    ensures ClosesAtEnd((if c == '"' then "\"\"" else [c]) + t)
  {
    if c == '"' {
      assert ("\"\"" + t)[2..] == t;
    } else {
      assert ([c] + t)[1..] == t;
    }
  }

  lemma {:induction false} DoubledCloses(s: string)
    ensures ClosesAtEnd(Doubled(s) + "\"")
  {
    if s == "" {
      assert Doubled(s) + "\"" == "\"";
      assert ClosesAtEnd("\"");
    } else {
      hide ClosesAtEnd;
      DoubledCloses(s[1..]);
      ClosesBehind(s[0], Doubled(s[1..]) + "\"");
      assert Doubled(s) + "\"" == (if s[0] == '"' then "\"\"" else [s[0]]) + (Doubled(s[1..]) + "\"");
    }
  }

  lemma {:induction false} DoubledKeepsCase(s: string)
    ensures Lower(Doubled(s)) == Doubled(s) <==> Lower(s) == s
  {
    if s != "" {
      DoubledKeepsCase(s[1..]);
      var c := if s[0] == '"' then "\"\"" else [s[0]];
      assert s == [s[0]] + s[1..];
      LowerIsFixed([s[0]], s[1..]);
      LowerIsFixed(c, Doubled(s[1..]));
      assert (Lower(c) == c) == (LowerChar(s[0]) == s[0]) == (Lower([s[0]]) == [s[0]]) by {
        assert Lower([s[0]])[0] == LowerChar(s[0]) && Lower(c)[0] == LowerChar(s[0]);
      }
    }
  }

  lemma LowerIsFixed(a: string, b: string)
    ensures Lower(a + b) == a + b <==> Lower(a) == a && Lower(b) == b
  {
    assert Lower(a + b) == Lower(a) + Lower(b);
    if Lower(a) + Lower(b) == a + b {
      assert (Lower(a) + Lower(b))[..|a|] == (a + b)[..|a|];
      assert (Lower(a) + Lower(b))[|a|..] == (a + b)[|a|..];
    }
  }

  lemma QuoteKeepsCase(s: string)
    ensures Lower(Quote(s)) == Quote(s) <==> Lower(s) == s
  {
    hide Lower;
    LowerIsFixed("\"", Doubled(s) + "\"");
    LowerIsFixed(Doubled(s), "\"");
    DoubledKeepsCase(s);
    QuoteIsFixed();
  }

  lemma QuoteIsFixed()
    ensures Lower("\"") == "\""
  {
  }

  lemma ParsesQuote(s: string, natives: set<string>)
    ensures Parse(Quote(s), natives) == Build(Lower(Quote(s)), [], natives)
  {
    hide Parse, Build;
    var w := Leaf(Quote(s));
    assert Quote(s)[1..] == Doubled(s) + "\"";
    DoubledCloses(s);
    assert "" + Quote(s) + "" + "" == Quote(s);
    assert Text(w) == Quote(s);
    ParseGivesMeaning(w, natives);
    assert MeaningOfAll(w.args, natives) == [];
  }

  lemma QuotedIsNoKeyword(name: string, natives: set<string>)
    requires NativesApart(natives) && name != "" && name[0] == '"'
    ensures Build(name, [], natives) == User(name)
  {
    assert name in natives ==> Identifier(name);
  }

  /** For every name: in quotes it is taken for a user type and its quotes never go, so that it is never the name it
      stands for; its case survives exactly if it was in lower case. */
  lemma QuotesDoNotKeepCase(s: string, natives: set<string>)
    requires NativesApart(natives)
    ensures
      var t := Parse(Quote(s), natives);
      t == User(Lower(Quote(s))) && t != User(s) && (t == User(Quote(s)) <==> Lower(s) == s)
  {
    hide Parse, Build, NativesApart;
    ParsesQuote(s, natives);
    assert Lower(Quote(s))[0] == LowerChar(Quote(s)[0]) == '"';
    QuotedIsNoKeyword(Lower(Quote(s)), natives);
    QuoteKeepsCase(s);
    assert |Lower(Quote(s))| > |s|;
  }

  // ---------- Characters and names ----------

  /** The characters that are skipped, and those that make a plain name. */
  lemma CharTable(c: char)
    ensures IsBlank(c) <==> c in " \t\n"
    ensures IsIdentifierChar(c) <==> c in "0123456789" || c in Smalls() || c in Capitals() || c in "-+._&"
  {
    hide Smalls, Capitals;
    if '0' <= c <= '9' { assert "0123456789"[(c - '0') as nat] == c; }
    if 'a' <= c <= 'z' { assert Smalls()[(c - 'a') as nat] == c; }
    if 'A' <= c <= 'Z' { assert Capitals()[(c - 'A') as nat] == c; }
  }

  /** What each name makes of its parameters: null for every wrong number of them. */
  lemma NameTable(w: Written, natives: set<string>)
    requires WellFormed(w)
    ensures
      var key, t, n := Lower(w.name), Parse(Text(w), natives), |w.args|;
      if key in natives then t == Native(key)
      else if key == "list" then t == if n == 1 then List(Parse(Text(w.args[0]), natives)) else Nil
      else if key == "set" then t == if n == 1 then Set(Parse(Text(w.args[0]), natives)) else Nil
      else if key == "map" then
        t == if n == 2 then Map(Parse(Text(w.args[0]), natives), Parse(Text(w.args[1]), natives)) else Nil
      else if key == "tuple" then
        if n == 0 then t == Nil
        else t.Tuple? && |t.types| == n && forall i :: 0 <= i < n ==> t.types[i] == Parse(Text(w.args[i]), natives)
      else if key == "frozen" then t == if n == 1 then Parse(Text(w.args[0]), natives) else Nil
      else if key == "empty" then t == Custom("empty")
      else t == User(key)
  {
    hide Parse, Text, Lower;
    ParseGivesMeaning(w, natives);
    ArgsMean(w, natives);
    NameIsNotEmpty(w);
    assert Meaning(w, natives) == Build(Lower(w.name), MeaningOfAll(w.args, natives), natives);
    hide MeaningOfAll;
  }

  lemma ArgsMean(w: Written, natives: set<string>)
    requires WellFormed(w)
    ensures forall i :: 0 <= i < |w.args| ==> MeaningOfAll(w.args, natives)[i] == Parse(Text(w.args[i]), natives)
  {
    hide Parse, Text;
    forall i | 0 <= i < |w.args| ensures MeaningOfAll(w.args, natives)[i] == Parse(Text(w.args[i]), natives) {
      ParseGivesMeaning(w.args[i], natives);
    }
  }

  lemma NameIsNotEmpty(w: Written)
    requires WellFormed(w)
    ensures Lower(w.name) != ""
  {
  }

  /** A string of blanks names no type. */
  lemma BlankIsNull(s: string, natives: set<string>)
    requires Blank(s) && "" !in natives
    ensures Parse(s, natives) == Nil
  {
    SkipsBlank(s, "");
    assert s + "" == s;
  }
}
