/** RN formats and the naming values an RN carries (`_tokenize_rn_format`, `naming_values`, `parse`). */
module Naming {
  import opened Text
  import opened Dn

  datatype Token = Lit(text: string) | Prop(name: string)

  function TokenText(t: Token): string {
    match t case Lit(text) => text case Prop(name) => name
  }

  // ---- Tokenising a format

  function LitToken(literal: string): seq<Token> {
    if literal == "" then [] else [Lit(literal)]
  }

  /** `None` is the ValueError of an unclosed placeholder. */
  function TokenizeFrom(format: string, literal: string): Option<seq<Token>>
    decreases |format|
  {
    if format == "" then Some(LitToken(literal))
    else if format[0] == '{' then
      var end := Find(format, "}", 0);
      if end < 0 then None
      else match TokenizeFrom(format[end + 1..], "")
           case None => None
           case Some(rest) => Some(LitToken(literal) + [Prop(format[1..end])] + rest)
    else TokenizeFrom(format[1..], literal + [format[0]])
  }

  function Tokenize(format: string): Option<seq<Token>> {
    TokenizeFrom(format, "")
  }

  function Prefixed(done: seq<Token>, rest: Option<seq<Token>>): Option<seq<Token>> {
    match rest case None => None case Some(tokens) => Some(done + tokens)
  }

  lemma PrefixedNothing(rest: Option<seq<Token>>)
    ensures Prefixed([], rest) == rest
  {
    if rest.Some? { assert [] + rest.value == rest.value; }
  }

  lemma SliceOfSlice(s: string, i: nat, a: nat, b: nat)
    requires i <= |s| && a <= b <= |s| - i
    ensures s[i..][a..b] == s[i + a..i + b]
  {
    assert |s[i..][a..b]| == |s[i + a..i + b]|;
    assert forall k :: 0 <= k < b - a ==> s[i..][a..b][k] == s[i + a..i + b][k];
  }

  lemma PrefixedTwice(done: seq<Token>, head: seq<Token>, rest: Option<seq<Token>>)
    ensures Prefixed(done, Prefixed(head, rest)) == Prefixed(done + head, rest)
  {
    if rest.Some? { assert done + (head + rest.value) == (done + head) + rest.value; }
  }

  lemma BraceHead(format: string, literal: string)
    requires format != "" && format[0] == '{'
    ensures var end := Find(format, "}", 0);
            TokenizeFrom(format, literal) ==
            if end < 0 then None
            else Prefixed(LitToken(literal) + [Prop(format[1..end])], TokenizeFrom(format[end + 1..], ""))
  {
  }

  lemma BraceTail(format: string, literal: string, i: nat)
    requires i < |format| && format[i] == '{'
    ensures var end := Find(format, "}", i);
            TokenizeFrom(format[i..], literal) ==
            if end < 0 then None
            else Prefixed(LitToken(literal) + [Prop(format[i + 1..end])], TokenizeFrom(format[end + 1..], ""))
  {
    hide Find, LitToken, TokenizeFrom, Prefixed;
    var end := Find(format, "}", i);
    BraceHead(format[i..], literal);
    FindShift(format, "}", i, 0);
    if end >= 0 {
      SliceOfSlice(format, i, end - i + 1, |format| - i);
      SliceOfSlice(format, i, 1, end - i);
      assert format[i..][end - i + 1..] == format[end + 1..];
    }
  }

  lemma BraceStep(format: string, done: seq<Token>, literal: string, i: nat)
    requires i < |format| && format[i] == '{'
    ensures var end := Find(format, "}", i);
            Prefixed(done, TokenizeFrom(format[i..], literal)) ==
            if end < 0 then None
            else Prefixed(done + (LitToken(literal) + [Prop(format[i + 1..end])]), TokenizeFrom(format[end + 1..], ""))
  {
    var end := Find(format, "}", i);
    hide TokenizeFrom, LitToken, Find;
    BraceTail(format, literal, i);
    if end >= 0 {
      PrefixedTwice(done, LitToken(literal) + [Prop(format[i + 1..end])], TokenizeFrom(format[end + 1..], ""));
    }
  }

  lemma CharStep(format: string, literal: string, i: nat)
    requires i < |format| && format[i] != '{'
    ensures TokenizeFrom(format[i..], literal) == TokenizeFrom(format[i + 1..], literal + [format[i]])
  {
    assert format[i..][1..] == format[i + 1..];
  }

  method ComputeTokens(format: string) returns (tokens: Option<seq<Token>>)
    ensures tokens == Tokenize(format)
  {
    var done: seq<Token> := [];
    var literal := "";
    var i := 0;
    assert format[0..] == format;
    PrefixedNothing(Tokenize(format));
    while i < |format|
      invariant 0 <= i <= |format|
      invariant Tokenize(format) == Prefixed(done, TokenizeFrom(format[i..], literal))
    {
      hide Tokenize, TokenizeFrom, Prefixed, Find, LitToken;
      if format[i] == '{' {
        BraceStep(format, done, literal, i);
        var end := Find(format, "}", i);
        if end < 0 { return None; }
        done := done + (LitToken(literal) + [Prop(format[i + 1..end])]);
        literal := "";
        i := end + 1;
      } else {
        CharStep(format, literal, i);
        literal := literal + [format[i]];
        i := i + 1;
      }
    }
    assert format[i..] == "";
    return Some(done + LitToken(literal));
  }

  lemma {:induction false} FindShift(text: string, sep: string, start: nat, at: nat)
    requires start + at <= |text|
    ensures var r := Find(text, sep, start + at);
            Find(text[start..], sep, at) == if r < 0 then -1 else r - start
    decreases |text| - at
  {
    if start + at + |sep| <= |text| {
      assert text[start..][at..at + |sep|] == text[start + at..start + at + |sep|];
    }
    if start + at < |text| { FindShift(text, sep, start, at + 1); }
  }

  function Render(tokens: seq<Token>): string {
    if tokens == [] then ""
    else (match tokens[0] case Lit(t) => t case Prop(n) => "{" + n + "}") + Render(tokens[1..])
  }

  /** Token lists in the form the tokenizer produces them. */
  ghost predicate Normal(tokens: seq<Token>) {
    && (forall i :: 0 <= i < |tokens| ==>
          match tokens[i] case Lit(t) => t != "" && '{' !in t case Prop(n) => '}' !in n)
    && (forall i :: 0 <= i < |tokens| - 1 ==> tokens[i].Lit? ==> tokens[i + 1].Prop?)
  }

  lemma NameEndsAtBrace(format: string, end: int)
    requires format != "" && format[0] == '{' && end == Find(format, "}", 0) && end >= 0
    ensures 1 <= end < |format| && format[end] == '}' && '}' !in format[1..end]
  {
    assert format[end..end + 1] == "}";
    assert format[end..end + 1][0] == format[end];
    forall k | 1 <= k < end ensures format[k] != '}' {
      if format[k] == '}' {
        assert format[k..k + 1] == "}";
        FindIsFirst(format, "}", 0, k);
      }
    }
  }

  lemma BraceFirst(name: string, rest: seq<Token>)
    requires Normal(rest) && '}' !in name
    ensures Normal([Prop(name)] + rest) && Render([Prop(name)] + rest) == "{" + name + "}" + Render(rest)
  {
    var tail := [Prop(name)] + rest;
    assert tail[1..] == rest && tail[0] == Prop(name);
  }

  lemma LiteralFirst(literal: string, tail: seq<Token>)
    requires Normal(tail) && tail != [] && tail[0].Prop? && '{' !in literal && literal != ""
    ensures Normal([Lit(literal)] + tail) && Render([Lit(literal)] + tail) == literal + Render(tail)
  {
    var all := [Lit(literal)] + tail;
    assert all[1..] == tail && all[0] == Lit(literal);
  }

  /** The token list read up to a placeholder, then the placeholder, then the rest. */
  lemma NormalJoin(literal: string, name: string, rest: seq<Token>)
    requires Normal(rest) && '{' !in literal && '}' !in name
    ensures Normal(LitToken(literal) + [Prop(name)] + rest)
    ensures Render(LitToken(literal) + [Prop(name)] + rest) == literal + "{" + name + "}" + Render(rest)
  {
    var tail := [Prop(name)] + rest;
    BraceFirst(name, rest);
    assert LitToken(literal) + [Prop(name)] + rest == LitToken(literal) + tail;
    assert literal + ("{" + name + "}" + Render(rest)) == literal + "{" + name + "}" + Render(rest);
    hide Normal, Render;
    if literal == "" {
      assert [] + tail == tail;
    } else {
      LiteralFirst(literal, tail);
    }
  }

  lemma RenderBrace(format: string, literal: string, end: int, rest: seq<Token>)
    requires format != "" && format[0] == '{' && end == Find(format, "}", 0) && end >= 0
    requires '{' !in literal && Normal(rest) && Render(rest) == "" + format[end + 1..]
    ensures var tokens := LitToken(literal) + [Prop(format[1..end])] + rest;
            Normal(tokens) && Render(tokens) == literal + format
  {
    NameEndsAtBrace(format, end);
    NormalJoin(literal, format[1..end], rest);
    assert "" + format[end + 1..] == format[end + 1..];
    CutAtBrace(literal, format, end);
  }

  lemma CutAtBrace(literal: string, format: string, end: int)
    requires 1 <= end < |format| && format[0] == '{' && format[end] == '}'
    ensures literal + "{" + format[1..end] + "}" + format[end + 1..] == literal + format
  {
    var head := literal + "{" + format[1..end];
    assert head == literal + format[..end];
    assert head + "}" == literal + format[..end + 1];
  }

  lemma {:induction false} TokenizeRenders(format: string, literal: string)
    requires '{' !in literal
    requires TokenizeFrom(format, literal).Some?
    ensures Render(TokenizeFrom(format, literal).value) == literal + format
    ensures Normal(TokenizeFrom(format, literal).value)
    decreases |format|
  {
    if format == "" {
      assert literal + format == literal;
    } else if format[0] == '{' {
      var end := Find(format, "}", 0);
      TokenizeRenders(format[end + 1..], "");
      RenderBrace(format, literal, end, TokenizeFrom(format[end + 1..], "").value);
    } else {
      TokenizeRenders(format[1..], literal + [format[0]]);
      assert literal + [format[0]] + format[1..] == literal + format;
    }
  }

  lemma {:induction false} TokenizeLiteral(text: string, rest: string, literal: string)
    requires '{' !in text
    ensures TokenizeFrom(text + rest, literal) == TokenizeFrom(rest, literal + text)
  {
    if text == "" {
      assert text + rest == rest && literal + text == literal;
    } else {
      assert (text + rest)[1..] == text[1..] + rest;
      TokenizeLiteral(text[1..], rest, literal + [text[0]]);
      assert literal + [text[0]] + text[1..] == literal + text;
    }
  }

  lemma FindBrace(name: string, rest: string)
    requires '}' !in name
    ensures var format := "{" + name + "}" + rest;
            Find(format, "}", 0) == |name| + 1 && format[1..|name| + 1] == name && format[|name| + 2..] == rest
  {
    var format := "{" + name + "}" + rest;
    assert format[|name| + 1..|name| + 2] == "}";
    assert forall k :: 1 <= k <= |name| ==> format[k] == name[k - 1];
    FindIsFirst(format, "}", 0, |name| + 1);
    var end := Find(format, "}", 0);
    NameEndsAtBrace(format, end);
  }

  lemma {:induction false} RenderTokenizes(tokens: seq<Token>, literal: string)
    requires Normal(tokens)
    requires literal != "" ==> tokens == [] || tokens[0].Prop?
    ensures TokenizeFrom(Render(tokens), literal) == Some(LitToken(literal) + tokens)
    decreases |tokens|
  {
    if tokens == [] {
      assert LitToken(literal) + tokens == LitToken(literal);
    } else {
      var rest := tokens[1..];
      assert Normal(rest);
      if tokens[0].Lit? {
        var t := tokens[0].text;
        RenderTokenizes(rest, t);
        TokenizeLiteral(t, Render(rest), literal);
        hide TokenizeFrom;
        assert literal + t == t;
        assert LitToken(literal) + tokens == LitToken(t) + rest;
      } else {
        RenderTokenizes(rest, "");
        NamedThenRest(tokens[0].name, Render(rest), literal, rest);
        hide TokenizeFrom;
        assert tokens == [tokens[0]] + rest;
      }
    }
  }

  /** A placeholder is read off the front of a format. */
  lemma NamedThenRest(name: string, after: string, literal: string, rest: seq<Token>)
    requires '}' !in name && TokenizeFrom(after, "") == Some(LitToken("") + rest)
    ensures TokenizeFrom("{" + name + "}" + after, literal) == Some(LitToken(literal) + ([Prop(name)] + rest))
  {
    FindBrace(name, after);
    hide Find;
    assert LitToken("") + rest == rest;
    assert LitToken(literal) + [Prop(name)] + rest == LitToken(literal) + ([Prop(name)] + rest);
  }

  /** Tokenising is the exact inverse of writing a normal token list out. */
  lemma TokenizeExact(format: string, tokens: seq<Token>)
    requires Normal(tokens)
    ensures Tokenize(format) == Some(tokens) <==> Render(tokens) == format
  {
    if Tokenize(format) == Some(tokens) {
      TokenizeRenders(format, "");
      assert "" + format == format;
    }
    RenderTokenizes(tokens, "");
    assert LitToken("") + tokens == tokens;
  }

  // ---- Matching an RN against a format

  /** Position of the `]` that closes a bracket already open `depth` deep, or -1. */
  function CloseBracket(rn: string, pos: nat, depth: int): (r: int)
    requires pos <= |rn|
    ensures r == -1 || pos <= r < |rn|
    decreases |rn| - pos
  {
    if pos == |rn| then -1
    else if depth + Delta(rn[pos]) == 0 then pos
    else CloseBracket(rn, pos + 1, depth + Delta(rn[pos]))
  }

  predicate Bracketed(tokens: seq<Token>, i: nat)
    requires i <= |tokens|
  {
    i > 0 && tokens[i - 1].Lit? && tokens[i - 1].text != "" &&
    tokens[i - 1].text[|tokens[i - 1].text| - 1] == '['
  }

  /** Where the value of placeholder `i` ends, or -1 when the RN does not match. */
  function ValueEnd(rn: string, tokens: seq<Token>, i: nat, pos: nat): (r: int)
    requires i < |tokens| && pos <= |rn|
    ensures r == -1 || pos <= r <= |rn|
  {
    if Bracketed(tokens, i) then CloseBracket(rn, pos, 1)
    else if i + 1 == |tokens| then |rn|
    else Find(rn, TokenText(tokens[i + 1]), pos)
  }

  function Preceded(seen: seq<string>, rest: Option<seq<string>>): Option<seq<string>> {
    match rest case None => None case Some(values) => Some(seen + values)
  }

  /** The values met from token `i` at `pos`, in format order; `None` is the ValueError. */
  function MatchFrom(rn: string, tokens: seq<Token>, i: nat, pos: nat): Option<seq<string>>
    requires i <= |tokens| && pos <= |rn|
    decreases |tokens| - i
  {
    if i == |tokens| then (if pos == |rn| then Some([]) else None)
    else match tokens[i]
      case Lit(t) => if OccursAt(rn, t, pos) then MatchFrom(rn, tokens, i + 1, pos + |t|) else None
      case Prop(_) =>
        var end := ValueEnd(rn, tokens, i, pos);
        if end < 0 then None
        else Preceded([rn[pos..end]], MatchFrom(rn, tokens, i + 1, end))
  }

  function PropNames(tokens: seq<Token>): seq<string> {
    if tokens == [] then []
    else (if tokens[0].Prop? then [tokens[0].name] else []) + PropNames(tokens[1..])
  }

  /** A dict filled in order: a later value replaces an earlier one of the same name. */
  function AsDict(names: seq<string>, values: seq<string>): map<string, string>
    requires |names| == |values|
  {
    if names == [] then map[]
    else AsDict(names[..|names| - 1], values[..|names| - 1])[names[|names| - 1] := values[|names| - 1]]
  }

  lemma {:induction false} MatchCount(rn: string, tokens: seq<Token>, i: nat, pos: nat)
    requires i <= |tokens| && pos <= |rn|
    requires MatchFrom(rn, tokens, i, pos).Some?
    ensures |MatchFrom(rn, tokens, i, pos).value| == |PropNames(tokens[i..])|
    decreases |tokens| - i
  {
    if i < |tokens| {
      assert tokens[i..][1..] == tokens[i + 1..];
      match tokens[i]
      case Lit(t) => MatchCount(rn, tokens, i + 1, pos + |t|);
      case Prop(_) => MatchCount(rn, tokens, i + 1, ValueEnd(rn, tokens, i, pos));
    }
  }

  function NamingValues(rn: string, format: string): Option<map<string, string>> {
    match Tokenize(format)
    case None => None
    case Some(tokens) =>
      match MatchFrom(rn, tokens, 0, 0)
      case None => None
      case Some(values) =>
        assert tokens[0..] == tokens;
        MatchCount(rn, tokens, 0, 0);
        Some(AsDict(PropNames(tokens), values))
  }

  method ScanToClose(rn: string, pos: nat) returns (end: int)
    requires pos <= |rn|
    ensures end == CloseBracket(rn, pos, 1)
  {
    var depth := 1;
    end := pos;
    while end < |rn| && depth != 0
      invariant pos <= end <= |rn|
      invariant CloseBracket(rn, pos, 1) == if depth == 0 && end < |rn| then end else CloseBracket(rn, end, depth)
      invariant depth == 0 ==> end < |rn|
      decreases |rn| - end, depth != 0
    {
      if rn[end] == '[' {
        depth := depth + 1;
      } else if rn[end] == ']' {
        depth := depth - 1;
      }
      if depth != 0 { end := end + 1; }
    }
    if depth != 0 { end := -1; }
  }

  lemma {:induction false} PropNamesConcat(a: seq<Token>, b: seq<Token>)
    ensures PropNames(a + b) == PropNames(a) + PropNames(b)
  {
    if a == [] {
      assert a + b == b;
    } else {
      assert (a + b)[1..] == a[1..] + b;
      PropNamesConcat(a[1..], b);
    }
  }

  /** One more placeholder read: the dict and the list of values grow together. */
  lemma ValueRead(names: seq<string>, seen: seq<string>, name: string, value: string, rest: Option<seq<string>>)
    requires |names| == |seen|
    ensures AsDict(names + [name], seen + [value]) == AsDict(names, seen)[name := value]
    ensures Preceded(seen, Preceded([value], rest)) == Preceded(seen + [value], rest)
  {
    var all := names + [name];
    assert all[..|all| - 1] == names && (seen + [value])[..|all| - 1] == seen;
    if rest.Some? { assert seen + ([value] + rest.value) == (seen + [value]) + rest.value; }
  }

  lemma NamesUpTo(tokens: seq<Token>, index: nat)
    requires index < |tokens|
    ensures tokens[index].Lit? ==> PropNames(tokens[..index + 1]) == PropNames(tokens[..index])
    ensures tokens[index].Prop? ==> PropNames(tokens[..index + 1]) == PropNames(tokens[..index]) + [tokens[index].name]
  {
    assert tokens[..index + 1] == tokens[..index] + [tokens[index]];
    PropNamesConcat(tokens[..index], [tokens[index]]);
  }

  method ComputeValueEnd(rn: string, tokens: seq<Token>, index: nat, pos: nat) returns (end: int)
    requires index < |tokens| && pos <= |rn|
    ensures end == ValueEnd(rn, tokens, index, pos)
  {
    if Bracketed(tokens, index) {
      end := ScanToClose(rn, pos);
    } else if index + 1 == |tokens| {
      end := |rn|;
    } else {
      end := Find(rn, TokenText(tokens[index + 1]), pos);
    }
  }

  /** The match of the whole RN continues at token `index` with the values seen so far. */
  ghost predicate Matching(rn: string, tokens: seq<Token>, index: nat, pos: nat, seen: seq<string>) {
    && index <= |tokens| && pos <= |rn|
    && |seen| == |PropNames(tokens[..index])|
    && MatchFrom(rn, tokens, 0, 0) == Preceded(seen, MatchFrom(rn, tokens, index, pos))
  }

  lemma MatchingProp(rn: string, tokens: seq<Token>, index: nat, pos: nat, seen: seq<string>, end: nat)
    requires Matching(rn, tokens, index, pos, seen) && index < |tokens| && tokens[index].Prop?
    requires end == ValueEnd(rn, tokens, index, pos)
    ensures Matching(rn, tokens, index + 1, end, seen + [rn[pos..end]])
    ensures AsDict(PropNames(tokens[..index + 1]), seen + [rn[pos..end]]) ==
            AsDict(PropNames(tokens[..index]), seen)[tokens[index].name := rn[pos..end]]
  {
    NamesUpTo(tokens, index);
    ValueRead(PropNames(tokens[..index]), seen, tokens[index].name, rn[pos..end], MatchFrom(rn, tokens, index + 1, end));
  }

  lemma MatchingStart(rn: string, tokens: seq<Token>)
    ensures Matching(rn, tokens, 0, 0, [])
  {
    var all := MatchFrom(rn, tokens, 0, 0);
    assert all.Some? ==> [] + all.value == all.value;
  }

  lemma MatchingLit(rn: string, tokens: seq<Token>, index: nat, pos: nat, seen: seq<string>)
    requires Matching(rn, tokens, index, pos, seen) && index < |tokens| && tokens[index].Lit?
    ensures PropNames(tokens[..index + 1]) == PropNames(tokens[..index])
    ensures OccursAt(rn, tokens[index].text, pos) ==> Matching(rn, tokens, index + 1, pos + |tokens[index].text|, seen)
    ensures !OccursAt(rn, tokens[index].text, pos) ==> MatchFrom(rn, tokens, 0, 0).None?
  {
    NamesUpTo(tokens, index);
  }

  lemma MatchingStops(rn: string, tokens: seq<Token>, index: nat, pos: nat, seen: seq<string>)
    requires Matching(rn, tokens, index, pos, seen) && index < |tokens| && tokens[index].Prop?
    requires ValueEnd(rn, tokens, index, pos) < 0
    ensures MatchFrom(rn, tokens, 0, 0).None?
  {
  }

  lemma MatchingAll(rn: string, tokens: seq<Token>, pos: nat, seen: seq<string>)
    requires Matching(rn, tokens, |tokens|, pos, seen)
    ensures |seen| == |PropNames(tokens)| && tokens[..|tokens|] == tokens
    ensures MatchFrom(rn, tokens, 0, 0) == if pos == |rn| then Some(seen) else None
  {
    assert tokens[..|tokens|] == tokens && seen + [] == seen;
  }

  /** The state of the matching loop. */
  ghost predicate MatchedSoFar(rn: string, tokens: seq<Token>, index: nat, pos: nat, seen: seq<string>, found: map<string, string>) {
    Matching(rn, tokens, index, pos, seen) && found == AsDict(PropNames(tokens[..index]), seen)
  }

  lemma MatchedLit(rn: string, tokens: seq<Token>, index: nat, pos: nat, seen: seq<string>, found: map<string, string>)
    requires MatchedSoFar(rn, tokens, index, pos, seen, found) && index < |tokens| && tokens[index].Lit?
    ensures OccursAt(rn, tokens[index].text, pos) ==> MatchedSoFar(rn, tokens, index + 1, pos + |tokens[index].text|, seen, found)
    ensures !OccursAt(rn, tokens[index].text, pos) ==> MatchFrom(rn, tokens, 0, 0).None?
  {
    hide Matching, MatchFrom, OccursAt, PropNames, AsDict;
    MatchingBounds(rn, tokens, index, pos, seen);
    MatchingLit(rn, tokens, index, pos, seen);
  }

  lemma MatchedProp(rn: string, tokens: seq<Token>, index: nat, pos: nat, seen: seq<string>, found: map<string, string>, end: nat)
    requires MatchedSoFar(rn, tokens, index, pos, seen, found) && index < |tokens| && tokens[index].Prop?
    requires end == ValueEnd(rn, tokens, index, pos)
    ensures pos <= end <= |rn|
    ensures MatchedSoFar(rn, tokens, index + 1, end, seen + [rn[pos..end]], found[tokens[index].name := rn[pos..end]])
  {
    hide MatchFrom, PropNames, AsDict;
    MatchingProp(rn, tokens, index, pos, seen, end);
  }

  lemma MatchedBounds(rn: string, tokens: seq<Token>, index: nat, pos: nat, seen: seq<string>, found: map<string, string>)
    requires MatchedSoFar(rn, tokens, index, pos, seen, found)
    ensures pos <= |rn| && Matching(rn, tokens, index, pos, seen)
  {
  }

  method MatchTokens(rn: string, tokens: seq<Token>) returns (ok: bool, found: map<string, string>, ghost seen: seq<string>)
    ensures ok == MatchFrom(rn, tokens, 0, 0).Some?
    ensures ok ==> MatchFrom(rn, tokens, 0, 0) == Some(seen) && |seen| == |PropNames(tokens)|
    ensures ok ==> found == AsDict(PropNames(tokens), seen)
  {
    ok, found, seen := false, map[], [];
    var pos: nat := 0;
    MatchingStart(rn, tokens);
    for index := 0 to |tokens|
      invariant !ok && MatchedSoFar(rn, tokens, index, pos, seen, found)
    {
      hide *;
      MatchedBounds(rn, tokens, index, pos, seen, found);
      if tokens[index].Lit? {
        MatchedLit(rn, tokens, index, pos, seen, found);
        if !OccursAt(rn, tokens[index].text, pos) { return; }
        pos := pos + |tokens[index].text|;
      } else {
        var end := ComputeValueEnd(rn, tokens, index, pos);
        if end < 0 { MatchingStops(rn, tokens, index, pos, seen); return; }
        MatchedProp(rn, tokens, index, pos, seen, found, end);
        found, seen, pos := found[tokens[index].name := rn[pos..end]], seen + [rn[pos..end]], end;
      }
    }
    MatchingAll(rn, tokens, pos, seen);
    ok := pos == |rn|;
  }

  lemma MatchingBounds(rn: string, tokens: seq<Token>, index: nat, pos: nat, seen: seq<string>)
    requires Matching(rn, tokens, index, pos, seen)
    ensures index <= |tokens| && pos <= |rn| && |seen| == |PropNames(tokens[..index])|
  {
  }

  method ComputeNamingValues(rn: string, format: string) returns (values: Option<map<string, string>>)
    ensures values == NamingValues(rn, format)
  {
    var tokens := ComputeTokens(format);
    if tokens.None? { return None; }
    var ok, found, _ := MatchTokens(rn, tokens.value);
    return if ok then Some(found) else None;
  }

  // ---- Refilling

  /** The token-wise fill of a format. */
  function Fill(tokens: seq<Token>, values: seq<string>): string
    requires |values| == |PropNames(tokens)|
  {
    if tokens == [] then ""
    else match tokens[0]
      case Lit(t) => t + Fill(tokens[1..], values)
      case Prop(_) => values[0] + Fill(tokens[1..], values[1..])
  }

  function FillDict(tokens: seq<Token>, values: map<string, string>): string
    requires forall n :: n in PropNames(tokens) ==> n in values
  {
    if tokens == [] then ""
    else (match tokens[0] case Lit(t) => t case Prop(n) => values[n]) + FillDict(tokens[1..], values)
  }

  lemma {:induction false} MatchRefills(rn: string, tokens: seq<Token>, i: nat, pos: nat)
    requires i <= |tokens| && pos <= |rn|
    requires MatchFrom(rn, tokens, i, pos).Some?
    ensures |MatchFrom(rn, tokens, i, pos).value| == |PropNames(tokens[i..])|
    ensures Fill(tokens[i..], MatchFrom(rn, tokens, i, pos).value) == rn[pos..]
    decreases |tokens| - i
  {
    MatchCount(rn, tokens, i, pos);
    if i < |tokens| {
      assert tokens[i..][1..] == tokens[i + 1..];
      match tokens[i]
      case Lit(t) =>
        MatchRefills(rn, tokens, i + 1, pos + |t|);
        assert rn[pos..] == t + rn[pos + |t|..];
      case Prop(_) =>
        var end := ValueEnd(rn, tokens, i, pos);
        MatchRefills(rn, tokens, i + 1, end);
        var values := MatchFrom(rn, tokens, i, pos).value;
        assert values[1..] == MatchFrom(rn, tokens, i + 1, end).value;
        assert rn[pos..] == rn[pos..end] + rn[end..];
    }
  }

  ghost predicate Agreeing(names: seq<string>, values: seq<string>)
    requires |names| == |values|
  {
    forall i, j :: 0 <= i < j < |names| && names[i] == names[j] ==> values[i] == values[j]
  }

  ghost predicate Distinct(names: seq<string>) {
    forall i, j :: 0 <= i < j < |names| ==> names[i] != names[j]
  }

  lemma {:induction false} AsDictLookup(names: seq<string>, values: seq<string>)
    requires |names| == |values|
    ensures forall n :: n in AsDict(names, values) <==> n in names
    ensures Agreeing(names, values) ==> forall i :: 0 <= i < |names| ==> AsDict(names, values)[names[i]] == values[i]
  {
    if names != [] {
      var last := |names| - 1;
      AsDictLookup(names[..last], values[..last]);
      assert names == names[..last] + [names[last]];
      var d := AsDict(names[..last], values[..last]);
      if Agreeing(names, values) {
        assert Agreeing(names[..last], values[..last]);
        forall i | 0 <= i < |names| ensures AsDict(names, values)[names[i]] == values[i] {
          if i < last { assert names[..last][i] == names[i] && values[..last][i] == values[i]; }
        }
      }
    }
  }

  lemma {:induction false} FillIsFillDict(tokens: seq<Token>, values: seq<string>, dict: map<string, string>)
    requires |values| == |PropNames(tokens)|
    requires forall i :: 0 <= i < |values| ==> PropNames(tokens)[i] in dict && dict[PropNames(tokens)[i]] == values[i]
    ensures forall n :: n in PropNames(tokens) ==> n in dict
    ensures FillDict(tokens, dict) == Fill(tokens, values)
  {
    if tokens != [] {
      var names := PropNames(tokens);
      if tokens[0].Prop? {
        assert names[1..] == PropNames(tokens[1..]) && names[0] == tokens[0].name;
        forall i | 0 <= i < |values| - 1
          ensures PropNames(tokens[1..])[i] in dict && dict[PropNames(tokens[1..])[i]] == values[1..][i]
        {
          assert names[i + 1] == PropNames(tokens[1..])[i];
        }
        FillIsFillDict(tokens[1..], values[1..], dict);
      } else {
        assert names == PropNames(tokens[1..]);
        FillIsFillDict(tokens[1..], values, dict);
      }
    }
  }

  /** Whatever `naming_values` extracts under distinct placeholder names refills to the RN. */
  lemma NamingRefills(rn: string, format: string)
    requires NamingValues(rn, format).Some?
    requires Distinct(PropNames(Tokenize(format).value))
    ensures forall n :: n in PropNames(Tokenize(format).value) <==> n in NamingValues(rn, format).value
    ensures FillDict(Tokenize(format).value, NamingValues(rn, format).value) == rn
  {
    var tokens := Tokenize(format).value;
    var values := MatchFrom(rn, tokens, 0, 0).value;
    assert tokens[0..] == tokens && rn[0..] == rn;
    MatchRefills(rn, tokens, 0, 0);
    AsDictLookup(PropNames(tokens), values);
    FillIsFillDict(tokens, values, AsDict(PropNames(tokens), values));
  }

  // ---- Recovering the values an RN was printed from

  /** Every placeholder is bracketed on both sides, or ends at a literal or at the end of the RN. */
  ghost predicate Delimited(tokens: seq<Token>) {
    forall i :: 0 <= i < |tokens| ==> DelimitedAt(tokens, i)
  }

  ghost predicate DelimitedAt(tokens: seq<Token>, i: nat)
    requires i < |tokens|
  {
    tokens[i].Prop? ==>
      if Bracketed(tokens, i)
      then i + 1 < |tokens| && tokens[i + 1].Lit? && "]" <= tokens[i + 1].text
      else i + 1 < |tokens| ==> tokens[i + 1].Lit?
  }

  /** A bracketed value closes exactly where it ends; another one does not contain its separator. */
  ghost predicate CleanValue(tokens: seq<Token>, i: nat, value: string)
    requires i < |tokens|
  {
    if Bracketed(tokens, i) then CloseBracket(value + "]", 0, 1) == |value|
    else i + 1 == |tokens| || Find(value + TokenText(tokens[i + 1]), TokenText(tokens[i + 1]), 0) == |value|
  }

  ghost predicate Clean(tokens: seq<Token>, i: nat, values: seq<string>)
    requires i <= |tokens| && |values| == |PropNames(tokens[i..])|
    decreases |tokens| - i
  {
    if i == |tokens| then true
    else
      assert tokens[i..][1..] == tokens[i + 1..];
      match tokens[i]
      case Lit(_) => Clean(tokens, i + 1, values)
      case Prop(_) => CleanValue(tokens, i, values[0]) && Clean(tokens, i + 1, values[1..])
  }

  lemma {:induction false} CloseBracketLocal(before: string, value: string, after: string, at: nat, depth: int)
    requires at <= |value|
    ensures var rn := before + value + "]" + after;
            CloseBracket(value + "]", at, depth) == |value| <==> CloseBracket(rn, |before| + at, depth) == |before| + |value|
    decreases |value| - at
  {
    var rn := before + value + "]" + after;
    var short := value + "]";
    assert rn[|before| + at] == short[at];
    if at < |value| {
      CloseBracketLocal(before, value, after, at + 1, depth + Delta(short[at]));
    } else {
      assert short[at] == ']';
    }
  }

  lemma {:induction false} FindLocal(before: string, value: string, sep: string, after: string, at: nat)
    requires at <= |value|
    ensures var rn := before + (value + sep) + after;
            Find(value + sep, sep, at) == |value| <==> Find(rn, sep, |before| + at) == |before| + |value|
    decreases |value| - at
  {
    OccursInWindow(before, value + sep, after, sep, at);
    if at < |value| {
      FindLocal(before, value, sep, after, at + 1);
    } else {
      assert (value + sep)[at..at + |sep|] == sep;
    }
  }

  /** A printed value is read back to its own end exactly when it is clean. */
  lemma ValueEndOfFill(tokens: seq<Token>, i: nat, before: string, value: string, rest: seq<string>)
    requires Delimited(tokens) && i < |tokens| && tokens[i].Prop? && |rest| == |PropNames(tokens[i + 1..])|
    ensures var rn := before + value + Fill(tokens[i + 1..], rest);
            ValueEnd(rn, tokens, i, |before|) == |before| + |value| <==> CleanValue(tokens, i, value)
  {
    assert DelimitedAt(tokens, i);
    if i + 1 < |tokens| {
      assert tokens[i + 1..][0] == tokens[i + 1];
      ValueEndInContext(tokens, i, before, value, Fill(tokens[i + 1..][1..], rest));
    } else {
      assert tokens[i + 1..] == [] && Fill(tokens[i + 1..], rest) == "";
    }
  }

  lemma ValueEndInContext(tokens: seq<Token>, i: nat, before: string, value: string, after: string)
    requires i + 1 < |tokens| && tokens[i + 1].Lit?
    requires Bracketed(tokens, i) ==> "]" <= tokens[i + 1].text
    ensures ValueEnd(before + value + (tokens[i + 1].text + after), tokens, i, |before|) == |before| + |value| <==>
            CleanValue(tokens, i, value)
  {
    var sep := tokens[i + 1].text;
    if Bracketed(tokens, i) {
      BracketInContext(before, value, sep, after);
    } else {
      assert before + value + (sep + after) == before + (value + sep) + after;
      FindLocal(before, value, sep, after, 0);
    }
  }

  lemma BracketInContext(before: string, value: string, sep: string, after: string)
    requires "]" <= sep
    ensures CloseBracket(before + value + (sep + after), |before|, 1) == |before| + |value| <==>
            CloseBracket(value + "]", 0, 1) == |value|
  {
    assert sep == "]" + sep[1..];
    assert before + value + (sep + after) == before + value + "]" + (sep[1..] + after);
    CloseBracketLocal(before, value, sep[1..] + after, 0, 1);
  }

  lemma {:induction false} MatchOfFill(tokens: seq<Token>, i: nat, before: string, values: seq<string>)
    requires Delimited(tokens) && i <= |tokens| && |values| == |PropNames(tokens[i..])|
    ensures MatchFrom(before + Fill(tokens[i..], values), tokens, i, |before|) == Some(values) <==>
            Clean(tokens, i, values)
    decreases |tokens| - i
  {
    if i < |tokens| {
      assert tokens[i..][1..] == tokens[i + 1..];
      if tokens[i].Lit? {
        MatchOfFill(tokens, i + 1, before + tokens[i].text, values);
        LitThenRest(tokens, i, before, Fill(tokens[i + 1..], values));
      } else {
        MatchOfFill(tokens, i + 1, before + values[0], values[1..]);
        ValueEndOfFill(tokens, i, before, values[0], values[1..]);
        ValueThenRest(tokens, i, before, values, Fill(tokens[i + 1..], values[1..]));
      }
    }
  }

  lemma LitThenRest(tokens: seq<Token>, i: nat, before: string, rest: string)
    requires i < |tokens| && tokens[i].Lit?
    ensures var t := tokens[i].text;
            MatchFrom(before + (t + rest), tokens, i, |before|) == MatchFrom((before + t) + rest, tokens, i + 1, |before + t|)
  {
    var t := tokens[i].text;
    assert before + (t + rest) == (before + t) + rest;
    assert (before + (t + rest))[|before|..|before| + |t|] == t;
  }

  lemma ValueThenRest(tokens: seq<Token>, i: nat, before: string, values: seq<string>, rest: string)
    requires i < |tokens| && tokens[i].Prop? && values != []
    ensures var v := values[0];
            MatchFrom(before + (v + rest), tokens, i, |before|) == Some(values) <==>
            ValueEnd(before + v + rest, tokens, i, |before|) == |before| + |v| &&
            MatchFrom((before + v) + rest, tokens, i + 1, |before + v|) == Some(values[1..])
  {
    var v := values[0];
    assert before + (v + rest) == (before + v) + rest;
    assert (before + (v + rest))[|before|..|before| + |v|] == v;
    MatchHead(before + (v + rest), tokens, i, |before|, values);
  }

  /** A match that starts with a placeholder returns `values` exactly when the head and the rest do. */
  lemma MatchHead(rn: string, tokens: seq<Token>, i: nat, pos: nat, values: seq<string>)
    requires i < |tokens| && tokens[i].Prop? && values != [] && pos + |values[0]| <= |rn|
    requires rn[pos..pos + |values[0]|] == values[0]
    ensures MatchFrom(rn, tokens, i, pos) == Some(values) <==>
            ValueEnd(rn, tokens, i, pos) == pos + |values[0]| &&
            MatchFrom(rn, tokens, i + 1, pos + |values[0]|) == Some(values[1..])
  {
    var end := ValueEnd(rn, tokens, i, pos);
    assert values == [values[0]] + values[1..];
    if end >= 0 {
      var rest := MatchFrom(rn, tokens, i + 1, end);
      if rest.Some? {
        assert ([rn[pos..end]] + rest.value)[0] == rn[pos..end];
        assert ([rn[pos..end]] + rest.value)[1..] == rest.value;
        assert |rn[pos..end]| == end - pos;
      }
    }
  }

  /** Printing values into a format and matching the RN recovers them exactly when the values are clean. */
  lemma FillThenMatch(tokens: seq<Token>, values: seq<string>)
    requires Delimited(tokens) && |values| == |PropNames(tokens)|
    ensures tokens[0..] == tokens
    ensures MatchFrom(Fill(tokens, values), tokens, 0, 0) == Some(values) <==> Clean(tokens, 0, values)
  {
    assert tokens[0..] == tokens;
    MatchOfFill(tokens, 0, "", values);
    assert "" + Fill(tokens, values) == Fill(tokens, values);
  }

  // ---- What a clean value is

  /** From this depth, no part of the rest closes more brackets than are open. */
  ghost predicate StaysOpen(value: string, at: nat, depth: int)
    requires at <= |value|
  {
    forall k :: at <= k <= |value| ==> depth + Level(value[at..k]) >= 1
  }

  lemma StaysOpenStep(value: string, at: nat, depth: int)
    requires at < |value|
    ensures StaysOpen(value, at, depth) <==> depth >= 1 && StaysOpen(value, at + 1, depth + Delta(value[at]))
  {
    forall k | at < k <= |value| ensures Level(value[at..k]) == Delta(value[at]) + Level(value[at + 1..k]) {
      assert value[at..k][1..] == value[at + 1..k];
    }
    assert value[at..at] == "";
    hide Level;
    var next := at + 1;
    if StaysOpen(value, at, depth) {
      forall k | next <= k <= |value| ensures depth + Delta(value[at]) + Level(value[next..k]) >= 1 {
        assert depth + Level(value[at..k]) >= 1;
      }
    }
    if depth >= 1 && StaysOpen(value, at + 1, depth + Delta(value[at])) {
      forall k | at <= k <= |value| ensures depth + Level(value[at..k]) >= 1 {
        if k > at { assert depth + Delta(value[at]) + Level(value[at + 1..k]) >= 1; }
      }
    }
  }

  /** From a positive depth, the scan ends at the end of the string exactly when the string stays open until then. */
  lemma {:induction false} CloseBracketIs(value: string, at: nat, depth: int)
    requires at <= |value| && depth >= 1
    ensures CloseBracket(value + "]", at, depth) == |value| <==> depth + Level(value[at..]) == 1 && StaysOpen(value, at, depth)
    decreases |value| - at
  {
    var text := value + "]";
    if at == |value| {
      assert text[at] == ']' && value[at..] == "" && forall k :: at <= k <= |value| ==> value[at..k] == "";
    } else {
      var after := depth + Delta(value[at]);
      assert text[at] == value[at] && value[at..][1..] == value[at + 1..];
      StaysOpenStep(value, at, depth);
      hide StaysOpen;
      if after == 0 {
        NotOpen(value, at + 1);
      } else {
        CloseBracketIs(value, at + 1, after);
      }
    }
  }

  lemma NotOpen(value: string, at: nat)
    requires at <= |value|
    ensures !StaysOpen(value, at, 0)
  {
    assert value[at..at] == "";
  }

  lemma FoundAtEnd(value: string, sep: string)
    ensures Find(value + sep, sep, 0) == |value| <==> forall k :: 0 <= k < |value| ==> !OccursAt(value + sep, sep, k)
  {
    var text := value + sep;
    assert text[|value|..|value| + |sep|] == sep;
    var found := Find(text, sep, 0);
    if found == |value| {
      forall k | 0 <= k < |value| ensures !OccursAt(text, sep, k) {
        if OccursAt(text, sep, k) { FindIsFirst(text, sep, 0, k); }
      }
    }
    FindIsFirst(text, sep, 0, |value|);
  }

  /** The literal before ends with an opening bracket. */
  ghost predicate Opens(tokens: seq<Token>, i: nat)
    requires i <= |tokens|
  {
    i > 0 && tokens[i - 1].Lit? && exists before :: tokens[i - 1].text == before + "["
  }

  lemma OpensIs(tokens: seq<Token>, i: nat)
    requires i <= |tokens|
    ensures Opens(tokens, i) <==> Bracketed(tokens, i)
  {
    if Bracketed(tokens, i) {
      var text := tokens[i - 1].text;
      assert text == text[..|text| - 1] + "[";
    }
  }

  /**
   * A value after an opening bracket is clean when its own brackets balance and none closes too early;
   * another value when it is last, or the separator after it does not occur before its end.
   */
  lemma CleanValueMeans(tokens: seq<Token>, i: nat, value: string)
    requires i < |tokens|
    ensures CleanValue(tokens, i, value) <==>
            if Opens(tokens, i) then Level(value) == 0 && forall k :: 0 <= k <= |value| ==> Level(value[..k]) >= 0
            else i + 1 == |tokens| ||
                 var sep := match tokens[i + 1] case Lit(text) => text case Prop(name) => name;
                 forall k :: 0 <= k < |value| ==> !OccursAt(value + sep, sep, k)
  {
    OpensIs(tokens, i);
    CloseBracketIs(value, 0, 1);
    assert value[0..] == value;
    assert StaysOpen(value, 0, 1) <==> forall k :: 0 <= k <= |value| ==> Level(value[..k]) >= 0 by {
      forall k | 0 <= k <= |value| ensures value[0..k] == value[..k] {}
    }
    hide CloseBracket, Find, Opens, Bracketed, Level;
    if i + 1 < |tokens| { FoundAtEnd(value, TokenText(tokens[i + 1])); }
  }

  // ---- Whole DNs

  /** Literals and values keep the RN balanced and free of separators outside brackets. */
  ghost predicate Shaped(tokens: seq<Token>, values: seq<string>, level: int)
    requires |values| == |PropNames(tokens)|
  {
    if tokens == [] then level == 0
    else match tokens[0]
      case Lit(t) => Atomic(t, level) && Shaped(tokens[1..], values, level + Level(t))
      case Prop(_) => Atomic(values[0], level) && Level(values[0]) == 0 && Shaped(tokens[1..], values[1..], level)
  }

  lemma {:induction false} ShapedFill(tokens: seq<Token>, values: seq<string>, level: int)
    requires |values| == |PropNames(tokens)| && Shaped(tokens, values, level)
    ensures Atomic(Fill(tokens, values), level) && level + Level(Fill(tokens, values)) == 0
  {
    if tokens != [] {
      match tokens[0]
      case Lit(t) =>
        ShapedFill(tokens[1..], values, level + Level(t));
        AtomicConcat(t, Fill(tokens[1..], values), level);
        LevelConcat(t, Fill(tokens[1..], values));
      case Prop(_) =>
        ShapedFill(tokens[1..], values[1..], level);
        AtomicConcat(values[0], Fill(tokens[1..], values[1..]), level);
        LevelConcat(values[0], Fill(tokens[1..], values[1..]));
    }
  }

  /** A bracketed clean value is balanced and hides its slashes, whatever it contains. */
  lemma {:induction false} ClosedValueIsAtomic(value: string, at: nat, depth: int, level: int)
    requires 1 <= depth <= level && at <= |value|
    requires CloseBracket(value + "]", at, depth) == |value|
    ensures Atomic(value[at..], level) && Level(value[at..]) + depth == 1
    decreases |value| - at
  {
    if at < |value| {
      var c := value[at];
      assert (value + "]")[at] == c;
      assert value[at..][1..] == value[at + 1..];
      ClosedValueIsAtomic(value, at + 1, depth + Delta(c), level + Delta(c));
    } else {
      assert (value + "]")[at] == ']';
    }
  }

  /** Brackets balance, a value in brackets of its own is inside some, and any other value is balanced. */
  ghost predicate Sheltered(tokens: seq<Token>, i: nat, level: int, values: seq<string>)
    requires i <= |tokens| && |values| == |PropNames(tokens[i..])|
    decreases |tokens| - i
  {
    if i == |tokens| then level == 0
    else
      assert tokens[i..][1..] == tokens[i + 1..];
      match tokens[i]
      case Lit(t) => Atomic(t, level) && Sheltered(tokens, i + 1, level + Level(t), values)
      case Prop(_) =>
        && (if Bracketed(tokens, i) then level >= 1 else Atomic(values[0], level) && Level(values[0]) == 0)
        && Sheltered(tokens, i + 1, level, values[1..])
  }

  /** A clean value in brackets of its own may contain anything. */
  lemma {:induction false} ShelteredShaped(tokens: seq<Token>, i: nat, level: int, values: seq<string>)
    requires i <= |tokens| && |values| == |PropNames(tokens[i..])|
    requires Clean(tokens, i, values) && Sheltered(tokens, i, level, values)
    ensures Shaped(tokens[i..], values, level)
    decreases |tokens| - i
  {
    if i < |tokens| {
      assert tokens[i..][1..] == tokens[i + 1..];
      match tokens[i]
      case Lit(t) => ShelteredShaped(tokens, i + 1, level + Level(t), values);
      case Prop(_) =>
        ShelteredShaped(tokens, i + 1, level, values[1..]);
        if Bracketed(tokens, i) {
          ClosedValueIsAtomic(values[0], 0, 1, level);
          assert values[0][0..] == values[0];
        }
    }
  }

  /** One object of a DN chain: its format and the naming values it was printed from. */
  datatype Named = Named(tokens: seq<Token>, values: seq<string>) {
    ghost predicate Valid() {
      && |values| == |PropNames(tokens)|
      && tokens[0..] == tokens
      && Delimited(tokens) && Clean(tokens, 0, values) && Sheltered(tokens, 0, 0, values)
      && Fill(tokens, values) != ""
    }
    function Rn(): string
      requires |values| == |PropNames(tokens)|
    {
      Fill(tokens, values)
    }
  }

  ghost predicate ValidChain(chain: seq<Named>) {
    chain != [] && forall i :: 0 <= i < |chain| ==> chain[i].Valid()
  }

  ghost function Rns(chain: seq<Named>): (r: seq<string>)
    requires forall i :: 0 <= i < |chain| ==> chain[i].Valid()
    ensures |r| == |chain| && forall i :: 0 <= i < |r| ==> chain[i].Valid() && r[i] == chain[i].Rn()
  {
    seq(|chain|, i requires 0 <= i < |chain| && chain[i].Valid() => chain[i].Rn())
  }

  /** The DN of a chain of named objects gives back every RN, every value and every ancestor. */
  lemma ChainRoundTrip(chain: seq<Named>)
    requires ValidChain(chain)
    ensures var dn := JoinDn(Rns(chain));
            && SplitDn(dn) == Rns(chain)
            && (forall i :: 0 <= i < |chain| ==>
                  MatchFrom(SplitDn(dn)[i], chain[i].tokens, 0, 0) == Some(chain[i].values))
            && RnOf(dn) == Rns(chain)[|chain| - 1]
            && (|chain| > 1 ==> ParentDn(dn) == Some(JoinDn(Rns(chain[..|chain| - 1]))))
  {
    var path := Rns(chain);
    forall i | 0 <= i < |chain|
      ensures IsRn(path[i]) && MatchFrom(path[i], chain[i].tokens, 0, 0) == Some(chain[i].values)
    {
      ShelteredShaped(chain[i].tokens, 0, 0, chain[i].values);
      ShapedFill(chain[i].tokens, chain[i].values, 0);
      FillThenMatch(chain[i].tokens, chain[i].values);
    }
    PathRoundTrip(path);
    if |chain| > 1 {
      assert path[..|path| - 1] == Rns(chain[..|chain| - 1]);
    }
  }
}
