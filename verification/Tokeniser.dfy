/**
 The tokeniser of the register language (tools/wae_tok.py), with the end-of-token
 characters that tools/dd_dsl.py gives it.
 */
module Tokeniser {

  /** `Crash` is a Python exception that nothing catches. */
  datatype Outcome<T> = Done(value: T) | ParseError | Crash

  /** `string.whitespace`. */
  predicate IsWhite(c: char) {
    c == ' ' || c == '\t' || c == '\n' || c == '\r' || c == '\U{0B}' || c == '\U{0C}'
  }

  predicate IsDelimiter(c: char) {
    c == '#' || c == '@' || c == '<' || c == '>' || c == ':' || c == '{' || c == '}' || c == '(' || c == ')' || c == ','
  }

  predicate IsEot(c: char) {
    IsWhite(c) || IsDelimiter(c)
  }

  // ---------------------------------------------------------------- what the tokeniser computes

  /** Index of the quote that closes the literal opened at `s[0]`. An escape at the start of the literal is
      looked up under a name that does not exist, and an unclosed literal runs off the line. */
  function CloseQuote(s: string, i: nat): (r: Outcome<nat>)
    requires 1 <= i
    ensures r.Done? ==> i <= r.value < |s|
    ensures !r.ParseError?
    decreases |s| - i
  {
    if i >= |s| then Crash
    else if s[i] == '"' then Done(i)
    else if s[1..i] == "\\" then Crash
    else CloseQuote(s, i + 1)
  }

  /** Length of the longest prefix without an end-of-token character. */
  function RunLength(s: string): (n: nat)
    ensures n <= |s|
  {
    if s == [] || IsEot(s[0]) then 0 else 1 + RunLength(s[1..])
  }

  function Prepend(tok: string, rest: Outcome<seq<string>>): Outcome<seq<string>> {
    if rest.Done? then Done([tok] + rest.value) else rest
  }

  /** Length of the token at the start of a line that does not start with white space. */
  function TokenLength(line: string): (n: Outcome<nat>)
    requires line != []
    ensures n.Done? ==> 1 <= n.value <= |line|
    ensures !n.ParseError?
  {
    if line[0] == '"' then
      var q := CloseQuote(line, 1);
      if q.Done? then Done(q.value + 1) else Crash
    else if IsEot(line[0]) then Done(1)
    else Done(RunLength(line))
  }

  function Tokens(line: string): (r: Outcome<seq<string>>)
    ensures !r.ParseError?
  {
    if line == [] then Done([])
    else if IsWhite(line[0]) then Tokens(line[1..])
    else
      var n := TokenLength(line);
      if n.Done? then Prepend(line[..n.value], Tokens(line[n.value..])) else Crash
  }

  class Scanner {
    var tokens: seq<string>

    constructor ()
      ensures tokens == []
    {
      tokens := [];
    }

    method EatStringLiteral(s: string) returns (n: Outcome<nat>)
      requires s != [] && s[0] == '"'
      modifies this
      ensures n == TokenLength(s)
      ensures tokens == if n.Done? then old(tokens) + [s[..n.value]] else old(tokens)
    {
      var idx, tok := 1, "";
      while true
        invariant 1 <= idx && (idx <= |s| ==> tok == s[1..idx])
        invariant CloseQuote(s, 1) == CloseQuote(s, idx)
        invariant tokens == old(tokens)
        decreases |s| - idx
      {
        if idx >= |s| { return Crash; }
        var cur := s[idx];
        if cur == '"' { break; }
        if tok == "\\" { return Crash; }
        assert s[1..idx + 1] == s[1..idx] + [cur];
        tok := tok + [cur];
        idx := idx + 1;
      }
      assert s[..idx + 1] == "\"" + s[1..idx] + "\"";
      tokens := tokens + ["\"" + tok + "\""];
      n := Done(idx + 1);
    }

    method EatToken(s: string) returns (idx: nat)
      requires s != [] && s[0] != '"'
      modifies this
      ensures TokenLength(s) == Done(idx)
      ensures tokens == old(tokens) + [s[..idx]]
    {
      if IsEot(s[0]) {
        tokens := tokens + [[s[0]]];
        assert s[..1] == [s[0]];
        return 1;
      }
      var tok := "";
      idx := 0;
      assert s[0..] == s;
      while idx < |s|
        invariant 0 <= idx <= |s| && tok == s[..idx] && tokens == old(tokens)
        invariant RunLength(s) == idx + RunLength(s[idx..])
      {
        var cur := s[idx];
        if IsEot(cur) { break; }
        assert s[idx..][1..] == s[idx + 1..];
        tok := tok + [cur];
        idx := idx + 1;
      }
      tokens := tokens + [tok];
    }

    method Tokenise(line: string) returns (ok: bool)
      modifies this
      ensures ok == Tokens(line).Done?
      ensures ok ==> tokens == old(tokens) + Tokens(line).value
    {
      hide Tokens, TokenLength;
      var idx := 0;
      assert line[0..] == line;
      while idx < |line|
        invariant 0 <= idx <= |line|
        invariant After(tokens, Tokens(line[idx..])) == After(old(tokens), Tokens(line))
      {
        var cur := line[idx];
        NextToken(tokens, line, idx);
        if cur == '"' {
          var n := EatStringLiteral(line[idx..]);
          if !n.Done? { return false; }
          idx := idx + n.value;
        } else if IsWhite(cur) {
          idx := idx + 1;
        } else {
          var n := EatToken(line[idx..]);
          idx := idx + n;
        }
      }
      NoTokens();
      assert line[idx..] == [] && tokens + [] == tokens;
      ok := true;
    }
  }

  function After(tokens: seq<string>, rest: Outcome<seq<string>>): Outcome<seq<string>> {
    if rest.Done? then Done(tokens + rest.value) else rest
  }

  /** One turn of the tokeniser's loop. */
  lemma NextToken(tokens: seq<string>, line: string, idx: nat)
    requires idx < |line|
    ensures After(tokens, Tokens(line[idx..])) ==
      if IsWhite(line[idx]) then After(tokens, Tokens(line[idx + 1..]))
      else
        var n := TokenLength(line[idx..]);
        if n.Done? then After(tokens + [line[idx..][..n.value]], Tokens(line[idx + n.value..])) else Crash
  {
    var s := line[idx..];
    assert s[1..] == line[idx + 1..];
    if !IsWhite(line[idx]) && TokenLength(s).Done? {
      var n := TokenLength(s).value;
      assert s[n..] == line[idx + n..];
      if Tokens(s[n..]).Done? {
        assert tokens + ([s[..n]] + Tokens(s[n..]).value) == tokens + [s[..n]] + Tokens(s[n..]).value;
      }
    }
  }

  // ---------------------------------------------------------------- spellings

  ghost predicate Blank(s: string) {
    forall i | 0 <= i < |s| :: IsWhite(s[i])
  }

  ghost predicate IsWord(tok: string) {
    tok != [] && tok[0] != '"' && forall i | 0 <= i < |tok| :: !IsEot(tok[i])
  }

  ghost predicate IsMark(tok: string) {
    |tok| == 1 && IsDelimiter(tok[0])
  }

  ghost predicate IsLiteral(tok: string) {
    && |tok| >= 2 && tok[0] == '"' && tok[|tok| - 1] == '"'
    && (forall i | 1 <= i < |tok| - 1 :: tok[i] != '"')
    && (|tok| > 3 ==> tok[1] != '\\')
  }

  /** A token and the white space before it. */
  datatype Piece = Piece(gap: string, tok: string)

  /** White space parts a word from a word or a literal that follows it. */
  ghost predicate WellSpaced(ps: seq<Piece>) {
    && (forall i | 0 <= i < |ps| ::
      Blank(ps[i].gap) && (IsWord(ps[i].tok) || IsMark(ps[i].tok) || IsLiteral(ps[i].tok)))
    && (forall i | 0 < i < |ps| :: IsWord(ps[i - 1].tok) && !IsMark(ps[i].tok) ==> ps[i].gap != [])
  }

  function Spell(ps: seq<Piece>, tail: string): string {
    if ps == [] then tail else ps[0].gap + (ps[0].tok + Spell(ps[1..], tail))
  }

  function Toks(ps: seq<Piece>): (r: seq<string>)
    ensures |r| == |ps| && forall i | 0 <= i < |ps| :: r[i] == ps[i].tok
  {
    if ps == [] then [] else [ps[0].tok] + Toks(ps[1..])
  }

  ghost predicate IsSpelling(line: string, toks: seq<string>) {
    exists ps: seq<Piece>, tail: string :: WellSpaced(ps) && Blank(tail) && Toks(ps) == toks && line == Spell(ps, tail)
  }

  /** A line has the tokens of which it is a spelling, and no others. */
  lemma TokensIffSpelling(line: string, toks: seq<string>)
    ensures Tokens(line) == Done(toks) <==> IsSpelling(line, toks)
  {
    if Tokens(line) == Done(toks) {
      var ps, tail := EveryLineIsSpelled(line);
    }
    if IsSpelling(line, toks) {
      var ps: seq<Piece>, tail: string :|
        WellSpaced(ps) && Blank(tail) && Toks(ps) == toks && line == Spell(ps, tail);
      SpellingTokenises(ps, tail);
    }
  }

  lemma {:induction false} SpellingTokenises(ps: seq<Piece>, tail: string)
    requires WellSpaced(ps) && Blank(tail)
    ensures Tokens(Spell(ps, tail)) == Done(Toks(ps))
  {
    hide Tokens, TokenLength, IsEot;
    if ps == [] {
      SkipBlank(tail, []);
      assert tail + [] == tail;
      NoTokens();
    } else {
      var p, rest := ps[0], Spell(ps[1..], tail);
      SkipBlank(p.gap, p.tok + rest);
      WellSpacedRest(ps);
      SpellingTokenises(ps[1..], tail);
      AfterWord(ps, tail);
      TakeToken(p.tok, rest);
    }
  }

  lemma NoTokens()
    ensures Tokens([]) == Done([])
  {}

  lemma WellSpacedRest(ps: seq<Piece>)
    requires WellSpaced(ps) && ps != []
    ensures WellSpaced(ps[1..])
  {
    var qs := ps[1..];
    forall i | 0 < i < |qs|
      ensures IsWord(qs[i - 1].tok) && !IsMark(qs[i].tok) ==> qs[i].gap != []
    {
      assert qs[i - 1] == ps[i + 1 - 1] && qs[i] == ps[i + 1];
    }
  }

  lemma {:induction false} SkipBlank(gap: string, rest: string)
    requires Blank(gap)
    ensures Tokens(gap + rest) == Tokens(rest)
  {
    if gap == [] {
      assert gap + rest == rest;
    } else {
      assert (gap + rest)[1..] == gap[1..] + rest;
      assert IsWhite(gap[0]);
      SkipBlank(gap[1..], rest);
    }
  }

  /** What follows a word is empty or starts with an end of token. */
  lemma AfterWord(ps: seq<Piece>, tail: string)
    requires WellSpaced(ps) && Blank(tail) && ps != []
    ensures var rest := Spell(ps[1..], tail); IsWord(ps[0].tok) && rest != [] ==> IsEot(rest[0])
  {
    var qs := ps[1..];
    if qs != [] {
      assert qs[0] == ps[1];
      assert IsWord(ps[1 - 1].tok) && !IsMark(ps[1].tok) ==> ps[1].gap != [];
    }
  }

  lemma {:induction false} RunOfWord(tok: string, rest: string)
    requires forall i | 0 <= i < |tok| :: !IsEot(tok[i])
    requires rest == [] || IsEot(rest[0])
    ensures RunLength(tok + rest) == |tok|
  {
    if tok == [] {
      assert tok + rest == rest;
    } else {
      assert (tok + rest)[1..] == tok[1..] + rest;
      RunOfWord(tok[1..], rest);
    }
  }

  lemma TakeToken(tok: string, rest: string)
    requires IsWord(tok) || IsMark(tok) || IsLiteral(tok)
    requires IsWord(tok) && rest != [] ==> IsEot(rest[0])
    ensures Tokens(tok + rest) == Prepend(tok, Tokens(rest))
  {
    if IsWord(tok) {
      RunOfWord(tok, rest);
      assert !IsEot(tok[0]);
    } else if IsLiteral(tok) {
      QuoteCloses(tok, rest, 1);
    }
    assert TokenLength(tok + rest) == Done(|tok|);
    assert (tok + rest)[..|tok|] == tok && (tok + rest)[|tok|..] == rest;
  }

  lemma {:induction false} QuoteCloses(tok: string, rest: string, i: nat)
    requires IsLiteral(tok) && 1 <= i < |tok|
    ensures CloseQuote(tok + rest, i) == Done(|tok| - 1)
    decreases |tok| - i
  {
    if i < |tok| - 1 {
      QuoteCloses(tok, rest, i + 1);
      assert (tok + rest)[i] == tok[i];
      if i == 2 { assert (tok + rest)[1..2] == [tok[1]]; }
    }
  }

  lemma {:induction false} EveryLineIsSpelled(line: string) returns (ps: seq<Piece>, tail: string)
    requires Tokens(line).Done?
    ensures WellSpaced(ps) && Blank(tail) && line == Spell(ps, tail) && Tokens(line) == Done(Toks(ps))
    ensures line != [] && IsEot(line[0]) && ps != [] ==> ps[0].gap != [] || IsMark(ps[0].tok)
  {
    hide Spell, WellSpaced;
    if line == [] {
      ps, tail := [], [];
      SpellNothing(tail);
    } else if IsWhite(line[0]) {
      ps, tail := EveryLineIsSpelled(line[1..]);
      assert line == [line[0]] + line[1..];
      ps, tail := MoreBlank(line[0], ps, tail);
    } else {
      var n := TokenLength(line).value;
      FirstIsToken(line);
      ps, tail := EveryLineIsSpelled(line[n..]);
      assert line == line[..n] + line[n..];
      AddPiece(line[..n], ps, tail);
      ps := [Piece([], line[..n])] + ps;
    }
  }

  lemma SpellNothing(tail: string)
    ensures WellSpaced([]) && Spell([], tail) == tail
  {}

  lemma MoreBlank(c: char, ps: seq<Piece>, tail: string) returns (qs: seq<Piece>, tail': string)
    requires IsWhite(c) && WellSpaced(ps) && Blank(tail)
    ensures WellSpaced(qs) && Blank(tail') && Toks(qs) == Toks(ps) && Spell(qs, tail') == [c] + Spell(ps, tail)
    ensures qs != [] ==> qs[0].gap != []
  {
    hide Toks, IsWord, IsMark, IsLiteral;
    if ps == [] {
      return [], [c] + tail;
    }
    qs, tail' := ps[0 := Piece([c] + ps[0].gap, ps[0].tok)], tail;
    assert qs[1..] == ps[1..];
    forall i | 0 < i < |qs|
      ensures IsWord(qs[i - 1].tok) && !IsMark(qs[i].tok) ==> qs[i].gap != []
    {
      assert qs[i - 1].tok == ps[i - 1].tok;
    }
  }

  lemma AddPiece(tok: string, ps: seq<Piece>, tail: string)
    requires WellSpaced(ps) && (IsWord(tok) || IsMark(tok) || IsLiteral(tok))
    requires IsWord(tok) && ps != [] ==> ps[0].gap != [] || IsMark(ps[0].tok)
    ensures var qs := [Piece([], tok)] + ps;
      WellSpaced(qs) && Spell(qs, tail) == tok + Spell(ps, tail) && Toks(qs) == [tok] + Toks(ps)
  {
    var qs := [Piece([], tok)] + ps;
    assert qs[1..] == ps;
    forall i | 0 < i < |qs|
      ensures IsWord(qs[i - 1].tok) && !IsMark(qs[i].tok) ==> qs[i].gap != []
    {
      assert qs[i] == ps[i - 1];
      if i > 1 { assert qs[i - 1] == ps[i - 1 - 1]; }
    }
  }

  lemma FirstIsToken(line: string)
    requires line != [] && !IsWhite(line[0]) && TokenLength(line).Done?
    ensures var n := TokenLength(line).value;
      && (IsWord(line[..n]) || IsMark(line[..n]) || IsLiteral(line[..n]))
      && (IsWord(line[..n]) && n < |line| ==> IsEot(line[n]))
  {
    if line[0] == '"' {
      QuotedIsLiteral(line, 1);
    } else if !IsEot(line[0]) {
      RunIsWord(line);
    }
  }

  lemma {:induction false} RunIsWord(s: string)
    ensures var n := RunLength(s);
      (forall i | 0 <= i < n :: !IsEot(s[i])) && (n < |s| ==> IsEot(s[n]))
  {
    if s != [] && !IsEot(s[0]) {
      RunIsWord(s[1..]);
      forall i | 0 <= i < RunLength(s)
        ensures !IsEot(s[i])
      {
        if i > 0 { assert s[i] == s[1..][i - 1]; }
      }
    }
  }

  lemma {:induction false} QuotedIsLiteral(s: string, i: nat)
    requires 1 <= i && s != [] && s[0] == '"' && CloseQuote(s, i).Done?
    requires forall k | 1 <= k < i && k < |s| :: s[k] != '"'
    requires 2 < i <= |s| ==> s[1] != '\\'
    ensures IsLiteral(s[..CloseQuote(s, i).value + 1])
    decreases |s| - i
  {
    if s[i] != '"' {
      if i == 2 { assert s[1..2] == [s[1]]; }
      QuotedIsLiteral(s, i + 1);
    }
  }
}
