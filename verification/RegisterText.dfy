/**
 The parser of the register language and the printer of its variables
 (tools/dd_dsl.py). Python's `eval` is a parameter, except on decimal numerals.
 */
module RegisterText {
  import opened Tokeniser
  import opened BitfieldLayout
  import opened Numerals
  import opened Optional

  datatype Register = Register(
    name: string, size: int, offsets: seq<int>, read: bool, write: bool, vars: seq<Variable>)

  /** `None` when evaluation raises or does not give an `int`. */
  type Eval = string -> Option<int>

  const MAX_INT: int := 0x7fff_ffff

  // ---------------------------------------------------------------- expressions

  function Join(toks: seq<string>): string {
    if toks == [] then ""
    else if |toks| == 1 then toks[0]
    else toks[0] + " " + Join(toks[1..])
  }

  /** `parse_int_expr`. */
  function IntExpr(eval: Eval, toks: seq<string>): (r: Outcome<int>)
    ensures !r.Crash?
  {
    var s := Join(toks);
    var value := if IsNumeral(s) then Some(Numeral(s)) else eval(s);
    if value.Some? && -MAX_INT - 1 <= value.value <= MAX_INT then Done(value.value) else ParseError
  }

  // ---------------------------------------------------------------- parsing a line

  /** Python's `index`. */
  function IndexOf(toks: seq<string>, t: string): (r: Option<nat>)
    ensures r.Some? ==> r.value < |toks| && toks[r.value] == t && t !in toks[..r.value]
    ensures r.None? ==> t !in toks
  {
    if toks == [] then None
    else if toks[0] == t then Some(0)
    else
      var r := IndexOf(toks[1..], t);
      if r.Some? then
        assert toks[..r.value + 1] == [toks[0]] + toks[1..][..r.value];
        Some(r.value + 1)
      else None
  }

  function Last(toks: seq<string>): string
    requires toks != []
  {
    toks[|toks| - 1]
  }

  function Front(toks: seq<string>): seq<string>
    requires toks != []
  {
    toks[..|toks| - 1]
  }

  /** `parse_variable`. */
  function ParseVariable(eval: Eval, toks: seq<string>): Outcome<Variable>
    requires toks != []
  {
    if |toks| < 2 then Crash
    else if toks[1] != "<" then ParseError
    else
      var rest := toks[2..];
      match IndexOf(rest, ":")
      case Some(k) =>
        var start, rest := IntExpr(eval, rest[..k]), rest[k + 1..];
        if !start.Done? then ParseError
        else if rest == [] then Crash
        else if Last(rest) != ">" then ParseError
        else
          var end := IntExpr(eval, Front(rest));
          if end.Done? then Done(Variable(toks[0], start.value, Some(end.value))) else ParseError
      case None =>
        if rest == [] then Crash
        else if Last(rest) != ">" then ParseError
        else
          var start := IntExpr(eval, Front(rest));
          if start.Done? then Done(Variable(toks[0], start.value, None)) else ParseError
  }

  /** The items of a list, up to the closing parenthesis. */
  function Items(eval: Eval, toks: seq<string>): (r: Outcome<seq<int>>)
    requires toks != [] && Last(toks) == ")"
    ensures !r.Crash?
  {
    match IndexOf(toks, ",")
    case Some(k) =>
      var x := IntExpr(eval, toks[..k]);
      if !x.Done? then ParseError
      else
        var xs := Items(eval, toks[k + 1..]);
        if xs.Done? then Done([x.value] + xs.value) else ParseError
    case None =>
      var x := IntExpr(eval, Front(toks));
      if x.Done? then Done([x.value]) else ParseError
  }

  function ListExpr(eval: Eval, toks: seq<string>): Outcome<seq<int>> {
    if toks == [] then Crash
    else if toks[0] == "(" then
      if Last(toks) != ")" then ParseError else Items(eval, toks[1..])
    else
      var x := IntExpr(eval, toks);
      if x.Done? then Done([x.value]) else ParseError
  }

  /** `parse_list_expr`. */
  method ParseListExpr(eval: Eval, toks: seq<string>) returns (r: Outcome<seq<int>>)
    ensures r == ListExpr(eval, toks)
  {
    hide Items, IntExpr, IndexOf;
    if toks == [] { return Crash; }
    var items := [];
    if toks[0] == "(" {
      if toks[|toks| - 1] != ")" { return ParseError; }
      FollowNothing(Items(eval, toks[1..]));
      var start, comma := 1, 0;
      while comma != -1
        invariant comma == -1 ==> Done(items) == Items(eval, toks[1..])
        invariant comma != -1 ==> 1 <= start < |toks| && Follow(items, Items(eval, toks[start..])) == Items(eval, toks[1..])
        decreases if comma == -1 then 0 else |toks| - start + 1
      {
        var next := IndexOf(toks[start..], ",");
        comma := if next.Some? then start + next.value else -1;
        var part := if comma == -1 then toks[start..|toks| - 1] else toks[start..comma];
        var x := IntExpr(eval, part);
        NextItem(eval, toks, start, items);
        if !x.Done? { return ParseError; }
        items := items + [x.value];
        start := comma + 1;
      }
    } else {
      var x := IntExpr(eval, toks);
      if !x.Done? { return ParseError; }
      items := [x.value];
    }
    r := Done(items);
  }

  function Follow(items: seq<int>, rest: Outcome<seq<int>>): Outcome<seq<int>> {
    if rest.Done? then Done(items + rest.value) else rest
  }

  lemma FollowNothing(rest: Outcome<seq<int>>)
    ensures Follow([], rest) == rest
  {
    if rest.Done? { assert [] + rest.value == rest.value; }
  }

  /** One turn of the list parser's loop. */
  lemma NextItem(eval: Eval, toks: seq<string>, start: nat, items: seq<int>)
    requires start < |toks| && Last(toks) == ")"
    ensures Follow(items, Items(eval, toks[start..])) ==
      match IndexOf(toks[start..], ",")
      case Some(k) =>
        assert start + k + 1 < |toks| by { assert toks[start..][k] == ","; }
        var x := IntExpr(eval, toks[start..start + k]);
        if x.Done? then Follow(items + [x.value], Items(eval, toks[start + k + 1..])) else ParseError
      case None =>
        var x := IntExpr(eval, toks[start..|toks| - 1]);
        if x.Done? then Done(items + [x.value]) else ParseError
  {
    hide IntExpr, IndexOf;
    var s := toks[start..];
    match IndexOf(s, ",")
    case Some(k) =>
      assert s[..k] == toks[start..start + k] && s[k + 1..] == toks[start + k + 1..];
      var x, xs := IntExpr(eval, s[..k]), Items(eval, s[k + 1..]);
      if x.Done? && xs.Done? {
        assert items + ([x.value] + xs.value) == items + [x.value] + xs.value;
      }
    case None =>
      assert Front(s) == toks[start..|toks| - 1];
  }

  function UpperChar(c: char): char {
    if 'a' <= c <= 'z' then (c as int - 32) as char else c
  }

  function Upper(s: string): (r: string)
    ensures |r| == |s| && forall i | 0 <= i < |s| :: r[i] == UpperChar(s[i])
  {
    if s == [] then [] else [UpperChar(s[0])] + Upper(s[1..])
  }

  /** What the options leave of the read and write accessors. */
  function Options(opts: seq<string>, read: bool, write: bool): Outcome<(bool, bool)> {
    if opts == [] then Done((read, write))
    else
      var o := Upper(opts[0]);
      if o == "RO" then Options(opts[1..], read, false)
      else if o == "WO" then Options(opts[1..], false, write)
      else if o == "RW" then Options(opts[1..], read, write)
      else ParseError
  }

  function Between(toks: seq<string>, lo: nat, hi: nat): seq<string>
    requires hi <= |toks|
  {
    if lo <= hi then toks[lo..hi] else []
  }

  function Header(eval: Eval, toks: seq<string>): Outcome<Register>
    requires toks != [] && Last(toks) == ":"
  {
    match IndexOf(toks, "@")
    case None => ParseError
    case Some(at) =>
      var brace := IndexOf(toks, "{");
      if at <= 1 then ParseError
      else
        var size := IntExpr(eval, toks[1..at]);
        if !size.Done? then ParseError
        else
          var end := if brace.Some? then brace.value else |toks| - 1;
          var offsets := ListExpr(eval, Between(toks, at + 1, end));
          if offsets.Crash? then Crash
          else if offsets.ParseError? then ParseError
          else
            var access :=
              if brace == None || brace == Some(0) then Done((true, true))
              else
                var close := IndexOf(toks, "}");
                if close == None then ParseError
                else Options(Between(toks, brace.value + 1, close.value), true, true);
            if access.Done?
            then Done(Register(toks[0], size.value, offsets.value, access.value.0, access.value.1, []))
            else ParseError
  }

  /** `parse_register`. */
  method ParseRegister(eval: Eval, toks: seq<string>) returns (r: Outcome<Register>)
    requires toks != [] && Last(toks) == ":"
    ensures r == Header(eval, toks)
  {
    hide ListExpr, IntExpr, IndexOf, Options;
    var at := IndexOf(toks, "@");
    if at == None { return ParseError; }
    var brace := IndexOf(toks, "{");
    var end := if brace.Some? then brace.value else |toks| - 1;
    if |Between(toks, 1, at.value)| == 0 { return ParseError; }
    var size := IntExpr(eval, toks[1..at.value]);
    if !size.Done? { return ParseError; }
    var offsets := ParseListExpr(eval, Between(toks, at.value + 1, end));
    if !offsets.Done? { return if offsets.Crash? then Crash else ParseError; }
    var access := (true, true);
    if brace.Some? && brace.value != 0 {
      var close := IndexOf(toks, "}");
      if close == None { return ParseError; }
      var given := ParseOptions(Between(toks, brace.value + 1, close.value));
      if !given.Done? { return ParseError; }
      access := given.value;
    }
    r := Done(Register(toks[0], size.value, offsets.value, access.0, access.1, []));
  }

  method ParseOptions(opts: seq<string>) returns (access: Outcome<(bool, bool)>)
    ensures access == Options(opts, true, true)
  {
    var read, write := true, true;
    assert opts[0..] == opts;
    for i := 0 to |opts|
      invariant Options(opts[i..], read, write) == Options(opts, true, true)
    {
      assert opts[i..][1..] == opts[i + 1..];
      var o := Upper(opts[i]);
      if o == "RO" {
        write := false;
      } else if o == "WO" {
        read := false;
      } else if o != "RW" {
        return ParseError;
      }
    }
    access := Done((read, write));
  }

  // ---------------------------------------------------------------- parsing a file

  function CountEquals(s: string): nat {
    if s == [] then 0 else (if s[0] == '=' then 1 else 0) + CountEquals(s[1..])
  }

  /** The tokens of a line before its comment. */
  function Statement(line: string): (r: Outcome<seq<string>>)
    ensures !r.ParseError?
  {
    var toks := Tokens(line);
    if !toks.Done? then Crash
    else
      var hash := IndexOf(toks.value, "#");
      if hash.Some? then Done(toks.value[..hash.value]) else toks
  }

  /** What one line does to the registers read so far. Compound variables go to a parser that does not exist. */
  function Step(eval: Eval, regs: seq<Register>, line: string): Outcome<seq<Register>> {
    if line != [] && line[0] == '#' then Done(regs)
    else if line != [] && line[0] == ';' then
      if |line| > 1 && CountEquals(line[1..|line| - 1]) == 1 then Done(regs) else Crash
    else
      var toks := Statement(line);
      if !toks.Done? then Crash
      else if toks.value == [] then Done(regs)
      else if Last(toks.value) == ":" then
        if toks.value[0] == "VAR" then Crash
        else
          var reg := Header(eval, toks.value);
          if reg.Done? then Done(regs + [reg.value]) else if reg.Crash? then Crash else ParseError
      else if regs == [] then Crash
      else
        var v := ParseVariable(eval, toks.value);
        if v.Done? then Done(WithVariable(regs, v.value)) else if v.Crash? then Crash else ParseError
  }

  /** The current register gets the variable. */
  function WithVariable(regs: seq<Register>, v: Variable): seq<Register>
    requires regs != []
  {
    var n := |regs| - 1;
    regs[n := regs[n].(vars := regs[n].vars + [v])]
  }

  function ParseLines(eval: Eval, regs: seq<Register>, lines: seq<string>): Outcome<seq<Register>>
    decreases |lines|
  {
    if lines == [] then Done(regs)
    else
      var next := Step(eval, regs, lines[0]);
      if next.Done? then ParseLines(eval, next.value, lines[1..]) else next
  }

  /** Tokenises the line and strips its comment. */
  method ReadStatement(scanner: Scanner, line: string) returns (r: Outcome<seq<string>>)
    modifies scanner
    ensures r == Statement(line)
  {
    hide Tokens, IndexOf;
    scanner.tokens := [];
    var ok := scanner.Tokenise(line);
    if !ok { return Crash; }
    var toks := scanner.tokens;
    assert toks == Tokens(line).value;
    var hash := IndexOf(toks, "#");
    if hash.Some? { toks := toks[..hash.value]; }
    r := Done(toks);
  }

  /** `parse`. */
  method Parse(eval: Eval, lines: seq<string>) returns (r: Outcome<seq<Register>>)
    ensures r == ParseLines(eval, [], lines)
  {
    hide Header, ParseVariable, Statement, ParseLines, CountEquals;
    var regs := [];
    var scanner := new Scanner();
    assert lines[0..] == lines;
    for i := 0 to |lines|
      invariant fresh(scanner)
      invariant ParseLines(eval, regs, lines[i..]) == ParseLines(eval, [], lines)
    {
      NextLine(eval, regs, lines, i);
      var line := lines[i];
      ghost var next := Step(eval, regs, line);
      if line != [] && line[0] == '#' { continue; }
      if line != [] && line[0] == ';' {
        if |line| <= 1 || CountEquals(line[1..|line| - 1]) != 1 { return Crash; }
        continue;
      }
      var statement := ReadStatement(scanner, line);
      if !statement.Done? { return Crash; }
      var toks := statement.value;
      if |toks| > 0 && toks[|toks| - 1] == ":" && toks[0] == "VAR" {
        return Crash;
      } else if |toks| > 0 && toks[|toks| - 1] == ":" {
        var reg := ParseRegister(eval, toks);
        if !reg.Done? { return if reg.Crash? then Crash else ParseError; }
        regs := regs + [reg.value];
      } else if |toks| != 0 {
        if regs == [] { return Crash; }
        var v := ParseVariable(eval, toks);
        if !v.Done? { return if v.Crash? then Crash else ParseError; }
        regs := WithVariable(regs, v.value);
      }
      assert next == Done(regs);
    }
    NoMoreLines(eval, regs, lines);
    r := Done(regs);
  }

  /** One turn of the parser's loop. */
  lemma NextLine(eval: Eval, regs: seq<Register>, lines: seq<string>, i: nat)
    requires i < |lines|
    ensures ParseLines(eval, regs, lines[i..]) ==
      var next := Step(eval, regs, lines[i]);
      if next.Done? then ParseLines(eval, next.value, lines[i + 1..]) else next
  {
    assert lines[i..][1..] == lines[i + 1..];
  }

  lemma NoMoreLines(eval: Eval, regs: seq<Register>, lines: seq<string>)
    ensures ParseLines(eval, regs, lines[|lines|..]) == Done(regs)
  {}

  // ---------------------------------------------------------------- written expressions

  /** The text of the tokens, with a blank between, evaluates to this `int`. */
  ghost predicate Denotes(eval: Eval, e: seq<string>, n: int) {
    && -0x8000_0000 <= n <= 0x7fff_ffff
    && var text := Join(e); if IsNumeral(text) then n == Numeral(text) else eval(text) == Some(n)
  }

  ghost predicate Meaningless(eval: Eval, e: seq<string>) {
    forall n :: !Denotes(eval, e, n)
  }

  /** An expression is what its text evaluates to, or a parse error if that raises or is no `int`. */
  lemma IntExprReads(eval: Eval, e: seq<string>, n: int)
    ensures IntExpr(eval, e) == Done(n) <==> Denotes(eval, e, n)
    ensures IntExpr(eval, e) == ParseError <==> Meaningless(eval, e)
  {
    hide Join;
    if IntExpr(eval, e).Done? { assert Denotes(eval, e, IntExpr(eval, e).value); }
  }

  /** Python's `s.split(" ")`. */
  function Split(s: string): (r: seq<string>)
    ensures r != []
  {
    if s == [] then [[]]
    else
      var r := Split(s[1..]);
      if s[0] == ' ' then [[]] + r else [[s[0]] + r[0]] + r[1..]
  }

  /** The text is the tokens parted by single blanks: splitting it there gives them back. */
  lemma {:induction false} JoinSplits(toks: seq<string>)
    requires toks != [] && forall i | 0 <= i < |toks| :: ' ' !in toks[i]
    ensures Split(Join(toks)) == toks
    decreases |toks|
  {
    hide Split;
    SplitAt(toks[0], []);
    if |toks| == 1 {
      assert toks[0] + [] == toks[0] && toks == [toks[0]];
    } else {
      JoinSplits(toks[1..]);
      SplitAt(toks[0], Join(toks[1..]));
      assert toks[0] + (" " + Join(toks[1..])) == Join(toks);
      assert [toks[0]] + toks[1..] == toks;
    }
  }

  lemma {:induction false} SplitAt(t: string, rest: string)
    requires ' ' !in t
    ensures Split(t + (" " + rest)) == [t] + Split(rest)
    ensures Split(t) == [t]
  {
    if t == [] {
      assert t + (" " + rest) == " " + rest && (" " + rest)[1..] == rest;
    } else {
      SplitAt(t[1..], rest);
      assert (t + (" " + rest))[1..] == t[1..] + (" " + rest);
      assert [t[0]] + t[1..] == t;
      assert ([t[1..]] + Split(rest))[1..] == Split(rest);
    }
  }

  // ---------------------------------------------------------------- written variables

  /** A variable as written: one or two expressions for its bits. */
  datatype VariableText = VariableText(name: string, start: seq<string>, end: Option<seq<string>>)

  function VariableToks(w: VariableText): seq<string> {
    [w.name, "<"] + (if w.end.None? then w.start + [">"] else w.start + ([":"] + (w.end.value + [">"])))
  }

  /** The variable that is written so. */
  ghost predicate IsVariable(eval: Eval, w: VariableText, v: Variable) {
    && v.name == w.name && Denotes(eval, w.start, v.start)
    && (w.end.Some? <==> v.end.Some?) && (w.end.Some? ==> Denotes(eval, w.end.value, v.end.value))
  }

  /** A line of tokens is read as a variable if and only if it is one, written in whatever expressions. */
  lemma VariableReadsIff(eval: Eval, toks: seq<string>, v: Variable)
    requires toks != []
    ensures ParseVariable(eval, toks) == Done(v) <==>
      exists w: VariableText :: ":" !in w.start && toks == VariableToks(w) && IsVariable(eval, w, v)
  {
    hide ParseVariable, Denotes, VariableToks;
    if w: VariableText :| ":" !in w.start && toks == VariableToks(w) && IsVariable(eval, w, v) {
      VariableReads(eval, w, v);
    }
    if ParseVariable(eval, toks) == Done(v) {
      var w := VariableWritten(eval, toks, v);
    }
  }

  lemma VariableReads(eval: Eval, w: VariableText, v: Variable)
    requires ":" !in w.start && IsVariable(eval, w, v)
    ensures ParseVariable(eval, VariableToks(w)) == Done(v)
  {
    hide IntExpr, Denotes;
    VariableParts(w);
    IntExprReads(eval, w.start, v.start);
    if w.end.Some? { IntExprReads(eval, w.end.value, v.end.value); }
  }

  /** An expression that does not evaluate to an `int` is a parse error. */
  lemma VariableFails(eval: Eval, w: VariableText)
    requires ":" !in w.start
    requires Meaningless(eval, w.start) || (w.end.Some? && Meaningless(eval, w.end.value))
    ensures ParseVariable(eval, VariableToks(w)) == ParseError
  {
    hide IntExpr, Meaningless;
    VariableParts(w);
    IntExprReads(eval, w.start, 0);
    if w.end.Some? { IntExprReads(eval, w.end.value, 0); }
  }

  /** Where the parser finds the two expressions. */
  lemma VariableParts(w: VariableText)
    requires ":" !in w.start
    ensures var toks := VariableToks(w);
      && |toks| > 2 && toks[0] == w.name && toks[1] == "<" && Last(toks) == ">"
      && (var rest := toks[2..];
          if w.end.None? then IndexOf(rest, ":") == None && Front(rest) == w.start
          else
            && IndexOf(rest, ":") == Some(|w.start|) && rest[..|w.start|] == w.start
            && var more := rest[|w.start| + 1..];
            more != [] && Last(more) == ">" && Front(more) == w.end.value)
  {
    hide IndexOf;
    var toks := VariableToks(w);
    var rest := toks[2..];
    if w.end.None? {
      assert rest == w.start + [">"];
      IndexIsNone(rest, ":");
    } else {
      assert rest == w.start + ([":"] + (w.end.value + [">"]));
      IndexIs(rest, ":", |w.start|);
      assert rest[|w.start| + 1..] == w.end.value + [">"];
    }
  }

  lemma VariableEnds(w: VariableText)
    ensures VariableToks(w) != [] && Last(VariableToks(w)) == ">"
  {}

  lemma VariableWritten(eval: Eval, toks: seq<string>, v: Variable) returns (w: VariableText)
    requires toks != [] && ParseVariable(eval, toks) == Done(v)
    ensures ":" !in w.start && toks == VariableToks(w) && IsVariable(eval, w, v)
  {
    hide IntExpr, Denotes, IndexOf;
    var rest := toks[2..];
    match IndexOf(rest, ":")
    case Some(k) =>
      var more := rest[k + 1..];
      w := VariableText(toks[0], rest[..k], Some(Front(more)));
      IntExprReads(eval, w.start, v.start);
      IntExprReads(eval, Front(more), v.end.value);
      assert rest == rest[..k] + ([":"] + (Front(more) + [">"]));
      assert toks == [toks[0], "<"] + rest;
    case None =>
      w := VariableText(toks[0], Front(rest), None);
      IntExprReads(eval, w.start, v.start);
      assert rest == Front(rest) + [">"];
      assert toks == [toks[0], "<"] + rest;
  }

  // ---------------------------------------------------------------- written headers

  /** A header as written: its offsets are one expression or a list in parentheses, its options may be left out. */
  datatype HeaderText = HeaderText(
    name: string, size: seq<string>, listed: bool, offsets: seq<seq<string>>, options: Option<seq<string>>)

  /** Expressions parted by commas, then a closing parenthesis. */
  function ItemToks(xs: seq<seq<string>>): (r: seq<string>)
    requires xs != []
    ensures r != [] && Last(r) == ")"
  {
    if |xs| == 1 then xs[0] + [")"] else xs[0] + ([","] + ItemToks(xs[1..]))
  }

  function OffsetToks(w: HeaderText): seq<string>
    requires w.offsets != []
  {
    if w.listed then ["("] + ItemToks(w.offsets) else w.offsets[0]
  }

  function OptionToks(w: HeaderText): seq<string> {
    if w.options.None? then [] else ["{"] + w.options.value + ["}"]
  }

  function HeaderToks(w: HeaderText): seq<string>
    requires w.offsets != []
  {
    [w.name] + w.size + ["@"] + OffsetToks(w) + OptionToks(w) + [":"]
  }

  /** The marks that part a header are not found inside its parts. */
  ghost predicate Parted(w: HeaderText) {
    && w.offsets != []
    && "@" !in [w.name] + w.size
    && "{" !in [w.name] + w.size + OffsetToks(w)
    && (w.options.Some? ==> "}" !in [w.name] + w.size + OffsetToks(w) && "}" !in w.options.value)
    && (if w.listed then forall i | 0 <= i < |w.offsets| :: "," !in w.offsets[i]
        else |w.offsets| == 1 && w.offsets[0] != [] && w.offsets[0][0] != "(")
  }

  predicate ReadOnly(o: string) { o in ["RO", "Ro", "rO", "ro"] }
  predicate WriteOnly(o: string) { o in ["WO", "Wo", "wO", "wo"] }
  predicate ReadWrite(o: string) { o in ["RW", "Rw", "rW", "rw"] }

  predicate Known(opts: seq<string>) {
    forall i | 0 <= i < |opts| :: ReadOnly(opts[i]) || WriteOnly(opts[i]) || ReadWrite(opts[i])
  }

  /** Read-only drops writing, write-only drops reading. */
  predicate LeavesRead(opts: seq<string>) { forall i | 0 <= i < |opts| :: !WriteOnly(opts[i]) }
  predicate LeavesWrite(opts: seq<string>) { forall i | 0 <= i < |opts| :: !ReadOnly(opts[i]) }

  /** The register whose header is written so. */
  ghost predicate IsRegister(eval: Eval, w: HeaderText, r: Register) {
    var opts := if w.options.Some? then w.options.value else [];
    && r.name == w.name && Denotes(eval, w.size, r.size) && AllDenote(eval, w.offsets, r.offsets)
    && Known(opts)
    && (r.read <==> LeavesRead(opts)) && (r.write <==> LeavesWrite(opts))
  }

  ghost predicate SomeMeaningless(eval: Eval, es: seq<seq<string>>) {
    exists i :: 0 <= i < |es| && Meaningless(eval, es[i])
  }

  ghost predicate AllDenote(eval: Eval, es: seq<seq<string>>, ns: seq<int>) {
    |es| == |ns| && forall i | 0 <= i < |es| :: Denotes(eval, es[i], ns[i])
  }

  /** The tokens of every header, in whatever expressions and options, are read as its register. */
  lemma HeaderReads(eval: Eval, w: HeaderText, r: Register)
    requires Parted(w) && w.size != [] && IsRegister(eval, w, r)
    ensures HeaderToks(w) != [] && Last(HeaderToks(w)) == ":"
    ensures Header(eval, HeaderToks(w)) == Done(r.(vars := []))
  {
    hide Header, IntExpr, ListExpr, Options, OffsetToks, HeaderToks, Last, Denotes, Known, AllDenote,
      LeavesRead, LeavesWrite, Parted;
    HeaderIs(eval, w);
    IntExprReads(eval, w.size, r.size);
    OffsetsRead(eval, w, r.offsets);
    OptionsRead(if w.options.Some? then w.options.value else [], true, true);
  }

  /** A missing size, an expression that does not evaluate to an `int`, or an unknown option is a parse error. */
  lemma HeaderFails(eval: Eval, w: HeaderText)
    requires Parted(w)
    requires
      || w.size == []
      || Meaningless(eval, w.size)
      || SomeMeaningless(eval, w.offsets)
      || (w.options.Some? && !Known(w.options.value))
    ensures HeaderToks(w) != [] && Last(HeaderToks(w)) == ":"
    ensures Header(eval, HeaderToks(w)) == ParseError
  {
    hide Header, IntExpr, ListExpr, Options, OffsetToks, HeaderToks, Last, Meaningless, Known, SomeMeaningless,
      LeavesRead, LeavesWrite, Parted;
    HeaderIs(eval, w);
    IntExprReads(eval, w.size, 0);
    OffsetsFail(eval, w);
    OptionsRead(if w.options.Some? then w.options.value else [], true, true);
  }

  /** What the parser makes of the parts of a header. */
  ghost function Assembled(eval: Eval, w: HeaderText): Outcome<Register>
    requires w.offsets != []
  {
    var size, offsets := IntExpr(eval, w.size), ListExpr(eval, OffsetToks(w));
    var access := Options(if w.options.Some? then w.options.value else [], true, true);
    if w.size == [] || !size.Done? then ParseError
    else if offsets.Crash? then Crash
    else if offsets.ParseError? || !access.Done? then ParseError
    else Done(Register(w.name, size.value, offsets.value, access.value.0, access.value.1, []))
  }

  lemma HeaderIs(eval: Eval, w: HeaderText)
    requires Parted(w)
    ensures w.offsets != [] && HeaderToks(w) != [] && Last(HeaderToks(w)) == ":"
    ensures Header(eval, HeaderToks(w)) == Assembled(eval, w)
  {
    hide IndexOf, IntExpr, ListExpr, Options, OffsetToks, OptionToks, HeaderToks, Last, Parted;
    PartedHasOffsets(w);
    HeaderParts(w);
    HeaderMarks(w);
    NoOptions();
  }

  /** A header without `@` is a parse error, and so is one with options that are not closed. */
  lemma HeaderNeedsMarks(eval: Eval, toks: seq<string>)
    requires toks != [] && Last(toks) == ":"
    ensures "@" !in toks ==> Header(eval, toks) == ParseError
    ensures "{" in toks[1..] && toks[0] != "{" && "}" !in toks ==> !Header(eval, toks).Done?
  {
    hide IntExpr, ListExpr, Options;
    if "{" in toks[1..] {
      var i :| 0 <= i < |toks[1..]| && toks[1..][i] == "{";
      assert toks[i + 1] == "{";
    }
  }

  lemma NoOptions()
    ensures Options([], true, true) == Done((true, true))
  {}

  /** Options in any case and any order. */
  lemma {:induction false} OptionsRead(opts: seq<string>, read: bool, write: bool)
    ensures Options(opts, read, write) ==
      if Known(opts) then Done((read && LeavesRead(opts), write && LeavesWrite(opts))) else ParseError
  {
    hide ReadOnly, WriteOnly, ReadWrite, Upper;
    if opts != [] {
      OptionRead(opts[0]);
      OptionsRead(opts[1..], read, false);
      OptionsRead(opts[1..], false, write);
      OptionsRead(opts[1..], read, write);
      assert opts == [opts[0]] + opts[1..];
    }
  }

  lemma OptionRead(o: string)
    ensures Upper(o) == "RO" <==> ReadOnly(o)
    ensures Upper(o) == "WO" <==> WriteOnly(o)
    ensures Upper(o) == "RW" <==> ReadWrite(o)
    ensures !(ReadOnly(o) && WriteOnly(o)) && !(ReadOnly(o) && ReadWrite(o)) && !(WriteOnly(o) && ReadWrite(o))
  {
    hide Upper;
    var u := Upper(o);
    if |o| == 2 {
      assert o == [o[0], o[1]] && u == [u[0], u[1]];
    }
  }

  lemma {:induction false} IndexIs(toks: seq<string>, t: string, k: nat)
    requires k < |toks| && toks[k] == t && forall i | 0 <= i < k :: toks[i] != t
    ensures IndexOf(toks, t) == Some(k)
  {
    if k > 0 { IndexIs(toks[1..], t, k - 1); }
  }

  lemma IndexIsNone(toks: seq<string>, t: string)
    requires forall i | 0 <= i < |toks| :: toks[i] != t
    ensures IndexOf(toks, t) == None
  {}

  /** How the list parser cuts off its first item. */
  lemma FirstItem(xs: seq<seq<string>>)
    requires xs != [] && "," !in xs[0]
    ensures var toks := ItemToks(xs);
      if |xs| == 1 then IndexOf(toks, ",") == None && Front(toks) == xs[0]
      else IndexOf(toks, ",") == Some(|xs[0]|) && toks[..|xs[0]|] == xs[0] && toks[|xs[0]| + 1..] == ItemToks(xs[1..])
  {
    hide IndexOf;
    var toks := ItemToks(xs);
    if |xs| == 1 {
      IndexIsNone(toks, ",");
    } else {
      assert toks == xs[0] + ([","] + ItemToks(xs[1..]));
      IndexIs(toks, ",", |xs[0]|);
    }
  }

  lemma {:induction false} ItemsRead(eval: Eval, xs: seq<seq<string>>, ns: seq<int>)
    requires xs != [] && AllDenote(eval, xs, ns) && forall i | 0 <= i < |xs| :: "," !in xs[i]
    ensures Items(eval, ItemToks(xs)) == Done(ns)
    decreases |xs|
  {
    hide IntExpr, IndexOf, ItemToks, Denotes;
    FirstItem(xs);
    IntExprReads(eval, xs[0], ns[0]);
    if |xs| == 1 {
      assert ns == [ns[0]];
    } else {
      ItemsRead(eval, xs[1..], ns[1..]);
      assert [ns[0]] + ns[1..] == ns;
    }
  }

  lemma {:induction false} ItemsFail(eval: Eval, xs: seq<seq<string>>, k: nat)
    requires k < |xs| && Meaningless(eval, xs[k]) && forall i | 0 <= i < |xs| :: "," !in xs[i]
    ensures Items(eval, ItemToks(xs)) == ParseError
    decreases |xs|
  {
    hide IntExpr, IndexOf, ItemToks, Meaningless;
    FirstItem(xs);
    IntExprReads(eval, xs[0], 0);
    if k > 0 { ItemsFail(eval, xs[1..], k - 1); }
  }

  lemma OffsetsRead(eval: Eval, w: HeaderText, ns: seq<int>)
    requires Parted(w) && AllDenote(eval, w.offsets, ns)
    ensures ListExpr(eval, OffsetToks(w)) == Done(ns)
  {
    hide IntExpr, Items, ItemToks, Denotes;
    if w.listed {
      ItemsRead(eval, w.offsets, ns);
      assert OffsetToks(w)[1..] == ItemToks(w.offsets);
    } else {
      IntExprReads(eval, w.offsets[0], ns[0]);
      assert ns == [ns[0]];
    }
  }

  lemma OffsetsFail(eval: Eval, w: HeaderText)
    requires Parted(w)
    ensures !ListExpr(eval, OffsetToks(w)).Crash?
    ensures SomeMeaningless(eval, w.offsets) ==> ListExpr(eval, OffsetToks(w)) == ParseError
  {
    hide IntExpr, Items, ItemToks, Meaningless;
    if w.listed {
      assert OffsetToks(w)[1..] == ItemToks(w.offsets);
      if i :| 0 <= i < |w.offsets| && Meaningless(eval, w.offsets[i]) { ItemsFail(eval, w.offsets, i); }
    } else {
      IntExprReads(eval, w.offsets[0], 0);
    }
  }

  /** Where the marks of a header are. */
  lemma HeaderMarks(w: HeaderText)
    requires Parted(w)
    ensures var toks, n, k := HeaderToks(w), |w.size|, |OffsetToks(w)|;
      && IndexOf(toks, "@") == Some(1 + n)
      && (if w.options.None? then IndexOf(toks, "{") == None
          else IndexOf(toks, "{") == Some(2 + n + k) && IndexOf(toks, "}") == Some(3 + n + k + |w.options.value|))
  {
    hide IndexOf, OffsetToks;
    var toks, offs, o := HeaderToks(w), OffsetToks(w), OptionToks(w);
    var n, k := |w.size|, |offs|;
    var front := [w.name] + w.size;
    assert toks == front + ["@"] + offs + o + [":"];
    forall i | 0 <= i < 2 + n + k
      ensures toks[i] == if i < 1 + n then front[i] else if i == 1 + n then "@" else offs[i - 2 - n]
      ensures i != 1 + n ==> toks[i] in front + offs
    {
      assert i != 1 + n ==> toks[i] == (front + offs)[if i < 1 + n then i else i - 1];
    }
    IndexIs(toks, "@", 1 + n);
    if o == [] {
      IndexIsNone(toks, "{");
    } else {
      IndexIs(toks, "{", 2 + n + k);
      forall i | 2 + n + k <= i < 1 + n + k + |o|
        ensures toks[i] != "}"
      {
        assert toks[i] == o[i - 2 - n - k];
      }
      IndexIs(toks, "}", 1 + n + k + |o|);
    }
  }

  /** What is between the marks of a header. */
  lemma HeaderParts(w: HeaderText)
    requires Parted(w)
    ensures var toks, n, offs := HeaderToks(w), |w.size|, OffsetToks(w);
      && |toks| == 3 + n + |offs| + (if w.options.Some? then |w.options.value| + 2 else 0)
      && toks[0] == w.name && Last(toks) == ":"
      && toks[1..1 + n] == w.size && toks[2 + n..2 + n + |offs|] == offs
      && (w.options.Some? ==> toks[3 + n + |offs|..3 + n + |offs| + |w.options.value|] == w.options.value)
  {
    hide OffsetToks, Parted;
    assert w.offsets != [] by { PartedHasOffsets(w); }
    var offs, o := OffsetToks(w), OptionToks(w);
    SixParts([w.name], w.size, ["@"], offs, o, [":"]);
    if w.options.Some? { InnerPart([w.name] + w.size + ["@"] + offs, "{", w.options.value, "}", [":"]); }
  }

  lemma PartedHasOffsets(w: HeaderText)
    requires Parted(w)
    ensures w.offsets != []
  {}

  lemma SixParts<T>(a: seq<T>, b: seq<T>, c: seq<T>, d: seq<T>, e: seq<T>, f: seq<T>)
    ensures var s := a + b + c + d + e + f;
      && |s| == |a| + |b| + |c| + |d| + |e| + |f|
      && s[|a|..|a| + |b|] == b && s[|a| + |b| + |c|..|a| + |b| + |c| + |d|] == d
      && (|a| > 0 ==> s[0] == a[0]) && (|f| > 0 ==> s[|s| - 1] == f[|f| - 1])
  {
    var s := a + b + c + d + e + f;
    assert forall i | 0 <= i < |b| :: s[|a| + i] == b[i];
    assert forall i | 0 <= i < |d| :: s[|a| + |b| + |c| + i] == d[i];
  }

  lemma InnerPart<T>(x: seq<T>, open: T, y: seq<T>, close: T, z: seq<T>)
    ensures (x + ([open] + y + [close]) + z)[|x| + 1..|x| + 1 + |y|] == y
  {
    var s := x + ([open] + y + [close]) + z;
    assert forall i | 0 <= i < |y| :: s[|x| + 1 + i] == y[i];
  }

  // ---------------------------------------------------------------- written files

  /** A register of a file as written: its header and its variables. */
  datatype Entry = Entry(head: HeaderText, vars: seq<VariableText>)

  ghost predicate WellWritten(e: Entry) {
    Parted(e.head) && e.head.size != [] && e.head.name != "VAR" && forall i | 0 <= i < |e.vars| :: ":" !in e.vars[i].start
  }

  ghost predicate IsEntry(eval: Eval, e: Entry, r: Register) {
    && IsRegister(eval, e.head, r) && |e.vars| == |r.vars|
    && forall i | 0 <= i < |r.vars| :: IsVariable(eval, e.vars[i], r.vars[i])
  }

  /** The line is neither a comment nor a command, and its tokens before a comment are these. */
  ghost predicate Says(line: string, toks: seq<string>) {
    (line != [] ==> line[0] != '#' && line[0] != ';') && Statement(line) == Done(toks)
  }

  function VariableLines(vars: seq<VariableText>): (r: seq<seq<string>>)
    ensures |r| == |vars| && forall i | 0 <= i < |vars| :: r[i] == VariableToks(vars[i])
  {
    if vars == [] then [] else [VariableToks(vars[0])] + VariableLines(vars[1..])
  }

  ghost function EntryLines(e: Entry): seq<seq<string>>
    requires WellWritten(e)
  {
    [HeaderToks(e.head)] + VariableLines(e.vars)
  }

  /** A file: for each register its header and its variables. */
  ghost function Document(es: seq<Entry>): seq<seq<string>>
    requires forall i | 0 <= i < |es| :: WellWritten(es[i])
  {
    if es == [] then []
    else EntryLines(es[0]) + Document(es[1..])
  }

  /** A command sets one name: between its first and last characters there is one `=`. */
  ghost predicate IsCommand(line: string) {
    && line != [] && line[0] == ';'
    && exists k :: 1 <= k < |line| - 1 && line[k] == '=' && '=' !in line[1..k] && '=' !in line[k + 1..|line| - 1]
  }

  /** Comments, commands and empty lines. */
  ghost predicate Idle(line: string) {
    (line != [] && line[0] == '#') || IsCommand(line) || Says(line, [])
  }

  ghost function Relevant(lines: seq<string>): seq<string> {
    if lines == [] then []
    else (if Idle(lines[0]) then [] else [lines[0]]) + Relevant(lines[1..])
  }

  ghost predicate AllSay(lines: seq<string>, toks: seq<seq<string>>) {
    |lines| == |toks| && forall i | 0 <= i < |lines| :: Says(lines[i], toks[i])
  }

  ghost predicate AreEntries(eval: Eval, es: seq<Entry>, regs: seq<Register>) {
    && |es| == |regs| && (forall i | 0 <= i < |es| :: WellWritten(es[i]))
    && forall i | 0 <= i < |es| :: IsEntry(eval, es[i], regs[i])
  }

  /** Any file whose lines, comments, commands and empty lines aside, spell the registers, in whatever expressions,
      is read as exactly those registers. */
  lemma FileReadsBack(eval: Eval, es: seq<Entry>, regs: seq<Register>, lines: seq<string>)
    requires AreEntries(eval, es, regs)
    requires AllSay(Relevant(lines), Document(es))
    ensures ParseLines(eval, [], lines) == Done(regs)
  {
    hide ParseLines, Document, AllSay, WellWritten, IsEntry;
    IdleLinesIgnored(eval, [], lines);
    RegistersRead(eval, [], es, regs, Relevant(lines));
    assert [] + regs == regs;
  }

  /** A line that starts like a command is ignored if it is one, and else ends the parser. */
  lemma CommandIff(eval: Eval, regs: seq<Register>, line: string)
    requires line != [] && line[0] == ';'
    ensures Step(eval, regs, line) == if IsCommand(line) then Done(regs) else Crash
  {
    if |line| > 1 {
      var x := line[1..|line| - 1];
      if CountEquals(x) == 1 {
        var k := FirstEquals(x);
        OnlyEquals(x, k);
        assert line[1..k + 1] == x[..k] && line[k + 2..|line| - 1] == x[k + 1..] && line[k + 1] == x[k];
      }
      if k :| 1 <= k < |line| - 1 && line[k] == '=' && '=' !in line[1..k] && '=' !in line[k + 1..|line| - 1] {
        assert line[1..k] == x[..k - 1] && line[k + 1..|line| - 1] == x[k..] && line[k] == x[k - 1];
        OnlyEquals(x, k - 1);
      }
    }
  }

  lemma {:induction false} CountJoins(x: string, y: string)
    ensures CountEquals(x + y) == CountEquals(x) + CountEquals(y)
  {
    if x == [] {
      assert x + y == y;
    } else {
      assert (x + y)[1..] == x[1..] + y;
      CountJoins(x[1..], y);
    }
  }

  lemma {:induction false} CountNone(x: string)
    ensures CountEquals(x) == 0 <==> '=' !in x
  {
    if x != [] {
      CountNone(x[1..]);
      assert x == [x[0]] + x[1..];
    }
  }

  lemma {:induction false} FirstEquals(x: string) returns (k: nat)
    requires CountEquals(x) > 0
    ensures k < |x| && x[k] == '=' && '=' !in x[..k]
  {
    k := 0;
    if x[0] != '=' {
      var j := FirstEquals(x[1..]);
      k := j + 1;
      assert x[..k] == [x[0]] + x[1..][..j];
    }
  }

  lemma OnlyEquals(x: string, k: nat)
    requires k < |x| && x[k] == '=' && '=' !in x[..k]
    ensures CountEquals(x) == 1 <==> '=' !in x[k + 1..]
  {
    hide CountEquals;
    assert x == x[..k] + (['='] + x[k + 1..]);
    CountJoins(x[..k], ['='] + x[k + 1..]);
    CountJoins(['='], x[k + 1..]);
    CountNone(x[..k]);
    CountNone(x[k + 1..]);
    OneIsCounted();
  }

  lemma OneIsCounted()
    ensures CountEquals(['=']) == 1
  {
    assert ['='][1..] == [];
  }

  lemma IdleStep(eval: Eval, regs: seq<Register>, line: string)
    requires Idle(line)
    ensures Step(eval, regs, line) == Done(regs)
  {
    hide Header, ParseVariable, Statement, IsCommand, CountEquals;
    if IsCommand(line) {
      CommandStarts(line);
      CommandIff(eval, regs, line);
    }
  }

  lemma CommandStarts(line: string)
    requires IsCommand(line)
    ensures line != [] && line[0] == ';'
  {}

  lemma {:induction false} IdleLinesIgnored(eval: Eval, regs: seq<Register>, lines: seq<string>)
    ensures ParseLines(eval, regs, lines) == ParseLines(eval, regs, Relevant(lines))
    decreases |lines|
  {
    hide Step, Idle;
    if lines != [] {
      var next := Step(eval, regs, lines[0]);
      if Idle(lines[0]) {
        IdleStep(eval, regs, lines[0]);
        assert Relevant(lines) == Relevant(lines[1..]);
        IdleLinesIgnored(eval, regs, lines[1..]);
      } else {
        assert Relevant(lines)[1..] == Relevant(lines[1..]);
        if next.Done? { IdleLinesIgnored(eval, next.value, lines[1..]); }
      }
    }
  }

  /** The lines say the header of the register, then its variables. */
  ghost predicate SayRegister(lines: seq<string>, e: Entry)
    requires WellWritten(e)
  {
    && |lines| >= 1 + |e.vars| && Says(lines[0], HeaderToks(e.head))
    && forall i | 0 <= i < |e.vars| :: Says(lines[1 + i], VariableToks(e.vars[i]))
  }

  lemma {:induction false} RegistersRead(
    eval: Eval, before: seq<Register>, es: seq<Entry>, regs: seq<Register>, lines: seq<string>)
    requires AreEntries(eval, es, regs)
    requires AllSay(lines, Document(es))
    ensures ParseLines(eval, before, lines) == Done(before + regs)
    decreases |es|
  {
    hide AllSay, WellWritten, IsEntry, Document, ParseLines, SayRegister;
    if es == [] {
      NothingSaid(eval, before, lines);
      assert before + regs == before;
    } else {
      var e, r := es[0], regs[0];
      FirstRegister(es, lines);
      RegisterReads(eval, before, e, r, lines);
      RegistersRead(eval, before + [r], es[1..], regs[1..], lines[1 + |e.vars|..]);
      assert before + [r] + regs[1..] == before + regs;
    }
  }

  lemma NothingSaid(eval: Eval, before: seq<Register>, lines: seq<string>)
    requires AllSay(lines, Document([]))
    ensures ParseLines(eval, before, lines) == Done(before)
  {}

  lemma {:induction false} FirstRegister(es: seq<Entry>, lines: seq<string>)
    requires es != [] && forall i | 0 <= i < |es| :: WellWritten(es[i])
    requires AllSay(lines, Document(es))
    ensures WellWritten(es[0]) && SayRegister(lines, es[0]) && 1 + |es[0].vars| <= |lines|
    ensures AllSay(lines[1 + |es[0].vars|..], Document(es[1..]))
  {
    hide Says, HeaderToks, VariableToks;
    assert WellWritten(es[0]);
    var head := [HeaderToks(es[0].head)] + VariableLines(es[0].vars);
    SaySplit(lines, head, Document(es[1..]));
    forall i | 0 <= i < |es[0].vars|
      ensures Says(lines[1 + i], VariableToks(es[0].vars[i]))
    {
      assert Says(lines[..|head|][1 + i], head[1 + i]);
    }
    assert Says(lines[..|head|][0], head[0]);
  }

  lemma SaySplit(lines: seq<string>, x: seq<seq<string>>, y: seq<seq<string>>)
    requires AllSay(lines, x + y)
    ensures |x| <= |lines| && AllSay(lines[..|x|], x) && AllSay(lines[|x|..], y)
  {
    hide Says;
    forall i | 0 <= i < |y|
      ensures Says(lines[|x|..][i], y[i])
    {
      assert Says(lines[|x| + i], (x + y)[|x| + i]);
    }
    forall i | 0 <= i < |x|
      ensures Says(lines[..|x|][i], x[i])
    {
      assert Says(lines[i], (x + y)[i]);
    }
  }

  /** One line more. */
  lemma OneLine(eval: Eval, regs: seq<Register>, lines: seq<string>, next: seq<Register>)
    requires lines != [] && Step(eval, regs, lines[0]) == Done(next)
    ensures ParseLines(eval, regs, lines) == ParseLines(eval, next, lines[1..])
  {
    hide Step;
  }

  lemma RegisterReads(eval: Eval, before: seq<Register>, e: Entry, r: Register, lines: seq<string>)
    requires WellWritten(e) && IsEntry(eval, e, r) && SayRegister(lines, e)
    ensures |lines| >= 1 + |r.vars| && |r.vars| == |e.vars|
    ensures ParseLines(eval, before, lines) == ParseLines(eval, before + [r], lines[1 + |r.vars|..])
  {
    hide HeaderToks, VariableToks, Says, ParseLines, Step, Parted, IsRegister, IsVariable;
    HeaderStep(eval, before, e.head, r, lines[0]);
    var bare := r.(vars := []);
    OneLine(eval, before, lines, before + [bare]);
    assert lines[1..][|r.vars|..] == lines[1 + |r.vars|..];
    forall i | 0 <= i < |r.vars|
      ensures Says(lines[1..][i], VariableToks(e.vars[i]))
    {
      assert Says(lines[1 + i], VariableToks(e.vars[i]));
    }
    VariablesRead(eval, before, bare, e.vars, r.vars, lines[1..]);
    assert bare.vars + r.vars == r.vars;
  }

  lemma {:induction false} VariablesRead(eval: Eval, before: seq<Register>, r: Register, ws: seq<VariableText>,
      vars: seq<Variable>, lines: seq<string>)
    requires |lines| >= |vars| == |ws|
    requires forall i | 0 <= i < |vars| :: ":" !in ws[i].start && IsVariable(eval, ws[i], vars[i])
    requires forall i | 0 <= i < |vars| :: Says(lines[i], VariableToks(ws[i]))
    ensures ParseLines(eval, before + [r], lines) ==
      ParseLines(eval, before + [r.(vars := r.vars + vars)], lines[|vars|..])
    decreases |vars|
  {
    hide VariableToks, Says, IsVariable, ParseLines, Step;
    if vars == [] {
      assert r.vars + vars == r.vars && lines[0..] == lines;
    } else {
      var r' := r.(vars := r.vars + [vars[0]]);
      VariableStep(eval, before, r, ws[0], vars[0], lines[0]);
      OneLine(eval, before + [r], lines, before + [r']);
      VariablesRead(eval, before, r', ws[1..], vars[1..], lines[1..]);
      assert r'.vars + vars[1..] == r.vars + vars;
      assert lines[1..][|vars| - 1..] == lines[|vars|..];
    }
  }

  lemma HeaderStep(eval: Eval, before: seq<Register>, w: HeaderText, r: Register, line: string)
    requires Parted(w) && w.size != [] && w.name != "VAR" && IsRegister(eval, w, r) && Says(line, HeaderToks(w))
    ensures Step(eval, before, line) == Done(before + [r.(vars := [])])
  {
    hide Header, Statement, IsRegister;
    HeaderReads(eval, w, r);
  }

  lemma VariableStep(eval: Eval, before: seq<Register>, r: Register, w: VariableText, v: Variable, line: string)
    requires ":" !in w.start && IsVariable(eval, w, v) && Says(line, VariableToks(w))
    ensures Step(eval, before + [r], line) == Done(before + [r.(vars := r.vars + [v])])
  {
    hide ParseVariable, Statement, IsVariable, VariableToks, Last;
    VariableReads(eval, w, v);
    VariableEnds(w);
    assert (before + [r])[|before| := r.(vars := r.vars + [v])] == before + [r.(vars := r.vars + [v])];
  }

  /** A variable before the first register ends the parser with its assertion. So does a compound variable
      anywhere, since there is no parser for it. */
  lemma LinesThatCrash(eval: Eval, regs: seq<Register>, line: string, toks: seq<string>)
    requires Says(line, toks) && toks != []
    ensures Last(toks) != ":" ==> Step(eval, [], line) == Crash
    ensures Last(toks) == ":" && toks[0] == "VAR" ==> Step(eval, regs, line) == Crash
  {
    hide Header, ParseVariable, Statement;
  }

  /** The first line that cannot be read ends the parser with its error, whatever follows. */
  lemma {:induction false} BadLineEnds(eval: Eval, regs: seq<Register>, good: seq<string>, bad: string, rest: seq<string>)
    requires ParseLines(eval, regs, good).Done? && !Step(eval, ParseLines(eval, regs, good).value, bad).Done?
    ensures ParseLines(eval, regs, good + ([bad] + rest)) == Step(eval, ParseLines(eval, regs, good).value, bad)
    decreases |good|
  {
    hide Step;
    var lines := good + ([bad] + rest);
    if good != [] {
      assert lines[1..] == good[1..] + ([bad] + rest);
      BadLineEnds(eval, Step(eval, regs, good[0]).value, good[1..], bad, rest);
    }
  }

  // ---------------------------------------------------------------- a printed variable

  /** `Variable.__str__`. */
  function PrintVariable(v: Variable): string
    requires GoodVariable(v)
  {
    "\t" + v.name + " <" + Decimal(v.start) + (if v.end.None? then "" else ":" + Decimal(v.end.value)) + ">"
  }

  predicate Natural(n: int) {
    0 <= n <= MAX_INT
  }

  predicate Naturals(xs: seq<int>) {
    forall i | 0 <= i < |xs| :: 0 <= xs[i] <= MAX_INT
  }

  ghost predicate GoodVariable(v: Variable) {
    IsWord(v.name) && Natural(v.start) && (v.end.Some? ==> Natural(v.end.value))
  }

  function InDecimal(v: Variable): VariableText
    requires GoodVariable(v)
  {
    VariableText(v.name, [Decimal(v.start)], if v.end.None? then None else Some([Decimal(v.end.value)]))
  }

  lemma DecimalDenotes(eval: Eval, n: int)
    requires Natural(n)
    ensures Denotes(eval, [Decimal(n)], n) && [Decimal(n)] != [":"] && ":" !in [Decimal(n)]
  {
    DecimalReads(n);
    assert IsDigit(Decimal(n)[0]);
  }

  lemma InDecimalIs(eval: Eval, v: Variable)
    requires GoodVariable(v)
    ensures ":" !in InDecimal(v).start && IsVariable(eval, InDecimal(v), v)
  {
    hide Denotes;
    DecimalDenotes(eval, v.start);
    if v.end.Some? { DecimalDenotes(eval, v.end.value); }
  }

  /** A printed variable, on a line of its own, has the variable's tokens. */
  lemma PrintedVariableSays(v: Variable)
    requires GoodVariable(v)
    ensures Says(PrintVariable(v) + "\n", VariableToks(InDecimal(v)))
  {
    hide Decimal;
    var toks := VariableToks(InDecimal(v));
    PrintedTokens(v);
    DecimalIsWord(v.start);
    if v.end.Some? { DecimalIsWord(v.end.value); }
    IndexIsNone(toks, "#");
  }

  lemma PrintedTokens(v: Variable)
    requires GoodVariable(v)
    ensures Tokens(PrintVariable(v) + "\n") == Done(VariableToks(InDecimal(v)))
  {
    hide Tokens, Decimal;
    var start := Decimal(v.start);
    var rest := if v.end.None? then ">" + "\n" else ":" + (Decimal(v.end.value) + (">" + "\n"));
    assert PrintVariable(v) + "\n" == "\t" + (v.name + (" " + ("<" + (start + rest))));
    SkipBlank("\t", v.name + (" " + ("<" + (start + rest))));
    TakeToken(v.name, " " + ("<" + (start + rest)));
    SkipBlank(" ", "<" + (start + rest));
    TakeToken("<", start + rest);
    DecimalIsWord(v.start);
    TakeToken(start, rest);
    ClosingToken();
    if v.end.Some? {
      DecimalIsWord(v.end.value);
      TakeToken(":", Decimal(v.end.value) + (">" + "\n"));
      TakeToken(Decimal(v.end.value), ">" + "\n");
      assert [v.name] + (["<"] + ([start] + ([":"] + ([Decimal(v.end.value)] + [">"])))) == VariableToks(InDecimal(v));
    } else {
      assert [v.name] + (["<"] + ([start] + [">"])) == VariableToks(InDecimal(v));
    }
  }

  lemma ClosingToken()
    ensures Tokens(">" + "\n") == Done([">"])
  {
    TakeToken(">", "\n");
    assert Tokens("\n") == Done([]) && [">"] + [] == [">"];
  }

  lemma DecimalIsWord(n: nat)
    ensures IsWord(Decimal(n))
  {
    forall i | 0 <= i < |Decimal(n)|
      ensures !IsEot(Decimal(n)[i])
    {
      assert IsDigit(Decimal(n)[i]);
    }
  }

  // ---------------------------------------------------------------- a printed file

  ghost predicate GoodRegister(r: Register) {
    && IsWord(r.name) && r.name != "VAR" && Natural(r.size)
    && r.offsets != [] && Naturals(r.offsets)
    && (forall i | 0 <= i < |r.vars| :: GoodVariable(r.vars[i]))
  }

  function Decimals(xs: seq<int>): (r: seq<seq<string>>)
    requires Naturals(xs)
    ensures |r| == |xs| && forall i | 0 <= i < |xs| :: r[i] == [Decimal(xs[i])]
  {
    if xs == [] then [] else [[Decimal(xs[0])]] + Decimals(xs[1..])
  }

  function AccessWords(r: Register): Option<seq<string>> {
    if r.read && r.write then None
    else Some((if r.write then [] else ["RO"]) + (if r.read then [] else ["WO"]))
  }

  function HeadInDecimal(r: Register): (w: HeaderText)
    requires GoodRegister(r)
    ensures w.offsets != [] && w.size != []
  {
    HeaderText(r.name, [Decimal(r.size)], |r.offsets| > 1, Decimals(r.offsets), AccessWords(r))
  }

  function VariablesInDecimal(vars: seq<Variable>): (r: seq<VariableText>)
    requires forall i | 0 <= i < |vars| :: GoodVariable(vars[i])
    ensures |r| == |vars| && forall i | 0 <= i < |vars| :: r[i] == InDecimal(vars[i])
  {
    if vars == [] then [] else [InDecimal(vars[0])] + VariablesInDecimal(vars[1..])
  }

  function EntryInDecimal(r: Register): Entry
    requires GoodRegister(r)
  {
    Entry(HeadInDecimal(r), VariablesInDecimal(r.vars))
  }

  function EntriesInDecimal(regs: seq<Register>): (es: seq<Entry>)
    requires forall i | 0 <= i < |regs| :: GoodRegister(regs[i])
    ensures |es| == |regs| && forall i | 0 <= i < |regs| :: es[i] == EntryInDecimal(regs[i])
  {
    if regs == [] then [] else [EntryInDecimal(regs[0])] + EntriesInDecimal(regs[1..])
  }

  lemma EntriesAre(eval: Eval, regs: seq<Register>)
    requires forall i | 0 <= i < |regs| :: GoodRegister(regs[i])
    ensures AreEntries(eval, EntriesInDecimal(regs), regs)
  {
    hide GoodRegister, IsEntry, WellWritten, EntryInDecimal, EntriesInDecimal;
    forall i | 0 <= i < |regs|
      ensures WellWritten(EntriesInDecimal(regs)[i]) && IsEntry(eval, EntriesInDecimal(regs)[i], regs[i])
    {
      EntryIs(eval, regs[i]);
    }
  }

  lemma EntryIs(eval: Eval, r: Register)
    requires GoodRegister(r)
    ensures WellWritten(EntryInDecimal(r)) && IsEntry(eval, EntryInDecimal(r), r)
  {
    hide Decimal, IsVariable, IsRegister, HeadInDecimal, Parted;
    HeadInDecimalIs(eval, r);
    forall i | 0 <= i < |r.vars|
      ensures ":" !in InDecimal(r.vars[i]).start && IsVariable(eval, InDecimal(r.vars[i]), r.vars[i])
    {
      InDecimalIs(eval, r.vars[i]);
    }
  }

  lemma HeadInDecimalIs(eval: Eval, r: Register)
    requires GoodRegister(r)
    ensures Parted(HeadInDecimal(r)) && HeadInDecimal(r).name != "VAR" && IsRegister(eval, HeadInDecimal(r), r)
  {
    hide Decimal, Denotes, Decimals;
    DecimalDenotes(eval, r.size);
    forall i | 0 <= i < |r.offsets|
      ensures Denotes(eval, [Decimal(r.offsets[i])], r.offsets[i])
    {
      DecimalDenotes(eval, r.offsets[i]);
    }
    HeadIsParted(r);
    AccessIs(r);
  }

  lemma AccessIs(r: Register)
    ensures var w := AccessWords(r);
      var opts := if w.Some? then w.value else [];
      Known(opts) && (r.read <==> LeavesRead(opts)) && (r.write <==> LeavesWrite(opts)) && "}" !in opts
  {
    var w := AccessWords(r);
    if w.Some? {
      if !r.write { assert w.value[0] == "RO"; }
      if !r.read { assert w.value[|w.value| - 1] == "WO"; }
    }
  }

  predicate InOffsets(t: string) {
    t == "(" || t == "," || t == ")" || (t != [] && IsDigit(t[0]))
  }

  lemma HeadIsParted(r: Register)
    requires GoodRegister(r)
    ensures Parted(HeadInDecimal(r))
  {
    hide Decimal, Decimals, Known, IsWord, OffsetToks, Plain, Writable;
    var w := HeadInDecimal(r);
    WordIsNoMark(r.name);
    DecimalIsWord(r.size);
    WordIsNoMark(Decimal(r.size));
    OffsetsAreDigits(w, r.offsets);
    PlainHasNoBraces(OffsetToks(w));
    AccessIs(r);
    forall i | 0 <= i < |r.offsets|
      ensures "," !in w.offsets[i] && w.offsets[i] != [] && w.offsets[i][0] != "("
    {
      DecimalIsWord(r.offsets[i]);
      WordIsNoMark(Decimal(r.offsets[i]));
    }
  }

  lemma WordIsNoMark(t: string)
    requires IsWord(t)
    ensures t != "@" && t != "{" && t != "}" && t != "," && t != "("
  {
    assert !IsEot(t[0]);
  }

  lemma PlainHasNoBraces(toks: seq<string>)
    requires Plain(toks)
    ensures "{" !in toks && "}" !in toks
  {
    forall i | 0 <= i < |toks|
      ensures toks[i] != "{" && toks[i] != "}"
    {
      assert InOffsets(toks[i]);
    }
  }

  ghost predicate Plain(toks: seq<string>) {
    forall i | 0 <= i < |toks| :: InOffsets(toks[i])
  }

  lemma OffsetsAreDigits(w: HeaderText, xs: seq<int>)
    requires xs != [] && Naturals(xs) && w.offsets == Decimals(xs) && (w.listed <==> |xs| > 1)
    ensures Plain(OffsetToks(w)) && Writable(OffsetToks(w))
  {
    hide Decimals, Decimal, Plain, Writable;
    ItemsAreDigits(xs);
    DigitsAndMarks(xs[0]);
    PlainJoins(["("], ItemToks(Decimals(xs)));
    WritableJoins(["("], ItemToks(Decimals(xs)));
  }

  lemma DigitsAndMarks(n: nat)
    ensures Plain([Decimal(n)]) && Writable([Decimal(n)])
    ensures Plain(["("]) && Plain([","]) && Plain([")"]) && Writable(["("]) && Writable([","]) && Writable([")"])
  {
    DecimalIsWord(n);
    assert IsDigit(Decimal(n)[0]);
  }

  lemma PlainJoins(x: seq<string>, y: seq<string>)
    requires Plain(x) && Plain(y)
    ensures Plain(x + y)
  {}

  lemma {:induction false} ItemsAreDigits(xs: seq<int>)
    requires xs != [] && Naturals(xs)
    ensures Plain(ItemToks(Decimals(xs))) && Writable(ItemToks(Decimals(xs)))
  {
    hide Decimal, Plain, Writable;
    DigitsAndMarks(xs[0]);
    var x := [Decimal(xs[0])];
    if |xs| == 1 {
      PlainJoins(x, [")"]);
      WritableJoins(x, [")"]);
    } else {
      var rest := ItemToks(Decimals(xs[1..]));
      ItemsAreDigits(xs[1..]);
      assert Decimals(xs)[1..] == Decimals(xs[1..]);
      PlainJoins([","], rest);
      WritableJoins([","], rest);
      PlainJoins(x, [","] + rest);
      WritableJoins(x, [","] + rest);
    }
  }

  /** A header written by the grammar, with blanks between the tokens. */
  function Spaced(toks: seq<string>): string {
    if toks == [] then "\n" else " " + (toks[0] + Spaced(toks[1..]))
  }

  function PrintVariables(vars: seq<Variable>): (r: seq<string>)
    requires forall i | 0 <= i < |vars| :: GoodVariable(vars[i])
    ensures |r| == |vars| && forall i | 0 <= i < |vars| :: r[i] == PrintVariable(vars[i]) + "\n"
  {
    if vars == [] then [] else [PrintVariable(vars[0]) + "\n"] + PrintVariables(vars[1..])
  }

  function PrintRegister(r: Register): seq<string>
    requires GoodRegister(r)
  {
    [Spaced(HeaderToks(HeadInDecimal(r)))] + PrintVariables(r.vars)
  }

  function PrintFile(regs: seq<Register>): seq<string>
    requires forall i | 0 <= i < |regs| :: GoodRegister(regs[i])
  {
    if regs == [] then []
    else PrintRegister(regs[0]) + PrintFile(regs[1..])
  }

  /** Parsing undoes printing. */
  lemma PrintedFileReadsBack(eval: Eval, regs: seq<Register>)
    requires forall i | 0 <= i < |regs| :: GoodRegister(regs[i])
    ensures ParseLines(eval, [], PrintFile(regs)) == Done(regs)
  {
    hide ParseLines, PrintFile, Document, AllSay, GoodRegister, IsEntry, WellWritten, EntriesInDecimal;
    EntriesAre(eval, regs);
    PrintedFileSays(regs);
    RegistersRead(eval, [], EntriesInDecimal(regs), regs, PrintFile(regs));
    assert [] + regs == regs;
  }

  lemma {:induction false} PrintedFileSays(regs: seq<Register>)
    requires forall i | 0 <= i < |regs| :: GoodRegister(regs[i])
    ensures forall i | 0 <= i < |regs| :: WellWritten(EntriesInDecimal(regs)[i])
    ensures AllSay(PrintFile(regs), Document(EntriesInDecimal(regs)))
  {
    hide AllSay, GoodRegister, WellWritten, IsEntry, EntryLines, PrintRegister, EntryInDecimal;
    EntriesAre(_ => None, regs);
    if regs == [] {
      NothingToSay();
    } else {
      PrintedRegisterSays(regs[0]);
      PrintedFileSays(regs[1..]);
      assert EntriesInDecimal(regs)[1..] == EntriesInDecimal(regs[1..]);
      AllSayJoined(PrintRegister(regs[0]), EntryLines(EntryInDecimal(regs[0])),
        PrintFile(regs[1..]), Document(EntriesInDecimal(regs[1..])));
    }
  }

  lemma NothingToSay()
    ensures AllSay([], [])
  {}

  lemma PrintedRegisterSays(r: Register)
    requires GoodRegister(r)
    ensures WellWritten(EntryInDecimal(r)) && AllSay(PrintRegister(r), EntryLines(EntryInDecimal(r)))
  {
    hide Says, HeaderToks, PrintVariable, Spaced, VariableToks, InDecimal, HeadInDecimal, WellWritten, IsEntry;
    EntryIs(_ => None, r);
    PrintedHeaderSays(r);
    forall i | 0 <= i < |r.vars|
      ensures Says(PrintVariables(r.vars)[i], VariableLines(VariablesInDecimal(r.vars))[i])
    {
      PrintedVariableSays(r.vars[i]);
    }
  }

  lemma AllSayJoined(lines: seq<string>, toks: seq<seq<string>>, lines': seq<string>, toks': seq<seq<string>>)
    requires AllSay(lines, toks) && AllSay(lines', toks')
    ensures AllSay(lines + lines', toks + toks')
  {}

  ghost predicate Writable(toks: seq<string>) {
    forall i | 0 <= i < |toks| :: IsWord(toks[i]) || (IsMark(toks[i]) && toks[i] != "#")
  }

  lemma PrintedHeaderSays(r: Register)
    requires GoodRegister(r)
    ensures Says(Spaced(HeaderToks(HeadInDecimal(r))), HeaderToks(HeadInDecimal(r)))
  {
    hide HeaderToks, HeadInDecimal, Decimals;
    var toks := HeaderToks(HeadInDecimal(r));
    HeaderIsWritable(r);
    SpacedTokens(toks);
    forall i | 0 <= i < |toks|
      ensures toks[i] != "#"
    {
      assert IsWord(toks[i]) || (IsMark(toks[i]) && toks[i] != "#");
    }
    IndexIsNone(toks, "#");
  }

  lemma {:induction false} SpacedTokens(toks: seq<string>)
    requires Writable(toks)
    ensures Tokens(Spaced(toks)) == Done(toks)
  {
    hide Tokens, IsWord, IsMark;
    if toks == [] {
      SkipBlank("\n", []);
      assert "\n" + [] == "\n";
      NoTokens();
    } else {
      var rest := Spaced(toks[1..]);
      SpacedTokens(toks[1..]);
      SkipBlank(" ", toks[0] + rest);
      TakeToken(toks[0], rest);
      assert [toks[0]] + toks[1..] == toks;
    }
  }

  lemma HeaderIsWritable(r: Register)
    requires GoodRegister(r)
    ensures Writable(HeaderToks(HeadInDecimal(r)))
  {
    hide IsWord, Decimal, Decimals, Writable, OffsetToks;
    var w := HeadInDecimal(r);
    DecimalIsWord(r.size);
    OffsetsAreDigits(w, r.offsets);
    OptionsAreWritable(w, r);
    FrontIsWritable(r.name, Decimal(r.size));
    WritableJoins([w.name] + w.size + ["@"], OffsetToks(w));
    WritableJoins([w.name] + w.size + ["@"] + OffsetToks(w), OptionToks(w));
    WritableJoins([w.name] + w.size + ["@"] + OffsetToks(w) + OptionToks(w), [":"]);
  }

  lemma FrontIsWritable(name: string, size: string)
    requires IsWord(name) && IsWord(size)
    ensures Writable([name] + [size] + ["@"]) && Writable([":"])
  {}

  lemma WritableJoins(x: seq<string>, y: seq<string>)
    requires Writable(x) && Writable(y)
    ensures Writable(x + y)
  {}

  lemma OptionsAreWritable(w: HeaderText, r: Register)
    requires w.options == AccessWords(r)
    ensures Writable(OptionToks(w))
  {}
}
