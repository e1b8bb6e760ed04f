/**
 The template machine `markup` of tools/util.py: a five-state scan over string
 positions, proved against the meaning of the template's syntax tree. Python's
 `eval` and `exec` are parameters, so every result holds for any of them.
 */
module Markup {

  /** The Python environment and what has been written to the output file. */
  datatype World<E> = World(env: E, out: string)

  datatype Answer<E> = Value(text: string, truth: bool, world: World<E>) | Exception(world: World<E>)

  datatype Items<E, I> = Listed(items: seq<I>) | Missing

  /** The interpreter underneath: code may change the environment and write to the output. */
  datatype Python<!E, !I> = Python(
    eval: (string, World<E>) -> Answer<E>,
    exec: (string, World<E>) -> Answer<E>,
    bindOut: E -> E,
    loopItems: E -> Items<E, I>,
    bindItem: (I, E) -> E)

  /** True, False (after an ABORT) or an exception, each with the world it leaves. */
  datatype Result<E> = Finished(world: World<E>) | Aborted(world: World<E>) | Failed(world: World<E>)

  /** Syntax trees, as a list of pieces. */
  datatype Template =
    | End
    | Text(s: string, next: Template)
    | Eval(code: string, next: Template)
    | Exec(code: string, next: Template)
    | If(code: string, body: Template, next: Template)
    | Loop(body: Template, next: Template)
    | Abort(next: Template)

  function Print(t: Template): string {
    match t
    case End => ""
    case Text(s, n) => s + Print(n)
    case Eval(c, n) => "{{?" + (c + ("}}" + Print(n)))
    case Exec(c, n) => "{{" + (c + ("}}" + Print(n)))
    case If(c, b, n) => "{{if" + ((c + ":" + Print(b)) + ("fi}}" + Print(n)))
    case Loop(b, n) => "{{*" + (Print(b) + ("*}}" + Print(n)))
    case Abort(n) => "{{ABORT}}" + Print(n)
  }

  // ---------------------------------------------------------------- meaning

  function Meaning<E, I>(py: Python<E, I>, t: Template, w: World<E>): Result<E>
    decreases t, 0, 0
  {
    match t
    case End => Finished(w)
    case Text(s, n) => Meaning(py, n, w.(out := w.out + s))
    case Eval(c, n) =>
      (match py.eval(c, w)
       case Value(text, _, w') => Meaning(py, n, w'.(out := w'.out + text))
       case Exception(w') => Failed(w'))
    case Exec(c, n) =>
      (match py.exec(c, w)
       case Value(_, _, w') => Meaning(py, n, w')
       case Exception(w') => Failed(w'))
    case If(c, b, n) =>
      (match py.eval(c, w)
       case Value(_, truth, w') =>
         if !truth then Meaning(py, n, w')
         else
           (match Meaning(py, b, World(py.bindOut(w'.env), w'.out))
            case Finished(w'') => Meaning(py, n, w'')
            case r => r)
       case Exception(w') => Failed(w'))
    case Loop(b, n) =>
      (match py.loopItems(w.env)
       case Missing => Failed(w)
       case Listed(items) =>
         (match MeaningOfLoop(py, b, items, w)
          case Finished(w') => Meaning(py, n, w')
          case r => r))
    case Abort(_) => Aborted(w)
  }

  function MeaningOfLoop<E, I>(py: Python<E, I>, b: Template, items: seq<I>, w: World<E>): Result<E>
    decreases b, 1, |items|
  {
    if items == [] then Finished(w)
    else
      match Meaning(py, b, World(py.bindOut(py.bindItem(items[0], w.env)), w.out))
      case Finished(w') => MeaningOfLoop(py, b, items[1..], w')
      case r => r
  }

  // ---------------------------------------------------------------- what the meaning promises

  /** `bound` tells the environments that have the output file; binding it makes one, and code does not undo it. */
  ghost predicate Keeps<E(!new), I(!new)>(py: Python<E, I>, bound: E -> bool) {
    && (forall e: E :: bound(py.bindOut(e)))
    && (forall c: string, w: World<E> | bound(w.env) ::
          bound(py.eval(c, w).world.env) && bound(py.exec(c, w).world.env))
    && (forall i: I, e: E | bound(e) :: bound(py.bindItem(i, e)))
  }

  /** The same interpreter, as far as code is run with the output file bound. */
  ghost predicate Agree<E(!new), I(!new)>(py: Python<E, I>, py': Python<E, I>, bound: E -> bool) {
    && py'.bindOut == py.bindOut && py'.loopItems == py.loopItems && py'.bindItem == py.bindItem
    && forall c: string, w: World<E> | bound(w.env) :: py'.eval(c, w) == py.eval(c, w) && py'.exec(c, w) == py.exec(c, w)
  }

  /** All code of a template, in conditionals and loops as well, is run with the output file bound: what `eval` and
      `exec` would do without it makes no difference, whatever environment the template is given. */
  lemma CodeSeesOut<E(!new), I(!new)>(py: Python<E, I>, py': Python<E, I>, bound: E -> bool, t: Template, w: World<E>)
    requires Keeps(py, bound) && Agree(py, py', bound)
    ensures var r := Meaning(py, t, World(py.bindOut(w.env), w.out));
      r == Meaning(py', t, World(py'.bindOut(w.env), w.out)) && bound(r.world.env)
  {
    StaysBound(py, py', bound, t, World(py.bindOut(w.env), w.out));
  }

  lemma {:induction false} StaysBound<E(!new), I(!new)>(
      py: Python<E, I>, py': Python<E, I>, bound: E -> bool, t: Template, w: World<E>)
    requires Keeps(py, bound) && Agree(py, py', bound) && bound(w.env)
    ensures Meaning(py, t, w) == Meaning(py', t, w) && bound(Meaning(py, t, w).world.env)
    decreases t, 0, 0
  {
    match t
    case End =>
    case Abort(_) =>
    case Text(s, n) => StaysBound(py, py', bound, n, w.(out := w.out + s));
    case Eval(c, n) =>
      var a := py.eval(c, w);
      if a.Value? { StaysBound(py, py', bound, n, a.world.(out := a.world.out + a.text)); }
    case Exec(c, n) =>
      var a := py.exec(c, w);
      if a.Value? { StaysBound(py, py', bound, n, a.world); }
    case If(c, b, n) =>
      var a := py.eval(c, w);
      if a.Value? && a.truth {
        var inner := World(py.bindOut(a.world.env), a.world.out);
        StaysBound(py, py', bound, b, inner);
        var r := Meaning(py, b, inner);
        if r.Finished? { StaysBound(py, py', bound, n, r.world); }
      } else if a.Value? {
        StaysBound(py, py', bound, n, a.world);
      }
    case Loop(b, n) =>
      var listed := py.loopItems(w.env);
      if listed.Listed? {
        LoopStaysBound(py, py', bound, b, listed.items, w);
        var r := MeaningOfLoop(py, b, listed.items, w);
        if r.Finished? { StaysBound(py, py', bound, n, r.world); }
      }
  }

  lemma {:induction false} LoopStaysBound<E(!new), I(!new)>(
      py: Python<E, I>, py': Python<E, I>, bound: E -> bool, b: Template, items: seq<I>, w: World<E>)
    requires Keeps(py, bound) && Agree(py, py', bound) && bound(w.env)
    ensures MeaningOfLoop(py, b, items, w) == MeaningOfLoop(py', b, items, w)
    ensures bound(MeaningOfLoop(py, b, items, w).world.env)
    decreases b, 1, |items|
  {
    if items != [] {
      var inner := World(py.bindOut(py.bindItem(items[0], w.env)), w.out);
      StaysBound(py, py', bound, b, inner);
      var r := Meaning(py, b, inner);
      if r.Finished? { LoopStaysBound(py, py', bound, b, items[1..], r.world); }
    }
  }

  /** An ABORT ends the template it is in and all those around it: the other items and whatever follows the
      conditional or the loop are not looked at. */
  lemma AbortLeavesAll<E, I>(py: Python<E, I>, s: string, x: Template, c: string, n: Template, w: World<E>)
    ensures py.loopItems(w.env).Listed? && py.loopItems(w.env).items != [] ==>
      Meaning(py, Loop(Text(s, Abort(x)), n), w) ==
        Aborted(World(py.bindOut(py.bindItem(py.loopItems(w.env).items[0], w.env)), w.out + s))
    ensures var a := py.eval(c, w);
      a.Value? && a.truth ==>
        Meaning(py, If(c, Text(s, Abort(x)), n), w) == Aborted(World(py.bindOut(a.world.env), a.world.out + s))
  {
    var body := Text(s, Abort(x));
    var listed := py.loopItems(w.env);
    if listed.Listed? && listed.items != [] {
      var inner := World(py.bindOut(py.bindItem(listed.items[0], w.env)), w.out);
      TextThenAbort(py, s, x, inner);
      assert MeaningOfLoop(py, body, listed.items, w) == Meaning(py, body, inner);
    }
    var a := py.eval(c, w);
    if a.Value? && a.truth { TextThenAbort(py, s, x, World(py.bindOut(a.world.env), a.world.out)); }
  }

  lemma TextThenAbort<E, I>(py: Python<E, I>, s: string, x: Template, w: World<E>)
    ensures Meaning(py, Text(s, Abort(x)), w) == Aborted(w.(out := w.out + s))
  {
    assert Meaning(py, Abort(x), w.(out := w.out + s)).Aborted?;
  }

  function Append(t: Template, u: Template): Template {
    match t
    case End => u
    case Text(s, n) => Text(s, Append(n, u))
    case Eval(c, n) => Eval(c, Append(n, u))
    case Exec(c, n) => Exec(c, Append(n, u))
    case If(c, b, n) => If(c, b, Append(n, u))
    case Loop(b, n) => Loop(b, Append(n, u))
    case Abort(n) => Abort(Append(n, u))
  }

  /** Two templates one after the other: their texts joined are the text of both, and the second is run in the world
      the first leaves, unless the first was aborted or failed, and then it is not run at all. */
  lemma {:induction false} AppendRunsBoth<E, I>(py: Python<E, I>, t: Template, u: Template, w: World<E>)
    ensures Print(Append(t, u)) == Print(t) + Print(u)
    ensures var r := Meaning(py, t, w);
      Meaning(py, Append(t, u), w) == if r.Finished? then Meaning(py, u, r.world) else r
    decreases t
  {
    PrintAppends(t, u);
    match t
    case End =>
    case Abort(_) =>
    case Text(s, n) => AppendRunsBoth(py, n, u, w.(out := w.out + s));
    case Eval(c, n) =>
      var a := py.eval(c, w);
      if a.Value? { AppendRunsBoth(py, n, u, a.world.(out := a.world.out + a.text)); }
    case Exec(c, n) =>
      var a := py.exec(c, w);
      if a.Value? { AppendRunsBoth(py, n, u, a.world); }
    case If(c, b, n) =>
      var a := py.eval(c, w);
      if a.Value? && a.truth {
        var r := Meaning(py, b, World(py.bindOut(a.world.env), a.world.out));
        if r.Finished? { AppendRunsBoth(py, n, u, r.world); }
      } else if a.Value? {
        AppendRunsBoth(py, n, u, a.world);
      }
    case Loop(b, n) =>
      var listed := py.loopItems(w.env);
      if listed.Listed? {
        var r := MeaningOfLoop(py, b, listed.items, w);
        if r.Finished? { AppendRunsBoth(py, n, u, r.world); }
      }
  }

  lemma {:induction false} PrintAppends(t: Template, u: Template)
    ensures Print(Append(t, u)) == Print(t) + Print(u)
  {
    match t
    case End =>
    case Text(s, n) => PrintAppends(n, u); Joined(s, "", Print(n), Print(u));
    case Eval(c, n) => PrintAppends(n, u); Joined("{{?", c, "}}" + Print(n), Print(u)); Joined("}}", "", Print(n), Print(u));
    case Exec(c, n) => PrintAppends(n, u); Joined("{{", c, "}}" + Print(n), Print(u)); Joined("}}", "", Print(n), Print(u));
    case If(c, b, n) =>
      PrintAppends(n, u);
      Joined("{{if", c + ":" + Print(b), "fi}}" + Print(n), Print(u));
      Joined("fi}}", "", Print(n), Print(u));
    case Loop(b, n) =>
      PrintAppends(n, u);
      Joined("{{*", Print(b), "*}}" + Print(n), Print(u));
      Joined("*}}", "", Print(n), Print(u));
    case Abort(n) => PrintAppends(n, u); Joined("{{ABORT}}", "", Print(n), Print(u));
  }

  lemma Joined(x: string, y: string, z: string, u: string)
    ensures x + (y + (z + u)) == x + (y + z) + u
    ensures x + (z + u) == x + z + u
  {}

  // ---------------------------------------------------------------- which trees can be read back

  predicate Match(s: string, i: int, pat: string) {
    0 <= i && i + |pat| <= |s| && s[i..i + |pat|] == pat
  }

  ghost predicate Contains(s: string, pat: string) {
    exists i :: Match(s, i, pat)
  }

  predicate StartsWith(s: string, pat: string) {
    Match(s, 0, pat)
  }

  /** Every `c` in `s` is followed by a different character: no `cc` inside, and no `c` at the end. */
  predicate Lonely(s: string, c: char) {
    forall i | 0 <= i < |s| && s[i] == c :: i + 1 < |s| && s[i + 1] != c
  }

  /** Parts do not contain, or run into, the delimiter that closes them. */
  ghost predicate Readable(t: Template) {
    match t
    case End => true
    case Text(s, n) => Lonely(s, '{') && Readable(n)
    case Eval(c, n) => Lonely(c, '}') && Readable(n)
    case Exec(c, n) =>
      && Lonely(c, '}') && c != "ABORT" && Readable(n)
      && !StartsWith(c, "if") && !StartsWith(c, "?") && !StartsWith(c, "*")
    case If(c, b, n) => ':' !in c && !Contains(c + ":" + Print(b), "fi}}") && Readable(b) && Readable(n)
    case Loop(b, n) => !Contains(Print(b), "*}}") && Readable(b) && Readable(n)
    case Abort(n) => Readable(n)
  }

  // ---------------------------------------------------------------- the machine

  /** Python's `s.find(pat, from)`. */
  function Find(s: string, pat: string, from: nat): (r: int)
    ensures r == -1 || (from <= r && Match(s, r, pat))
    ensures forall i | from <= i && (r == -1 || i < r) :: !Match(s, i, pat)
    decreases |s| - from
  {
    if from + |pat| > |s| then -1
    else if Match(s, from, pat) then from
    else Find(s, pat, from + 1)
  }

  /** Python's `s[a:b]`: ends are clipped, and a negative end counts from the back. */
  function Slice(s: string, a: nat, b: int): string {
    var b' := if b < 0 then |s| + b else if b > |s| then |s| else b;
    if a >= b' then "" else s[a..b']
  }

  datatype State = Normal | ExecCode | EvalCode | LoopCode | IfCode

  method Run<E, I>(py: Python<E, I>, template: string, w0: World<E>, ghost t: Template) returns (r: Result<E>)
    requires template == Print(t) && Readable(t)
    ensures r == Meaning(py, t, World(py.bindOut(w0.env), w0.out))
    decreases |template|
  {
    hide Meaning, MeaningOfLoop, Print, Readable, Find, Slice, AfterText, At;
    var w := w0.(env := py.bindOut(w0.env));
    var windowStart, windowEnd, eof := 0, 0, |template|;
    var state := Normal;
    ghost var rest := t;
    AtStart(t);
    while windowStart < eof
      invariant 0 <= windowStart <= eof && Readable(rest)
      invariant Meaning(py, rest, w) == Meaning(py, t, World(py.bindOut(w0.env), w0.out))
      invariant At(template, windowStart, state, rest)
      decreases eof - windowStart
    {
      match state {
        case Normal =>
          windowEnd := Find(template, "{{", windowStart);
          if windowEnd == -1 {
            windowEnd := eof;
          }
          NormalStep(py, template, windowStart, rest, w);
          w := w.(out := w.out + Slice(template, windowStart, windowEnd));
          windowStart := windowEnd;
          rest := AfterText(rest);
          if Slice(template, windowStart, windowStart + 9) == "{{ABORT}}" {
            return Aborted(w);
          }
          if Slice(template, windowStart, windowStart + 4) == "{{if" {
            state := IfCode;
            windowStart := windowStart + 4;
          } else if Slice(template, windowStart, windowStart + 3) == "{{?" {
            state := EvalCode;
            windowStart := windowStart + 3;
          } else if Slice(template, windowStart, windowStart + 3) == "{{*" {
            state := LoopCode;
            windowStart := windowStart + 3;
          } else if Slice(template, windowStart, windowStart + 2) == "{{" {
            state := ExecCode;
            windowStart := windowStart + 2;
          }
        case EvalCode =>
          windowEnd := Find(template, "}}", windowStart);
          EvalStep(py, template, windowStart, rest, w);
          if windowEnd != -1 {
            var a := py.eval(Slice(template, windowStart, windowEnd), w);
            if a.Exception? {
              return Failed(a.world);
            }
            w := a.world.(out := a.world.out + a.text);
            windowStart := windowEnd + 2;
          }
          state := Normal;
          rest := rest.next;
        case ExecCode =>
          windowEnd := Find(template, "}}", windowStart);
          ExecStep(py, template, windowStart, rest, w);
          if windowEnd != -1 {
            var a := py.exec(Slice(template, windowStart, windowEnd), w);
            if a.Exception? {
              return Failed(a.world);
            }
            w := a.world;
            windowStart := windowEnd + 2;
          }
          state := Normal;
          rest := rest.next;
        case IfCode =>
          windowEnd := Find(template, "fi}}", windowStart);
          var ifcodeEnd := Find(template, ":", windowStart);
          IfStep(py, template, windowStart, rest, w);
          var a := py.eval(Slice(template, windowStart, ifcodeEnd), w);
          if a.Exception? {
            return Failed(a.world);
          }
          w := a.world;
          if a.truth {
            var result := Run(py, Slice(template, ifcodeEnd + 1, windowEnd), w, rest.body);
            if !result.Finished? {
              return result;
            }
            w := result.world;
          }
          windowStart := windowEnd + 4;
          state := Normal;
          rest := rest.next;
        case LoopCode =>
          windowEnd := Find(template, "*}}", windowStart);
          LoopStep(py, template, windowStart, rest, w);
          var loopCode := Slice(template, windowStart, windowEnd);
          var listed := py.loopItems(w.env);
          if listed.Missing? {
            return Failed(w);
          }
          ghost var whole := MeaningOfLoop(py, rest.body, listed.items, w);
          assert listed.items[0..] == listed.items;
          for i := 0 to |listed.items|
            invariant MeaningOfLoop(py, rest.body, listed.items[i..], w) == whole
          {
            NextItem(py, rest.body, listed.items, i, w);
            var result := Run(py, loopCode, w.(env := py.bindItem(listed.items[i], w.env)), rest.body);
            if !result.Finished? {
              return result;
            }
            w := result.world;
          }
          NoMoreItems(py, rest.body, listed.items, w);
          windowStart := windowEnd + 3;
          state := Normal;
          rest := rest.next;
      }
    }
    NothingLeft(py, template, state, rest, w);
    return Finished(w);
  }

  /** What is left to read, by state: the opening delimiter of the next piece is behind us in all but one. */
  ghost predicate At(template: string, k: nat, state: State, rest: Template) {
    && k <= |template|
    && match state
       case Normal => template[k..] == Print(rest)
       case EvalCode => rest.Eval? && template[k..] == rest.code + ("}}" + Print(rest.next))
       case ExecCode => rest.Exec? && template[k..] == rest.code + ("}}" + Print(rest.next))
       case IfCode => rest.If? &&
         template[k..] == (rest.code + ":" + Print(rest.body)) + ("fi}}" + Print(rest.next))
       case LoopCode => rest.Loop? && template[k..] == Print(rest.body) + ("*}}" + Print(rest.next))
  }

  // ---------------------------------------------------------------- reading back

  /** The text up to the next piece that is not text, and that piece. */
  function LeadText(t: Template): string {
    if t.Text? then t.s + LeadText(t.next) else ""
  }

  function AfterText(t: Template): Template {
    if t.Text? then AfterText(t.next) else t
  }

  lemma LonelyConcat(x: string, y: string)
    ensures Lonely(x, '{') && Lonely(y, '{') ==> Lonely(x + y, '{')
    ensures Lonely("", '{')
  {}

  lemma {:induction false} TextSplits(t: Template)
    requires Readable(t)
    ensures Print(t) == LeadText(t) + Print(AfterText(t)) && Lonely(LeadText(t), '{')
    ensures Readable(AfterText(t)) && !AfterText(t).Text?
  {
    hide Lonely;
    LonelyConcat("", "");
    if t.Text? {
      TextSplits(t.next);
      LonelyConcat(t.s, LeadText(t.next));
      assert t.s + LeadText(t.next) + Print(AfterText(t)) == t.s + (LeadText(t.next) + Print(AfterText(t)));
    }
  }

  lemma {:induction false} TextIsWritten<E, I>(py: Python<E, I>, t: Template, w: World<E>)
    ensures Meaning(py, t, w) == Meaning(py, AfterText(t), w.(out := w.out + LeadText(t)))
  {
    if t.Text? {
      TextIsWritten(py, t.next, w.(out := w.out + t.s));
      assert w.out + t.s + LeadText(t.next) == w.out + (t.s + LeadText(t.next));
    } else {
      assert w.out + "" == w.out;
    }
  }

  /** A match, character by character. */
  lemma MatchChars(s: string, i: nat, pat: string)
    ensures Match(s, i, pat) <==> i + |pat| <= |s| && forall j | 0 <= j < |pat| :: pat[j] == s[i + j]
  {
    if i + |pat| <= |s| {
      var x := s[i..i + |pat|];
      assert forall j | 0 <= j < |pat| :: x[j] == s[i + j];
    }
  }

  /** A match in the rest of the string, seen in the whole string. */
  lemma MatchShifts(s: string, k: nat, i: int, pat: string)
    requires k <= |s| && 0 <= i
    ensures Match(s[k..], i, pat) == Match(s, k + i, pat)
  {
    if k + i + |pat| <= |s| {
      assert s[k..][i..i + |pat|] == s[k + i..k + i + |pat|];
    }
  }

  /** The first match in the rest of the string is what Find returns. */
  lemma FindsFirst(s: string, k: nat, n: nat, pat: string)
    requires k <= |s| && Match(s[k..], n, pat)
    requires forall i | 0 <= i < n :: !Match(s[k..], i, pat)
    ensures Find(s, pat, k) == k + n
  {
    MatchShifts(s, k, n, pat);
    forall i | k <= i < k + n
      ensures !Match(s, i, pat)
    {
      MatchShifts(s, k, i - k, pat);
    }
  }

  /** In the normal state the scan writes the leading text and stops at the next piece. */
  lemma SkipText<E, I>(py: Python<E, I>, template: string, k: nat, rest: Template, w: World<E>)
    requires k <= |template| && template[k..] == Print(rest) && Readable(rest)
    ensures var f := Find(template, "{{", k);
      var end := if f == -1 then |template| else f;
      && k <= end <= |template| && Slice(template, k, end) == LeadText(rest)
      && template[end..] == Print(AfterText(rest))
    ensures Readable(AfterText(rest)) && !AfterText(rest).Text?
    ensures Meaning(py, rest, w) == Meaning(py, AfterText(rest), w.(out := w.out + LeadText(rest)))
  {
    hide Find, Slice, Lonely, Print;
    TextSplits(rest);
    TextIsWritten(py, rest, w);
    BeginsWithOpener(AfterText(rest));
    TextEnds(template, k, LeadText(rest), Print(AfterText(rest)));
  }

  lemma TextEnds(template: string, k: nat, lead: string, more: string)
    requires k <= |template| && template[k..] == lead + more && Lonely(lead, '{')
    requires more == "" || (|more| >= 2 && more[..2] == "{{")
    ensures var f := Find(template, "{{", k);
      var end := if f == -1 then |template| else f;
      end == k + |lead| && Slice(template, k, end) == lead && template[end..] == more
  {
    var x, n := template[k..], |lead|;
    forall i | 0 <= i < n
      ensures !Match(x, i, "{{")
    {
      OpenerNotInText(lead, more, i);
    }
    if more == "" {
      forall i | k <= i
        ensures !Match(template, i, "{{")
      {
        MatchShifts(template, k, i - k, "{{");
      }
    } else {
      assert x[n..n + 2] == more[..2];
      FindsFirst(template, k, n, "{{");
    }
    assert template[k + n..] == x[n..] == more;
    assert template[k..k + n] == x[..n] == lead;
  }

  lemma OpenerNotInText(lead: string, more: string, i: nat)
    requires Lonely(lead, '{') && i < |lead|
    ensures !Match(lead + more, i, "{{")
  {
    MatchChars(lead + more, i, "{{");
    assert "{{"[0] == "{{"[1] == '{';
  }

  lemma BeginsWithOpener(t: Template)
    requires !t.Text?
    ensures if t.End? then Print(t) == "" else |Print(t)| >= 2 && Print(t)[..2] == "{{"
  {}

  /** Which of the five openings the scan sees tells which piece comes next. */
  lemma OpenersSeen(template: string, k: nat, rest: Template)
    requires k <= |template| && template[k..] == Print(rest) && Readable(rest) && !rest.Text?
    ensures Slice(template, k, k + 9) == "{{ABORT}}" <==> rest.Abort?
    ensures Slice(template, k, k + 4) == "{{if" <==> rest.If?
    ensures Slice(template, k, k + 3) == "{{?" <==> rest.Eval?
    ensures Slice(template, k, k + 3) == "{{*" <==> rest.Loop?
    ensures Slice(template, k, k + 2) == "{{" <==> !rest.End?
  {
    hide StartsWith, Slice;
    var x := template[k..];
    ThirdCharacter(x);
    Peek(template, k, "{{ABORT}}");
    Peek(template, k, "{{if");
    Peek(template, k, "{{?");
    Peek(template, k, "{{*");
    Peek(template, k, "{{");
    match rest {
      case End =>
      case Eval(c, n) => Opened(template, k, "{{?", c + ("}}" + Print(n))); assert x[2] == '?';
      case Exec(c, n) =>
        Opened(template, k, "{{", c + ("}}" + Print(n)));
        ExecOpener(c, Print(n));
      case If(c, b, n) =>
        Opened(template, k, "{{if", (c + ":" + Print(b)) + ("fi}}" + Print(n)));
        assert x[2] == 'i';
      case Loop(b, n) => Opened(template, k, "{{*", Print(b) + ("*}}" + Print(n))); assert x[2] == '*';
      case Abort(n) => Opened(template, k, "{{ABORT}}", Print(n)); assert x[2] == 'A';
    }
  }

  lemma OpenersLeave(template: string, k: nat, rest: Template)
    requires k <= |template| && template[k..] == Print(rest)
    ensures rest.If? ==> At(template, k + 4, IfCode, rest)
    ensures rest.Eval? ==> At(template, k + 3, EvalCode, rest)
    ensures rest.Loop? ==> At(template, k + 3, LoopCode, rest)
    ensures rest.Exec? ==> At(template, k + 2, ExecCode, rest)
  {
    hide StartsWith;
    match rest {
      case Eval(c, n) => Opened(template, k, "{{?", c + ("}}" + Print(n)));
      case Exec(c, n) => Opened(template, k, "{{", c + ("}}" + Print(n)));
      case If(c, b, n) => Opened(template, k, "{{if", (c + ":" + Print(b)) + ("fi}}" + Print(n)));
      case Loop(b, n) => Opened(template, k, "{{*", Print(b) + ("*}}" + Print(n)));
      case _ =>
    }
  }

  /** What follows an opening. */
  lemma Opened(template: string, k: nat, o: string, more: string)
    requires k <= |template| && template[k..] == o + more
    ensures k + |o| <= |template| && template[k + |o|..] == more
    ensures |o| >= 2 && o[..2] == "{{" ==> StartsWith(template[k..], "{{")
    ensures o != "" ==> StartsWith(template[k..], o)
  {
    var x := template[k..];
    assert x[|o|..] == more && template[k + |o|..] == x[|o|..] && x[..|o|] == o;
    if |o| >= 2 { assert x[0..2] == o[..2]; }
  }

  /** The third character tells the special openings apart. */
  lemma ThirdCharacter(x: string)
    ensures StartsWith(x, "{{ABORT}}") ==> |x| >= 3 && x[2] == 'A'
    ensures StartsWith(x, "{{if") ==> |x| >= 3 && x[2] == 'i'
    ensures StartsWith(x, "{{?") ==> |x| >= 3 && x[2] == '?'
    ensures StartsWith(x, "{{*") ==> |x| >= 3 && x[2] == '*'
    ensures |x| < 2 ==> !StartsWith(x, "{{")
  {
    MatchChars(x, 0, "{{ABORT}}");
    MatchChars(x, 0, "{{if");
    MatchChars(x, 0, "{{?");
    MatchChars(x, 0, "{{*");
    assert "{{ABORT}}"[2] == 'A' && "{{if"[2] == 'i' && "{{?"[2] == '?' && "{{*"[2] == '*';
  }

  lemma Peek(s: string, k: nat, pat: string)
    requires k <= |s| && pat != ""
    ensures Slice(s, k, k + |pat|) == pat <==> StartsWith(s[k..], pat)
  {}

  /** Executed code is not taken for one of the special forms. */
  lemma ExecOpener(c: string, more: string)
    requires Lonely(c, '}') && c != "ABORT"
    requires !StartsWith(c, "if") && !StartsWith(c, "?") && !StartsWith(c, "*")
    ensures var x := "{{" + (c + ("}}" + more));
      && !StartsWith(x, "{{ABORT}}") && !StartsWith(x, "{{if") && !StartsWith(x, "{{?") && !StartsWith(x, "{{*")
      && StartsWith(x, "{{")
  {
    var x := "{{" + (c + ("}}" + more));
    MatchChars(x, 0, "{{if");
    MatchChars(x, 0, "{{?");
    MatchChars(x, 0, "{{*");
    assert x[..2] == "{{";
    assert "{{if"[2] == 'i' && "{{if"[3] == 'f' && "{{?"[2] == '?' && "{{*"[2] == '*';
    if |c| == 0 {
      assert x[2] == '}';
    } else {
      assert x[2] == c[0] && x[3] == if |c| > 1 then c[1] else '}';
      assert |c| > 1 ==> c[0..2] == [c[0], c[1]];
      assert c[0..1] == [c[0]];
    }
    if StartsWith(x, "{{ABORT}}") {
      NotAbort(c, more);
      assert false;
    }
  }

  lemma NotAbort(c: string, more: string)
    requires Lonely(c, '}') && StartsWith("{{" + (c + ("}}" + more)), "{{ABORT}}")
    ensures c == "ABORT"
  {
    var x := "{{" + (c + ("}}" + more));
    var abort := "{{ABORT}}";
    MatchChars(x, 0, abort);
    assert forall i | 0 <= i < |c| :: x[i + 2] == c[i];
    assert x[|c| + 2] == '}' && x[|c| + 3] == '}';
    assert x[7] == abort[7] == '}' && x[8] == abort[8] == '}';
    assert |c| >= 5;
    assert |c| == 5;
    assert forall i | 0 <= i < 5 :: c[i] == abort[i + 2] == "ABORT"[i];
  }

  /** Code ends at its own closing braces. */
  lemma CodeEnds(template: string, k: nat, c: string, more: string)
    requires k <= |template| && template[k..] == c + ("}}" + more) && Lonely(c, '}')
    ensures Find(template, "}}", k) == k + |c| && Slice(template, k, k + |c|) == c
    ensures k + |c| + 2 <= |template| && template[k + |c| + 2..] == more
  {
    var x := template[k..];
    forall i | 0 <= i < |c|
      ensures !Match(x, i, "}}")
    {
      MatchChars(x, i, "}}");
      assert "}}"[0] == "}}"[1] == '}';
    }
    assert x[|c|..|c| + 2] == "}}";
    FindsFirst(template, k, |c|, "}}");
    assert template[k..k + |c|] == x[..|c|] == c;
    assert template[k + |c| + 2..] == x[|c| + 2..] == more;
  }

  /** A block ends at its own closing delimiter, which cannot overlap what it closes. */
  lemma BlockEnds(template: string, k: nat, u: string, close: string, more: string)
    requires k <= |template| && template[k..] == u + (close + more) && !Contains(u, close)
    requires |close| > 0 && close[0] !in close[1..]
    ensures Find(template, close, k) == k + |u|
    ensures k + |u| + |close| <= |template| && template[k + |u| + |close|..] == more
    ensures template[k..k + |u|] == u
  {
    var x := template[k..];
    forall i | 0 <= i < |u|
      ensures !Match(x, i, close)
    {
      assert !Match(u, i, close);
      if i + |close| <= |u| {
        assert x[i..i + |close|] == u[i..i + |close|];
      } else {
        MatchChars(x, i, close);
        assert close[|u| - i] == close[1..][|u| - i - 1] != close[0] == x[|u|];
      }
    }
    assert x[|u|..|u| + |close|] == close;
    FindsFirst(template, k, |u|, close);
    assert template[k + |u| + |close|..] == x[|u| + |close|..] == more;
    assert template[k..k + |u|] == x[..|u|];
  }

  lemma ColonFound(template: string, k: nat, c: string, body: string, more: string)
    requires k <= |template| && template[k..] == (c + ":" + body) + more && ':' !in c
    ensures Find(template, ":", k) == k + |c|
    ensures Slice(template, k, k + |c|) == c
    ensures Slice(template, k + |c| + 1, k + |c| + 1 + |body|) == body
  {
    var x := template[k..];
    forall i | 0 <= i < |c|
      ensures !Match(x, i, ":")
    {
      assert x[i] == c[i] && c[i] in c;
      MatchChars(x, i, ":");
      assert ":"[0] == ':';
    }
    assert x[|c|..|c| + 1] == ":";
    FindsFirst(template, k, |c|, ":");
    assert template[k..k + |c|] == x[..|c|] == c;
    BodyAfter(template, k, c, body, more);
  }

  lemma BodyAfter(template: string, k: nat, c: string, body: string, more: string)
    requires k <= |template| && template[k..] == (c + ":" + body) + more
    ensures Slice(template, k + |c| + 1, k + |c| + 1 + |body|) == body
  {
    var x, j := template[k..], |c| + 1;
    assert x[j..j + |body|] == body;
    assert template[k + j..k + j + |body|] == x[j..j + |body|];
  }

  // ---------------------------------------------------------------- one step per state

  lemma NormalStep<E, I>(py: Python<E, I>, template: string, k: nat, rest: Template, w: World<E>)
    requires Readable(rest) && At(template, k, Normal, rest)
    ensures var f := Find(template, "{{", k);
      var e := if f == -1 then |template| else f;
      var after, w' := AfterText(rest), w.(out := w.out + Slice(template, k, e));
      && k <= e <= |template| && Readable(after) && Meaning(py, rest, w) == Meaning(py, after, w')
      && (if Slice(template, e, e + 9) == "{{ABORT}}" then Meaning(py, after, w') == Aborted(w')
          else if Slice(template, e, e + 4) == "{{if" then e + 4 <= |template| && At(template, e + 4, IfCode, after)
          else if Slice(template, e, e + 3) == "{{?" then e + 3 <= |template| && At(template, e + 3, EvalCode, after)
          else if Slice(template, e, e + 3) == "{{*" then e + 3 <= |template| && At(template, e + 3, LoopCode, after)
          else if Slice(template, e, e + 2) == "{{" then e + 2 <= |template| && At(template, e + 2, ExecCode, after)
          else e == |template| && At(template, e, Normal, after))
  {
    hide Find, Slice, Print;
    SkipText(py, template, k, rest, w);
    var f := Find(template, "{{", k);
    var e := if f == -1 then |template| else f;
    OpenersSeen(template, e, AfterText(rest));
    OpenersLeave(template, e, AfterText(rest));
    if AfterText(rest).End? { EndIsEmpty(template, e); }
  }

  lemma AtStart(t: Template)
    ensures At(Print(t), 0, Normal, t)
  {}

  lemma EndIsEmpty(template: string, e: nat)
    requires e <= |template| && template[e..] == Print(End)
    ensures e == |template|
  {}

  lemma EvalStep<E, I>(py: Python<E, I>, template: string, k: nat, rest: Template, w: World<E>)
    requires Readable(rest) && At(template, k, EvalCode, rest)
    ensures var f := Find(template, "}}", k);
      && k <= f <= |template| - 2 && rest.Eval? && Readable(rest.next) && At(template, f + 2, Normal, rest.next)
      && var a := py.eval(Slice(template, k, f), w);
         Meaning(py, rest, w) ==
         if a.Exception? then Failed(a.world) else Meaning(py, rest.next, a.world.(out := a.world.out + a.text))
  {
    hide Find, Slice, Print;
    CodeEnds(template, k, rest.code, Print(rest.next));
  }

  lemma ExecStep<E, I>(py: Python<E, I>, template: string, k: nat, rest: Template, w: World<E>)
    requires Readable(rest) && At(template, k, ExecCode, rest)
    ensures var f := Find(template, "}}", k);
      && k <= f <= |template| - 2 && rest.Exec? && Readable(rest.next) && At(template, f + 2, Normal, rest.next)
      && var a := py.exec(Slice(template, k, f), w);
         Meaning(py, rest, w) == if a.Exception? then Failed(a.world) else Meaning(py, rest.next, a.world)
  {
    hide Find, Slice, Print;
    CodeEnds(template, k, rest.code, Print(rest.next));
  }

  lemma IfStep<E, I>(py: Python<E, I>, template: string, k: nat, rest: Template, w: World<E>)
    requires Readable(rest) && At(template, k, IfCode, rest)
    ensures var f, c := Find(template, "fi}}", k), Find(template, ":", k);
      && k <= c < f <= |template| - 4 && rest.If? && Readable(rest.body) && Readable(rest.next) && At(template, f + 4, Normal, rest.next)
      && Slice(template, c + 1, f) == Print(rest.body) && |Print(rest.body)| < |template|
      && var a := py.eval(Slice(template, k, c), w);
         Meaning(py, rest, w) ==
         if a.Exception? then Failed(a.world)
         else if !a.truth then Meaning(py, rest.next, a.world)
         else match Meaning(py, rest.body, World(py.bindOut(a.world.env), a.world.out))
              case Finished(w') => Meaning(py, rest.next, w')
              case r => r
  {
    hide Find, Slice, Print;
    var u := rest.code + ":" + Print(rest.body);
    assert 'f' !in "fi}}"[1..];
    BlockEnds(template, k, u, "fi}}", Print(rest.next));
    ColonFound(template, k, rest.code, Print(rest.body), "fi}}" + Print(rest.next));
    assert |u| == |rest.code| + 1 + |Print(rest.body)|;
  }

  lemma LoopStep<E, I>(py: Python<E, I>, template: string, k: nat, rest: Template, w: World<E>)
    requires Readable(rest) && At(template, k, LoopCode, rest)
    ensures var f := Find(template, "*}}", k);
      && k <= f <= |template| - 3 && rest.Loop? && Readable(rest.body) && Readable(rest.next) && At(template, f + 3, Normal, rest.next)
      && Slice(template, k, f) == Print(rest.body) && |Print(rest.body)| < |template|
      && Meaning(py, rest, w) ==
         match py.loopItems(w.env)
         case Missing => Failed(w)
         case Listed(items) =>
           match MeaningOfLoop(py, rest.body, items, w)
           case Finished(w') => Meaning(py, rest.next, w')
           case r => r
  {
    hide Find, Print;
    assert '*' !in "*}}"[1..];
    BlockEnds(template, k, Print(rest.body), "*}}", Print(rest.next));
  }

  lemma NextItem<E, I>(py: Python<E, I>, b: Template, items: seq<I>, i: nat, w: World<E>)
    requires i < |items|
    ensures MeaningOfLoop(py, b, items[i..], w) ==
      match Meaning(py, b, World(py.bindOut(py.bindItem(items[i], w.env)), w.out))
      case Finished(w') => MeaningOfLoop(py, b, items[i + 1..], w')
      case r => r
  {
    assert items[i..][1..] == items[i + 1..];
  }

  lemma NoMoreItems<E, I>(py: Python<E, I>, b: Template, items: seq<I>, w: World<E>)
    ensures MeaningOfLoop(py, b, items[|items|..], w) == Finished(w)
  {}

  lemma NothingLeft<E, I>(py: Python<E, I>, template: string, state: State, rest: Template, w: World<E>)
    requires At(template, |template|, state, rest)
    ensures Meaning(py, rest, w) == Finished(w)
  {
    EmptyMeansNothing(py, rest, w);
  }

  lemma {:induction false} EmptyMeansNothing<E, I>(py: Python<E, I>, t: Template, w: World<E>)
    requires Print(t) == ""
    ensures Meaning(py, t, w) == Finished(w)
  {
    if t.Text? {
      assert t.s == "" && Print(t.next) == "";
      assert w.(out := w.out + "") == w;
      EmptyMeansNothing(py, t.next, w);
    }
  }
}
