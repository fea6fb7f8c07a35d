/**
 What a SystemVerilog preprocessor makes of a text, by the conditional-compilation rules of section 22.6 of
 IEEE Std 1800-2017: on lines, and on the conditional trees that balanced texts are.
 */
module Preprocess {

  import opened Basics
  import opened IncAssert

  // ---- the line preprocessor ---------------------------------------------------------------------------------

  /** An open conditional: are its lines compiled now, and has one of its branches been chosen already. */
  datatype Cond = Cond(live: bool, done: bool)

  /** The compiled lines in order (with the `define` and `undef` lines among them) and the macros at the end. */
  datatype Compiled = Compiled(lines: seq<Line>, macros: set<string>)

  /** Every `else` and `elsif` belongs to an open conditional that has had no `else` yet, and every conditional
      closes; `elses` says of each open conditional whether its `else` has passed. */
  predicate Balanced(lines: seq<Line>, elses: seq<bool>)
    decreases |lines|
  {
    if lines == [] then elses == [] else
    var line, rest, top := lines[0], lines[1..], |elses| - 1;
    if line.Opens() then Balanced(rest, elses + [false])
    else if line.Endif? then elses != [] && Balanced(rest, elses[..top])
    else if line.Else? then elses != [] && !elses[top] && Balanced(rest, elses[top := true])
    else if line.Elsif? then elses != [] && !elses[top] && Balanced(rest, elses)
    else Balanced(rest, elses)
  }

  predicate Live(stack: seq<Cond>) { stack == [] || stack[|stack| - 1].live }

  predicate Holds(open: Line, m: set<string>)
    requires open.Opens()
  {
    open.Ifdef? == (open.sym in m)
  }

  function Effect(line: Line, m: set<string>): set<string> {
    if line.Define? then m + {line.sym} else if line.Undef? then m - {line.sym} else m
  }

  function Run(lines: seq<Line>, stack: seq<Cond>, m: set<string>, out: seq<Line>): Compiled
    decreases |lines|
  {
    if lines == [] then Compiled(out, m) else
    var line, rest, top := lines[0], lines[1..], |stack| - 1;
    if line.Opens() then
      var take := Live(stack) && Holds(line, m);
      Run(rest, stack + [Cond(take, take || !Live(stack))], m, out)
    else if line.Endif? && stack != [] then Run(rest, stack[..top], m, out)
    else if line.Else? && stack != [] then Run(rest, stack[top := Cond(!stack[top].done, true)], m, out)
    else if line.Elsif? && stack != [] then
      var take := !stack[top].done && line.sym in m;
      Run(rest, stack[top := Cond(take, take || stack[top].done)], m, out)
    else if Live(stack) && line.IsPlain() then Run(rest, stack, Effect(line, m), out + [line])
    else Run(rest, stack, m, out)
  }

  function Preprocessed(lines: seq<Line>, m: set<string>): Compiled {
    Run(lines, [], m, [])
  }

  // ---- the same on conditional trees --------------------------------------------------------------------------

  function Pre(d: Doc, m: set<string>): Compiled {
    match d
    case Nil => Compiled([], m)
    case Cons(line, rest) =>
      var r := Pre(rest, Effect(line, m));
      Compiled([line] + r.lines, r.macros)
    case Block(open, body, tail, rest) =>
      var b := if open.Opens() && Holds(open, m) then Pre(body, m) else PreChain(tail, m);
      var r := Pre(rest, b.macros);
      Compiled(b.lines + r.lines, r.macros)
  }

  function PreChain(c: Chain, m: set<string>): Compiled {
    match c
    case Close(_) => Compiled([], m)
    case Otherwise(_, body, _) => Pre(body, m)
    case Also(mark, body, next) => if mark.Elsif? && mark.sym in m then Pre(body, m) else PreChain(next, m)
  }

  lemma RunStep(line: Line, rest: seq<Line>, more: seq<Line>)
    ensures var s := [line] + rest + more; s != [] && s[0] == line && s[1..] == rest + more
  {
  }

  /** What a compiled piece does to a run: nothing when its surroundings are not live. */
  function Resume(more: seq<Line>, stack: seq<Cond>, m: set<string>, out: seq<Line>, live: bool,
                  c: Compiled): Compiled {
    if live then Run(more, stack, c.macros, out + c.lines) else Run(more, stack, m, out)
  }

  lemma {:induction false} RunDoc(d: Doc, more: seq<Line>, stack: seq<Cond>, m: set<string>, out: seq<Line>)
    requires DocOk(d)
    ensures Run(Flatten(d) + more, stack, m, out) == Resume(more, stack, m, out, Live(stack), Pre(d, m))
    decreases d
  {
    match d
    case Nil =>
      assert [] + more == more && out + [] == out;
    case Cons(line, rest) =>
      RunStep(line, Flatten(rest), more);
      if Live(stack) {
        RunDoc(rest, more, stack, Effect(line, m), out + [line]);
        assert out + [line] + Pre(rest, Effect(line, m)).lines == out + Pre(d, m).lines;
      } else {
        RunDoc(rest, more, stack, m, out);
      }
    case Block(open, body, tail, rest) =>
      RunBlock(d, more, stack, m, out);
  }

  lemma RunOpen(d: Doc, more: seq<Line>, stack: seq<Cond>, m: set<string>, out: seq<Line>)
    requires d.Block? && d.open.Opens()
    ensures var take := Live(stack) && Holds(d.open, m);
            Run(Flatten(d) + more, stack, m, out)
            == Run(Flatten(d.body) + (FlattenChain(d.tail) + (Flatten(d.rest) + more)),
                   stack + [Cond(take, take || !Live(stack))], m, out)
  {
    RunStep(d.open, Flatten(d.body) + (FlattenChain(d.tail) + Flatten(d.rest)), more);
    assert (Flatten(d.body) + (FlattenChain(d.tail) + Flatten(d.rest))) + more
        == Flatten(d.body) + (FlattenChain(d.tail) + (Flatten(d.rest) + more));
  }

  lemma {:induction false} RunBlock(d: Doc, more: seq<Line>, stack: seq<Cond>, m: set<string>, out: seq<Line>)
    requires DocOk(d) && d.Block?
    ensures Run(Flatten(d) + more, stack, m, out) == Resume(more, stack, m, out, Live(stack), Pre(d, m))
    decreases d, 0
  {
    hide Run;
    var body, tail, rest := d.body, d.tail, d.rest;
    var live, take := Live(stack), Live(stack) && Holds(d.open, m);
    var f := Cond(take, take || !live);
    var more1 := Flatten(rest) + more;
    RunOpen(d, more, stack, m, out);
    hide Flatten, FlattenChain;
    RunDoc(body, FlattenChain(tail) + more1, stack + [f], m, out);
    if take {
      var b := Pre(body, m);
      RunChain(tail, more1, stack, f, b.macros, out + b.lines);
      RunDoc(rest, more, stack, b.macros, out + b.lines);
      assert out + b.lines + Pre(rest, b.macros).lines == out + Pre(d, m).lines;
    } else {
      RunChain(tail, more1, stack, f, m, out);
      if live {
        var b := PreChain(tail, m);
        RunDoc(rest, more, stack, b.macros, out + b.lines);
        assert out + b.lines + Pre(rest, b.macros).lines == out + Pre(d, m).lines;
      } else {
        RunDoc(rest, more, stack, m, out);
      }
    }
  }

  lemma RunMark(mark: Line, body: seq<Line>, tail: seq<Line>, more: seq<Line>, stack: seq<Cond>, f: Cond,
                m: set<string>, out: seq<Line>)
    requires mark.Else? || mark.Elsif?
    ensures var take := !f.done && (mark.Else? || mark.sym in m);
            Run([mark] + (body + tail) + more, stack + [f], m, out)
            == Run(body + (tail + more), stack + [Cond(take, take || f.done || mark.Else?)], m, out)
  {
    RunStep(mark, body + tail, more);
    assert (body + tail) + more == body + (tail + more);
    var take := !f.done && (mark.Else? || mark.sym in m);
    assert (stack + [f])[|stack| := Cond(take, take || f.done || mark.Else?)] ==
        stack + [Cond(take, take || f.done || mark.Else?)];
  }

  lemma RunEnd(close: Line, more: seq<Line>, stack: seq<Cond>, f: Cond, m: set<string>, out: seq<Line>)
    requires close.Endif?
    ensures Run([close] + more, stack + [f], m, out) == Run(more, stack, m, out)
  {
    assert (stack + [f])[..|stack|] == stack;
    assert ([close] + more)[1..] == more;
  }

  /** The rest of a conditional: skipped when a branch has been chosen (or nothing here is live), compiled as
      `PreChain` when not. */
  lemma {:induction false} RunChain(c: Chain, more: seq<Line>, stack: seq<Cond>, f: Cond, m: set<string>,
                                    out: seq<Line>)
    requires ChainOk(c)
    ensures Run(FlattenChain(c) + more, stack + [f], m, out) == Resume(more, stack, m, out, !f.done, PreChain(c, m))
    decreases c
  {
    match c
    case Close(close) =>
      RunEnd(close, more, stack, f, m, out);
      assert out + [] == out;
    case Otherwise(mark, body, close) =>
      RunMark(mark, Flatten(body), [close], more, stack, f, m, out);
      hide Run;
      var g := Cond(!f.done, true);
      RunDoc(body, [close] + more, stack + [g], m, out);
      var b := if f.done then Compiled(out, m) else Compiled(out + Pre(body, m).lines, Pre(body, m).macros);
      RunEnd(close, more, stack, g, b.macros, b.lines);
    case Also(mark, body, next) =>
      RunMark(mark, Flatten(body), FlattenChain(next), more, stack, f, m, out);
      hide Run;
      var take := !f.done && mark.sym in m;
      var g := Cond(take, take || f.done);
      RunDoc(body, FlattenChain(next) + more, stack + [g], m, out);
      var b := if take then Compiled(out + Pre(body, m).lines, Pre(body, m).macros) else Compiled(out, m);
      RunChain(next, more, stack, g, b.macros, b.lines);
  }

  /** The line preprocessor and the tree semantics agree. */
  lemma PreprocessedDoc(d: Doc, m: set<string>)
    requires DocOk(d)
    ensures Preprocessed(Flatten(d), m) == Pre(d, m)
  {
    RunDoc(d, [], [], m, []);
    assert Flatten(d) + [] == Flatten(d) && [] + Pre(d, m).lines == Pre(d, m).lines;
  }

  // ---- balanced texts are the trees ----------------------------------------------------------------------------

  /** What is left of a balanced text inside `elses`: a tree and, below an open conditional, how that conditional
      goes on. */
  lemma {:induction false} Parse(lines: seq<Line>, elses: seq<bool>) returns (d: Doc, c: Chain, rest: seq<Line>)
    requires Balanced(lines, elses)
    ensures DocOk(d)
    ensures elses == [] ==> lines == Flatten(d)
    ensures elses != [] ==> ChainOk(c) && lines == Flatten(d) + (FlattenChain(c) + rest) && |rest| < |lines|
                            && Balanced(rest, elses[..|elses| - 1]) && (elses[|elses| - 1] ==> c.Close?)
    decreases |lines|
  {
    d, c, rest := Nil, Close(Endif("")), [];
    if lines != [] {
      var line, tail, top := lines[0], lines[1..], |elses| - 1;
      assert lines == [line] + tail;
      if line.Opens() {
        hide Balanced;
        d, c, rest := ParseBlock(lines, elses);
      } else if line.Endif? {
        c, rest := Close(line), tail;
        assert lines == [] + ([line] + tail);
      } else if line.Else? {
        c, rest := ParseElse(lines, elses);
      } else if line.Elsif? {
        c, rest := ParseElsif(lines, elses);
      } else {
        d, c, rest := Parse(tail, elses);
        d := Cons(line, d);
      }
    }
  }

  lemma {:induction false} ParseElse(lines: seq<Line>, elses: seq<bool>) returns (c: Chain, rest: seq<Line>)
    requires Balanced(lines, elses) && lines != [] && lines[0].Else?
    ensures elses != [] && ChainOk(c) && lines == [] + (FlattenChain(c) + rest) && |rest| < |lines|
            && Balanced(rest, elses[..|elses| - 1]) && !elses[|elses| - 1]
    decreases |lines|, 0
  {
    var line, tail, top := lines[0], lines[1..], |elses| - 1;
    var body, close, rest' := Parse(tail, elses[top := true]);
    assert elses[top := true][..top] == elses[..top];
    c, rest := Otherwise(line, body, close.close), rest';
    assert lines == [line] + tail;
    assert lines == [] + ([line] + (Flatten(body) + [close.close]) + rest);
  }

  lemma {:induction false} ParseElsif(lines: seq<Line>, elses: seq<bool>) returns (c: Chain, rest: seq<Line>)
    requires Balanced(lines, elses) && lines != [] && lines[0].Elsif?
    ensures elses != [] && ChainOk(c) && lines == [] + (FlattenChain(c) + rest) && |rest| < |lines|
            && Balanced(rest, elses[..|elses| - 1]) && !elses[|elses| - 1]
    decreases |lines|, 0
  {
    var line, tail := lines[0], lines[1..];
    var body, next, rest' := Parse(tail, elses);
    c, rest := Also(line, body, next), rest';
    assert lines == [line] + tail;
    assert lines == [] + ([line] + (Flatten(body) + FlattenChain(next)) + rest);
  }

  lemma {:induction false} ParseBlock(lines: seq<Line>, elses: seq<bool>) returns (d: Doc, c: Chain, rest: seq<Line>)
    requires Balanced(lines, elses) && lines != [] && lines[0].Opens()
    ensures DocOk(d)
    ensures elses == [] ==> lines == Flatten(d)
    ensures elses != [] ==> ChainOk(c) && lines == Flatten(d) + (FlattenChain(c) + rest) && |rest| < |lines|
                            && Balanced(rest, elses[..|elses| - 1]) && (elses[|elses| - 1] ==> c.Close?)
    decreases |lines|, 0
  {
    var body, tail, after := Parse(lines[1..], elses + [false]);
    assert (elses + [false])[..|elses|] == elses;
    var d';
    d', c, rest := Parse(after, elses);
    d := Block(lines[0], body, tail, d');
    assert lines == [lines[0]] + lines[1..];
    var f, g, h, k, l := [lines[0]], Flatten(body), FlattenChain(tail), Flatten(d'), FlattenChain(c) + rest;
    assert Flatten(d) == f + (g + (h + k));
    hide Balanced, DocOk, ChainOk, Flatten, FlattenChain;
    assert lines == f + (g + (h + after));
    if elses != [] {
      SeqAssoc(f, g + (h + k), l);
      SeqAssoc(g, h + k, l);
      SeqAssoc(h, k, l);
    }
  }

  /** A text is balanced exactly when it is the text of a tree. */
  lemma BalancedIsTree(lines: seq<Line>)
    ensures Balanced(lines, []) <==> exists d :: DocOk(d) && Flatten(d) == lines
  {
    if Balanced(lines, []) {
      var d, _, _ := Parse(lines, []);
      assert DocOk(d) && Flatten(d) == lines;
    }
    if d: Doc :| DocOk(d) && Flatten(d) == lines {
      TreeBalanced(d, [], []);
      assert lines + [] == lines;
    }
  }

  lemma {:induction false} TreeBalanced(d: Doc, more: seq<Line>, elses: seq<bool>)
    requires DocOk(d)
    ensures Balanced(Flatten(d) + more, elses) == Balanced(more, elses)
    decreases d
  {
    match d
    case Nil =>
      assert [] + more == more;
    case Cons(line, rest) =>
      RunStep(line, Flatten(rest), more);
      TreeBalanced(rest, more, elses);
    case Block(open, body, tail, rest) =>
      var b, t, r := Flatten(body), FlattenChain(tail), Flatten(rest);
      RunStep(open, b + (t + r), more);
      assert (b + (t + r)) + more == b + (t + (r + more));
      assert Balanced(Flatten(d) + more, elses) == Balanced(b + (t + (r + more)), elses + [false]);
      hide Balanced, Flatten, FlattenChain;
      TreeBalanced(body, t + (r + more), elses + [false]);
      ChainBalanced(tail, r + more, elses);
      TreeBalanced(rest, more, elses);
  }

  lemma {:induction false} ChainBalanced(c: Chain, more: seq<Line>, elses: seq<bool>)
    requires ChainOk(c)
    ensures Balanced(FlattenChain(c) + more, elses + [false]) == Balanced(more, elses)
    decreases c
  {
    var st := elses + [false];
    match c
    case Close(close) =>
      EndBalanced(close, more, elses, false);
    case Otherwise(mark, body, close) =>
      RunStep(mark, Flatten(body) + [close], more);
      assert (Flatten(body) + [close]) + more == Flatten(body) + ([close] + more);
      assert st[|elses| := true] == elses + [true];
      assert Balanced(FlattenChain(c) + more, st) == Balanced(Flatten(body) + ([close] + more), elses + [true]);
      hide Balanced;
      TreeBalanced(body, [close] + more, elses + [true]);
      EndBalanced(close, more, elses, true);
    case Also(mark, body, next) =>
      RunStep(mark, Flatten(body) + FlattenChain(next), more);
      assert (Flatten(body) + FlattenChain(next)) + more == Flatten(body) + (FlattenChain(next) + more);
      assert Balanced(FlattenChain(c) + more, st) == Balanced(Flatten(body) + (FlattenChain(next) + more), st);
      hide Balanced;
      TreeBalanced(body, FlattenChain(next) + more, st);
      ChainBalanced(next, more, elses);
  }

  lemma EndBalanced(close: Line, more: seq<Line>, elses: seq<bool>, e: bool)
    requires close.Endif?
    ensures Balanced([close] + more, elses + [e]) == Balanced(more, elses)
  {
    assert (elses + [e])[..|elses|] == elses;
    assert ([close] + more)[1..] == more;
  }

  lemma {:induction false} PreAppend(a: Doc, b: Doc, m: set<string>)
    ensures var x := Pre(a, m); var y := Pre(b, x.macros);
            Pre(Append(a, b), m) == Compiled(x.lines + y.lines, y.macros)
    decreases a
  {
    match a
    case Nil =>
      assert [] + Pre(b, m).lines == Pre(b, m).lines;
    case Cons(line, rest) =>
      PreAppend(rest, b, Effect(line, m));
      SeqAssoc([line], Pre(rest, Effect(line, m)).lines, Pre(b, Pre(rest, Effect(line, m)).macros).lines);
    case Block(open, body, tail, rest) =>
      var c := if open.Opens() && Holds(open, m) then Pre(body, m) else PreChain(tail, m);
      PreAppend(rest, b, c.macros);
      var r := Pre(rest, c.macros);
      SeqAssoc(c.lines, r.lines, Pre(b, r.macros).lines);
  }

  // ---- the laws of section 22.6 ---------------------------------------------------------------------------------

  lemma LastBlock(open: Line, body: Doc, tail: Chain, m: set<string>)
    requires open.Opens()
    ensures Pre(Block(open, body, tail, Nil), m) == if Holds(open, m) then Pre(body, m) else PreChain(tail, m)
  {
    var b := if Holds(open, m) then Pre(body, m) else PreChain(tail, m);
    assert Pre(Nil, b.macros) == Compiled([], b.macros) && b.lines + [] == b.lines;
  }

  /** An `elsif` means an `else` with the rest of the chain as a conditional of its own inside. */
  lemma ElsifIsElse(open: Line, body: Doc, mark: Line, b: Doc, next: Chain, other: Line, close: Line, rest: Doc,
                    m: set<string>)
    requires open.Opens() && mark.Elsif? && other.Else? && close.Endif?
    ensures var inner := Block(Ifdef(mark.sym, mark.text), b, next, Nil);
            Pre(Block(open, body, Also(mark, b, next), rest), m)
            == Pre(Block(open, body, Otherwise(other, inner, close), rest), m)
  {
    var inner := Block(Ifdef(mark.sym, mark.text), b, next, Nil);
    LastBlock(Ifdef(mark.sym, mark.text), b, next, m);
    assert PreChain(Also(mark, b, next), m) == PreChain(Otherwise(other, inner, close), m);
  }

  /** `ifndef` means `ifdef` with its branches exchanged. */
  lemma IfndefIsIfdef(open: Line, other: Line, x: Doc, y: Doc, mark: Line, close: Line, rest: Doc, m: set<string>)
    requires open.Ifndef? && other.Ifdef? && other.sym == open.sym
    ensures Pre(Block(open, x, Otherwise(mark, y, close), rest), m)
            == Pre(Block(other, y, Otherwise(mark, x, close), rest), m)
  {
    assert Holds(open, m) == !Holds(other, m);
  }

  /** After a `define` of its macro the first branch of an `ifdef` is compiled, after an `undef` what follows it; a
      conditional of which no branch is taken compiles to nothing. */
  lemma DefinesDecide(s: string, d: Line, u: Line, open: Line, body: Doc, tail: Chain, m: set<string>)
    requires d.Define? && u.Undef? && open.Ifdef? && d.sym == s == u.sym == open.sym
    ensures Pre(Cons(d, Block(open, body, tail, Nil)), m).lines == [d] + Pre(body, m + {s}).lines
    ensures Pre(Cons(u, Block(open, body, tail, Nil)), m).lines == [u] + PreChain(tail, m - {s}).lines
    ensures tail.Close? ==> Pre(Cons(u, Block(open, body, tail, Nil)), m) == Compiled([u], m - {s})
  {
    LastBlock(open, body, tail, m + {s});
    LastBlock(open, body, tail, m - {s});
    assert [u] + [] == [u];
    var block := Block(open, body, tail, Nil);
    assert Pre(Cons(d, block), m).lines == [d] + Pre(block, m + {s}).lines;
    assert Pre(Cons(u, block), m) == Compiled([u] + Pre(block, m - {s}).lines, Pre(block, m - {s}).macros);
  }
}
