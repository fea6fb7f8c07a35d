/**
 `strip_inc_assert` of `scripts/vendor_opentitan_ip.py`: the line walk that removes INC_ASSERT regions
 from a SystemVerilog file, the recursive definition on conditional trees, and the proof that they agree.
 */
module IncAssert {

  import opened Basics

  const INC := "INC_ASSERT"

  /** A source line, by what the directive pattern finds in it; `sym` is empty when a directive names no
      macro.  `define` and `undef` lines are ordinary text to the walk. */
  datatype Line =
    | Text(text: string)
    | Define(sym: string, text: string)
    | Undef(sym: string, text: string)
    | Ifdef(sym: string, text: string)
    | Ifndef(sym: string, text: string)
    | Elsif(sym: string, text: string)
    | Else(text: string)
    | Endif(text: string)
  {
    predicate Opens() { Ifdef? || Ifndef? }

    predicate IsPlain() { Text? || Define? || Undef? }

    predicate OpensInc() { Opens() && sym == INC }
  }

  // ---- the walk --------------------------------------------------------------------------------------------

  /** An open conditional: is it an INC_ASSERT region, is its current branch kept, where did it open. */
  datatype Frame = Frame(inc: bool, keeping: bool, start: nat)

  datatype Outcome =
    | Stripped(lines: seq<Line>, removed: seq<(nat, nat)>)
    | ElsifInRegion(line: nat)
    | Unbalanced(start: nat)
    | NoRegion

  predicate Keeping(stack: seq<Frame>) {
    forall i :: 0 <= i < |stack| ==> stack[i].keeping
  }

  function Finish(stack: seq<Frame>, out: seq<Line>, removed: seq<(nat, nat)>): Outcome {
    if stack != [] then Unbalanced(stack[|stack| - 1].start)
    else if removed == [] then NoRegion
    else Stripped(out, removed)
  }

  /** The walk from line number `ln` with the given stack and results so far. */
  function Walk(lines: seq<Line>, stack: seq<Frame>, out: seq<Line>, removed: seq<(nat, nat)>, ln: nat): Outcome
    decreases |lines|
  {
    if lines == [] then Finish(stack, out, removed) else
    var line, rest, top := lines[0], lines[1..], |stack| - 1;
    if line.Opens() then
      var stack' := stack + [Frame(line.sym == INC, if line.sym == INC then line.Ifndef? else true, ln)];
      Walk(rest, stack', if line.sym != INC && Keeping(stack') then out + [line] else out, removed, ln + 1)
    else if line.Else? && stack != [] && stack[top].inc then
      Walk(rest, stack[top := stack[top].(keeping := !stack[top].keeping)], out, removed, ln + 1)
    else if line.Elsif? && stack != [] && stack[top].inc then
      ElsifInRegion(ln)
    else if line.Endif? && stack != [] then
      if stack[top].inc then Walk(rest, stack[..top], out, removed + [(stack[top].start, ln)], ln + 1)
      else Walk(rest, stack[..top], if Keeping(stack[..top]) then out + [line] else out, removed, ln + 1)
    else
      Walk(rest, stack, if Keeping(stack) then out + [line] else out, removed, ln + 1)
  }

  method StripIncAssert(lines: seq<Line>) returns (r: Outcome)
    ensures r == Walk(lines, [], [], [], 1)
  {
    var out: seq<Line>, stack: seq<Frame>, removed: seq<(nat, nat)> := [], [], [];
    for i := 0 to |lines|
      invariant Walk(lines, [], [], [], 1) == Walk(lines[i..], stack, out, removed, i + 1)
    {
      var line, ln := lines[i], i + 1;
      assert lines[i..][0] == line && lines[i..][1..] == lines[i + 1..];
      if line.Opens() {
        var inc := line.sym == INC;
        stack := stack + [Frame(inc, if inc then line.Ifndef? else true, ln)];
        if inc {
          continue;
        }
      } else if line.Else? && stack != [] && stack[|stack| - 1].inc {
        var top := |stack| - 1;
        stack := stack[top := stack[top].(keeping := !stack[top].keeping)];
        continue;
      } else if line.Elsif? && stack != [] && stack[|stack| - 1].inc {
        return ElsifInRegion(ln);
      } else if line.Endif? && stack != [] {
        var frame := stack[|stack| - 1];
        stack := stack[..|stack| - 1];
        if frame.inc {
          removed := removed + [(frame.start, ln)];
          continue;
        }
      }
      if forall k :: 0 <= k < |stack| ==> stack[k].keeping {
        out := out + [line];
      }
    }
    assert lines[|lines|..] == [];
    if stack != [] {
      return Unbalanced(stack[|stack| - 1].start);
    }
    if removed == [] {
      return NoRegion;
    }
    return Stripped(out, removed);
  }

  // ---- conditional trees -------------------------------------------------------------------------------------

  /** A well-nested text: plain lines and conditional blocks. */
  datatype Doc =
    | Nil
    | Cons(line: Line, rest: Doc)
    | Block(open: Line, body: Doc, tail: Chain, rest: Doc)

  /** What follows a block's first branch. */
  datatype Chain =
    | Close(close: Line)
    | Otherwise(mark: Line, body: Doc, close: Line)
    | Also(mark: Line, body: Doc, next: Chain)

  predicate DocOk(d: Doc) {
    match d
    case Nil => true
    case Cons(line, rest) => line.IsPlain() && DocOk(rest)
    case Block(open, body, tail, rest) => open.Opens() && DocOk(body) && ChainOk(tail) && DocOk(rest)
  }

  predicate ChainOk(c: Chain) {
    match c
    case Close(close) => close.Endif?
    case Otherwise(mark, body, close) => mark.Else? && DocOk(body) && close.Endif?
    case Also(mark, body, next) => mark.Elsif? && DocOk(body) && ChainOk(next)
  }

  function Flatten(d: Doc): seq<Line> {
    match d
    case Nil => []
    case Cons(line, rest) => [line] + Flatten(rest)
    case Block(open, body, tail, rest) => [open] + (Flatten(body) + (FlattenChain(tail) + Flatten(rest)))
  }

  function FlattenChain(c: Chain): seq<Line> {
    match c
    case Close(close) => [close]
    case Otherwise(mark, body, close) => [mark] + (Flatten(body) + [close])
    case Also(mark, body, next) => [mark] + (Flatten(body) + FlattenChain(next))
  }

  function Append(a: Doc, b: Doc): Doc {
    match a
    case Nil => b
    case Cons(line, rest) => Cons(line, Append(rest, b))
    case Block(open, body, tail, rest) => Block(open, body, tail, Append(rest, b))
  }

  /** The recursive definition: an INC_ASSERT block is replaced by the branch taken when the macro is not
      defined; every other block is kept and its branches stripped. */
  function Strip(d: Doc): Doc {
    match d
    case Nil => Nil
    case Cons(line, rest) => Cons(line, Strip(rest))
    case Block(open, body, tail, rest) =>
      if open.OpensInc() then
        Append(if open.Ifndef? then Strip(body) else if tail.Otherwise? then Strip(tail.body) else Nil, Strip(rest))
      else Block(open, Strip(body), StripChain(tail), Strip(rest))
  }

  function StripChain(c: Chain): Chain {
    match c
    case Close(_) => c
    case Otherwise(mark, body, close) => Otherwise(mark, Strip(body), close)
    case Also(mark, body, next) => Also(mark, Strip(body), StripChain(next))
  }

  /** The INC_ASSERT regions as line ranges, in the order they close. */
  function Regions(d: Doc, ln: nat): seq<(nat, nat)> {
    match d
    case Nil => []
    case Cons(_, rest) => Regions(rest, ln + 1)
    case Block(open, body, tail, rest) =>
      var mid := ln + 1 + |Flatten(body)|;
      var end := mid + |FlattenChain(tail)|;
      Regions(body, ln + 1)
          + (ChainRegions(tail, mid) + ((if open.OpensInc() then [(ln, end - 1)] else []) + Regions(rest, end)))
  }

  function ChainRegions(c: Chain, ln: nat): seq<(nat, nat)> {
    match c
    case Close(_) => []
    case Otherwise(_, body, _) => Regions(body, ln + 1)
    case Also(_, body, next) => Regions(body, ln + 1) + ChainRegions(next, ln + 1 + |Flatten(body)|)
  }

  /** The line of the first `elsif` that belongs to an INC_ASSERT block, 0 when there is none. */
  function BadElsif(d: Doc, ln: nat): nat {
    match d
    case Nil => 0
    case Cons(_, rest) => BadElsif(rest, ln + 1)
    case Block(open, body, tail, rest) =>
      var mid := ln + 1 + |Flatten(body)|;
      var end := mid + |FlattenChain(tail)|;
      if BadElsif(body, ln + 1) != 0 then BadElsif(body, ln + 1)
      else if BadElsifIn(tail, mid, open.OpensInc()) != 0 then BadElsifIn(tail, mid, open.OpensInc())
      else BadElsif(rest, end)
  }

  function BadElsifIn(c: Chain, ln: nat, inc: bool): nat {
    match c
    case Close(_) => 0
    case Otherwise(_, body, _) => BadElsif(body, ln + 1)
    case Also(_, body, next) =>
      if inc then ln
      else if BadElsif(body, ln + 1) != 0 then BadElsif(body, ln + 1)
      else BadElsifIn(next, ln + 1 + |Flatten(body)|, inc)
  }

  // ---- the walk is the recursive definition --------------------------------------------------------------------

  lemma {:induction false} FlattenAppend(a: Doc, b: Doc)
    ensures Flatten(Append(a, b)) == Flatten(a) + Flatten(b)
  {
    match a
    case Nil =>
    case Cons(line, rest) =>
      FlattenAppend(rest, b);
    case Block(open, body, tail, rest) =>
      FlattenAppend(rest, b);
      var f, g, h, k, l := [open], Flatten(body), FlattenChain(tail), Flatten(rest), Flatten(b);
      assert Flatten(a) == f + (g + (h + k)) && Flatten(Append(a, b)) == f + (g + (h + Flatten(Append(rest, b))));
      hide Flatten, FlattenChain, Append;
      SeqAssoc(f, g + (h + k), l);
      SeqAssoc(g, h + k, l);
      SeqAssoc(h, k, l);
  }

  /** One step of the walk over a known first line. */
  lemma WalkStep(line: Line, rest: seq<Line>, more: seq<Line>)
    ensures ([line] + rest) + more != [] && (([line] + rest) + more)[0] == line
            && (([line] + rest) + more)[1..] == rest + more
  {
  }

  lemma KeepingSnoc(stack: seq<Frame>, f: Frame)
    ensures Keeping(stack + [f]) <==> Keeping(stack) && f.keeping
  {
    if Keeping(stack + [f]) {
      forall i | 0 <= i < |stack| ensures stack[i].keeping { assert (stack + [f])[i].keeping; }
      assert (stack + [f])[|stack|].keeping;
    }
  }

  function Kept(stack: seq<Frame>, lines: seq<Line>): seq<Line> {
    if Keeping(stack) then lines else []
  }

  /** Where the walk is after a well-nested text, whatever follows. */
  function After(bad: nat, more: seq<Line>, stack: seq<Frame>, out: seq<Line>, removed: seq<(nat, nat)>,
                 ln: nat): Outcome {
    if bad != 0 then ElsifInRegion(bad) else Walk(more, stack, out, removed, ln)
  }

  /** The stack walk equals the recursive definition on the conditional tree. */
  lemma {:induction false} WalkDoc(d: Doc, more: seq<Line>, stack: seq<Frame>, out: seq<Line>,
                                   removed: seq<(nat, nat)>, ln: nat)
    requires DocOk(d) && ln >= 1
    ensures Walk(Flatten(d) + more, stack, out, removed, ln) ==
            After(BadElsif(d, ln), more, stack, out + Kept(stack, Flatten(Strip(d))), removed + Regions(d, ln),
                  ln + |Flatten(d)|)
    decreases d
  {
    match d
    case Nil =>
      assert [] + more == more && out + [] == out && removed + [] == removed;
    case Cons(line, rest) =>
      WalkCons(line, rest, more, stack, out, removed, ln);
      WalkDoc(rest, more, stack, out + Kept(stack, [line]), removed, ln + 1);
      assert (out + Kept(stack, [line])) + Kept(stack, Flatten(Strip(rest))) == out + Kept(stack, Flatten(Strip(d)));
    case Block(open, body, tail, rest) =>
      if open.OpensInc() {
        WalkIncBlock(d, more, stack, out, removed, ln);
      } else {
        WalkOtherBlock(d, more, stack, out, removed, ln);
      }
  }

  lemma WalkCons(line: Line, rest: Doc, more: seq<Line>, stack: seq<Frame>, out: seq<Line>, removed: seq<(nat, nat)>,
                 ln: nat)
    requires line.IsPlain()
    ensures Walk(Flatten(Cons(line, rest)) + more, stack, out, removed, ln) ==
            Walk(Flatten(rest) + more, stack, out + Kept(stack, [line]), removed, ln + 1)
  {
    WalkStep(line, Flatten(rest), more);
    assert out + [] == out;
  }

  /** The first line of a block, and the rest of the text regrouped. */
  lemma WalkOpen(d: Doc, more: seq<Line>, stack: seq<Frame>, out: seq<Line>, removed: seq<(nat, nat)>, ln: nat)
    requires d.Block? && d.open.Opens()
    ensures var inc := d.open.OpensInc();
            var f := Frame(inc, if inc then d.open.Ifndef? else true, ln);
            Walk(Flatten(d) + more, stack, out, removed, ln) ==
            Walk(Flatten(d.body) + (FlattenChain(d.tail) + (Flatten(d.rest) + more)), stack + [f],
                 if inc then out else out + Kept(stack, [d.open]), removed, ln + 1)
  {
    var f := Frame(d.open.OpensInc(), if d.open.OpensInc() then d.open.Ifndef? else true, ln);
    KeepingSnoc(stack, f);
    WalkStep(d.open, Flatten(d.body) + (FlattenChain(d.tail) + Flatten(d.rest)), more);
    assert (Flatten(d.body) + (FlattenChain(d.tail) + Flatten(d.rest))) + more
        == Flatten(d.body) + (FlattenChain(d.tail) + (Flatten(d.rest) + more));
    assert out + [] == out;
  }

  lemma {:induction false} WalkIncBlock(d: Doc, more: seq<Line>, stack: seq<Frame>, out: seq<Line>,
                                        removed: seq<(nat, nat)>, ln: nat)
    requires DocOk(d) && ln >= 1 && d.Block? && d.open.OpensInc()
    ensures Walk(Flatten(d) + more, stack, out, removed, ln) ==
            After(BadElsif(d, ln), more, stack, out + Kept(stack, Flatten(Strip(d))), removed + Regions(d, ln),
                  ln + |Flatten(d)|)
    decreases d, 0
  {
    hide Walk, Kept, Strip, Regions, ChainRegions, Keeping;
    var body, tail, rest := d.body, d.tail, d.rest;
    var f := Frame(true, d.open.Ifndef?, ln);
    var mid, end := ln + 1 + |Flatten(body)|, ln + 1 + |Flatten(body)| + |FlattenChain(tail)|;
    WalkOpen(d, more, stack, out, removed, ln);
    WalkDoc(body, FlattenChain(tail) + (Flatten(rest) + more), stack + [f], out, removed, ln + 1);
    if BadElsif(body, ln + 1) == 0 {
      var out1 := out + Kept(stack + [f], Flatten(Strip(body)));
      var removed1 := removed + Regions(body, ln + 1);
      WalkIncChain(tail, Flatten(rest) + more, stack, f, out1, removed1, mid);
      if BadElsifIn(tail, mid, true) == 0 {
        var out2 := out1 + IncTail(tail, stack, f);
        var removed2 := removed1 + ChainRegions(tail, mid) + [(ln, end - 1)];
        WalkDoc(rest, more, stack, out2, removed2, end);
        RegionsJoin(removed, d, ln);
        IncKept(d, stack, out, ln);
      }
    }
  }

  /** What an INC_ASSERT block contributes after its first branch. */
  function IncTail(c: Chain, stack: seq<Frame>, f: Frame): seq<Line> {
    if c.Otherwise? then Kept(stack + [f.(keeping := !f.keeping)], Flatten(Strip(c.body))) else []
  }

  lemma IncKept(d: Doc, stack: seq<Frame>, out: seq<Line>, ln: nat)
    requires d.Block? && d.open.OpensInc() && !d.tail.Also?
    ensures var f := Frame(true, d.open.Ifndef?, ln);
            out + Kept(stack + [f], Flatten(Strip(d.body))) + IncTail(d.tail, stack, f)
                + Kept(stack, Flatten(Strip(d.rest)))
            == out + Kept(stack, Flatten(Strip(d)))
  {
    var f := Frame(true, d.open.Ifndef?, ln);
    var a, e := Flatten(IncPick(d)), Flatten(Strip(d.rest));
    FlattenAppend(IncPick(d), Strip(d.rest));
    assert Flatten(Strip(d)) == a + e;
    hide Flatten, Strip, Kept, IncTail, IncPick;
    IncParts(d, stack, f);
    var x, y := Kept(stack + [f], Flatten(Strip(d.body))), IncTail(d.tail, stack, f);
    SeqAssoc(out, x, y);
    KeptCat(stack, out, a, e);
  }

  /** The branch of an INC_ASSERT block that is kept, stripped. */
  function IncPick(d: Doc): Doc
    requires d.Block?
  {
    if d.open.Ifndef? then Strip(d.body) else if d.tail.Otherwise? then Strip(d.tail.body) else Nil
  }

  lemma IncParts(d: Doc, stack: seq<Frame>, f: Frame)
    requires d.Block? && d.open.OpensInc() && !d.tail.Also? && f.keeping == d.open.Ifndef?
    ensures Kept(stack + [f], Flatten(Strip(d.body))) + IncTail(d.tail, stack, f) == Kept(stack, Flatten(IncPick(d)))
  {
    KeepingSnoc(stack, f);
    KeepingSnoc(stack, f.(keeping := !f.keeping));
    hide Keeping, Strip;
    assert forall s: seq<Line> :: s + [] == s && [] + s == s;
  }

  lemma OtherKept(d: Doc, stack: seq<Frame>, out: seq<Line>)
    requires d.Block? && !d.open.OpensInc()
    ensures out + Kept(stack, [d.open]) + Kept(stack, Flatten(Strip(d.body)))
            + Kept(stack, FlattenChain(StripChain(d.tail)))
            + Kept(stack, Flatten(Strip(d.rest))) == out + Kept(stack, Flatten(Strip(d)))
  {
    var a, b, c, e := [d.open], Flatten(Strip(d.body)), FlattenChain(StripChain(d.tail)), Flatten(Strip(d.rest));
    assert Flatten(Strip(d)) == a + (b + (c + e));
    hide *;
    KeptCat(stack, out + Kept(stack, a) + Kept(stack, b), c, e);
    KeptCat3(stack, out, a, b, c + e);
  }

  lemma KeptCat(stack: seq<Frame>, out: seq<Line>, a: seq<Line>, b: seq<Line>)
    ensures out + Kept(stack, a) + Kept(stack, b) == out + Kept(stack, a + b)
  {
    if Keeping(stack) {
      assert out + a + b == out + (a + b);
    } else {
      assert out + [] == out;
    }
  }

  lemma KeptCat3(stack: seq<Frame>, out: seq<Line>, a: seq<Line>, b: seq<Line>, c: seq<Line>)
    ensures out + Kept(stack, a) + Kept(stack, b) + Kept(stack, c) == out + Kept(stack, a + (b + c))
  {
    hide Kept;
    KeptCat(stack, out + Kept(stack, a), b, c);
    KeptCat(stack, out, a, b + c);
  }

  lemma KeptSame(stack: seq<Frame>, f: Frame, lines: seq<Line>)
    requires f.keeping
    ensures Kept(stack + [f], lines) == Kept(stack, lines)
  {
    KeepingSnoc(stack, f);
  }

  lemma RegionsJoin(removed: seq<(nat, nat)>, d: Doc, ln: nat)
    requires d.Block?
    ensures var mid := ln + 1 + |Flatten(d.body)|;
            var end := mid + |FlattenChain(d.tail)|;
            && (d.open.OpensInc() ==>
                  removed + Regions(d.body, ln + 1) + ChainRegions(d.tail, mid) + [(ln, end - 1)] + Regions(d.rest, end)
                  == removed + Regions(d, ln))
            && (!d.open.OpensInc() ==>
                  removed + Regions(d.body, ln + 1) + ChainRegions(d.tail, mid) + Regions(d.rest, end) ==
                      removed + Regions(d, ln))
  {
    var mid := ln + 1 + |Flatten(d.body)|;
    var end := mid + |FlattenChain(d.tail)|;
    var c: seq<(nat, nat)> := [(ln, end - 1)];
    var a, b, e := Regions(d.body, ln + 1), ChainRegions(d.tail, mid), Regions(d.rest, end);
    assert Regions(d, ln) == a + (b + ((if d.open.OpensInc() then c else []) + e));
    hide Regions, ChainRegions, Flatten, FlattenChain;
    SeqAssoc(removed, a, b + (c + e));
    SeqAssoc(removed + a, b, c + e);
    SeqAssoc(removed + a + b, c, e);
    SeqAssoc(removed, a, b + e);
    SeqAssoc(removed + a, b, e);
    assert [] + e == e;
  }

  lemma {:induction false} WalkIncChain(c: Chain, more: seq<Line>, stack: seq<Frame>, f: Frame, out: seq<Line>,
                                        removed: seq<(nat, nat)>, ln: nat)
    requires ChainOk(c) && ln >= 1 && f.inc
    ensures Walk(FlattenChain(c) + more, stack + [f], out, removed, ln) ==
            After(BadElsifIn(c, ln, true), more, stack, out + IncTail(c, stack, f),
                  removed + ChainRegions(c, ln) + [(f.start, ln + |FlattenChain(c)| - 1)], ln + |FlattenChain(c)|)
    decreases c
  {
    var st := stack + [f];
    assert st[|st| - 1] == f && st[..|st| - 1] == stack;
    match c
    case Close(close) =>
      assert ([close] + more)[1..] == more;
      assert removed + [] == removed && out + [] == out;
    case Otherwise(mark, body, close) =>
      var g := f.(keeping := !f.keeping);
      WalkStep(mark, Flatten(body) + [close], more);
      assert st[|st| - 1 := g] == stack + [g];
      assert (Flatten(body) + [close]) + more == Flatten(body) + ([close] + more);
      WalkDoc(body, [close] + more, stack + [g], out, removed, ln + 1);
      assert ([close] + more)[1..] == more;
      assert (stack + [g])[|stack|] == g && (stack + [g])[..|stack|] == stack;
    case Also(mark, body, next) =>
      WalkStep(mark, Flatten(body) + FlattenChain(next), more);
  }

  lemma {:induction false} WalkOtherBlock(d: Doc, more: seq<Line>, stack: seq<Frame>, out: seq<Line>,
                                          removed: seq<(nat, nat)>, ln: nat)
    requires DocOk(d) && ln >= 1 && d.Block? && !d.open.OpensInc()
    ensures Walk(Flatten(d) + more, stack, out, removed, ln) ==
            After(BadElsif(d, ln), more, stack, out + Kept(stack, Flatten(Strip(d))), removed + Regions(d, ln),
                  ln + |Flatten(d)|)
    decreases d, 0
  {
    hide Walk, Kept, Strip, Regions, ChainRegions, Keeping;
    var body, tail, rest := d.body, d.tail, d.rest;
    var f := Frame(false, true, ln);
    var mid, end := ln + 1 + |Flatten(body)|, ln + 1 + |Flatten(body)| + |FlattenChain(tail)|;
    KeepingSnoc(stack, f);
    WalkOpen(d, more, stack, out, removed, ln);
    var out0 := out + Kept(stack, [d.open]);
    WalkDoc(body, FlattenChain(tail) + (Flatten(rest) + more), stack + [f], out0, removed, ln + 1);
    KeptSame(stack, f, Flatten(Strip(body)));
    if BadElsif(body, ln + 1) == 0 {
      var out1 := out0 + Kept(stack, Flatten(Strip(body)));
      var removed1 := removed + Regions(body, ln + 1);
      WalkOtherChain(tail, Flatten(rest) + more, stack, f, out1, removed1, mid);
      if BadElsifIn(tail, mid, false) == 0 {
        var out2 := out1 + Kept(stack, FlattenChain(StripChain(tail)));
        var removed2 := removed1 + ChainRegions(tail, mid);
        WalkDoc(rest, more, stack, out2, removed2, end);
        RegionsJoin(removed, d, ln);
        OtherKept(d, stack, out);
      }
    }
  }

  lemma {:induction false} WalkOtherChain(c: Chain, more: seq<Line>, stack: seq<Frame>, f: Frame, out: seq<Line>,
                                          removed: seq<(nat, nat)>, ln: nat)
    requires ChainOk(c) && ln >= 1 && !f.inc && f.keeping
    ensures Walk(FlattenChain(c) + more, stack + [f], out, removed, ln) ==
            After(BadElsifIn(c, ln, false), more, stack, out + Kept(stack, FlattenChain(StripChain(c))),
                  removed + ChainRegions(c, ln), ln + |FlattenChain(c)|)
    decreases c
  {
    hide Walk, Kept, Keeping, Strip, StripChain, Flatten, FlattenChain, Regions, ChainRegions, BadElsif, BadElsifIn,
        DocOk;
    match c
    case Close(close) =>
      WalkOtherClose(close, more, stack, f, out, removed, ln);
    case Otherwise(mark, body, close) =>
      WalkOtherElse(c, more, stack, f, out, removed, ln);
    case Also(_, _, _) =>
      WalkOtherAlso(c, more, stack, f, out, removed, ln);
  }

  lemma WalkOtherClose(close: Line, more: seq<Line>, stack: seq<Frame>, f: Frame, out: seq<Line>,
                       removed: seq<(nat, nat)>, ln: nat)
    requires close.Endif? && ln >= 1 && !f.inc && f.keeping
    ensures var c := Close(close);
            Walk(FlattenChain(c) + more, stack + [f], out, removed, ln) ==
            After(BadElsifIn(c, ln, false), more, stack, out + Kept(stack, FlattenChain(StripChain(c))),
                  removed + ChainRegions(c, ln), ln + |FlattenChain(c)|)
  {
    hide Walk, Kept, Keeping, Strip, Flatten, Regions, BadElsif, DocOk;
    WalkOtherEnd(close, more, stack, f, out, removed, ln);
    assert removed + [] == removed;
  }

  lemma {:induction false} WalkOtherAlso(c: Chain, more: seq<Line>, stack: seq<Frame>, f: Frame, out: seq<Line>,
                                         removed: seq<(nat, nat)>, ln: nat)
    requires ChainOk(c) && c.Also? && ln >= 1 && !f.inc && f.keeping
    ensures Walk(FlattenChain(c) + more, stack + [f], out, removed, ln) ==
            After(BadElsifIn(c, ln, false), more, stack, out + Kept(stack, FlattenChain(StripChain(c))),
                  removed + ChainRegions(c, ln), ln + |FlattenChain(c)|)
    decreases c, 0
  {
    var mark, body, next := c.mark, c.body, c.next;
    WalkOtherMark(mark, body, FlattenChain(next), more, stack, f, out, removed, ln);
    var out1, more1 := out + Kept(stack, [mark]), FlattenChain(next) + more;
    var b, e := Flatten(Strip(body)), FlattenChain(StripChain(next));
    assert FlattenChain(StripChain(c)) == [mark] + (b + e);
    var at := ln + 1 + |Flatten(body)|;
    var removed1, more2 := removed + Regions(body, ln + 1), ChainRegions(next, at);
    assert ChainRegions(c, ln) == Regions(body, ln + 1) + more2;
    assert |FlattenChain(c)| == 1 + |Flatten(body)| + |FlattenChain(next)|;
    hide Walk, Kept, Keeping, Strip, StripChain, Flatten, FlattenChain, Regions, ChainRegions, BadElsif, DocOk;
    SeqAssoc(removed, Regions(body, ln + 1), more2);
    WalkDoc(body, more1, stack + [f], out1, removed, ln + 1);
    KeptSame(stack, f, b);
    if BadElsif(body, ln + 1) == 0 {
      WalkOtherChain(next, more, stack, f, out1 + Kept(stack, b), removed1, at);
      assert removed1 + more2 == removed + ChainRegions(c, ln);
      KeptCat3(stack, out, [mark], b, e);
    }
  }

  lemma {:induction false} WalkOtherElse(c: Chain, more: seq<Line>, stack: seq<Frame>, f: Frame, out: seq<Line>,
                                         removed: seq<(nat, nat)>, ln: nat)
    requires ChainOk(c) && c.Otherwise? && ln >= 1 && !f.inc && f.keeping
    ensures Walk(FlattenChain(c) + more, stack + [f], out, removed, ln) ==
            After(BadElsifIn(c, ln, false), more, stack, out + Kept(stack, FlattenChain(StripChain(c))),
                  removed + ChainRegions(c, ln), ln + |FlattenChain(c)|)
    decreases c, 0
  {
    var mark, body, close := c.mark, c.body, c.close;
    WalkOtherMark(mark, body, [close], more, stack, f, out, removed, ln);
    var out1, more1 := out + Kept(stack, [mark]), [close] + more;
    hide Walk, Kept, Keeping;
    WalkDoc(body, more1, stack + [f], out1, removed, ln + 1);
    KeptSame(stack, f, Flatten(Strip(body)));
    var b := Flatten(Strip(body));
    WalkOtherEnd(close, more, stack, f, out1 + Kept(stack, b), removed + Regions(body, ln + 1),
        ln + 1 + |Flatten(body)|);
    assert FlattenChain(StripChain(c)) == [mark] + (b + [close]);
    KeptCat3(stack, out, [mark], b, [close]);
  }

  lemma WalkOtherEnd(close: Line, more: seq<Line>, stack: seq<Frame>, f: Frame, out: seq<Line>,
                     removed: seq<(nat, nat)>, ln: nat)
    requires close.Endif? && !f.inc
    ensures Walk([close] + more, stack + [f], out, removed, ln) ==
            Walk(more, stack, out + Kept(stack, [close]), removed, ln + 1)
  {
    var st := stack + [f];
    assert st[|st| - 1] == f && st[..|st| - 1] == stack;
    assert ([close] + more)[1..] == more;
    assert out + [] == out;
  }

  lemma WalkOtherMark(mark: Line, body: Doc, tail: seq<Line>, more: seq<Line>, stack: seq<Frame>, f: Frame,
                      out: seq<Line>, removed: seq<(nat, nat)>, ln: nat)
    requires (mark.Else? || mark.Elsif?) && !f.inc && f.keeping
    ensures Walk([mark] + (Flatten(body) + tail) + more, stack + [f], out, removed, ln) ==
            Walk(Flatten(body) + (tail + more), stack + [f], out + Kept(stack, [mark]), removed, ln + 1)
  {
    var st := stack + [f];
    assert st[|st| - 1] == f;
    KeptSame(stack, f, [mark]);
    WalkStep(mark, Flatten(body) + tail, more);
    assert (Flatten(body) + tail) + more == Flatten(body) + (tail + more);
    assert out + [] == out;
  }

  /** The outcome on every well-nested text: an error exactly when an INC_ASSERT block has an `elsif` or
      there is no such block, and otherwise the text of the stripped tree and the ranges of its regions. */
  lemma WalkOutcome(d: Doc)
    requires DocOk(d)
    ensures Walk(Flatten(d), [], [], [], 1) ==
            if BadElsif(d, 1) != 0 then ElsifInRegion(BadElsif(d, 1))
            else if Regions(d, 1) == [] then NoRegion
            else Stripped(Flatten(Strip(d)), Regions(d, 1))
  {
    WalkDoc(d, [], [], [], [], 1);
    assert Flatten(d) + [] == Flatten(d);
    assert [] + Kept([], Flatten(Strip(d))) == Flatten(Strip(d)) && [] + Regions(d, 1) == Regions(d, 1);
  }
}
