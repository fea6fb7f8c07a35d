/**
 Stripping and meaning: when the output of `strip_inc_assert` (`scripts/vendor_opentitan_ip.py`) compiles to the same
 lines as its input, by the rules of section 22.6 of IEEE Std 1800-2017, and what it means when INC_ASSERT is defined.
 */
module StripMeaning {

  import opened Basics
  import opened IncAssert
  import opened Preprocess

  // ---- where stripping can go wrong ------------------------------------------------------------------------------

  /** Compiling these lines, a live INC_ASSERT region is met while the macro is defined. */
  predicate Meets(lines: seq<Line>, stack: seq<Cond>, m: set<string>)
    decreases |lines|
  {
    if lines == [] then false else
    var line, rest, top := lines[0], lines[1..], |stack| - 1;
    if line.Opens() then
      var take := Live(stack) && Holds(line, m);
      (Live(stack) && line.sym == INC && INC in m) || Meets(rest, stack + [Cond(take, take || !Live(stack))], m)
    else if line.Endif? && stack != [] then Meets(rest, stack[..top], m)
    else if line.Else? && stack != [] then Meets(rest, stack[top := Cond(!stack[top].done, true)], m)
    else if line.Elsif? && stack != [] then
      var take := !stack[top].done && line.sym in m;
      Meets(rest, stack[top := Cond(take, take || stack[top].done)], m)
    else if Live(stack) && line.IsPlain() then Meets(rest, stack, Effect(line, m))
    else Meets(rest, stack, m)
  }

  /** The same on trees. */
  predicate MeetsDoc(d: Doc, m: set<string>) {
    match d
    case Nil => false
    case Cons(line, rest) => MeetsDoc(rest, Effect(line, m))
    case Block(open, body, tail, rest) =>
      || (open.OpensInc() && INC in m)
      || (if Takes(open, m) then MeetsDoc(body, m) else MeetsChain(tail, m))
      || MeetsDoc(rest, Branch(d, m).macros)
  }

  predicate MeetsChain(c: Chain, m: set<string>) {
    match c
    case Close(_) => false
    case Otherwise(_, body, _) => MeetsDoc(body, m)
    case Also(mark, body, next) => if mark.Elsif? && mark.sym in m then MeetsDoc(body, m) else MeetsChain(next, m)
  }

  predicate Takes(open: Line, m: set<string>) { open.Opens() && Holds(open, m) }

  /** What the taken branch of a block compiles to. */
  function Branch(d: Doc, m: set<string>): Compiled
    requires d.Block?
  {
    if Takes(d.open, m) then Pre(d.body, m) else PreChain(d.tail, m)
  }

  /** No INC_ASSERT block has an `elsif`. */
  predicate Regular(d: Doc) {
    match d
    case Nil => true
    case Cons(_, rest) => Regular(rest)
    case Block(open, body, tail, rest) =>
      Regular(body) && RegularChain(tail) && (open.OpensInc() ==> !tail.Also?) && Regular(rest)
  }

  predicate RegularChain(c: Chain) {
    match c
    case Close(_) => true
    case Otherwise(_, body, _) => Regular(body)
    case Also(_, body, next) => Regular(body) && RegularChain(next)
  }

  lemma {:induction false} RegularExactly(d: Doc, ln: nat)
    requires ln >= 1
    ensures BadElsif(d, ln) == 0 <==> Regular(d)
    decreases d
  {
    match d
    case Nil =>
    case Cons(_, rest) =>
      RegularExactly(rest, ln + 1);
    case Block(open, body, tail, rest) =>
      RegularExactly(body, ln + 1);
      RegularChainExactly(tail, ln + 1 + |Flatten(body)|, open.OpensInc());
      RegularExactly(rest, ln + 1 + |Flatten(body)| + |FlattenChain(tail)|);
  }

  lemma {:induction false} RegularChainExactly(c: Chain, ln: nat, inc: bool)
    requires ln >= 1
    ensures BadElsifIn(c, ln, inc) == 0 <==> RegularChain(c) && (inc ==> !c.Also?)
    decreases c
  {
    match c
    case Close(_) =>
    case Otherwise(_, body, _) =>
      RegularExactly(body, ln + 1);
    case Also(_, body, next) =>
      if !inc {
        RegularExactly(body, ln + 1);
        RegularChainExactly(next, ln + 1 + |Flatten(body)|, inc);
      }
  }

  // ---- the line predicate is the tree predicate -------------------------------------------------------------------

  lemma {:induction false} MeetsRun(d: Doc, more: seq<Line>, stack: seq<Cond>, m: set<string>)
    requires DocOk(d)
    ensures Meets(Flatten(d) + more, stack, m) <==>
            (Live(stack) && MeetsDoc(d, m)) || Meets(more, stack, if Live(stack) then Pre(d, m).macros else m)
    decreases d
  {
    match d
    case Nil =>
      assert [] + more == more;
    case Cons(line, rest) =>
      RunStep(line, Flatten(rest), more);
      MeetsRun(rest, more, stack, if Live(stack) then Effect(line, m) else m);
    case Block(open, body, tail, rest) =>
      MeetsBlock(d, more, stack, m);
  }

  lemma MeetsOpen(d: Doc, more: seq<Line>, stack: seq<Cond>, m: set<string>)
    requires d.Block? && d.open.Opens()
    ensures var take := Live(stack) && Takes(d.open, m);
            Meets(Flatten(d) + more, stack, m) <==>
            (Live(stack) && d.open.OpensInc() && INC in m)
            || Meets(Flatten(d.body) + (FlattenChain(d.tail) + (Flatten(d.rest) + more)),
                 stack + [Cond(take, take || !Live(stack))], m)
  {
    RunStep(d.open, Flatten(d.body) + (FlattenChain(d.tail) + Flatten(d.rest)), more);
    assert (Flatten(d.body) + (FlattenChain(d.tail) + Flatten(d.rest))) + more
        == Flatten(d.body) + (FlattenChain(d.tail) + (Flatten(d.rest) + more));
  }

  lemma {:induction false} MeetsBlock(d: Doc, more: seq<Line>, stack: seq<Cond>, m: set<string>)
    requires DocOk(d) && d.Block?
    ensures Meets(Flatten(d) + more, stack, m) <==>
            (Live(stack) && MeetsDoc(d, m)) || Meets(more, stack, if Live(stack) then Pre(d, m).macros else m)
    decreases d, 0
  {
    hide Meets;
    var body, tail, rest := d.body, d.tail, d.rest;
    var live, take := Live(stack), Live(stack) && Takes(d.open, m);
    var f := Cond(take, take || !live);
    var more1 := Flatten(rest) + more;
    MeetsOpen(d, more, stack, m);
    assert Pre(d, m).macros == Pre(rest, Branch(d, m).macros).macros;
    hide Flatten, FlattenChain, Pre, PreChain;
    MeetsRun(body, FlattenChain(tail) + more1, stack + [f], m);
    MeetsRest(tail, more1, stack, f, if take then Pre(body, m).macros else m);
    MeetsRun(rest, more, stack, if live then Branch(d, m).macros else m);
  }

  lemma MeetsMark(mark: Line, body: seq<Line>, tail: seq<Line>, more: seq<Line>, stack: seq<Cond>, f: Cond,
                  m: set<string>)
    requires mark.Else? || mark.Elsif?
    ensures var take := !f.done && (mark.Else? || mark.sym in m);
            Meets([mark] + (body + tail) + more, stack + [f], m)
            == Meets(body + (tail + more), stack + [Cond(take, take || f.done || mark.Else?)], m)
  {
    RunStep(mark, body + tail, more);
    assert (body + tail) + more == body + (tail + more);
    var take := !f.done && (mark.Else? || mark.sym in m);
    assert (stack + [f])[|stack| := Cond(take, take || f.done || mark.Else?)] ==
        stack + [Cond(take, take || f.done || mark.Else?)];
  }

  lemma MeetsEnd(close: Line, more: seq<Line>, stack: seq<Cond>, f: Cond, m: set<string>)
    requires close.Endif?
    ensures Meets([close] + more, stack + [f], m) == Meets(more, stack, m)
  {
    assert (stack + [f])[..|stack|] == stack;
    assert ([close] + more)[1..] == more;
  }

  lemma {:induction false} MeetsRest(c: Chain, more: seq<Line>, stack: seq<Cond>, f: Cond, m: set<string>)
    requires ChainOk(c)
    ensures Meets(FlattenChain(c) + more, stack + [f], m) <==>
            (!f.done && MeetsChain(c, m)) || Meets(more, stack, if f.done then m else PreChain(c, m).macros)
    decreases c
  {
    match c
    case Close(close) =>
      MeetsEnd(close, more, stack, f, m);
    case Otherwise(mark, body, close) =>
      MeetsMark(mark, Flatten(body), [close], more, stack, f, m);
      hide Meets;
      var g := Cond(!f.done, true);
      MeetsRun(body, [close] + more, stack + [g], m);
      MeetsEnd(close, more, stack, g, if f.done then m else Pre(body, m).macros);
    case Also(mark, body, next) =>
      MeetsMark(mark, Flatten(body), FlattenChain(next), more, stack, f, m);
      hide Meets;
      var take := !f.done && mark.sym in m;
      var g := Cond(take, take || f.done);
      MeetsRun(body, FlattenChain(next) + more, stack + [g], m);
      MeetsRest(next, more, stack, g, if take then Pre(body, m).macros else m);
  }

  lemma MeetsExactly(d: Doc, m: set<string>)
    requires DocOk(d)
    ensures Meets(Flatten(d), [], m) <==> MeetsDoc(d, m)
  {
    MeetsRun(d, [], [], m);
    assert Flatten(d) + [] == Flatten(d);
  }

  // ---- otherwise stripping preserves meaning --------------------------------------------------------------------

  /** Where no live region is met with INC_ASSERT defined, the stripped tree compiles to the same lines and macros. */
  lemma {:induction false} StripKeepsMeaning(d: Doc, m: set<string>)
    requires DocOk(d) && Regular(d) && !MeetsDoc(d, m)
    ensures Pre(Strip(d), m) == Pre(d, m)
    decreases d
  {
    match d
    case Nil =>
    case Cons(line, rest) =>
      StripKeepsMeaning(rest, Effect(line, m));
    case Block(open, body, tail, rest) =>
      if Takes(open, m) {
        StripKeepsMeaning(body, m);
      } else {
        StripKeepsChain(tail, m);
      }
      StripKeepsMeaning(rest, Branch(d, m).macros);
      if open.OpensInc() {
        PreAppend(IncPick(d), Strip(rest), m);
      }
  }

  lemma {:induction false} StripKeepsChain(c: Chain, m: set<string>)
    requires ChainOk(c) && RegularChain(c) && !MeetsChain(c, m)
    ensures PreChain(StripChain(c), m) == PreChain(c, m)
    decreases c
  {
    match c
    case Close(_) =>
    case Otherwise(_, body, _) =>
      StripKeepsMeaning(body, m);
    case Also(mark, body, next) =>
      if mark.sym in m {
        StripKeepsMeaning(body, m);
      } else {
        StripKeepsChain(next, m);
      }
  }

  lemma Tree(lines: seq<Line>) returns (d: Doc)
    requires Balanced(lines, [])
    ensures DocOk(d) && Flatten(d) == lines
  {
    var c, rest;
    d, c, rest := Parse(lines, []);
  }

  /** An accepted balanced text is the text of a regular tree with a region. */
  lemma Accepted(lines: seq<Line>) returns (d: Doc)
    requires Balanced(lines, []) && Walk(lines, [], [], [], 1).Stripped?
    ensures DocOk(d) && Regular(d) && !Clean(d) && Flatten(d) == lines
    ensures Walk(lines, [], [], [], 1).lines == Flatten(Strip(d)) && DocOk(Strip(d))
  {
    d := Tree(lines);
    WalkOutcome(d);
    StripOk(d);
    RegularExactly(d, 1);
    if Clean(d) {
      CleanHasNoRegion(d, 1);
    }
  }

  /** Every balanced text the script accepts stays balanced, and means the same after stripping to every preprocessor
      that meets no live INC_ASSERT region with the macro defined. */
  lemma StrippedMeansTheSame(lines: seq<Line>, m: set<string>)
    requires Balanced(lines, [])
    ensures var r := Walk(lines, [], [], [], 1);
            r.Stripped? ==>
                Balanced(r.lines, []) && (!Meets(lines, [], m) ==> Preprocessed(r.lines, m) == Preprocessed(lines, m))
  {
    if Walk(lines, [], [], [], 1).Stripped? {
      var d := Accepted(lines);
      PreprocessedDoc(d, m);
      PreprocessedDoc(Strip(d), m);
      BalancedIsTree(Flatten(Strip(d)));
      MeetsExactly(d, m);
      if !MeetsDoc(d, m) {
        StripKeepsMeaning(d, m);
      }
    }
  }

  // ---- a met region always matters ------------------------------------------------------------------------------

  function Ins(s: seq<Line>, i: nat, x: Line): seq<Line>
    requires i <= |s|
  {
    s[..i] + [x] + s[i..]
  }

  lemma InsIn(pre: seq<Line>, s: seq<Line>, post: seq<Line>, i: nat, x: Line)
    requires i <= |s|
    ensures pre + (Ins(s, i, x) + post) == Ins(pre + (s + post), |pre| + i, x)
  {
  }

  /** A line at the head of the first branch of the first region that is met with INC_ASSERT defined. */
  function Mark(d: Doc, m: set<string>, x: Line): Doc {
    match d
    case Nil => Nil
    case Cons(line, rest) => Cons(line, Mark(rest, Effect(line, m), x))
    case Block(open, body, tail, rest) =>
      if open.OpensInc() && INC in m then Block(open, Cons(x, body), tail, rest)
      else if Takes(open, m) && MeetsDoc(body, m) then Block(open, Mark(body, m, x), tail, rest)
      else if !Takes(open, m) && MeetsChain(tail, m) then Block(open, body, MarkChain(tail, m, x), rest)
      else Block(open, body, tail, Mark(rest, Branch(d, m).macros, x))
  }

  function MarkChain(c: Chain, m: set<string>, x: Line): Chain {
    match c
    case Close(_) => c
    case Otherwise(mark, body, close) => Otherwise(mark, Mark(body, m, x), close)
    case Also(mark, body, next) =>
      if mark.Elsif? && mark.sym in m then Also(mark, Mark(body, m, x), next)
      else Also(mark, body, MarkChain(next, m, x))
  }

  lemma {:induction false} MarkInserts(d: Doc, m: set<string>, x: Line) returns (i: nat)
    requires MeetsDoc(d, m)
    ensures i <= |Flatten(d)| && Flatten(Mark(d, m, x)) == Ins(Flatten(d), i, x)
    decreases d
  {
    hide Ins;
    match d
    case Cons(line, rest) =>
      var k := MarkInserts(rest, Effect(line, m), x);
      InsLast([line], Flatten(rest), k, x);
      i := 1 + k;
    case Block(open, body, tail, rest) =>
      i := MarkBlockInserts(d, m, x);
  }

  lemma {:induction false} MarkBlockInserts(d: Doc, m: set<string>, x: Line) returns (i: nat)
    requires d.Block? && MeetsDoc(d, m)
    ensures i <= |Flatten(d)| && Flatten(Mark(d, m, x)) == Ins(Flatten(d), i, x)
    decreases d, 0
  {
    hide *;
    var f, b, c, e := [d.open], Flatten(d.body), FlattenChain(d.tail), Flatten(d.rest);
    FlatBlock(d);
    if d.open.OpensInc() && INC in m {
      HeadMarked(d, m, x);
      InsIn(f, b, c + e, 0, x);
      i := 1;
    } else if Takes(d.open, m) && MeetsDoc(d.body, m) {
      BodyMarked(d, m, x);
      var k := MarkInserts(d.body, m, x);
      InsIn(f, b, c + e, k, x);
      i := 1 + k;
    } else if !Takes(d.open, m) && MeetsChain(d.tail, m) {
      TailMarked(d, m, x);
      var k := MarkChainInserts(d.tail, m, x);
      InsIn(b, c, e, k, x);
      InsLast(f, b + (c + e), |b| + k, x);
      i := 1 + |b| + k;
    } else {
      RestMarked(d, m, x);
      var k := MarkInserts(d.rest, Branch(d, m).macros, x);
      InsLast(c, e, k, x);
      InsLast(b, c + e, |c| + k, x);
      InsLast(f, b + (c + e), |b| + |c| + k, x);
      i := 1 + |b| + |c| + k;
    }
  }

  lemma FlatBlock(d: Doc)
    requires d.Block?
    ensures Flatten(d) == [d.open] + (Flatten(d.body) + (FlattenChain(d.tail) + Flatten(d.rest)))
  {
  }

  lemma BodyMarked(d: Doc, m: set<string>, x: Line)
    requires d.Block? && !(d.open.OpensInc() && INC in m) && Takes(d.open, m) && MeetsDoc(d.body, m)
    ensures Flatten(Mark(d, m, x)) ==
            [d.open] + (Flatten(Mark(d.body, m, x)) + (FlattenChain(d.tail) + Flatten(d.rest)))
  {
  }

  lemma TailMarked(d: Doc, m: set<string>, x: Line)
    requires d.Block? && !(d.open.OpensInc() && INC in m) && !Takes(d.open, m) && MeetsChain(d.tail, m)
    ensures Flatten(Mark(d, m, x)) ==
            [d.open] + (Flatten(d.body) + (FlattenChain(MarkChain(d.tail, m, x)) + Flatten(d.rest)))
  {
  }

  lemma RestMarked(d: Doc, m: set<string>, x: Line)
    requires d.Block? && MeetsDoc(d, m) && !(d.open.OpensInc() && INC in m)
    requires if Takes(d.open, m) then !MeetsDoc(d.body, m) else !MeetsChain(d.tail, m)
    ensures MeetsDoc(d.rest, Branch(d, m).macros)
    ensures Flatten(Mark(d, m, x))
         == [d.open] + (Flatten(d.body) + (FlattenChain(d.tail) + Flatten(Mark(d.rest, Branch(d, m).macros, x))))
  {
  }

  lemma HeadMarked(d: Doc, m: set<string>, x: Line)
    requires d.Block? && d.open.OpensInc() && INC in m
    ensures Flatten(Mark(d, m, x)) == [d.open] + (Ins(Flatten(d.body), 0, x) + (FlattenChain(d.tail) + Flatten(d.rest)))
  {
    assert Flatten(Cons(x, d.body)) == [x] + Flatten(d.body);
    assert [x] + Flatten(d.body) == Ins(Flatten(d.body), 0, x);
  }

  lemma InsLast(pre: seq<Line>, s: seq<Line>, i: nat, x: Line)
    requires i <= |s|
    ensures pre + Ins(s, i, x) == Ins(pre + s, |pre| + i, x)
  {
  }

  lemma {:induction false} MarkChainInserts(c: Chain, m: set<string>, x: Line) returns (i: nat)
    requires MeetsChain(c, m)
    ensures i <= |FlattenChain(c)| && FlattenChain(MarkChain(c, m, x)) == Ins(FlattenChain(c), i, x)
    decreases c
  {
    hide Ins;
    match c
    case Otherwise(mark, body, close) =>
      var k := MarkInserts(body, m, x);
      InsIn([mark], Flatten(body), [close], k, x);
      i := 1 + k;
    case Also(mark, body, next) =>
      if mark.Elsif? && mark.sym in m {
        var k := MarkInserts(body, m, x);
        InsIn([mark], Flatten(body), FlattenChain(next), k, x);
        i := 1 + k;
      } else {
        var k := MarkChainInserts(next, m, x);
        InsLast(Flatten(body), FlattenChain(next), k, x);
        InsLast([mark], Flatten(body) + FlattenChain(next), |Flatten(body)| + k, x);
        i := 1 + |Flatten(body)| + k;
      }
  }

  /** Marking changes neither the shape of the tree nor its regions. */
  lemma {:induction false} MarkKeeps(d: Doc, m: set<string>, x: Line)
    requires DocOk(d) && Regular(d) && x.IsPlain()
    ensures DocOk(Mark(d, m, x)) && Regular(Mark(d, m, x)) && (Clean(Mark(d, m, x)) <==> Clean(d))
    decreases d
  {
    match d
    case Nil =>
    case Cons(line, rest) =>
      MarkKeeps(rest, Effect(line, m), x);
    case Block(open, body, tail, rest) =>
      if Takes(open, m) && MeetsDoc(body, m) {
        MarkKeeps(body, m, x);
      } else if !Takes(open, m) && MeetsChain(tail, m) {
        MarkChainKeeps(tail, m, x);
      } else {
        MarkKeeps(rest, Branch(d, m).macros, x);
      }
  }

  lemma {:induction false} MarkChainKeeps(c: Chain, m: set<string>, x: Line)
    requires ChainOk(c) && RegularChain(c) && x.IsPlain()
    ensures var e := MarkChain(c, m, x);
            ChainOk(e) && RegularChain(e) && (CleanChain(e) <==> CleanChain(c)) && (e.Also? <==> c.Also?)
    decreases c
  {
    match c
    case Close(_) =>
    case Otherwise(_, body, _) =>
      MarkKeeps(body, m, x);
    case Also(mark, body, next) =>
      if mark.Elsif? && mark.sym in m {
        MarkKeeps(body, m, x);
      } else {
        MarkChainKeeps(next, m, x);
      }
  }

  /** A tree compiles only lines of its text, and so does what stripping leaves of it. */
  lemma {:induction false} CompilesItsLines(d: Doc, m: set<string>, x: Line)
    requires x !in Flatten(d)
    ensures x !in Pre(d, m).lines && x !in Flatten(Strip(d))
    decreases d
  {
    match d
    case Nil =>
    case Cons(line, rest) =>
      CompilesItsLines(rest, Effect(line, m), x);
    case Block(open, body, tail, rest) =>
      CompilesItsLines(body, m, x);
      ChainCompilesItsLines(tail, m, x);
      CompilesItsLines(rest, Branch(d, m).macros, x);
      if open.OpensInc() {
        FlattenAppend(IncPick(d), Strip(rest));
      }
  }

  lemma {:induction false} ChainCompilesItsLines(c: Chain, m: set<string>, x: Line)
    requires x !in FlattenChain(c)
    ensures x !in PreChain(c, m).lines && x !in FlattenChain(StripChain(c))
    ensures c.Otherwise? ==> x !in Flatten(Strip(c.body))
    decreases c
  {
    match c
    case Close(_) =>
    case Otherwise(_, body, _) =>
      CompilesItsLines(body, m, x);
    case Also(_, body, next) =>
      CompilesItsLines(body, m, x);
      ChainCompilesItsLines(next, m, x);
  }

  lemma StrippedCompilesNot(d: Doc, m: set<string>, x: Line)
    requires x !in Flatten(Strip(d)) && DocOk(d)
    ensures x !in Pre(Strip(d), m).lines
  {
    CompilesItsLines(Strip(d), m, x);
  }

  /** The marked line is compiled before stripping or after it, and not both. */
  lemma {:induction false} MarkMatters(d: Doc, m: set<string>, x: Line)
    requires DocOk(d) && Regular(d) && MeetsDoc(d, m) && x.Text? && x !in Flatten(d)
    ensures x in Pre(Mark(d, m, x), m).lines <==> x !in Pre(Strip(Mark(d, m, x)), m).lines
    decreases d
  {
    match d
    case Cons(line, rest) =>
      MarkMatters(rest, Effect(line, m), x);
    case Block(open, body, tail, rest) =>
      if open.OpensInc() && INC in m {
        MetRegion(d, m, x);
      } else if Takes(open, m) && MeetsDoc(body, m) {
        MarkMatters(body, m, x);
        BranchMatters(d, Mark(body, m, x), tail, m, x);
      } else if !Takes(open, m) && MeetsChain(tail, m) {
        ChainMatters(tail, m, x);
        BranchMatters(d, body, MarkChain(tail, m, x), m, x);
      } else {
        MarkMatters(rest, Branch(d, m).macros, x);
        RestMatters(d, m, x);
      }
  }

  /** The region itself: its first branch is compiled or stripped away, or it is dead or kept. */
  lemma MetRegion(d: Doc, m: set<string>, x: Line)
    requires DocOk(d) && Regular(d) && d.Block? && d.open.OpensInc() && INC in m && x.Text? && x !in Flatten(d)
    ensures x in Pre(Mark(d, m, x), m).lines <==> d.open.Ifdef?
    ensures x in Pre(Strip(Mark(d, m, x)), m).lines <==> d.open.Ifndef?
  {
    var e := Mark(d, m, x);
    CompilesItsLines(d, m, x);
    CompilesItsLines(d.body, m, x);
    ChainCompilesItsLines(d.tail, m, x);
    var b := Branch(e, m);
    CompilesItsLines(d.rest, b.macros, x);
    PreAppend(IncPick(e), Strip(d.rest), m);
    StrippedCompilesNot(d.rest, Pre(IncPick(e), m).macros, x);
    if d.open.Ifdef? {
      if d.tail.Otherwise? {
        StrippedCompilesNot(d.tail.body, m, x);
      }
    }
  }

  /** The mark is in the taken branch. */
  lemma BranchMatters(d: Doc, body: Doc, tail: Chain, m: set<string>, x: Line)
    requires DocOk(d) && Regular(d) && d.Block? && !(d.open.OpensInc() && INC in m) && x !in Flatten(d)
    requires body == d.body || Takes(d.open, m)
    requires tail == d.tail || !Takes(d.open, m)
    requires d.open.OpensInc() ==> !tail.Also?
    requires Takes(d.open, m) ==> (x in Pre(body, m).lines <==> x !in Pre(Strip(body), m).lines)
    requires !Takes(d.open, m) ==> (x in PreChain(tail, m).lines <==> x !in PreChain(StripChain(tail), m).lines)
    ensures var e := Block(d.open, body, tail, d.rest);
            x in Pre(e, m).lines <==> x !in Pre(Strip(e), m).lines
  {
    var e := Block(d.open, body, tail, d.rest);
    CompilesItsLines(d.rest, Branch(e, m).macros, x);
    if d.open.OpensInc() {
      PreAppend(IncPick(e), Strip(d.rest), m);
      StrippedCompilesNot(d.rest, Pre(IncPick(e), m).macros, x);
    } else {
      StrippedCompilesNot(d.rest, Branch(Strip(e), m).macros, x);
    }
  }

  /** The mark is after the block, whose branch means the same stripped. */
  lemma RestMatters(d: Doc, m: set<string>, x: Line)
    requires DocOk(d) && Regular(d) && d.Block? && !(d.open.OpensInc() && INC in m) && x !in Flatten(d)
    requires if Takes(d.open, m) then !MeetsDoc(d.body, m) else !MeetsChain(d.tail, m)
    requires var rest := Mark(d.rest, Branch(d, m).macros, x);
             x in Pre(rest, Branch(d, m).macros).lines <==> x !in Pre(Strip(rest), Branch(d, m).macros).lines
    ensures var e := Block(d.open, d.body, d.tail, Mark(d.rest, Branch(d, m).macros, x));
            x in Pre(e, m).lines <==> x !in Pre(Strip(e), m).lines
  {
    var e := Block(d.open, d.body, d.tail, Mark(d.rest, Branch(d, m).macros, x));
    CompilesItsLines(d.body, m, x);
    ChainCompilesItsLines(d.tail, m, x);
    if Takes(d.open, m) {
      StripKeepsMeaning(d.body, m);
    } else {
      StripKeepsChain(d.tail, m);
    }
    if d.open.OpensInc() {
      PreAppend(IncPick(e), Strip(e.rest), m);
    }
  }

  lemma {:induction false} ChainMatters(c: Chain, m: set<string>, x: Line)
    requires ChainOk(c) && RegularChain(c) && MeetsChain(c, m) && x.Text? && x !in FlattenChain(c)
    ensures x in PreChain(MarkChain(c, m, x), m).lines <==> x !in PreChain(StripChain(MarkChain(c, m, x)), m).lines
    decreases c
  {
    match c
    case Otherwise(_, body, _) =>
      MarkMatters(body, m, x);
    case Also(mark, body, next) =>
      if mark.sym in m {
        MarkMatters(body, m, x);
      } else {
        ChainMatters(next, m, x);
      }
  }

  // ---- exactly when ---------------------------------------------------------------------------------------------

  /** How the walk ends, on any text: accepted, refused for having no region, for a conditional left open, or for an
      `elsif` of a region. */
  datatype Ending = Good | NoneFound | LeftOpen | BadMark

  /** What decides it: which open conditionals are regions, and whether one has closed. An `else` never matters, and
      an `endif` does not where nothing is open. */
  function Ends(lines: seq<Line>, incs: seq<bool>, any: bool): Ending
    decreases |lines|
  {
    if lines == [] then (if incs != [] then LeftOpen else if any then Good else NoneFound) else
    var line, rest, top := lines[0], lines[1..], |incs| - 1;
    if line.Opens() then Ends(rest, incs + [line.sym == INC], any)
    else if line.Elsif? && incs != [] && incs[top] then BadMark
    else if line.Endif? && incs != [] then Ends(rest, incs[..top], any || incs[top])
    else Ends(rest, incs, any)
  }

  function EndingOf(r: Outcome): Ending {
    match r
    case Stripped(_, _) => Good
    case NoRegion => NoneFound
    case Unbalanced(_) => LeftOpen
    case ElsifInRegion(_) => BadMark
  }

  function Incs(stack: seq<Frame>): (r: seq<bool>)
    ensures |r| == |stack|
  {
    seq(|stack|, i requires 0 <= i < |stack| => stack[i].inc)
  }

  /** The walk's outcome on every text, balanced or not. */
  lemma {:induction false} EndsExactly(lines: seq<Line>, stack: seq<Frame>, out: seq<Line>, removed: seq<(nat, nat)>,
                                       ln: nat)
    ensures EndingOf(Walk(lines, stack, out, removed, ln)) == Ends(lines, Incs(stack), removed != [])
    decreases |lines|
  {
    hide Keeping;
    if lines != [] {
      var line, rest, top := lines[0], lines[1..], |stack| - 1;
      if line.Opens() {
        var stack' := stack + [Frame(line.sym == INC, if line.sym == INC then line.Ifndef? else true, ln)];
        assert Incs(stack') == Incs(stack) + [line.sym == INC];
        EndsExactly(rest, stack', if line.sym != INC && Keeping(stack') then out + [line] else out, removed, ln + 1);
      } else if line.Else? && stack != [] && stack[top].inc {
        var stack' := stack[top := stack[top].(keeping := !stack[top].keeping)];
        assert Incs(stack') == Incs(stack);
        EndsExactly(rest, stack', out, removed, ln + 1);
      } else if line.Elsif? && stack != [] && stack[top].inc {
      } else if line.Endif? && stack != [] {
        assert Incs(stack[..top]) == Incs(stack)[..top];
        if stack[top].inc {
          EndsExactly(rest, stack[..top], out, removed + [(stack[top].start, ln)], ln + 1);
        } else {
          EndsExactly(rest, stack[..top], if Keeping(stack[..top]) then out + [line] else out, removed, ln + 1);
        }
      } else {
        EndsExactly(rest, stack, if Keeping(stack) then out + [line] else out, removed, ln + 1);
      }
    }
  }

  lemma InsertStep(lines: seq<Line>, i: nat, x: Line)
    requires i <= |lines|
    ensures var s := Ins(lines, i, x);
            && s != []
            && (i == 0 ==> s[0] == x && s[1..] == lines)
            && (i > 0 ==> s[0] == lines[0] && s[1..] == Ins(lines[1..], i - 1, x))
  {
    assert Ins(lines, i, x)[1..] == if i == 0 then lines else Ins(lines[1..], i - 1, x);
  }

  /** A new plain line anywhere keeps the text balanced, accepted, and meeting the same regions. */
  lemma {:induction false} InsertBalanced(lines: seq<Line>, i: nat, x: Line, elses: seq<bool>)
    requires i <= |lines| && x.Text?
    ensures Balanced(Ins(lines, i, x), elses) <==> Balanced(lines, elses)
    decreases i
  {
    InsertStep(lines, i, x);
    hide Ins;
    if i > 0 {
      forall e ensures Balanced(Ins(lines[1..], i - 1, x), e) <==> Balanced(lines[1..], e) {
        InsertBalanced(lines[1..], i - 1, x, e);
      }
    }
  }

  lemma {:induction false} InsertEnds(lines: seq<Line>, i: nat, x: Line, incs: seq<bool>, any: bool)
    requires i <= |lines| && (x.Text? || x.Else?)
    ensures Ends(Ins(lines, i, x), incs, any) == Ends(lines, incs, any)
    decreases i
  {
    InsertStep(lines, i, x);
    hide Ins;
    if i > 0 {
      forall e, a ensures Ends(Ins(lines[1..], i - 1, x), e, a) == Ends(lines[1..], e, a) {
        InsertEnds(lines[1..], i - 1, x, e, a);
      }
    }
  }

  /** The walk does not refuse what a preprocessor must: one more `else` anywhere, a second one in a region included,
      leaves its verdict as it is, and so does a stray `endif` before an accepted text. */
  lemma StrayMarksPass(lines: seq<Line>, i: nat, mark: Line, stray: Line)
    requires i <= |lines| && mark.Else? && stray.Endif?
    ensures EndingOf(Walk(Ins(lines, i, mark), [], [], [], 1)) == EndingOf(Walk(lines, [], [], [], 1))
    ensures EndingOf(Walk([stray] + lines, [], [], [], 1)) == EndingOf(Walk(lines, [], [], [], 1))
    ensures !Balanced([stray] + lines, [])
  {
    EndsExactly(lines, [], [], [], 1);
    EndsExactly(Ins(lines, i, mark), [], [], [], 1);
    EndsExactly([stray] + lines, [], [], [], 1);
    InsertEnds(lines, i, mark, [], false);
    assert ([stray] + lines)[1..] == lines;
  }

  lemma {:induction false} InsertMeets(lines: seq<Line>, i: nat, x: Line, stack: seq<Cond>, m: set<string>)
    requires i <= |lines| && x.Text?
    ensures Meets(Ins(lines, i, x), stack, m) <==> Meets(lines, stack, m)
    decreases i
  {
    InsertStep(lines, i, x);
    hide Ins;
    if i > 0 {
      forall st, n ensures Meets(Ins(lines[1..], i - 1, x), st, n) <==> Meets(lines[1..], st, n) {
        InsertMeets(lines[1..], i - 1, x, st, n);
      }
    }
  }

  /** A text no line has. */
  lemma {:induction false} FreshText(lines: seq<Line>) returns (t: string)
    ensures forall k :: 0 <= k < |lines| && lines[k].Text? ==> |lines[k].text| < |t|
  {
    if lines == [] {
      t := "";
    } else {
      var k := |lines| - 1;
      t := FreshText(lines[..k]);
      if lines[k].Text? && |lines[k].text| >= |t| {
        t := lines[k].text + "x";
      }
    }
  }

  predicate SameStripped(lines: seq<Line>, m: set<string>) {
    var r := Walk(lines, [], [], [], 1);
    r.Stripped? && Preprocessed(r.lines, m) == Preprocessed(lines, m)
  }

  /** Wherever one new line is put into the text, it is accepted and means the same after stripping. */
  ghost predicate Robust(lines: seq<Line>, m: set<string>) {
    forall i, t :: 0 <= i <= |lines| && Text(t) !in lines ==> SameStripped(Ins(lines, i, Text(t)), m)
  }

  lemma UnmetIsRobust(lines: seq<Line>, m: set<string>, i: nat, t: string)
    requires Balanced(lines, []) && Walk(lines, [], [], [], 1).Stripped? && !Meets(lines, [], m) && i <= |lines|
    ensures SameStripped(Ins(lines, i, Text(t)), m)
  {
    var x := Text(t);
    InsertBalanced(lines, i, x, []);
    InsertEnds(lines, i, x, [], false);
    InsertMeets(lines, i, x, [], m);
    EndsExactly(lines, [], [], [], 1);
    EndsExactly(Ins(lines, i, x), [], [], [], 1);
    hide Walk, Ins, Preprocessed;
    StrippedMeansTheSame(Ins(lines, i, x), m);
  }

  lemma MetIsNotRobust(lines: seq<Line>, m: set<string>) returns (i: nat, t: string)
    requires Balanced(lines, []) && Walk(lines, [], [], [], 1).Stripped? && Meets(lines, [], m)
    ensures i <= |lines| && Text(t) !in lines && !SameStripped(Ins(lines, i, Text(t)), m)
  {
    t := FreshText(lines);
    var x := Text(t);
    assert x !in lines;
    var d := Accepted(lines);
    MeetsExactly(d, m);
    i := MarkInserts(d, m, x);
    hide Walk, Ins, Preprocessed, Meets;
    var e := Mark(d, m, x);
    MarkKeeps(d, m, x);
    MarkMatters(d, m, x);
    WalkOutcome(e);
    RegularExactly(e, 1);
    StripOk(e);
    PreprocessedDoc(e, m);
    PreprocessedDoc(Strip(e), m);
  }

  /** The guard is exact: the text means the same after stripping wherever a new line is put into it, if and only if
      compiling it meets no live INC_ASSERT region with the macro defined. */
  lemma RobustExactly(lines: seq<Line>, m: set<string>)
    requires Balanced(lines, []) && Walk(lines, [], [], [], 1).Stripped?
    ensures Robust(lines, m) <==> !Meets(lines, [], m)
  {
    hide Walk, Ins, Preprocessed, Meets, SameStripped;
    if Meets(lines, [], m) {
      var i, t := MetIsNotRobust(lines, m);
    } else {
      forall i, t | 0 <= i <= |lines| && Text(t) !in lines ensures SameStripped(Ins(lines, i, Text(t)), m) {
        UnmetIsRobust(lines, m, i, t);
      }
    }
  }

  // ---- a reader that defines INC_ASSERT -------------------------------------------------------------------------

  /** A line other than an opening directive that names INC_ASSERT. */
  predicate NamesInc(line: Line) { (line.Define? || line.Undef? || line.Elsif?) && line.sym == INC }

  predicate OnlyOpens(lines: seq<Line>) {
    forall x :: x in lines ==> !NamesInc(x)
  }

  /** Where only opening directives name INC_ASSERT, the stripped tree compiles with the macro defined as the original
      does without. */
  lemma {:induction false} StripHidesInc(d: Doc, m: set<string>)
    requires DocOk(d) && Regular(d) && OnlyOpens(Flatten(d)) && INC in m
    ensures var a, b := Pre(Strip(d), m), Pre(d, m - {INC});
            a.lines == b.lines && INC in a.macros && b.macros == a.macros - {INC}
    decreases d
  {
    match d
    case Nil =>
    case Cons(line, rest) =>
      assert line in Flatten(d);
      assert Effect(line, m - {INC}) == Effect(line, m) - {INC};
      assert OnlyOpens(Flatten(rest));
      StripHidesInc(rest, Effect(line, m));
    case Block(open, body, tail, rest) =>
      assert OnlyOpens(Flatten(body)) && OnlyOpens(FlattenChain(tail)) && OnlyOpens(Flatten(rest));
      hide OnlyOpens, Flatten, FlattenChain;
      var b := Branch(d, m - {INC});
      if open.OpensInc() {
        if open.Ifndef? {
          StripHidesInc(body, m);
        } else {
          ChainHidesInc(tail, m);
        }
        var a := Pre(IncPick(d), m);
        assert a.lines == b.lines && b.macros == a.macros - {INC} && INC in a.macros;
        StripHidesInc(rest, a.macros);
        PreAppend(IncPick(d), Strip(rest), m);
      } else {
        if Takes(open, m) {
          StripHidesInc(body, m);
        } else {
          ChainHidesInc(tail, m);
        }
        StripHidesInc(rest, Branch(Strip(d), m).macros);
      }
  }

  lemma {:induction false} ChainHidesInc(c: Chain, m: set<string>)
    requires ChainOk(c) && RegularChain(c) && OnlyOpens(FlattenChain(c)) && INC in m
    ensures var a, b := PreChain(StripChain(c), m), PreChain(c, m - {INC});
            a.lines == b.lines && INC in a.macros && b.macros == a.macros - {INC}
    decreases c
  {
    match c
    case Close(_) =>
    case Otherwise(_, body, _) =>
      assert OnlyOpens(Flatten(body));
      StripHidesInc(body, m);
    case Also(mark, body, next) =>
      assert mark in FlattenChain(c);
      assert OnlyOpens(Flatten(body)) && OnlyOpens(FlattenChain(next));
      if mark.sym in m {
        StripHidesInc(body, m);
      } else {
        ChainHidesInc(next, m);
      }
  }

  /** A stripped file can be read with INC_ASSERT defined: it compiles to what the original gives without it. */
  lemma StrippedHidesInc(lines: seq<Line>, m: set<string>)
    requires Balanced(lines, []) && OnlyOpens(lines) && INC in m
    ensures var r := Walk(lines, [], [], [], 1);
            r.Stripped? ==>
              && Preprocessed(r.lines, m).lines == Preprocessed(lines, m - {INC}).lines
              && Preprocessed(r.lines, m).macros == Preprocessed(lines, m - {INC}).macros + {INC}
  {
    if Walk(lines, [], [], [], 1).Stripped? {
      var d := Accepted(lines);
      PreprocessedDoc(d, m - {INC});
      PreprocessedDoc(Strip(d), m);
      StripHidesInc(d, m);
    }
  }

  // ---- macro sets -----------------------------------------------------------------------------------------------

  predicate DefinesInc(lines: seq<Line>) {
    exists i :: 0 <= i < |lines| && lines[i].Define? && lines[i].sym == INC
  }

  lemma DefinesIncCat(a: seq<Line>, b: seq<Line>)
    ensures DefinesInc(a + b) <==> DefinesInc(a) || DefinesInc(b)
  {
    var s := a + b;
    if DefinesInc(a) {
      var i :| 0 <= i < |a| && a[i].Define? && a[i].sym == INC;
      assert s[i] == a[i];
    }
    if DefinesInc(b) {
      var i :| 0 <= i < |b| && b[i].Define? && b[i].sym == INC;
      assert s[|a| + i] == b[i];
    }
    if DefinesInc(s) {
      var i :| 0 <= i < |s| && s[i].Define? && s[i].sym == INC;
      assert if i < |a| then s[i] == a[i] else s[i] == b[i - |a|];
    }
  }

  lemma DefinesIncOne(line: Line)
    ensures DefinesInc([line]) <==> line.Define? && line.sym == INC
  {
    assert [line][0] == line;
  }

  /** Without INC_ASSERT, and with no compiled `define` of it, no region is met with it defined. */
  lemma {:induction false} UndefinedIsUnmet(d: Doc, m: set<string>)
    requires DocOk(d) && INC !in m && !DefinesInc(Pre(d, m).lines)
    ensures !MeetsDoc(d, m) && INC !in Pre(d, m).macros
    decreases d
  {
    match d
    case Nil =>
    case Cons(line, rest) =>
      DefinesIncCat([line], Pre(rest, Effect(line, m)).lines);
      DefinesIncOne(line);
      UndefinedIsUnmet(rest, Effect(line, m));
    case Block(open, body, tail, rest) =>
      var b := Branch(d, m);
      DefinesIncCat(b.lines, Pre(rest, b.macros).lines);
      hide DefinesInc;
      if Takes(open, m) {
        UndefinedIsUnmet(body, m);
      } else {
        ChainUnmet(tail, m);
      }
      UndefinedIsUnmet(rest, b.macros);
  }

  lemma {:induction false} ChainUnmet(c: Chain, m: set<string>)
    requires ChainOk(c) && INC !in m && !DefinesInc(PreChain(c, m).lines)
    ensures !MeetsChain(c, m) && INC !in PreChain(c, m).macros
    decreases c
  {
    match c
    case Close(_) =>
    case Otherwise(_, body, _) =>
      UndefinedIsUnmet(body, m);
    case Also(mark, body, next) =>
      if mark.sym in m {
        UndefinedIsUnmet(body, m);
      } else {
        ChainUnmet(next, m);
      }
  }

  /** On a balanced text the script never reports an unbalanced conditional. */
  lemma BalancedNeverRefused(lines: seq<Line>)
    requires Balanced(lines, [])
    ensures !Walk(lines, [], [], [], 1).Unbalanced?
  {
    var d, _, _ := Parse(lines, []);
    WalkOutcome(d);
  }

  /** What stripping promises of a macro set: on every balanced text that is accepted and compiles no `define`
      of INC_ASSERT, the result means the same. */
  ghost predicate SafeFor(m: set<string>) {
    forall lines :: var r := Walk(lines, [], [], [], 1);
      Balanced(lines, []) && r.Stripped? && !DefinesInc(Preprocessed(lines, m).lines) ==>
        Preprocessed(r.lines, m) == Preprocessed(lines, m)
  }

  /** Exactly the macro sets without INC_ASSERT are safe. */
  lemma SafeExactly(m: set<string>)
    ensures SafeFor(m) <==> INC !in m
  {
    if INC !in m {
      forall lines | Balanced(lines, []) ensures var r := Walk(lines, [], [], [], 1);
          r.Stripped? && !DefinesInc(Preprocessed(lines, m).lines) ==>
              Preprocessed(r.lines, m) == Preprocessed(lines, m) {
        if !DefinesInc(Preprocessed(lines, m).lines) {
          var d, _, _ := Parse(lines, []);
          PreprocessedDoc(d, m);
          MeetsExactly(d, m);
          UndefinedIsUnmet(d, m);
        }
        StrippedMeansTheSame(lines, m);
      }
    } else {
      var text := LostOutside(m);
      DefinesIncOne(Text("a"));
      assert !SafeFor(m);
    }
  }

  lemma LostOutside(m: set<string>) returns (text: seq<Line>)
    requires INC in m
    ensures Balanced(text, []) && Walk(text, [], [], [], 1) == Stripped([], [(1, 3)])
    ensures Preprocessed(text, m).lines == [Text("a")] && Preprocessed([], m).lines == []
  {
    var a, block := LostBlock();
    text := Flatten(block);
    WalkOutcome(block);
    BalancedIsTree(text);
    PreprocessedDoc(block, m);
    assert Pre(a, m) == Compiled([Text("a")], m);
    assert Pre(Nil, m) == Compiled([], m);
  }

  lemma LostBlock() returns (a: Doc, block: Doc)
    ensures a == Cons(Text("a"), Nil) && block == Block(Ifdef(INC, "i"), a, Close(Endif("e")), Nil)
    ensures Strip(block) == Nil && Regions(block, 1) == [(1, 3)] && Regions(block, 2) == [(2, 4)]
    ensures Flatten(block) == [Ifdef(INC, "i"), Text("a"), Endif("e")]
  {
    a := Cons(Text("a"), Nil);
    block := Block(Ifdef(INC, "i"), a, Close(Endif("e")), Nil);
    assert Flatten(a) == [Text("a")];
    assert Flatten(block) == [Ifdef(INC, "i")] + ([Text("a")] + ([Endif("e")] + []));
  }

  /** A compiled line that defines INC_ASSERT before a region is enough: the stripped text loses the region's line. */
  lemma LostInside()
    ensures var text := [Define(INC, "d"), Ifdef(INC, "i"), Text("a"), Endif("e")];
            && Walk(text, [], [], [], 1) == Stripped([Define(INC, "d")], [(2, 4)])
            && Preprocessed(text, {}).lines == [Define(INC, "d"), Text("a")]
    ensures Preprocessed([Define(INC, "d")], {}).lines == [Define(INC, "d")]
  {
    var def := Define(INC, "d");
    var a, block := LostBlock();
    var all, left := Cons(def, block), Cons(def, Nil);
    assert Flatten(all) == [def] + Flatten(block);
    WalkOutcome(all);
    assert Strip(all) == left && Flatten(left) == [def] + [];
    PreprocessedDoc(all, {});
    PreprocessedDoc(left, {});
    assert Effect(def, {}) == {INC};
    assert Pre(a, {INC}) == Compiled([Text("a")], {INC});
    assert Pre(Nil, {INC}) == Compiled([], {INC});
    assert Pre(block, {INC}).lines == [Text("a")] + [];
  }

  // ---- the stripped text has no region left -------------------------------------------------------------------

  predicate Clean(d: Doc) {
    match d
    case Nil => true
    case Cons(_, rest) => Clean(rest)
    case Block(open, body, tail, rest) => !open.OpensInc() && Clean(body) && CleanChain(tail) && Clean(rest)
  }

  predicate CleanChain(c: Chain) {
    match c
    case Close(_) => true
    case Otherwise(_, body, _) => Clean(body)
    case Also(_, body, next) => Clean(body) && CleanChain(next)
  }

  lemma AppendOk(a: Doc, b: Doc)
    requires DocOk(a) && DocOk(b) && Clean(a) && Clean(b)
    ensures DocOk(Append(a, b)) && Clean(Append(a, b))
  {
  }

  lemma {:induction false} StripOk(d: Doc)
    requires DocOk(d)
    ensures DocOk(Strip(d)) && Clean(Strip(d))
    decreases d
  {
    match d
    case Nil =>
    case Cons(_, rest) =>
      StripOk(rest);
    case Block(open, body, tail, rest) =>
      StripOk(body);
      StripChainOk(tail);
      StripOk(rest);
      if open.OpensInc() {
        AppendOk(IncPick(d), Strip(rest));
      }
  }

  lemma {:induction false} StripChainOk(c: Chain)
    requires ChainOk(c)
    ensures ChainOk(StripChain(c)) && CleanChain(StripChain(c))
    ensures c.Otherwise? ==> DocOk(Strip(c.body)) && Clean(Strip(c.body))
    decreases c
  {
    match c
    case Close(_) =>
    case Otherwise(_, body, _) =>
      StripOk(body);
    case Also(_, body, next) =>
      StripOk(body);
      StripChainOk(next);
  }

  lemma {:induction false} CleanHasNoRegion(d: Doc, ln: nat)
    requires Clean(d)
    ensures Regions(d, ln) == [] && BadElsif(d, ln) == 0
    decreases d
  {
    match d
    case Nil =>
    case Cons(_, rest) =>
      CleanHasNoRegion(rest, ln + 1);
    case Block(_, body, tail, rest) =>
      CleanHasNoRegion(body, ln + 1);
      CleanChainHasNoRegion(tail, ln + 1 + |Flatten(body)|);
      CleanHasNoRegion(rest, ln + 1 + |Flatten(body)| + |FlattenChain(tail)|);
  }

  lemma {:induction false} CleanChainHasNoRegion(c: Chain, ln: nat)
    requires CleanChain(c)
    ensures ChainRegions(c, ln) == [] && BadElsifIn(c, ln, false) == 0
    decreases c
  {
    match c
    case Close(_) =>
    case Otherwise(_, body, _) =>
      CleanHasNoRegion(body, ln + 1);
    case Also(_, body, next) =>
      CleanHasNoRegion(body, ln + 1);
      CleanChainHasNoRegion(next, ln + 1 + |Flatten(body)|);
  }

  /** A second pass over the script's own output finds nothing to remove. */
  lemma SecondPassFindsNothing(lines: seq<Line>)
    requires Balanced(lines, [])
    ensures var r := Walk(lines, [], [], [], 1); r.Stripped? ==> Walk(r.lines, [], [], [], 1) == NoRegion
  {
    var d, _, _ := Parse(lines, []);
    WalkOutcome(d);
    StripOk(d);
    WalkOutcome(Strip(d));
    CleanHasNoRegion(Strip(d), 1);
  }
}
