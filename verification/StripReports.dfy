/**
 What `strip_inc_assert` (`scripts/vendor_opentitan_ip.py`) does on every text, balanced or not, said without its stack:
 which conditionals are open is read off how deep each line is, which lines stay off the regions around them.
 */
module StripReports {
  import opened Basics
  import opened IncAssert

  // ---- open conditionals, by depth --------------------------------------------------------------------------------

  /** How many conditionals are open after `k` lines; an `endif` with nothing open closes nothing. */
  function Depth(lines: seq<Line>, k: nat): nat
    requires k <= |lines|
  {
    if k == 0 then 0
    else if lines[k - 1].Opens() then Depth(lines, k - 1) + 1
    else if lines[k - 1].Endif? && Depth(lines, k - 1) > 0 then Depth(lines, k - 1) - 1
    else Depth(lines, k - 1)
  }

  /** The conditional opened on line `p` is open after `k` lines: the depth has not been less since. */
  predicate OpenAt(lines: seq<Line>, k: int, p: int) {
    && 1 <= p <= k <= |lines| && lines[p - 1].Opens()
    && forall q :: p <= q <= k ==> Depth(lines, q) >= Depth(lines, p)
  }

  predicate Innermost(lines: seq<Line>, k: int, p: int) {
    OpenAt(lines, k, p) && Depth(lines, p) == Depth(lines, k)
  }

  /** The innermost conditional after `k` lines is an INC_ASSERT region. */
  ghost predicate InRegion(lines: seq<Line>, k: int) {
    exists p :: Innermost(lines, k, p) && lines[p - 1].OpensInc()
  }

  /** Whether the branch of the region opened on line `p` that holds after `k` lines is kept: that of an `ifndef` is,
      and every `else` of the region turns to the other. */
  ghost predicate BranchKept(lines: seq<Line>, p: nat, k: nat)
    requires 1 <= p <= k <= |lines|
    decreases k
  {
    if k == p then lines[p - 1].Ifndef?
    else if lines[k - 1].Else? && Innermost(lines, k - 1, p) then !BranchKept(lines, p, k - 1)
    else BranchKept(lines, p, k - 1)
  }

  // ---- what becomes of each line ----------------------------------------------------------------------------------

  /** The line at index `i` opens, turns or closes a region. */
  ghost predicate RegionLine(lines: seq<Line>, i: nat)
    requires i < |lines|
  {
    lines[i].OpensInc() || ((lines[i].Else? || lines[i].Endif?) && InRegion(lines, i))
  }

  /** A line stays when it is no such directive and every region around it has its branch there kept. */
  ghost predicate Stays(lines: seq<Line>, i: nat)
    requires i < |lines|
  {
    !RegionLine(lines, i)
    && forall p :: OpenAt(lines, i, p) && lines[p - 1].OpensInc() ==> BranchKept(lines, p, i)
  }

  /** Lines `a` to `b` are a region. */
  predicate Region(lines: seq<Line>, a: int, b: int) {
    1 <= a < b <= |lines| && lines[a - 1].OpensInc() && lines[b - 1].Endif? && Innermost(lines, b - 1, a)
  }

  /** Line `l` is an `elsif` of a region. */
  ghost predicate ElsifOfRegion(lines: seq<Line>, l: int) {
    1 <= l <= |lines| && lines[l - 1].Elsif? && InRegion(lines, l - 1)
  }

  /** The lines that stay among the first `n`, in order. */
  ghost predicate Output(lines: seq<Line>, n: nat, at: seq<nat>, out: seq<Line>)
    requires n <= |lines|
  {
    Picks(lines, at, out) && forall i :: i in at <==> 0 <= i < n && Stays(lines, i)
  }

  /** The regions that have closed by line `n`, in the order they close. */
  ghost predicate Ranges(lines: seq<Line>, n: nat, removed: seq<(nat, nat)>) {
    && (forall r :: r in removed <==> r.1 <= n && Region(lines, r.0, r.1))
    && forall i, j :: 0 <= i < j < |removed| ==> removed[i].1 < removed[j].1
  }

  ghost predicate NoElsif(lines: seq<Line>, n: nat) {
    forall l :: 1 <= l <= n ==> !ElsifOfRegion(lines, l)
  }

  /** The outcome: an error names the first `elsif` of a region, or the innermost conditional left open; otherwise the
      lines that stay and the regions, if there are any. */
  ghost predicate Described(lines: seq<Line>, r: Outcome) {
    match r
    case ElsifInRegion(l) => ElsifOfRegion(lines, l) && NoElsif(lines, l - 1)
    case Unbalanced(l) => NoElsif(lines, |lines|) && Innermost(lines, |lines|, l)
    case NoRegion => NoElsif(lines, |lines|) && Depth(lines, |lines|) == 0 && Ranges(lines, |lines|, [])
    case Stripped(out, removed) =>
      && NoElsif(lines, |lines|) && Depth(lines, |lines|) == 0 && removed != [] && Ranges(lines, |lines|, removed)
      && exists at :: Output(lines, |lines|, at, out)
  }

  // ---- the stack holds the open conditionals ----------------------------------------------------------------------

  predicate FrameIs(lines: seq<Line>, n: nat, i: nat, f: Frame)
    requires n <= |lines|
  {
    OpenAt(lines, n, f.start) && Depth(lines, f.start) == i + 1 && f.inc == lines[f.start - 1].OpensInc()
  }

  ghost predicate StackIs(lines: seq<Line>, n: nat, stack: seq<Frame>)
    requires n <= |lines|
  {
    && |stack| == Depth(lines, n)
    && (forall i :: 0 <= i < |stack| ==> FrameIs(lines, n, i, stack[i]))
    && forall i :: 0 <= i < |stack| ==> stack[i].keeping == (stack[i].inc ==> BranchKept(lines, stack[i].start, n))
  }

  /** Of two open conditionals the later one is deeper. */
  lemma OpenDeeper(lines: seq<Line>, n: nat, p: nat, q: nat)
    requires OpenAt(lines, n, p) && OpenAt(lines, n, q) && p < q
    ensures Depth(lines, p) < Depth(lines, q)
  {
    assert Depth(lines, q - 1) >= Depth(lines, p);
  }

  lemma OpenUnique(lines: seq<Line>, n: nat, p: nat, q: nat)
    requires OpenAt(lines, n, p) && OpenAt(lines, n, q) && Depth(lines, p) == Depth(lines, q)
    ensures p == q
  {
    hide OpenAt;
    if p < q {
      OpenDeeper(lines, n, p, q);
    } else if q < p {
      OpenDeeper(lines, n, q, p);
    }
  }

  lemma OpenDepth(lines: seq<Line>, n: int, p: int)
    requires OpenAt(lines, n, p)
    ensures 1 <= Depth(lines, p) <= Depth(lines, n)
  {
  }

  lemma TopIsInnermost(lines: seq<Line>, n: nat, stack: seq<Frame>)
    requires n <= |lines| && StackIs(lines, n, stack)
    ensures stack != [] ==> Innermost(lines, n, stack[|stack| - 1].start)
                            && (InRegion(lines, n) <==> stack[|stack| - 1].inc)
    ensures stack == [] ==> forall p :: !OpenAt(lines, n, p)
  {
    if stack != [] {
      var f := stack[|stack| - 1];
      assert FrameIs(lines, n, |stack| - 1, f);
      hide OpenAt;
      forall p | Innermost(lines, n, p) ensures p == f.start {
        OpenUnique(lines, n, p, f.start);
      }
    } else {
      forall p ensures !OpenAt(lines, n, p) {
        if OpenAt(lines, n, p) {
          OpenDepth(lines, n, p);
        }
      }
    }
  }

  /** Every open conditional is in the stack. */
  lemma OpenInStack(lines: seq<Line>, n: nat, stack: seq<Frame>, p: nat)
    requires n <= |lines| && StackIs(lines, n, stack) && OpenAt(lines, n, p)
    ensures 1 <= Depth(lines, p) <= |stack| && stack[Depth(lines, p) - 1].start == p
  {
    assert Depth(lines, n) >= Depth(lines, p) >= 1;
    var i := Depth(lines, p) - 1;
    assert FrameIs(lines, n, i, stack[i]);
    OpenUnique(lines, n, p, stack[i].start);
  }

  lemma OpenStep(lines: seq<Line>, n: nat, p: nat)
    requires n < |lines| && p <= n
    ensures OpenAt(lines, n + 1, p) <==> OpenAt(lines, n, p) && Depth(lines, n + 1) >= Depth(lines, p)
  {
  }

  /** What the walk does to its stack on one line. */
  function Stacked(line: Line, stack: seq<Frame>, ln: nat): seq<Frame> {
    var top := |stack| - 1;
    if line.Opens() then stack + [Frame(line.sym == INC, if line.sym == INC then line.Ifndef? else true, ln)]
    else if line.Else? && stack != [] && stack[top].inc then stack[top := stack[top].(keeping := !stack[top].keeping)]
    else if line.Endif? && stack != [] then stack[..top]
    else stack
  }

  lemma StackStep(lines: seq<Line>, n: nat, stack: seq<Frame>)
    requires n < |lines| && StackIs(lines, n, stack)
    ensures StackIs(lines, n + 1, Stacked(lines[n], stack, n + 1))
  {
    var line, next := lines[n], Stacked(lines[n], stack, n + 1);
    assert |next| == Depth(lines, n + 1);
    forall i | 0 <= i < |next|
      ensures FrameIs(lines, n + 1, i, next[i])
      ensures next[i].keeping == (next[i].inc ==> BranchKept(lines, next[i].start, n + 1))
    {
      if i < |stack| {
        FrameStep(lines, n, stack, i);
      } else {
        assert next[i].start == n + 1;
      }
    }
  }

  lemma FrameStep(lines: seq<Line>, n: nat, stack: seq<Frame>, i: nat)
    requires n < |lines| && StackIs(lines, n, stack) && i < |stack|
    requires i < |Stacked(lines[n], stack, n + 1)| == Depth(lines, n + 1)
    ensures var f := Stacked(lines[n], stack, n + 1)[i];
            FrameIs(lines, n + 1, i, f) && f.keeping == (f.inc ==> BranchKept(lines, f.start, n + 1))
  {
    var f := stack[i];
    assert FrameIs(lines, n, i, f) && f.keeping == (f.inc ==> BranchKept(lines, f.start, n));
    OpenStep(lines, n, f.start);
    BranchStep(lines, n, f.start);
    FrameKept(lines[n], stack, n + 1, i);
    if lines[n].Else? {
      ElseStep(lines, n, stack, i);
    }
    hide StackIs, OpenAt, Depth, BranchKept, Stacked, Innermost;
  }

  lemma FrameKept(line: Line, stack: seq<Frame>, ln: nat, i: nat)
    requires i < |stack| && i < |Stacked(line, stack, ln)|
    ensures var f := stack[i];
            Stacked(line, stack, ln)[i] ==
            if line.Else? && i == |stack| - 1 && f.inc then f.(keeping := !f.keeping) else f
  {
  }

  lemma BranchStep(lines: seq<Line>, n: nat, p: nat)
    requires n < |lines| && 1 <= p <= n
    ensures BranchKept(lines, p, n + 1) <==>
            if lines[n].Else? && Innermost(lines, n, p) then !BranchKept(lines, p, n) else BranchKept(lines, p, n)
  {
  }

  /** An `else` is one of the innermost conditional only. */
  lemma ElseStep(lines: seq<Line>, n: nat, stack: seq<Frame>, i: nat)
    requires n < |lines| && StackIs(lines, n, stack) && i < |stack| && lines[n].Else?
    ensures Innermost(lines, n, stack[i].start) <==> i == |stack| - 1
  {
    assert FrameIs(lines, n, i, stack[i]);
  }

  // ---- one line ---------------------------------------------------------------------------------------------------

  /** Whether the walk drops the line as a directive of a region. */
  predicate Skips(line: Line, stack: seq<Frame>) {
    line.OpensInc() || ((line.Else? || line.Endif?) && stack != [] && stack[|stack| - 1].inc)
  }

  lemma SkipsExactly(lines: seq<Line>, n: nat, stack: seq<Frame>)
    requires n < |lines| && StackIs(lines, n, stack)
    ensures Skips(lines[n], stack) <==> RegionLine(lines, n)
  {
    hide StackIs, OpenAt;
    TopIsInnermost(lines, n, stack);
    assert stack == [] ==> !InRegion(lines, n);
  }

  /** A line that is no directive of a region stays exactly when every frame left after it is kept. */
  lemma StaysExactly(lines: seq<Line>, n: nat, stack: seq<Frame>)
    requires n < |lines| && StackIs(lines, n, stack) && !Skips(lines[n], stack)
    ensures Stays(lines, n) <==> Keeping(Stacked(lines[n], stack, n + 1))
  {
    SkipsExactly(lines, n, stack);
    var next := Stacked(lines[n], stack, n + 1);
    hide RegionLine, BranchKept, OpenAt, Depth;
    if Keeping(next) {
      forall p | OpenAt(lines, n, p) && lines[p - 1].OpensInc() ensures BranchKept(lines, p, n) {
        OpenInStack(lines, n, stack, p);
        var i := Depth(lines, p) - 1;
        assert FrameIs(lines, n, i, stack[i]);
        assert stack[i].inc && stack[i] == next[i];
      }
    }
    if Stays(lines, n) {
      forall i | 0 <= i < |next| ensures next[i].keeping {
        if i < |stack| {
          assert FrameIs(lines, n, i, stack[i]) && stack[i] == next[i];
        }
      }
    }
  }

  /** The line closes a region exactly when its `endif` meets one on top of the stack. */
  lemma ClosesExactly(lines: seq<Line>, n: nat, stack: seq<Frame>, a: nat)
    requires n < |lines| && StackIs(lines, n, stack)
    ensures Region(lines, a, n + 1) <==>
            lines[n].Endif? && stack != [] && stack[|stack| - 1].inc && stack[|stack| - 1].start == a
  {
    TopIsInnermost(lines, n, stack);
    if stack != [] {
      var f := stack[|stack| - 1];
      assert FrameIs(lines, n, |stack| - 1, f);
      if Innermost(lines, n, a) {
        OpenUnique(lines, n, a, f.start);
      }
    }
  }

  // ---- the whole walk ---------------------------------------------------------------------------------------------

  /** The walk has done the first `n` lines as described. */
  ghost predicate Done(lines: seq<Line>, n: nat, stack: seq<Frame>, at: seq<nat>, out: seq<Line>,
                       removed: seq<(nat, nat)>)
    requires n <= |lines|
  {
    StackIs(lines, n, stack) && Output(lines, n, at, out) && Ranges(lines, n, removed) && NoElsif(lines, n)
  }

  /** The results after one more line. */
  function OutAfter(line: Line, stack: seq<Frame>, out: seq<Line>, ln: nat): seq<Line> {
    if !Skips(line, stack) && Keeping(Stacked(line, stack, ln)) then out + [line] else out
  }

  function RemovedAfter(line: Line, stack: seq<Frame>, removed: seq<(nat, nat)>, ln: nat): seq<(nat, nat)> {
    if line.Endif? && stack != [] && stack[|stack| - 1].inc then removed + [(stack[|stack| - 1].start, ln)] else removed
  }

  predicate Stops(line: Line, stack: seq<Frame>) { line.Elsif? && stack != [] && stack[|stack| - 1].inc }

  lemma WalkOnce(lines: seq<Line>, stack: seq<Frame>, out: seq<Line>, removed: seq<(nat, nat)>, ln: nat)
    requires lines != []
    ensures Walk(lines, stack, out, removed, ln) ==
            if Stops(lines[0], stack) then ElsifInRegion(ln)
            else Walk(lines[1..], Stacked(lines[0], stack, ln), OutAfter(lines[0], stack, out, ln),
                      RemovedAfter(lines[0], stack, removed, ln), ln + 1)
  {
  }

  lemma OutputStep(lines: seq<Line>, n: nat, stack: seq<Frame>, at: seq<nat>, out: seq<Line>) returns (at': seq<nat>)
    requires n < |lines| && StackIs(lines, n, stack) && Output(lines, n, at, out)
    ensures Output(lines, n + 1, at', OutAfter(lines[n], stack, out, n + 1))
  {
    SkipsExactly(lines, n, stack);
    if !Skips(lines[n], stack) {
      StaysExactly(lines, n, stack);
    }
    assert Stays(lines, n) ==> !Skips(lines[n], stack);
    hide StackIs, Stacked, Skips, RegionLine, Keeping, Stays;
    at' := if Stays(lines, n) then at + [n] else at;
    OutputGrows(lines, n, at, out);
  }

  lemma OutputGrows(lines: seq<Line>, n: nat, at: seq<nat>, out: seq<Line>)
    requires n < |lines| && Output(lines, n, at, out)
    ensures Stays(lines, n) ==> Output(lines, n + 1, at + [n], out + [lines[n]])
    ensures !Stays(lines, n) ==> Output(lines, n + 1, at, out)
  {
    hide Stays;
    assert forall k :: 0 <= k < |at| ==> at[k] in at;
    forall i ensures i in at + [n] <==> i in at || i == n {
    }
  }

  lemma RangesStep(lines: seq<Line>, n: nat, stack: seq<Frame>, removed: seq<(nat, nat)>)
    requires n < |lines| && StackIs(lines, n, stack) && Ranges(lines, n, removed)
    ensures Ranges(lines, n + 1, RemovedAfter(lines[n], stack, removed, n + 1))
  {
    var next := RemovedAfter(lines[n], stack, removed, n + 1);
    forall r: (nat, nat) ensures r in next <==> r.1 <= n + 1 && Region(lines, r.0, r.1) {
      ClosesExactly(lines, n, stack, r.0);
      hide StackIs, Region;
      assert r in removed <==> r.1 <= n && Region(lines, r.0, r.1);
      assert r == (r.0, r.1);
    }
    hide StackIs, Region;
  }

  lemma NoElsifStep(lines: seq<Line>, n: nat, stack: seq<Frame>)
    requires n < |lines| && StackIs(lines, n, stack) && NoElsif(lines, n)
    ensures Stops(lines[n], stack) <==> ElsifOfRegion(lines, n + 1)
    ensures !Stops(lines[n], stack) ==> NoElsif(lines, n + 1)
  {
    TopIsInnermost(lines, n, stack);
    hide StackIs, OpenAt;
    assert stack == [] ==> !InRegion(lines, n);
  }

  lemma {:induction false} WalkFrom(lines: seq<Line>, n: nat, stack: seq<Frame>, at: seq<nat>, out: seq<Line>,
                                    removed: seq<(nat, nat)>)
    requires n <= |lines| && Done(lines, n, stack, at, out, removed)
    ensures Described(lines, Walk(lines[n..], stack, out, removed, n + 1))
    decreases |lines| - n
  {
    if n == |lines| {
      WalkEnds(lines, stack, at, out, removed);
    } else {
      assert lines[n..][0] == lines[n] && lines[n..][1..] == lines[n + 1..];
      WalkOnce(lines[n..], stack, out, removed, n + 1);
      NoElsifStep(lines, n, stack);
      if !Stops(lines[n], stack) {
        StackStep(lines, n, stack);
        var at' := OutputStep(lines, n, stack, at, out);
        RangesStep(lines, n, stack, removed);
        hide StackIs, Output, Ranges, NoElsif, Described, Walk, Stacked, OutAfter, RemovedAfter;
        WalkFrom(lines, n + 1, Stacked(lines[n], stack, n + 1), at', OutAfter(lines[n], stack, out, n + 1),
                 RemovedAfter(lines[n], stack, removed, n + 1));
      }
    }
  }

  lemma WalkEnds(lines: seq<Line>, stack: seq<Frame>, at: seq<nat>, out: seq<Line>, removed: seq<(nat, nat)>)
    requires Done(lines, |lines|, stack, at, out, removed)
    ensures Described(lines, Walk(lines[|lines|..], stack, out, removed, |lines| + 1))
  {
    TopIsInnermost(lines, |lines|, stack);
    hide Output, Ranges, NoElsif, OpenAt, Innermost;
    assert lines[|lines|..] == [];
  }

  /** The outcome of the walk on every text: which line an error names, which lines are put out and which regions are
      recorded. */
  lemma WalkDescribed(lines: seq<Line>)
    ensures Described(lines, Walk(lines, [], [], [], 1))
  {
    assert lines[0..] == lines;
    assert Done(lines, 0, [], [], [], []) by { NothingDone(lines); }
    WalkFrom(lines, 0, [], [], [], []);
  }

  lemma NothingDone(lines: seq<Line>)
    ensures Done(lines, 0, [], [], [], [])
  {
    forall r: (nat, nat) ensures r in [] <==> r.1 <= 0 && Region(lines, r.0, r.1) {
    }
  }

  // ---- outside the regions every line stays -----------------------------------------------------------------------

  /** An open region of a text that leaves nothing open closes. */
  lemma {:induction false} ClosesLater(lines: seq<Line>, k: nat, p: nat) returns (b: nat)
    requires OpenAt(lines, k, p) && lines[p - 1].OpensInc() && Depth(lines, |lines|) == 0
    ensures b > k && Region(lines, p, b)
    decreases |lines| - k
  {
    OpenDepth(lines, k, p);
    assert k < |lines|;
    OpenStep(lines, k, p);
    if OpenAt(lines, k + 1, p) {
      b := ClosesLater(lines, k + 1, p);
    } else {
      b := k + 1;
    }
  }

  /** The line at index `i` is in one of the ranges. */
  predicate Within(removed: seq<(nat, nat)>, i: nat) {
    exists r :: r in removed && r.0 <= i + 1 <= r.1
  }

  lemma DroppedIsWithin(lines: seq<Line>, removed: seq<(nat, nat)>, i: nat)
    requires Depth(lines, |lines|) == 0 && Ranges(lines, |lines|, removed) && i < |lines| && !Stays(lines, i)
    ensures Within(removed, i)
  {
    var p: nat, b: nat;
    if lines[i].OpensInc() {
      p := i + 1;
      b := ClosesLater(lines, i + 1, p);
    } else {
      p :| OpenAt(lines, i, p) && lines[p - 1].OpensInc();
      b := ClosesLater(lines, i, p);
    }
    assert (p, b) in removed && (p, b).0 <= i + 1 <= (p, b).1;
  }

  /** Every accepted text is put out verbatim outside the recorded ranges: what the output leaves out lies in one of
      them, and their first and last lines are left out. */
  lemma VerbatimOutside(lines: seq<Line>)
    requires Walk(lines, [], [], [], 1).Stripped?
    ensures var r := Walk(lines, [], [], [], 1);
            exists at :: Picks(lines, at, r.lines)
                         && (forall i :: 0 <= i < |lines| && !Within(r.removed, i) ==> i in at)
                         && (forall p :: p in r.removed ==> 1 <= p.0 < p.1 && p.0 - 1 !in at && p.1 - 1 !in at)
  {
    WalkDescribed(lines);
    var r := Walk(lines, [], [], [], 1);
    hide Walk, NoElsif;
    var at :| Output(lines, |lines|, at, r.lines);
    forall i | 0 <= i < |lines| && !Within(r.removed, i) ensures i in at {
      if !Stays(lines, i) {
        DroppedIsWithin(lines, r.removed, i);
      }
    }
    forall p | p in r.removed ensures 1 <= p.0 < p.1 && p.0 - 1 !in at && p.1 - 1 !in at {
      assert Region(lines, p.0, p.1);
      EndsAreDirectives(lines, p.0, p.1);
    }
  }

  lemma EndsAreDirectives(lines: seq<Line>, a: nat, b: nat)
    requires Region(lines, a, b)
    ensures RegionLine(lines, a - 1) && RegionLine(lines, b - 1)
  {
    assert InRegion(lines, b - 1);
  }
}
