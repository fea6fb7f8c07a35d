/**
 The raster benchmark (`gen_exact_raster` of `scripts/profile_cases.py`): a line counter of 800 and a row counter
 of any modulus. The depth of its target is exact from every state, those outside the raster included.
 */
module Raster {

  import opened Arith
  import opened Btor

  const H := 800

  const HB := 10

  function Listing(v: nat): Btor.Listing
    requires v >= 1
  {
    seq(11, i requires 0 <= i < 11 => HeadLine(v, i)) +
    [Bin(Eq, 1, 4, 10), Bin(Eq, 1, 5, 11), Const(2, One), Const(3, One), Bin(Add, 2, 4, 14), Bin(Add, 3, 5, 15),
     Ite(2, 12, 6, 16), Next(2, 4, 18), Ite(3, 13, 7, 17), Ite(3, 12, 20, 5), Next(3, 5, 21)]
  }

  predicate Head(ls: Btor.Listing, v: nat)
    requires v >= 1
  {
    && At(ls, 1, Sort(1)) && At(ls, 2, Sort(HB)) && At(ls, 3, Sort(Bits(v)))
    && At(ls, 4, State(2, "hcount")) && At(ls, 5, State(3, "vcount")) && At(ls, 6, Const(2, Zero))
    && At(ls, 7, Const(3, Zero))
    && At(ls, 8, Init(2, 4, 6)) && At(ls, 9, Init(3, 5, 7))
    && At(ls, 10, Const(2, Constd(H - 1))) && At(ls, 11, Const(3, Constd(v - 1)))
  }

  predicate Tail(ls: Btor.Listing) {
    && |ls| == 22
    && At(ls, 12, Bin(Eq, 1, 4, 10)) && At(ls, 13, Bin(Eq, 1, 5, 11)) && At(ls, 14, Const(2, One))
    && At(ls, 15, Const(3, One))
    && At(ls, 16, Bin(Add, 2, 4, 14)) && At(ls, 17, Bin(Add, 3, 5, 15)) && At(ls, 18, Ite(2, 12, 6, 16))
    && At(ls, 19, Next(2, 4, 18))
    && At(ls, 20, Ite(3, 13, 7, 17)) && At(ls, 21, Ite(3, 12, 20, 5)) && At(ls, 22, Next(3, 5, 21))
  }

  lemma HeadOk(ls: Btor.Listing, v: nat, i: nat)
    requires v >= 1 && Head(ls, v) && i < 11
    ensures LineOk(ls, i) && !ls[i].Next?
  {
    Widths(ls, v);
    assert ls[i] == HeadLine(v, i);
    if 5 <= i {
      hide Head;
      ConstOk(ls, v, i);
    } else {
      hide Bits, Pow2;
    }
  }

  function HeadLine(v: nat, i: nat): Line
    requires v >= 1 && i < 11
  {
    [Sort(1), Sort(HB), Sort(Bits(v)), State(2, "hcount"), State(3, "vcount"), Const(2, Zero), Const(3, Zero),
     Init(2, 4, 6), Init(3, 5, 7), Const(2, Constd(H - 1)), Const(3, Constd(v - 1))][i]
  }

  lemma ConstOk(ls: Btor.Listing, v: nat, i: nat)
    requires v >= 1 && 5 <= i < 11 && i < |ls| && ls[i] == HeadLine(v, i)
    requires SortWidth(ls, 2) == HB && SortWidth(ls, 3) == Bits(v) && ls[3].State? && ls[4].State?
    requires Width(ls, 4) == HB && Width(ls, 5) == Bits(v) && Width(ls, 6) == HB && Width(ls, 7) == Bits(v)
    ensures LineOk(ls, i) && !ls[i].Next?
  {
    assert Pow2(HB) == 1024 && v <= Pow2(Bits(v));
    hide Pow2, Bits, Width, SortWidth;
  }

  lemma Widths(ls: Btor.Listing, v: nat)
    requires v >= 1 && Head(ls, v)
    ensures SortWidth(ls, 1) == 1 && SortWidth(ls, 2) == HB && SortWidth(ls, 3) == Bits(v)
    ensures Width(ls, 4) == HB && Width(ls, 5) == Bits(v) && Width(ls, 6) == HB && Width(ls, 7) == Bits(v)
    ensures Width(ls, 10) == HB && Width(ls, 11) == Bits(v) && ls[3].State? && ls[4].State?
  {
  }

  lemma TailWidths(ls: Btor.Listing, v: nat)
    requires v >= 1 && SortWidth(ls, 1) == 1 && SortWidth(ls, 2) == HB && SortWidth(ls, 3) == Bits(v) && Tail(ls)
    ensures Width(ls, 12) == 1 && Width(ls, 13) == 1 && Width(ls, 14) == HB && Width(ls, 15) == Bits(v)
    ensures Width(ls, 16) == HB && Width(ls, 17) == Bits(v) && Width(ls, 18) == HB && Width(ls, 20) == Bits(v)
            && Width(ls, 21) == Bits(v)
  {
  }

  lemma TailOk(ls: Btor.Listing, v: nat, i: nat)
    requires v >= 1 && Head(ls, v) && Tail(ls) && 11 <= i < 22
    ensures LineOk(ls, i)
  {
    Widths(ls, v);
    TailWidths(ls, v);
    forall j | 0 <= j < 11 ensures !ls[j].Next? {
      HeadOk(ls, v, j);
    }
    hide Head, Pow2;
    if i == 18 {
      assert NoNext(ls, 18, 4);
    } else if i == 21 {
      assert ls[18].state == 4;
      assert NoNext(ls, 21, 5);
    }
  }

  lemma RasterOk(v: nat)
    requires v >= 1
    ensures WellFormed(Listing(v)) && Head(Listing(v), v) && Tail(Listing(v))
  {
    var ls := Listing(v);
    hide *;
    ListingHead(v);
    ListingTail(v);
    TailLength(ls);
    AllOk(ls, v);
  }

  lemma ListingHead(v: nat)
    requires v >= 1
    ensures Head(Listing(v), v)
  {
    hide Bits;
    forall i | 0 <= i < 11 ensures i < |Listing(v)| && Listing(v)[i] == HeadLine(v, i) {
    }
    hide Listing;
  }

  lemma ListingTail(v: nat)
    requires v >= 1
    ensures Tail(Listing(v))
  {
  }

  lemma AllOk(ls: Btor.Listing, v: nat)
    requires v >= 1 && |ls| == 22 && Head(ls, v) && Tail(ls)
    ensures WellFormed(ls)
  {
    hide Head, Tail, LineOk;
    forall i | 0 <= i < |ls| ensures LineOk(ls, i) {
      if i < 11 {
        HeadOk(ls, v, i);
      } else {
        TailOk(ls, v, i);
      }
    }
  }

  lemma TailLength(ls: Btor.Listing)
    requires Tail(ls)
    ensures |ls| == 22
  {
  }

  // ---- one edge ------------------------------------------------------------------------------------------------

  datatype Beam = Beam(x: nat, y: nat)

  predicate InSpace(v: nat, s: Beam)
    requires v >= 1
  {
    s.x < Pow2(HB) && s.y < Pow2(Bits(v))
  }

  function Step(v: nat, s: Beam): Beam
    requires v >= 1
  {
    if s.x == H - 1 then Beam(0, if s.y == v - 1 then 0 else Inc(Bits(v), s.y)) else Beam(Inc(HB, s.x), s.y)
  }

  /** Refinement: an edge of the listing is a step, from every state the widths admit. */
  lemma EdgeIsStep(v: nat, env: Env, env': Env)
    requires v >= 1 && Edge(Listing(v), env, env')
    ensures InSpace(v, Beam(env(4), env(5))) && Beam(env'(4), env'(5)) == Step(v, Beam(env(4), env(5)))
  {
    var ls := Listing(v);
    RasterOk(v);
    Widths(ls, v);
    TailWidths(ls, v);
    hide Listing;
    EdgeNext(ls, v, env, env');
    hide Val, LineOk, WellFormed, Valuation, Head, Pow2, Edge;
    LeafVal(ls, env, 4);
    LeafVal(ls, env, 5);
    LeafVal(ls, env, 6);
    LeafVal(ls, env, 7);
    EqVals(ls, v, env);
    AddVals(ls, v, env);
    IteVal(ls, env, 18);
    IteVal(ls, env, 20);
    IteVal(ls, env, 21);
  }

  lemma EdgeNext(ls: Btor.Listing, v: nat, env: Env, env': Env)
    requires v >= 1 && Edge(ls, env, env') && Head(ls, v) && Tail(ls)
    ensures env'(4) == Val(ls, env, 18) && env'(5) == Val(ls, env, 21)
    ensures env(4) < Pow2(HB) && env(5) < Pow2(Bits(v)) && Valuation(ls, env)
  {
    hide Val, Pow2;
    assert ls[18].Next? && ls[21].Next?;
    assert ls[3].State? && ls[4].State?;
  }

  lemma EqVals(ls: Btor.Listing, v: nat, env: Env)
    requires v >= 1 && WellFormed(ls) && Valuation(ls, env) && Head(ls, v) && Tail(ls)
    requires Width(ls, 12) == 1 && Width(ls, 13) == 1
    ensures Val(ls, env, 12) == if env(4) == H - 1 then 1 else 0
    ensures Val(ls, env, 13) == if env(5) == v - 1 then 1 else 0
  {
    hide Val, LineOk, WellFormed, Valuation, Pow2;
    LeafVal(ls, env, 4);
    LeafVal(ls, env, 5);
    LeafVal(ls, env, 10);
    LeafVal(ls, env, 11);
    hide Head;
    BinVal(ls, env, 12);
    BinVal(ls, env, 13);
  }

  lemma AddVals(ls: Btor.Listing, v: nat, env: Env)
    requires v >= 1 && WellFormed(ls) && Valuation(ls, env) && Head(ls, v) && Tail(ls)
    requires Width(ls, 16) == HB && Width(ls, 17) == Bits(v) && env(4) < Pow2(HB) && env(5) < Pow2(Bits(v))
    ensures Val(ls, env, 16) == Inc(HB, env(4)) && Val(ls, env, 17) == Inc(Bits(v), env(5))
  {
    hide Val, LineOk, WellFormed, Valuation, Pow2;
    LeafVal(ls, env, 4);
    LeafVal(ls, env, 5);
    hide Head;
    LeafVal(ls, env, 14);
    LeafVal(ls, env, 15);
    BinVal(ls, env, 16);
    BinVal(ls, env, 17);
    IncIsModular(HB, env(4));
    IncIsModular(Bits(v), env(5));
  }

  // ---- the run ----------------------------------------------------------------------------------------------------

  function After(v: nat, s: Beam, n: nat): Beam
    requires v >= 1
    decreases n
  {
    if n == 0 then s else After(v, Step(v, s), n - 1)
  }

  /** Edges to the end of the line: beyond the raster the counter first runs out its width. */
  function LineLeft(x: nat): nat
    requires x < 1024
  {
    if x < H then H - x else (1024 - x) + H
  }

  /** Line ends until the row counter reads `v - 1`: beyond the raster it first runs out its width. */
  function RowsLeft(v: nat, y: nat): nat
    requires v >= 1 && y < Pow2(Bits(v))
  {
    if y < v then v - 1 - y else Pow2(Bits(v)) - y + (v - 1)
  }

  function Depth(v: nat, s: Beam): nat
    requires v >= 1 && s.x < 1024 && s.y < Pow2(Bits(v))
  {
    if s.y == v - 1 then 0 else LineLeft(s.x) + (RowsLeft(v, s.y) - 1) * H
  }

  lemma LineStep(v: nat, s: Beam)
    requires v >= 1 && s.x < 1024 && s.y < Pow2(Bits(v)) && s.y != v - 1
    ensures var t := Step(v, s); t.x < 1024 && t.y < Pow2(Bits(v)) && Depth(v, t) + 1 == Depth(v, s)
  {
    assert Pow2(HB) == 1024;
    hide Bits, Pow2;
  }

  /** From every state of the two counters, `vcount == v - 1` holds for the first time after exactly `Depth` edges. */
  lemma {:induction false} TargetDepth(v: nat, s: Beam, n: nat)
    requires v >= 1 && s.x < 1024 && s.y < Pow2(Bits(v))
    ensures n < Depth(v, s) ==> After(v, s, n).y != v - 1
    ensures n == Depth(v, s) ==> After(v, s, n).y == v - 1
    decreases n
  {
    if n > 0 && s.y != v - 1 {
      LineStep(v, s);
      TargetDepth(v, Step(v, s), n - 1);
    }
  }

  lemma AfterSnoc(v: nat, s: Beam, n: nat)
    requires v >= 1
    ensures After(v, s, n + 1) == Step(v, After(v, s, n))
    decreases n
  {
    if n > 0 {
      AfterSnoc(v, Step(v, s), n - 1);
    }
  }

  /** From reset the counters read the time: the line position and the row, each exactly. */
  lemma {:induction false} ReadsTheTime(v: nat, x: nat, row: nat, turns: nat)
    requires v >= 1 && x < H && row < v
    ensures After(v, Beam(0, 0), (turns * v + row) * H + x) == Beam(x, row)
    decreases turns, row, x
  {
    var n := (turns * v + row) * H + x;
    assert After(v, Beam(0, 0), 0) == Beam(0, 0);
    assert Pow2(HB) == 1024;
    hide After, Bits, Pow2;
    if x > 0 {
      ReadsTheTime(v, x - 1, row, turns);
      AfterSnoc(v, Beam(0, 0), n - 1);
    } else if row > 0 {
      ReadsTheTime(v, H - 1, row - 1, turns);
      AfterSnoc(v, Beam(0, 0), n - 1);
    } else if turns > 0 {
      ReadsTheTime(v, H - 1, v - 1, turns - 1);
      assert ((turns - 1) * v + (v - 1)) * H + (H - 1) == n - 1 by { MulSub(turns, 1, v); }
      AfterSnoc(v, Beam(0, 0), n - 1);
    }
  }

  /** Every run of the listing is the run of the counters, from any state. */
  lemma {:induction false} RunIsAfter(v: nat, run: seq<Env>, k: nat)
    requires v >= 1 && Run(Listing(v), run) && k < |run|
    ensures Beam(run[k](4), run[k](5)) == After(v, Beam(run[0](4), run[0](5)), k)
  {
    hide Listing, Edge;
    if k > 0 {
      RunIsAfter(v, run, k - 1);
      assert Edge(Listing(v), run[k - 1], run[k - 1 + 1]);
      EdgeIsStep(v, run[k - 1], run[k]);
      AfterSnoc(v, Beam(run[0](4), run[0](5)), k - 1);
    }
  }

  /** On the listing itself, from every valuation: no run reads `vcount == v - 1` sooner, and every run that is long
      enough reads it then. */
  lemma NetTargetDepth(v: nat, run: seq<Env>, k: nat)
    requires v >= 1 && Run(Listing(v), run) && k < |run|
    requires run[0](4) < 1024 && run[0](5) < Pow2(Bits(v))
    ensures var d := Depth(v, Beam(run[0](4), run[0](5)));
            (k < d ==> run[k](5) != v - 1) && (k == d ==> run[k](5) == v - 1)
  {
    hide Run;
    RunIsAfter(v, run, k);
    TargetDepth(v, Beam(run[0](4), run[0](5)), k);
  }

  /** A reset valuation is the top left corner, and only it is. */
  lemma ResetIsCorner(v: nat, env: Env)
    requires v >= 1 && Valuation(Listing(v), env)
    ensures Initial(Listing(v), env) <==> env(4) == 0 && env(5) == 0
  {
    hide *;
    RasterOk(v);
    CornerOf(Listing(v), v, env);
  }

  lemma CornerOf(ls: Btor.Listing, v: nat, env: Env)
    requires v >= 1 && WellFormed(ls) && Head(ls, v) && Tail(ls) && Valuation(ls, env)
    ensures Initial(ls, env) <==> env(4) == 0 && env(5) == 0
  {
    hide Head, Tail, WellFormed, Valuation, Val, Bits;
    TailLength(ls);
    forall i | 0 <= i < 22 && ls[i].Init? ensures i == 7 || i == 8 {
      OnlyInits(ls, v, i);
    }
    InitLines(ls, v, env);
  }

  lemma InitLines(ls: Btor.Listing, v: nat, env: Env)
    requires v >= 1 && WellFormed(ls) && Head(ls, v) && |ls| == 22
    ensures ls[7] == Init(2, 4, 6) && ls[8] == Init(3, 5, 7) && Val(ls, env, 6) == 0 && Val(ls, env, 7) == 0
  {
    hide Val, WellFormed, Bits;
    LeafVal(ls, env, 6);
    LeafVal(ls, env, 7);
  }

  lemma OnlyInits(ls: Btor.Listing, v: nat, i: nat)
    requires v >= 1 && Head(ls, v) && Tail(ls) && i < 22 && ls[i].Init?
    ensures i == 7 || i == 8
  {
    hide Bits;
  }

  /** On every run of the listing from reset the counters read the time, 800 positions to a line. */
  lemma NetReadsTheTime(v: nat, run: seq<Env>, x: nat, row: nat, turns: nat)
    requires v >= 1 && Run(Listing(v), run) && Initial(Listing(v), run[0]) && x < 800 && row < v
    requires (turns * v + row) * 800 + x < |run|
    ensures var k := (turns * v + row) * 800 + x; run[k](4) == x && run[k](5) == row
  {
    var k := (turns * v + row) * 800 + x;
    hide Listing, Bits;
    ResetIsCorner(v, run[0]);
    RunIsAfter(v, run, k);
    ReadsTheTime(v, x, row, turns);
  }

  /** And the target is first read after exactly 800 edges for each row but the last. */
  lemma NetTargetFromReset(v: nat, run: seq<Env>, k: nat)
    requires v >= 1 && Run(Listing(v), run) && Initial(Listing(v), run[0]) && k < |run|
    ensures (k < 800 * (v - 1) ==> run[k](5) != v - 1) && (k == 800 * (v - 1) ==> run[k](5) == v - 1)
  {
    hide Listing;
    ResetIsCorner(v, run[0]);
    NetTargetDepth(v, run, k);
  }

  /** The target `vcount == v - 1` names line 5. */
  lemma RasterNames(v: nat)
    requires v >= 1
    ensures var ls := Listing(v);
            forall i :: 0 <= i < |ls| && ls[i].State? ==> (ls[i].symbol == "vcount" <==> i == 4)
  {
    RasterOk(v);
    hide Listing, Bits, WellFormed;
    HeadNames(Listing(v), v);
    TailNames(Listing(v));
  }

  lemma HeadNames(ls: Btor.Listing, v: nat)
    requires v >= 1 && Head(ls, v)
    ensures |ls| >= 11 && forall i :: 0 <= i < 11 && ls[i].State? ==> (ls[i].symbol == "vcount" <==> i == 4)
  {
    hide Bits;
    assert "vcount"[0] != "hcount"[0];
  }

  lemma TailNames(ls: Btor.Listing)
    requires Tail(ls)
    ensures |ls| == 22 && forall i :: 11 <= i < 22 ==> !ls[i].State?
  {
  }
}
