/**
 `compact_lines` of `crates/mununu-core/src/trace.rs`: source locations as maximal runs of consecutive lines,
 grouped by file. The grouped runs are a canonical form of the set of locations.
 */
module SourceLines {

  const MAX := 0xFFFF_FFFF

  type Line = x: nat | x <= MAX

  datatype Loc = Loc(file: string, line: Line)

  datatype Run = Run(start: Line, end: Line)

  datatype Group = Group(file: string, runs: seq<Run>)

  // ---- the order of locations -----------------------------------------------------------------------------------

  predicate StringLess(a: string, b: string) {
    b != [] && (a == [] || a[0] < b[0] || (a[0] == b[0] && StringLess(a[1..], b[1..])))
  }

  lemma {:induction false} StringOrder(a: string, b: string)
    ensures a == b ==> !StringLess(a, b)
    ensures a != b ==> (StringLess(a, b) <==> !StringLess(b, a))
    decreases |a|
  {
    if a != [] && b != [] {
      assert a == [a[0]] + a[1..] && b == [b[0]] + b[1..];
      StringOrder(a[1..], b[1..]);
    }
  }

  /** The order of file names: at the first place where two names differ the smaller character comes first, and a name
      comes before the longer ones it begins. */
  lemma {:induction false} StringLessExactly(a: string, b: string)
    ensures StringLess(a, b) <==>
            exists k :: 0 <= k <= |a| && k < |b| && a[..k] == b[..k] && (k == |a| || a[k] < b[k])
    decreases |a|
  {
    if b == [] {
    } else if a == [] {
      assert a[..0] == b[..0];
    } else if a[0] != b[0] {
      assert a[..0] == b[..0];
      forall k | 0 < k <= |a| && k < |b| ensures a[..k] != b[..k] {
        assert a[..k][0] != b[..k][0];
      }
    } else {
      var x, y := a[1..], b[1..];
      StringLessExactly(x, y);
      if k :| 0 <= k <= |x| && k < |y| && x[..k] == y[..k] && (k == |x| || x[k] < y[k]) {
        assert a[..k + 1] == [a[0]] + x[..k] && b[..k + 1] == [b[0]] + y[..k];
      }
      if k :| 0 <= k <= |a| && k < |b| && a[..k] == b[..k] && (k == |a| || a[k] < b[k]) {
        assert k > 0 && x[..k - 1] == a[..k][1..] && y[..k - 1] == b[..k][1..];
      }
    }
  }

  /** So of two files the one whose name goes on with a smaller character is listed first. */
  lemma BranchingNames(stem: string, a: string, b: string)
    requires a != [] && b != [] && a[0] < b[0]
    ensures StringLess(stem + a, stem + b)
  {
    var k := |stem|;
    assert (stem + a)[..k] == (stem + b)[..k] && (stem + a)[k] == a[0] && (stem + b)[k] == b[0];
    StringLessExactly(stem + a, stem + b);
  }

  /** As the program's own example has it. */
  lemma PumpPairFirst()
    ensures StringLess("pump_pair.sv", "pump_pair_sva.sv")
  {
    BranchingNames("pump_pair", ".sv", "_sva.sv");
    assert "pump_pair" + ".sv" == "pump_pair.sv" && "pump_pair" + "_sva.sv" == "pump_pair_sva.sv";
  }

  lemma {:induction false} StringTransitive(a: string, b: string, c: string)
    requires StringLess(a, b) && StringLess(b, c)
    ensures StringLess(a, c)
    decreases |a|
  {
    if a != [] && a[0] == b[0] && b[0] == c[0] {
      StringTransitive(a[1..], b[1..], c[1..]);
    }
  }

  predicate Less(a: Loc, b: Loc) {
    StringLess(a.file, b.file) || (a.file == b.file && a.line < b.line)
  }

  lemma LessOrder(a: Loc, b: Loc)
    ensures a == b ==> !Less(a, b)
    ensures a != b ==> (Less(a, b) <==> !Less(b, a))
  {
    StringOrder(a.file, b.file);
  }

  // ---- sort and dedup ---------------------------------------------------------------------------------------------

  function Insert(x: Loc, s: seq<Loc>): seq<Loc> {
    if s == [] || !Less(s[0], x) then [x] + s else [s[0]] + Insert(x, s[1..])
  }

  function Sort(s: seq<Loc>): seq<Loc> {
    if s == [] then [] else Insert(s[0], Sort(s[1..]))
  }

  /** Of equal neighbours only one stays. */
  function Dedup(s: seq<Loc>): seq<Loc> {
    if |s| <= 1 then s
    else if s[0] == s[1] then Dedup(s[1..])
    else [s[0]] + Dedup(s[1..])
  }

  predicate Weakly(s: seq<Loc>) {
    forall i :: 0 <= i < |s| - 1 ==> !Less(s[i + 1], s[i])
  }

  predicate Ascending(s: seq<Loc>) {
    forall i :: 0 <= i < |s| - 1 ==> Less(s[i], s[i + 1])
  }

  lemma {:induction false} InsertKeeps(x: Loc, s: seq<Loc>)
    requires Weakly(s)
    ensures Weakly(Insert(x, s)) && (forall y :: y in Insert(x, s) <==> y == x || y in s)
    ensures Insert(x, s)[0] == x || (s != [] && Insert(x, s)[0] == s[0])
  {
    if s != [] {
      assert s == [s[0]] + s[1..];
      if Less(s[0], x) {
        InsertKeeps(x, s[1..]);
        LessOrder(s[0], x);
      }
    }
  }

  lemma {:induction false} SortKeeps(s: seq<Loc>)
    ensures Weakly(Sort(s)) && (forall y :: y in Sort(s) <==> y in s)
  {
    if s != [] {
      assert s == [s[0]] + s[1..];
      SortKeeps(s[1..]);
      InsertKeeps(s[0], Sort(s[1..]));
    }
  }

  lemma {:induction false} DedupKeeps(s: seq<Loc>)
    requires Weakly(s)
    ensures Ascending(Dedup(s)) && (forall y :: y in Dedup(s) <==> y in s)
    ensures s != [] ==> Dedup(s) != [] && Dedup(s)[0] == s[0]
  {
    if |s| > 1 {
      assert s == [s[0]] + s[1..];
      DedupKeeps(s[1..]);
      LessOrder(s[0], s[0 + 1]);
    }
  }

  // ---- runs -----------------------------------------------------------------------------------------------------

  /** One run of one file. */
  datatype Piece = Piece(file: string, run: Run)

  predicate InPiece(p: Piece, l: Loc) {
    l.file == p.file && p.run.start <= l.line <= p.run.end
  }

  predicate Covers(ps: seq<Piece>, l: Loc) {
    ps != [] && (InPiece(ps[|ps| - 1], l) || Covers(ps[..|ps| - 1], l))
  }

  /** `q` comes after `p`: a later file, or the same file with at least one line between. */
  predicate Beyond(p: Piece, q: Piece) {
    StringLess(p.file, q.file) || (p.file == q.file && p.run.end + 1 < q.run.start)
  }

  predicate CanonicalPieces(ps: seq<Piece>) {
    ps == [] || (var init, last := ps[..|ps| - 1], ps[|ps| - 1];
                 CanonicalPieces(init) && last.run.start <= last.run.end
                     && (init == [] || Beyond(init[|init| - 1], last)))
  }

  /** Every line covered before the last run lies before it with a gap. */
  lemma {:induction false} CoveredBefore(ps: seq<Piece>, q: Piece, l: Loc)
    requires CanonicalPieces(ps) && ps != [] && Beyond(ps[|ps| - 1], q) && Covers(ps, l)
    ensures StringLess(l.file, q.file) || (l.file == q.file && l.line + 1 < q.run.start)
  {
    var init, last := ps[..|ps| - 1], ps[|ps| - 1];
    if !InPiece(last, l) {
      CoveredBefore(init, last, l);
      if StringLess(l.file, last.file) && StringLess(last.file, q.file) {
        StringTransitive(l.file, last.file, q.file);
      }
    }
  }

  /** The last run of a canonical form is the maximal run that ends at the greatest location. */
  lemma LastPiece(ps: seq<Piece>)
    requires CanonicalPieces(ps) && ps != []
    ensures var p := ps[|ps| - 1];
            && (forall l :: Covers(ps, l) ==> !Less(Loc(p.file, p.run.end), l))
            && (forall l: Loc :: l.file == p.file && p.run.start <= l.line <= p.run.end ==> Covers(ps, l))
            && (p.run.start > 0 ==> !Covers(ps, Loc(p.file, p.run.start - 1)))
            && (forall l :: InPiece(p, l) ==> !Covers(ps[..|ps| - 1], l))
  {
    var p, init := ps[|ps| - 1], ps[..|ps| - 1];
    StringOrder(p.file, p.file);
    forall l | Covers(ps, l) ensures !Less(Loc(p.file, p.run.end), l) {
      if !InPiece(p, l) {
        assert Covers(init, l);
        CoveredBefore(init, p, l);
        StringOrder(l.file, p.file);
      }
    }
    forall l: Loc | l.file == p.file && l.line + 1 >= p.run.start ensures !Covers(init, l) {
      if Covers(init, l) {
        CoveredBefore(init, p, l);
      }
    }
  }

  ghost predicate SameLines(ps: seq<Piece>, qs: seq<Piece>) {
    forall l :: Covers(ps, l) <==> Covers(qs, l)
  }

  /** Two canonical forms that cover the same lines are the same. */
  lemma {:induction false} PiecesUnique(ps: seq<Piece>, qs: seq<Piece>)
    requires CanonicalPieces(ps) && CanonicalPieces(qs)
    requires SameLines(ps, qs)
    ensures ps == qs
  {
    if ps == [] || qs == [] {
      if ps == [] { EmptyCovers(ps, qs); }
      if qs == [] { EmptyCovers(qs, ps); }
    } else {
      var p, q := ps[|ps| - 1], qs[|qs| - 1];
      LastPiece(ps);
      LastPiece(qs);
      SameLast(ps, qs);
      assert ps[..|ps| - 1] + [p] == ps && qs[..|qs| - 1] + [p] == qs;
      var ps', qs' := ps[..|ps| - 1], qs[..|qs| - 1];
      forall l ensures Covers(ps', l) <==> Covers(qs', l) {
        assert Covers(ps, l) <==> Covers(qs, l);
      }
      PiecesUnique(ps', qs');
    }
  }

  lemma EmptyCovers(ps: seq<Piece>, qs: seq<Piece>)
    requires CanonicalPieces(qs) && ps == []
    requires SameLines(ps, qs)
    ensures qs == []
  {
    if qs != [] {
      var q := qs[|qs| - 1];
      assert !Covers(ps, Loc(q.file, q.run.end));
      assert Covers(qs, Loc(q.file, q.run.end));
      assert false;
    }
  }

  lemma SameLast(ps: seq<Piece>, qs: seq<Piece>)
    requires CanonicalPieces(ps) && CanonicalPieces(qs) && ps != [] && qs != []
    requires SameLines(ps, qs)
    ensures ps[|ps| - 1] == qs[|qs| - 1]
  {
    var p, q := ps[|ps| - 1], qs[|qs| - 1];
    var c := Loc(p.file, if p.run.start > 0 then p.run.start - 1 else 0);
    var d := Loc(q.file, if q.run.start > 0 then q.run.start - 1 else 0);
    assert (Covers(ps, c) <==> Covers(qs, c)) && (Covers(ps, d) <==> Covers(qs, d));
    LastPiece(ps);
    LastPiece(qs);
    var a, b := Loc(p.file, p.run.end), Loc(q.file, q.run.end);
    assert Covers(ps, a) && Covers(qs, b);
    LessOrder(a, b);
    assert a == b;
    hide Covers, CanonicalPieces;
  }

  // ---- groups ---------------------------------------------------------------------------------------------------

  function PiecesOf(g: Group): seq<Piece> {
    seq(|g.runs|, i requires 0 <= i < |g.runs| => Piece(g.file, g.runs[i]))
  }

  function Flat(groups: seq<Group>): seq<Piece> {
    if groups == [] then [] else Flat(groups[..|groups| - 1]) + PiecesOf(groups[|groups| - 1])
  }

  /** Each file once and in ascending order, each with its runs ascending, maximal and with gaps between them. */
  predicate Canonical(groups: seq<Group>) {
    && CanonicalPieces(Flat(groups))
    && (forall i :: 0 <= i < |groups| ==> groups[i].runs != [])
    && (forall i :: 0 <= i < |groups| - 1 ==> StringLess(groups[i].file, groups[i + 1].file))
  }

  function Push(groups: seq<Group>, file: string, run: Run): seq<Group> {
    if groups != [] && groups[|groups| - 1].file == file then
      groups[..|groups| - 1] + [Group(file, groups[|groups| - 1].runs + [run])]
    else groups + [Group(file, [run])]
  }

  lemma PushFlat(groups: seq<Group>, file: string, run: Run)
    ensures Flat(Push(groups, file, run)) == Flat(groups) + [Piece(file, run)]
  {
    var r := Push(groups, file, run);
    var n := |r| - 1;
    if groups != [] && groups[|groups| - 1].file == file {
      assert r[..n] == groups[..n];
      assert PiecesOf(r[n]) == PiecesOf(groups[n]) + [Piece(file, run)];
    } else {
      assert r[..n] == groups;
      assert PiecesOf(r[n]) == [Piece(file, run)];
    }
  }

  lemma FlatLast(groups: seq<Group>)
    requires groups != [] && groups[|groups| - 1].runs != []
    ensures Flat(groups) != [] && Flat(groups)[|Flat(groups)| - 1].file == groups[|groups| - 1].file
  {
  }

  lemma PushCanonical(groups: seq<Group>, file: string, run: Run)
    requires Canonical(groups) && run.start <= run.end
    requires Flat(groups) != [] ==> Beyond(Flat(groups)[|Flat(groups)| - 1], Piece(file, run))
    ensures Canonical(Push(groups, file, run))
  {
    hide CanonicalPieces, Flat, Push, StringLess;
    PushFlat(groups, file, run);
    SnocCanonical(Flat(groups), Piece(file, run));
    if groups != [] {
      FlatLast(groups);
    }
    PushAscends(groups, file, run);
  }

  lemma SnocCanonical(ps: seq<Piece>, p: Piece)
    requires CanonicalPieces(ps) && p.run.start <= p.run.end && (ps != [] ==> Beyond(ps[|ps| - 1], p))
    ensures CanonicalPieces(ps + [p])
  {
    hide Beyond;
    assert (ps + [p])[..|ps|] == ps;
  }

  /** The files still ascend: the pushed run is of the last file or of a later one. */
  lemma PushAscends(groups: seq<Group>, file: string, run: Run)
    requires groups != [] ==> groups[|groups| - 1].file == file || StringLess(groups[|groups| - 1].file, file)
    requires forall i :: 0 <= i < |groups| ==> groups[i].runs != []
    requires forall i :: 0 <= i < |groups| - 1 ==> StringLess(groups[i].file, groups[i + 1].file)
    ensures var r := Push(groups, file, run);
            && (forall i :: 0 <= i < |r| ==> r[i].runs != [])
            && (forall i :: 0 <= i < |r| - 1 ==> StringLess(r[i].file, r[i + 1].file))
  {
    hide StringLess;
  }

  /** Two canonical groupings are equal if and only if they cover the same locations. */
  lemma CanonicalUnique(g: seq<Group>, h: seq<Group>)
    requires Canonical(g) && Canonical(h)
    ensures g == h <==> SameLines(Flat(g), Flat(h))
  {
    hide Covers, Canonical, WellGrouped;
    assert CanonicalPieces(Flat(g)) && CanonicalPieces(Flat(h)) by { CanonicalGrouped(g); CanonicalGrouped(h); }
    if SameLines(Flat(g), Flat(h)) {
      PiecesUnique(Flat(g), Flat(h));
      CanonicalGrouped(g);
      CanonicalGrouped(h);
      FlatInjective(g, h);
    }
  }

  predicate WellGrouped(groups: seq<Group>) {
    && (forall i :: 0 <= i < |groups| ==> groups[i].runs != [])
    && (forall i :: 0 <= i < |groups| - 1 ==> groups[i].file != groups[i + 1].file)
  }

  lemma CanonicalGrouped(groups: seq<Group>)
    requires Canonical(groups)
    ensures WellGrouped(groups) && CanonicalPieces(Flat(groups))
  {
    forall i | 0 <= i < |groups| - 1 ensures groups[i].file != groups[i + 1].file {
      StringOrder(groups[i].file, groups[i + 1].file);
    }
  }

  lemma {:induction false} FlatInjective(g: seq<Group>, h: seq<Group>)
    requires WellGrouped(g) && WellGrouped(h) && Flat(g) == Flat(h)
    ensures g == h
  {
    if g == [] || h == [] {
      if g != [] { FlatLast(g); }
      if h != [] { FlatLast(h); }
    } else {
      var a, b := g[|g| - 1], h[|h| - 1];
      FlatLast(g);
      FlatLast(h);
      TailLonger(g, h);
      TailLonger(h, g);
      var fg, fh := Flat(g[..|g| - 1]), Flat(h[..|h| - 1]);
      assert |a.runs| == |b.runs|;
      assert Flat(g) == fg + PiecesOf(a) && Flat(h) == fh + PiecesOf(b);
      hide Flat;
      forall i | 0 <= i < |a.runs| ensures a.runs[i] == b.runs[i] {
        assert Flat(g)[|fg| + i] == PiecesOf(a)[i] && Flat(h)[|fh| + i] == PiecesOf(b)[i];
      }
      assert fg == Flat(g)[..|fg|] && fh == Flat(h)[..|fh|];
      assert a == b;
      FlatInjective(g[..|g| - 1], h[..|h| - 1]);
      assert g == g[..|g| - 1] + [a] && h == h[..|h| - 1] + [b];
    }
  }

  /** The last group takes all pieces of its file at the end. */
  lemma TailLonger(g: seq<Group>, h: seq<Group>)
    requires WellGrouped(g) && WellGrouped(h) && Flat(g) == Flat(h) && g != [] && h != []
    requires g[|g| - 1].file == h[|h| - 1].file
    ensures |g[|g| - 1].runs| <= |h[|h| - 1].runs|
  {
    var a, b := g[|g| - 1], h[|h| - 1];
    var init := h[..|h| - 1];
    if |a.runs| > |b.runs| {
      var n := |Flat(h)| - 1 - |b.runs|;
      assert Flat(g)[n] == PiecesOf(a)[|a.runs| - 1 - |b.runs|];
      assert Flat(h)[n] == Flat(init)[n];
      if init != [] {
        FlatLast(init);
      }
    }
  }

  // ---- the program ----------------------------------------------------------------------------------------------

  function SaturatingSucc(x: Line): Line { if x == MAX then MAX else x + 1 }

  /** The location is among the first `i`. */
  predicate Among(s: seq<Loc>, i: nat, l: Loc)
    requires i <= |s|
  {
    l in s[..i]
  }

  /** The location at `i` comes after the last run with a gap. */
  predicate NextBeyond(ps: seq<Piece>, sorted: seq<Loc>, i: nat) {
    i < |sorted| && ps != [] ==> Beyond(ps[|ps| - 1], Piece(sorted[i].file, Run(sorted[i].line, sorted[i].line)))
  }

  /** The grouped runs, before they are printed. */
  method CompactLines(locs: seq<Loc>) returns (files: seq<Group>)
    ensures Canonical(files)
    ensures forall l :: Covers(Flat(files), l) <==> l in locs
  {
    hide Covers, Flat, Canonical, CanonicalPieces, Push, Sort, Dedup, Weakly, StringLess;
    var sorted := Dedup(Sort(locs));
    SortKeeps(locs);
    DedupKeeps(Sort(locs));
    NothingGrouped(sorted);
    files := [];
    var i := 0;
    while i < |sorted|
      invariant 0 <= i <= |sorted| && Canonical(files)
      invariant forall l :: Covers(Flat(files), l) <==> Among(sorted, i, l)
      invariant NextBeyond(Flat(files), sorted, i)
    {
      var file, start := sorted[i].file, sorted[i].line;
      var end: Line := start;
      ghost var first := i;
      while i + 1 < |sorted| && sorted[i + 1].file == file && sorted[i + 1].line == SaturatingSucc(end)
        invariant first <= i < |sorted| && start <= end && end == start + (i - first)
        invariant forall k :: first <= k <= i ==> sorted[k].file == file && sorted[k].line == start + (k - first)
      {
        assert Less(sorted[i], sorted[i + 1]);
        StringOrder(file, file);
        i := i + 1;
        end := sorted[i].line;
      }
      OneRun(files, sorted, first, i, Run(start, end));
      files := Push(files, file, Run(start, end));
      i := i + 1;
    }
    assert sorted[..|sorted|] == sorted;
  }

  lemma NothingGrouped(sorted: seq<Loc>)
    ensures Flat([]) == [] && Canonical([]) && forall l :: Covers([], l) <==> Among(sorted, 0, l)
  {
  }

  /** What adding the run over `sorted[first..=i]` establishes. */
  lemma OneRun(files: seq<Group>, sorted: seq<Loc>, first: nat, i: nat, run: Run)
    requires first <= i < |sorted| && Ascending(sorted) && Canonical(files)
    requires forall l :: Covers(Flat(files), l) <==> Among(sorted, first, l)
    requires NextBeyond(Flat(files), sorted, first)
    requires run.start == sorted[first].line && run.end == run.start + (i - first)
    requires forall k :: first <= k <= i ==>
            sorted[k].file == sorted[first].file && sorted[k].line == run.start + (k - first)
    requires i + 1 < |sorted| ==>
            !(sorted[i + 1].file == sorted[first].file && sorted[i + 1].line == SaturatingSucc(run.end))
    ensures var r := Push(files, sorted[first].file, run);
            && Canonical(r)
            && (forall l :: Covers(Flat(r), l) <==> Among(sorted, i + 1, l))
            && NextBeyond(Flat(r), sorted, i + 1)
  {
    var file := sorted[first].file;
    var p := Piece(file, run);
    PushCanonical(files, file, run);
    PushFlat(files, file, run);
    hide Canonical, Flat, Push, CanonicalPieces, StringLess, Ascending, Covers, Among, NextBeyond;
    var fs := Flat(files);
    RunCovers(fs, p, sorted, first, i);
    AfterRun(fs, p, sorted, i);
  }

  lemma RunCovers(fs: seq<Piece>, p: Piece, sorted: seq<Loc>, first: nat, i: nat)
    requires first <= i < |sorted| && p.run.end == p.run.start + (i - first)
    requires forall l :: Covers(fs, l) <==> Among(sorted, first, l)
    requires forall k :: first <= k <= i ==> sorted[k].file == p.file && sorted[k].line == p.run.start + (k - first)
    ensures forall l :: Covers(fs + [p], l) <==> Among(sorted, i + 1, l)
  {
    var ps := fs + [p];
    assert ps[..|ps| - 1] == fs;
    assert sorted[..i + 1] == sorted[..first] + sorted[first..i + 1];
    forall l ensures Covers(ps, l) <==> Among(sorted, i + 1, l) {
      assert Covers(fs, l) <==> Among(sorted, first, l);
      PieceIsSlice(sorted, first, i, p, l);
    }
  }

  lemma AfterRun(ps: seq<Piece>, p: Piece, sorted: seq<Loc>, i: nat)
    requires i < |sorted| && Ascending(sorted) && sorted[i] == Loc(p.file, p.run.end)
    requires i + 1 < |sorted| ==> !(sorted[i + 1].file == p.file && sorted[i + 1].line == SaturatingSucc(p.run.end))
    ensures NextBeyond(ps + [p], sorted, i + 1)
  {
    hide StringLess;
    if i + 1 < |sorted| {
      assert Less(sorted[i], sorted[i + 1]);
      StringOrder(p.file, sorted[i + 1].file);
    }
  }

  lemma PieceIsSlice(sorted: seq<Loc>, first: nat, i: nat, p: Piece, l: Loc)
    requires first <= i < |sorted| && p.run.end == p.run.start + (i - first)
    requires forall k :: first <= k <= i ==> sorted[k].file == p.file && sorted[k].line == p.run.start + (k - first)
    ensures InPiece(p, l) <==> l in sorted[first..i + 1]
  {
    if InPiece(p, l) {
      var k := first + (l.line - p.run.start);
      assert sorted[k] == l;
      assert sorted[first..i + 1][k - first] == l;
    }
  }
}
