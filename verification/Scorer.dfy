/** The decision preview: structural features of the lines of a text, a score
    over exact rationals, and the tier it selects. */
module Scorer {
  import opened Ordering
  import Rounding

  // ---------------------------------------------------------------- features

  /** What the line patterns say about one line. `depth` is the number of hash
      marks of a heading, zero when the line is none. */
  datatype Line = Line(isFence: bool, depth: nat, isItem: bool, isRow: bool, links: nat)

  datatype Counts = Counts(headings: nat, maxDepth: nat, items: nat, rows: nat, links: nat, codeBlocks: nat)

  const NOTHING := Counts(0, 0, 0, 0, 0, 0)

  function Max(a: nat, b: nat): nat {
    if a > b then a else b
  }

  /** The lines outside fences, given whether the first is inside one. */
  function Outside(lines: seq<Line>, inFence: bool): seq<Line> {
    if lines == [] then []
    else if lines[0].isFence then Outside(lines[1..], !inFence)
    else (if inFence then [] else [lines[0]]) + Outside(lines[1..], inFence)
  }

  function FenceLines(lines: seq<Line>): nat {
    if lines == [] then 0 else (if lines[0].isFence then 1 else 0) + FenceLines(lines[1..])
  }

  /** Whether the line after these is inside a fence. */
  function InFence(lines: seq<Line>): bool {
    FenceLines(lines) % 2 == 1
  }

  predicate IsHeading(l: Line) { l.depth > 0 }
  predicate IsItem(l: Line) { l.depth == 0 && l.isItem }
  predicate IsRow(l: Line) { l.depth == 0 && !l.isItem && l.isRow }

  function Count(p: Line -> bool, lines: seq<Line>): nat {
    if lines == [] then 0 else (if p(lines[0]) then 1 else 0) + Count(p, lines[1..])
  }

  function Deepest(lines: seq<Line>): nat {
    if lines == [] then 0 else Max(lines[0].depth, Deepest(lines[1..]))
  }

  function Links(lines: seq<Line>): nat {
    if lines == [] then 0 else lines[0].links + Links(lines[1..])
  }

  /** The counts, each over the lines outside fences on its own. */
  function Structure(lines: seq<Line>): Counts {
    var shown := Outside(lines, false);
    Counts(Count(IsHeading, shown), Deepest(shown), Count(IsItem, shown), Count(IsRow, shown), Links(shown),
           (FenceLines(lines) + 1) / 2)
  }

  function Plus(a: Counts, b: Counts): Counts {
    Counts(a.headings + b.headings, Max(a.maxDepth, b.maxDepth), a.items + b.items, a.rows + b.rows,
           a.links + b.links, a.codeBlocks + b.codeBlocks)
  }

  lemma {:induction false} FencesAppend(a: seq<Line>, b: seq<Line>)
    ensures FenceLines(a + b) == FenceLines(a) + FenceLines(b)
  {
    if a == [] {
      assert a + b == b;
    } else {
      assert (a + b)[1..] == a[1..] + b;
      FencesAppend(a[1..], b);
    }
  }

  lemma {:induction false} OutsideAppend(a: seq<Line>, b: seq<Line>, inFence: bool)
    ensures Outside(a + b, inFence) == Outside(a, inFence) + Outside(b, inFence != InFence(a))
    decreases |a|
  {
    if a == [] {
      assert a + b == b;
    } else {
      assert (a + b)[1..] == a[1..] + b;
      var inner := if a[0].isFence then !inFence else inFence;
      OutsideAppend(a[1..], b, inner);
      assert InFence(a) == (a[0].isFence != InFence(a[1..]));
      var head := if a[0].isFence || inFence then [] else [a[0]];
      assert Outside(a + b, inFence) == head + Outside(a[1..] + b, inner);
    }
  }

  lemma {:induction false} CountAppend(p: Line -> bool, a: seq<Line>, b: seq<Line>)
    ensures Count(p, a + b) == Count(p, a) + Count(p, b)
    decreases |a|
  {
    if a == [] {
      assert a + b == b;
    } else {
      assert (a + b)[1..] == a[1..] + b;
      CountAppend(p, a[1..], b);
    }
  }

  lemma {:induction false} SumsAppend(a: seq<Line>, b: seq<Line>)
    ensures Deepest(a + b) == Max(Deepest(a), Deepest(b)) && Links(a + b) == Links(a) + Links(b)
  {
    if a == [] {
      assert a + b == b;
    } else {
      assert (a + b)[1..] == a[1..] + b;
      SumsAppend(a[1..], b);
    }
  }

  lemma ShownAppend(a: seq<Line>, b: seq<Line>)
    ensures var x, y := Outside(a, false), Outside(b, InFence(a));
      && Outside(a + b, false) == x + y && FenceLines(a + b) == FenceLines(a) + FenceLines(b)
      && Count(IsHeading, x + y) == Count(IsHeading, x) + Count(IsHeading, y)
      && Count(IsItem, x + y) == Count(IsItem, x) + Count(IsItem, y)
      && Count(IsRow, x + y) == Count(IsRow, x) + Count(IsRow, y)
      && Deepest(x + y) == Max(Deepest(x), Deepest(y)) && Links(x + y) == Links(x) + Links(y)
  {
    var x, y := Outside(a, false), Outside(b, InFence(a));
    FencesAppend(a, b);
    OutsideAppend(a, b, false);
    CountAppend(IsHeading, x, y);
    CountAppend(IsItem, x, y);
    CountAppend(IsRow, x, y);
    SumsAppend(x, y);
  }

  lemma OneLine(line: Line, inFence: bool)
    ensures FenceLines([line]) == if line.isFence then 1 else 0
    ensures Outside([line], inFence) == if line.isFence || inFence then [] else [line]
    ensures Count(IsHeading, [line]) == if IsHeading(line) then 1 else 0
    ensures Count(IsItem, [line]) == if IsItem(line) then 1 else 0
    ensures Count(IsRow, [line]) == if IsRow(line) then 1 else 0
    ensures Deepest([line]) == line.depth && Links([line]) == line.links
  {
    assert [line][1..] == [];
  }

  lemma NoLine()
    ensures Count(IsHeading, []) == 0 && Count(IsItem, []) == 0 && Count(IsRow, []) == 0
    ensures Deepest([]) == 0 && Links([]) == 0
  {
  }

  lemma StructureExtends(lines: seq<Line>, line: Line)
    ensures var c, d := Structure(lines), Structure(lines + [line]);
      && InFence(lines + [line]) == (InFence(lines) != line.isFence)
      && d.codeBlocks == c.codeBlocks + (if line.isFence && !InFence(lines) then 1 else 0)
      && (line.isFence || InFence(lines) ==> d == c.(codeBlocks := d.codeBlocks))
      && (!line.isFence && !InFence(lines) ==>
            d == Plus(c, Counts(if IsHeading(line) then 1 else 0, line.depth, if IsItem(line) then 1 else 0,
                                if IsRow(line) then 1 else 0, line.links, 0)))
  {
    hide Outside, Count, Deepest, Links, FenceLines;
    ShownAppend(lines, [line]);
    OneLine(line, InFence(lines));
    NoLine();
  }

  /** One pass over the lines with a fence flag gives the counts over the lines
      outside fences, and one code block for every opening fence. */
  method ExtractStructure(lines: seq<Line>) returns (c: Counts)
    ensures c == Structure(lines)
  {
    var inFence := false;
    c := NOTHING;
    assert lines[..0] == [];
    for i := 0 to |lines|
      invariant c == Structure(lines[..i]) && inFence == InFence(lines[..i])
    {
      var line := lines[i];
      assert lines[..i + 1] == lines[..i] + [line];
      StructureExtends(lines[..i], line);
      if line.isFence {
        if !inFence { c := c.(codeBlocks := c.codeBlocks + 1); }
        inFence := !inFence;
        continue;
      }
      if inFence { continue; }
      if line.depth > 0 {
        c := c.(headings := c.headings + 1, maxDepth := Max(c.maxDepth, line.depth));
      } else if line.isItem {
        c := c.(items := c.items + 1);
      } else if line.isRow {
        c := c.(rows := c.rows + 1);
      }
      c := c.(links := c.links + line.links);
    }
    assert lines[..|lines|] == lines;
  }

  /** Cutting the lines at any point outside a fence makes the counts add up
      and the heading depth the maximum; cutting inside one makes the code
      blocks of the parts one too many. */
  lemma CutAddsUp(a: seq<Line>, b: seq<Line>)
    ensures !InFence(a) ==> Structure(a + b) == Plus(Structure(a), Structure(b))
    ensures InFence(a) && InFence(b) ==>
      Structure(a + b).codeBlocks + 1 == Structure(a).codeBlocks + Structure(b).codeBlocks
  {
    hide Outside, Count, Deepest, Links, FenceLines;
    ShownAppend(a, b);
  }

  /** The counts of one line outside fences: a heading of its depth, or else an
      item, or else a table row, and in any case its links. */
  lemma SingleLine(line: Line)
    ensures Structure([line]) ==
      if line.isFence then Counts(0, 0, 0, 0, 0, 1)
      else if line.depth > 0 then Counts(1, line.depth, 0, 0, line.links, 0)
      else if line.isItem then Counts(0, 0, 1, 0, line.links, 0)
      else if line.isRow then Counts(0, 0, 0, 1, line.links, 0)
      else Counts(0, 0, 0, 0, line.links, 0)
  {
    hide Outside, Count, Deepest, Links, FenceLines;
    OneLine(line, false);
    NoLine();
  }

  lemma {:induction false} NoFence(inner: seq<Line>)
    requires forall i :: 0 <= i < |inner| ==> !inner[i].isFence
    ensures FenceLines(inner) == 0 && Outside(inner, true) == []
  {
    if inner != [] { NoFence(inner[1..]); }
  }

  lemma NothingOutside()
    ensures forall inFence :: Outside([], inFence) == []
    ensures FenceLines([]) == 0
  {
  }

  /** A fenced block is one code block and counts nothing else, whatever is in it
      and whether or not it is closed. */
  lemma FencedBlock(open: Line, inner: seq<Line>, close: seq<Line>)
    requires open.isFence && forall i :: 0 <= i < |inner| ==> !inner[i].isFence
    requires close == [] || (|close| == 1 && close[0].isFence)
    ensures Structure([open] + inner + close) == Counts(0, 0, 0, 0, 0, 1)
    ensures InFence([open] + inner + close) == (close == [])
  {
    hide Outside, Count, Deepest, Links, FenceLines;
    OneLine(open, false);
    NoFence(inner);
    NoLine();
    assert [open] + inner + close == ([open] + inner) + close;
    OutsideAppend([open], inner, false);
    FencesAppend([open], inner);
    OutsideAppend([open] + inner, close, false);
    FencesAppend([open] + inner, close);
    if close == [] {
      NothingOutside();
      assert InFence([open] + inner);
    } else {
      OneLine(close[0], true);
      assert close == [close[0]];
    }
  }

  // ------------------------------------------------------------------- score

  /** Round half to even of x hundredths of a real, as an integer. */
  function RoundHalfEven(x: real): int {
    var q := x.Floor;
    var r := x - q as real;
    if r > 0.5 || (r == 0.5 && q % 2 == 1) then q + 1 else q
  }

  lemma RoundParts(x: real, q: int, t: real)
    requires x == q as real + t && 0.0 <= t < 1.0
    ensures RoundHalfEven(x) == if t > 0.5 || (t == 0.5 && q % 2 == 1) then q + 1 else q
  {
    assert x.Floor == q;
  }

  lemma WholeProduct(q: nat, d: nat)
    ensures q as real * d as real == (q * d) as real
  {
  }

  lemma ProductStrict(x: real, y: real, t: real)
    requires t > 0.0 && x < y
    ensures x * t < y * t
  {
  }

  lemma QuotientCompares(r: real, y: real, d: real)
    requires d > 0.0
    ensures (r / d < y <==> r < y * d) && (r / d == y <==> r == y * d)
  {
    var x := r / d;
    assert x * d == r;
    if x < y { ProductStrict(x, y, d); }
    if y < x { ProductStrict(y, x, d); }
  }

  lemma Quotient(n: real, q: real, r: real, d: real)
    requires d > 0.0 && n == q * d + r
    ensures n / d == q + r / d
  {
    var t := r / d;
    assert t * d == r;
    assert (q + t) * d == q * d + t * d;
    QuotientCompares(n, q + t, d);
  }

  lemma QuotientBounds(r: real, d: real)
    requires 0.0 <= r < d
    ensures var t := r / d; 0.0 <= t < 1.0 && (t > 0.5 <==> 2.0 * r > d) && (t == 0.5 <==> 2.0 * r == d)
  {
    QuotientCompares(r, 0.0, d);
    QuotientCompares(r, 0.5, d);
    QuotientCompares(r, 1.0, d);
  }

  lemma RemainderOf(q: nat, r: nat, num: nat, den: nat)
    requires r < den && num == q * den + r
    ensures var t := r as real / den as real;
      && num as real / den as real == q as real + t && 0.0 <= t < 1.0
      && (t > 0.5 <==> 2 * r > den) && (t == 0.5 <==> 2 * r == den)
  {
    WholeProduct(q, den);
    Quotient(num as real, q as real, r as real, den as real);
    QuotientBounds(r as real, den as real);
  }

  /** The rounding of reals and that of fractions of integers agree. */
  lemma RoundingsAgree(num: nat, den: nat)
    requires den > 0
    ensures RoundHalfEven(num as real / den as real) == Rounding.HalfEven(num, den)
  {
    Rounding.DivMod(num, den);
    var q, r := num / den, num % den;
    RemainderOf(q, r, num, den);
    RoundParts(num as real / den as real, q, r as real / den as real);
  }

  lemma RoundMonotone(x: real, y: real)
    requires x <= y
    ensures RoundHalfEven(x) <= RoundHalfEven(y)
  {
    assert x.Floor <= y.Floor;
  }

  lemma RoundWithin(x: real, lo: int, hi: int)
    requires lo as real <= x <= hi as real
    ensures lo <= RoundHalfEven(x) <= hi
  {
  }

  /** One feature: its count, the count at which it saturates, its weight. */
  datatype Feature = Feature(count: nat, saturation: real, weight: real)

  function Norm(f: Feature): real
    requires f.saturation > 0.0
  {
    var x := f.count as real / f.saturation;
    if x < 1.0 then x else 1.0
  }

  ghost predicate Weighted(fs: seq<Feature>) {
    forall i :: 0 <= i < |fs| ==> fs[i].saturation > 0.0 && fs[i].weight >= 0.0
  }

  function TotalWeight(fs: seq<Feature>): real {
    if fs == [] then 0.0 else TotalWeight(fs[..|fs| - 1]) + fs[|fs| - 1].weight
  }

  function Accumulated(fs: seq<Feature>): real
    requires Weighted(fs)
  {
    if fs == [] then 0.0
    else Accumulated(fs[..|fs| - 1]) + fs[|fs| - 1].weight * Norm(fs[|fs| - 1])
  }

  /** The exact score before rounding. */
  function Exact(fs: seq<Feature>): real
    requires Weighted(fs)
  {
    if TotalWeight(fs) == 0.0 then 0.0 else Accumulated(fs) / TotalWeight(fs)
  }

  lemma AccumulatedNone()
    ensures TotalWeight([]) == 0.0 && Accumulated([]) == 0.0
  {
  }

  lemma AccumulatedAt(fs: seq<Feature>, i: nat)
    requires Weighted(fs) && i < |fs|
    ensures Weighted(fs[..i]) && Weighted(fs[..i + 1])
    ensures TotalWeight(fs[..i + 1]) == TotalWeight(fs[..i]) + fs[i].weight
    ensures Accumulated(fs[..i + 1]) == Accumulated(fs[..i]) + fs[i].weight * Norm(fs[i])
  {
    assert fs[..i + 1][..i] == fs[..i];
    hide Norm;
  }

  lemma NormInUnit(f: Feature)
    requires f.saturation > 0.0
    ensures 0.0 <= Norm(f) <= 1.0
  {
  }

  lemma ScaleBounds(w: real, x: real)
    requires w >= 0.0 && 0.0 <= x <= 1.0
    ensures 0.0 <= w * x <= w
  {
    assert w * x <= w * 1.0;
  }

  lemma {:induction false} AccumulatedBounds(fs: seq<Feature>)
    requires Weighted(fs)
    ensures 0.0 <= Accumulated(fs) <= TotalWeight(fs)
  {
    hide Norm, Accumulated, TotalWeight;
    if fs == [] {
      AccumulatedNone();
    } else {
      var n := |fs| - 1;
      AccumulatedBounds(fs[..n]);
      NormInUnit(fs[n]);
      ScaleBounds(fs[n].weight, Norm(fs[n]));
      AccumulatedAt(fs, n);
      assert fs[..n + 1] == fs;
    }
  }

  lemma DivideMonotone(a: real, b: real, t: real)
    requires t > 0.0 && a <= b
    ensures a / t <= b / t
    ensures a >= 0.0 ==> a / t >= 0.0
    ensures b == t ==> b / t == 1.0
  {
    var x, y := a / t, b / t;
    assert x * t == a && y * t == b;
    if x > y {
      ProductStrict(y, x, t);
      assert false;
    }
    if a >= 0.0 && x < 0.0 {
      ProductStrict(x, 0.0, t);
      assert false;
    }
  }

  /** The score lies between zero and one. */
  lemma ScoreInUnit(fs: seq<Feature>)
    requires Weighted(fs)
    ensures 0.0 <= Exact(fs) <= 1.0
  {
    AccumulatedBounds(fs);
    if TotalWeight(fs) != 0.0 { DivideMonotone(Accumulated(fs), TotalWeight(fs), TotalWeight(fs)); }
  }

  method ScalarScore(fs: seq<Feature>) returns (hundredths: int)
    requires Weighted(fs)
    ensures hundredths == RoundHalfEven(100.0 * Exact(fs))
    ensures 0 <= hundredths <= 100
  {
    hide Accumulated, TotalWeight, Norm, RoundHalfEven;
    AccumulatedNone();
    assert fs[..0] == [];
    var total := 0.0;
    for i := 0 to |fs|
      invariant total == TotalWeight(fs[..i])
    {
      AccumulatedAt(fs, i);
      total := total + fs[i].weight;
    }
    assert fs[..|fs|] == fs;
    ScoreInUnit(fs);
    RoundWithin(100.0 * Exact(fs), 0, 100);
    if total == 0.0 { return RoundHalfEven(0.0); }
    var accumulated := 0.0;
    for i := 0 to |fs|
      invariant Weighted(fs[..i]) && accumulated == Accumulated(fs[..i])
    {
      AccumulatedAt(fs, i);
      accumulated := accumulated + fs[i].weight * Norm(fs[i]);
    }
    hundredths := RoundHalfEven(100.0 * (accumulated / total));
  }

  /** The same features and weights with no count lower. */
  ghost predicate Raised(a: seq<Feature>, b: seq<Feature>) {
    |a| == |b| && forall i :: 0 <= i < |a| ==> b[i] == a[i].(count := b[i].count) && a[i].count <= b[i].count
  }

  lemma NormMonotone(a: Feature, b: Feature)
    requires a.saturation > 0.0 && b == a.(count := b.count) && a.count <= b.count
    ensures Norm(a) <= Norm(b)
  {
    DivideMonotone(a.count as real, b.count as real, a.saturation);
  }

  lemma ProductMonotone(w: real, x: real, y: real)
    requires w >= 0.0 && x <= y
    ensures w * x <= w * y
  {
  }

  lemma {:induction false} AccumulatedMonotone(a: seq<Feature>, b: seq<Feature>)
    requires Weighted(a) && Weighted(b) && Raised(a, b)
    ensures Accumulated(a) <= Accumulated(b) && TotalWeight(a) == TotalWeight(b)
  {
    hide Norm;
    if a != [] {
      var n := |a| - 1;
      AccumulatedMonotone(a[..n], b[..n]);
      NormMonotone(a[n], b[n]);
      ProductMonotone(a[n].weight, Norm(a[n]), Norm(b[n]));
      AccumulatedAt(a, n);
      AccumulatedAt(b, n);
      assert a[..n + 1] == a && b[..n + 1] == b;
    }
  }

  /** Text without anything scores nothing. */
  lemma {:induction false} NothingScoresNothing(fs: seq<Feature>)
    requires Weighted(fs) && forall i :: 0 <= i < |fs| ==> fs[i].count == 0
    ensures Accumulated(fs) == 0.0 && Exact(fs) == 0.0
  {
    if fs != [] {
      var n := |fs| - 1;
      NothingScoresNothing(fs[..n]);
      AccumulatedAt(fs, n);
      assert fs[..n + 1] == fs;
      assert fs[n].weight * 0.0 == 0.0;
      QuotientCompares(0.0, 0.0, fs[n].saturation);
    }
    if TotalWeight(fs) != 0.0 {
      AccumulatedBounds(fs);
      QuotientCompares(0.0, 0.0, TotalWeight(fs));
    }
  }

  lemma {:induction false} SaturatedIsTotal(fs: seq<Feature>)
    requires Weighted(fs) && forall i :: 0 <= i < |fs| ==> fs[i].count as real >= fs[i].saturation
    ensures Accumulated(fs) == TotalWeight(fs)
  {
    if fs != [] {
      var n := |fs| - 1;
      SaturatedIsTotal(fs[..n]);
      AccumulatedAt(fs, n);
      assert fs[..n + 1] == fs;
      QuotientCompares(fs[n].count as real, 1.0, fs[n].saturation);
    }
  }

  /** Text with every count at its saturation or above scores one. */
  lemma SaturatedScoresOne(fs: seq<Feature>)
    requires Weighted(fs) && TotalWeight(fs) > 0.0
    requires forall i :: 0 <= i < |fs| ==> fs[i].count as real >= fs[i].saturation
    ensures Exact(fs) == 1.0
  {
    SaturatedIsTotal(fs);
    QuotientCompares(Accumulated(fs), 1.0, TotalWeight(fs));
  }

  /** The same features with one count raised by d. */
  function RaisedAt(fs: seq<Feature>, k: nat, d: nat): seq<Feature>
    requires k < |fs|
  {
    fs[k := fs[k].(count := fs[k].count + d)]
  }

  lemma Distribute(w: real, x: real, y: real)
    ensures w * x - w * y == w * (x - y)
  {
  }

  lemma {:induction false} AccumulatedRaised(fs: seq<Feature>, k: nat, d: nat)
    requires Weighted(fs) && k < |fs|
    ensures var gs := RaisedAt(fs, k, d);
      && Weighted(gs) && TotalWeight(gs) == TotalWeight(fs)
      && Accumulated(gs) - Accumulated(fs) == fs[k].weight * (Norm(gs[k]) - Norm(fs[k]))
    decreases |fs|
  {
    hide Norm, Accumulated, TotalWeight;
    var gs, n := RaisedAt(fs, k, d), |fs| - 1;
    AccumulatedAt(fs, n);
    AccumulatedAt(gs, n);
    assert fs[..n + 1] == fs && gs[..n + 1] == gs;
    if k == n {
      assert gs[..n] == fs[..n];
      Distribute(gs[n].weight, Norm(gs[n]), Norm(fs[n]));
    } else {
      AccumulatedRaised(fs[..n], k, d);
      assert gs[..n] == RaisedAt(fs[..n], k, d);
    }
  }

  lemma ExactIs(fs: seq<Feature>)
    requires Weighted(fs) && TotalWeight(fs) > 0.0
    ensures Exact(fs) == Accumulated(fs) / TotalWeight(fs)
  {
  }

  lemma QuotientDifference(a: real, b: real, d: real)
    requires d > 0.0
    ensures a / d - b / d == (a - b) / d
  {
    var x, y := a / d, b / d;
    assert x * d == a && y * d == b;
    assert (x - y) * d == x * d - y * d;
    QuotientCompares(a - b, x - y, d);
  }

  lemma ShareOf(a: real, b: real, w: real, x: real, t: real)
    requires t > 0.0 && a - b == w * x
    ensures a / t - b / t == w * x / t && (x == 0.0 ==> a / t == b / t)
  {
    QuotientDifference(a, b, t);
    if x == 0.0 { assert w * 0.0 == 0.0; }
  }

  lemma NormRaised(f: Feature, d: nat)
    requires f.saturation > 0.0
    ensures var g := f.(count := f.count + d);
      && (g.count as real <= f.saturation ==> Norm(g) - Norm(f) == d as real / f.saturation)
      && (f.count as real >= f.saturation ==> Norm(g) == Norm(f))
  {
    var a, b := f.count as real, d as real;
    QuotientCompares(a, 1.0, f.saturation);
    QuotientCompares(a + b, 1.0, f.saturation);
    QuotientDifference(a + b, a, f.saturation);
  }

  /** A count that stays within its saturation weighs in proportion: raising it by
      d raises the score by d shares of its weight. Beyond saturation, raising a
      count changes nothing. */
  lemma RaisedExactly(fs: seq<Feature>, k: nat, d: nat)
    requires Weighted(fs) && k < |fs| && TotalWeight(fs) > 0.0
    ensures var gs := RaisedAt(fs, k, d);
      && Weighted(gs)
      && ((fs[k].count + d) as real <= fs[k].saturation ==>
            Exact(gs) - Exact(fs) == fs[k].weight * (d as real / fs[k].saturation) / TotalWeight(fs))
      && (fs[k].count as real >= fs[k].saturation ==> Exact(gs) == Exact(fs))
  {
    hide Norm, Accumulated, TotalWeight, Exact;
    var gs := RaisedAt(fs, k, d);
    AccumulatedRaised(fs, k, d);
    NormRaised(fs[k], d);
    ExactIs(fs);
    ExactIs(gs);
    if (fs[k].count + d) as real <= fs[k].saturation {
      ShareOf(Accumulated(gs), Accumulated(fs), fs[k].weight, d as real / fs[k].saturation, TotalWeight(fs));
    }
    if fs[k].count as real >= fs[k].saturation {
      ShareOf(Accumulated(gs), Accumulated(fs), fs[k].weight, 0.0, TotalWeight(fs));
    }
  }

  // ------------------------------------------------------------------- tiers

  /** A tier is selected from its minimum score on. */
  datatype Tier = Tier(minScore: real, model: string)

  predicate Below(a: Tier, b: Tier) { a.minScore < b.minScore }

  /** How many leading tiers the score reaches. */
  function Reached(score: real, tiers: seq<Tier>): (n: nat)
    ensures n <= |tiers|
    ensures forall i :: 0 <= i < n ==> tiers[i].minScore <= score
    ensures n < |tiers| ==> score < tiers[n].minScore
  {
    if tiers == [] || score < tiers[0].minScore then 0 else 1 + Reached(score, tiers[1..])
  }

  /** The index the loop with a break leaves selected. */
  function Selected(score: real, tiers: seq<Tier>): int {
    if Reached(score, tiers) == 0 then 0 else Reached(score, tiers) - 1
  }

  lemma {:induction false} ReachedMonotone(x: real, y: real, tiers: seq<Tier>)
    requires x <= y
    ensures Reached(x, tiers) <= Reached(y, tiers)
    decreases |tiers|
  {
    if tiers != [] && tiers[0].minScore <= x { ReachedMonotone(x, y, tiers[1..]); }
  }

  lemma SelectedMonotone(x: real, y: real, tiers: seq<Tier>)
    requires x <= y
    ensures Selected(x, tiers) <= Selected(y, tiers)
  {
    ReachedMonotone(x, y, tiers);
  }

  /** Raising any feature count never lowers the rounded score, and so never
      lowers the tier it selects. */
  lemma ScoreMonotone(a: seq<Feature>, b: seq<Feature>, tiers: seq<Tier>)
    requires Weighted(a) && Weighted(b) && Raised(a, b)
    ensures var x, y := RoundHalfEven(100.0 * Exact(a)), RoundHalfEven(100.0 * Exact(b));
      x <= y && Selected(x as real / 100.0, tiers) <= Selected(y as real / 100.0, tiers)
  {
    AccumulatedMonotone(a, b);
    AccumulatedBounds(a);
    AccumulatedBounds(b);
    if TotalWeight(a) != 0.0 { DivideMonotone(Accumulated(a), Accumulated(b), TotalWeight(a)); }
    RoundMonotone(100.0 * Exact(a), 100.0 * Exact(b));
    var x, y := RoundHalfEven(100.0 * Exact(a)) as real / 100.0, RoundHalfEven(100.0 * Exact(b)) as real / 100.0;
    SelectedMonotone(x, y, tiers);
  }

  method RecommendTier(score: real, tiers: seq<Tier>) returns (chosen: string)
    requires tiers != []
    ensures chosen == tiers[Selected(score, tiers)].model
  {
    chosen := tiers[0].model;
    ghost var n := Reached(score, tiers);
    for i := 0 to |tiers|
      invariant i <= n && chosen == tiers[if i == 0 then 0 else i - 1].model
    {
      if score >= tiers[i].minScore {
        chosen := tiers[i].model;
      } else {
        break;
      }
    }
  }

  /** The last index whose tier the score reaches, zero when there is none. */
  ghost predicate LastReached(score: real, tiers: seq<Tier>, k: nat) {
    && k < |tiers|
    && (forall i :: k < i < |tiers| ==> score < tiers[i].minScore)
    && (tiers[k].minScore <= score || k == 0)
  }

  lemma {:induction false} InsertLength<T>(less: (T, T) -> bool, x: T, s: seq<T>)
    ensures |Insert(less, x, s)| == |s| + 1
    decreases |s|
  {
    if s != [] && !less(x, s[0]) { InsertLength(less, x, s[1..]); }
  }

  lemma {:induction false} SortLength<T>(less: (T, T) -> bool, s: seq<T>)
    ensures |Sort(less, s)| == |s|
    decreases |s|
  {
    if s != [] {
      SortLength(less, s[..|s| - 1]);
      InsertLength(less, s[|s| - 1], Sort(less, s[..|s| - 1]));
    }
  }

  /** Sort a copy, then scan all of it for the last tier reached. */
  method NaturalTier(score: real, tiers: seq<Tier>) returns (chosen: string)
    ensures tiers == [] ==> chosen == "?"
    ensures tiers != [] ==> exists k: nat :: LastReached(score, Sort(Below, tiers), k) && chosen == Sort(Below, tiers)[k].model
  {
    var sorted := Sort(Below, tiers);
    assert |sorted| == |tiers| by { SortLength(Below, tiers); }
    if sorted == [] { return "?"; }
    var natural := 0;
    for i := 0 to |sorted|
      invariant 0 <= natural < |sorted| && (natural < i || natural == 0)
      invariant forall k :: natural < k < i ==> score < sorted[k].minScore
      invariant sorted[natural].minScore <= score || natural == 0
    {
      if score >= sorted[i].minScore { natural := i; }
    }
    assert LastReached(score, sorted, natural);
    chosen := sorted[natural].model;
  }

  lemma BelowIsOrder()
    ensures StrictOrder(Below)
  {
  }

  lemma Twice<T>(s: seq<T>, i: nat, j: nat)
    requires i < j < |s| && s[i] == s[j]
    ensures multiset(s)[s[i]] >= 2
  {
    assert s == s[..i] + [s[i]] + s[i + 1..j] + [s[j]] + s[j + 1..];
  }

  lemma {:induction false} OnlyOnce(s: seq<Tier>, t: Tier)
    requires Ascending(Below, s)
    ensures multiset(s)[t] <= 1
  {
    if s != [] {
      assert s == [s[0]] + s[1..];
      OnlyOnce(s[1..], t);
      if s[0] == t {
        assert t !in s[1..];
      }
    }
  }

  /** Rearranging tiers with distinct thresholds keeps them distinct. */
  lemma {:induction false} Distinct(ascending: seq<Tier>, given: seq<Tier>)
    requires Ascending(Below, ascending) && multiset(given) == multiset(ascending)
    ensures Comparable(Below, given)
  {
    forall i, j | 0 <= i < j < |given|
      ensures Below(given[i], given[j]) || Below(given[j], given[i])
    {
      var a, b := given[i], given[j];
      assert a in multiset(given) && b in multiset(given);
      assert a in ascending && b in ascending;
      if a == b {
        Twice(given, i, j);
        OnlyOnce(ascending, a);
      }
    }
  }

  /** Sorting undoes any rearrangement of ascending tiers. */
  lemma SortRestores(ascending: seq<Tier>, given: seq<Tier>)
    requires Ascending(Below, ascending) && multiset(given) == multiset(ascending)
    ensures Sort(Below, given) == ascending
  {
    BelowIsOrder();
    Distinct(ascending, given);
    forall t
      ensures t in ascending <==> t in given
    {
      assert t in multiset(given) <==> t in multiset(ascending);
    }
    SortIs(Below, given, ascending);
  }

  lemma LastIsSelected(score: real, ascending: seq<Tier>, k: nat)
    requires Ascending(Below, ascending) && LastReached(score, ascending, k)
    ensures Selected(score, ascending) == k
  {
    var n := Reached(score, ascending);
    assert forall j | n < j < |ascending| :: Below(ascending[n], ascending[j]);
    assert n > 0 ==> ascending[n - 1].minScore <= score;
  }

  /** On ascending tiers the loop with a break picks the tier that sorting and
      scanning pick from the same tiers given in any order. */
  lemma LoopPicksNatural(score: real, ascending: seq<Tier>, given: seq<Tier>, k: nat)
    requires ascending != [] && Ascending(Below, ascending)
    requires multiset(given) == multiset(ascending)
    requires LastReached(score, Sort(Below, given), k)
    ensures Sort(Below, given)[k].model == ascending[Selected(score, ascending)].model
  {
    hide Selected, LastReached;
    SortRestores(ascending, given);
    LastIsSelected(score, ascending, k);
  }
}
