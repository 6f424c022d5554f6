/** Distilling a bounded vocabulary of terms that mark the high arm of a
    labelled dataset. The terms of a prompt are given as a set, and so are the
    stop words; a term is the sequence of its bytes. */
module Lexicon {
  import opened Prelude
  import opened Ordering

  const MAX_DISTILLED_TERMS: nat := 128
  const MIN_DISTILL_ROWS_PER_ARM: nat := 4

  datatype Row = Row(terms: set<string>, high: bool)

  datatype Error = TooFewRows | NothingFound

  predicate Eligible(stop: set<string>, term: string) {
    3 <= |term| <= 48 && term !in stop
  }

  // ------------------------------------------------------------- term order

  /** Character by character, a prefix before what it starts. */
  predicate TermLess(a: string, b: string) {
    b != [] && (a == [] || a[0] < b[0] || (a[0] == b[0] && TermLess(a[1..], b[1..])))
  }

  /** The first byte in which two terms differ decides, and a term comes before
      what it starts. */
  lemma {:induction false} TermLessMeaning(a: string, b: string)
    ensures TermLess(a, b) <==>
      exists k :: 0 <= k <= |a| && k < |b| && a[..k] == b[..k] && (k == |a| || a[k] < b[k])
    decreases |a|
  {
    if a != [] && b != [] && a[0] == b[0] {
      TermLessMeaning(a[1..], b[1..]);
      forall k | 0 <= k <= |a| - 1 && k < |b| - 1
        ensures a[..k + 1] == b[..k + 1] <==> a[1..][..k] == b[1..][..k]
      {
        assert a[..k + 1] == [a[0]] + a[1..][..k] && b[..k + 1] == [b[0]] + b[1..][..k];
        assert a[..k + 1][1..] == a[1..][..k] && b[..k + 1][1..] == b[1..][..k];
      }
      if k :| 0 <= k <= |a[1..]| && k < |b[1..]| && a[1..][..k] == b[1..][..k] && (k == |a[1..]| || a[1..][k] < b[1..][k]) {
        assert a[..k + 1] == b[..k + 1] && (k + 1 == |a| || a[k + 1] < b[k + 1]);
      }
      if k :| 0 <= k <= |a| && k < |b| && a[..k] == b[..k] && (k == |a| || a[k] < b[k]) {
        var j := k - 1;
        assert 0 <= j && a[..j + 1] == b[..j + 1];
        assert a[1..][..j] == b[1..][..j] && (j == |a[1..]| || a[1..][j] < b[1..][j]);
      }
    } else if a == [] || b == [] {
      assert b != [] ==> a[..0] == b[..0];
    } else {
      assert a[..0] == b[..0];
      if k :| 0 <= k <= |a| && k < |b| && a[..k] == b[..k] && (k == |a| || a[k] < b[k]) {
        if k > 0 { assert a[..k][0] == b[..k][0]; }
      }
    }
  }

  lemma {:induction false} TermIrreflexive(a: string)
    ensures !TermLess(a, a)
  {
    if a != [] { TermIrreflexive(a[1..]); }
  }

  lemma {:induction false} TermTransitive(a: string, b: string, c: string)
    requires TermLess(a, b) && TermLess(b, c)
    ensures TermLess(a, c)
  {
    if a != [] && a[0] == b[0] && b[0] == c[0] { TermTransitive(a[1..], b[1..], c[1..]); }
  }

  lemma {:induction false} TermTotal(a: string, b: string)
    requires a != b
    ensures TermLess(a, b) || TermLess(b, a)
  {
    if a != [] && b != [] && a[0] == b[0] {
      assert a == [a[0]] + a[1..] && b == [b[0]] + b[1..];
      TermTotal(a[1..], b[1..]);
    }
  }

  lemma TermOrder()
    ensures StrictOrder(TermLess)
  {
    forall x
      ensures !TermLess(x, x)
    {
      TermIrreflexive(x);
    }
    forall x, y, z | TermLess(x, y) && TermLess(y, z)
      ensures TermLess(x, z)
    {
      TermTransitive(x, y, z);
    }
  }

  // ------------------------------------------------------------ the reference

  /** How many rows of one arm hold the term. */
  function RowsWith(rows: seq<Row>, high: bool, term: string): nat {
    if rows == [] then 0
    else
      var last := rows[|rows| - 1];
      RowsWith(rows[..|rows| - 1], high, term) + (if last.high == high && term in last.terms then 1 else 0)
  }

  function ArmSize(rows: seq<Row>, high: bool): nat {
    if rows == [] then 0
    else ArmSize(rows[..|rows| - 1], high) + (if rows[|rows| - 1].high == high then 1 else 0)
  }

  /** Eligible, in at least two high rows and in no low row. */
  predicate Qualifies(stop: set<string>, rows: seq<Row>, term: string) {
    Eligible(stop, term) && RowsWith(rows, true, term) >= 2 && RowsWith(rows, false, term) == 0
  }

  function Seen(rows: seq<Row>): set<string> {
    if rows == [] then {} else Seen(rows[..|rows| - 1]) + rows[|rows| - 1].terms
  }

  /** In more high rows, or in as many and first in term order. */
  predicate Ahead(rows: seq<Row>, a: string, b: string) {
    var x, y := RowsWith(rows, true, a), RowsWith(rows, true, b);
    x > y || (x == y && TermLess(a, b))
  }

  ghost function Rivals(stop: set<string>, rows: seq<Row>, term: string): set<string> {
    set u | u in Seen(rows) && Qualifies(stop, rows, u) && Ahead(rows, u, term)
  }

  /** Among the best: fewer qualifying terms are ahead of it than there is room. */
  ghost predicate Chosen(stop: set<string>, rows: seq<Row>, term: string) {
    Qualifies(stop, rows, term) && |Rivals(stop, rows, term)| < MAX_DISTILLED_TERMS
  }

  ghost predicate IsLexicon(stop: set<string>, rows: seq<Row>, terms: seq<string>) {
    Ascending(TermLess, terms) && forall t :: t in terms <==> Chosen(stop, rows, t)
  }

  // --------------------------------------------------------- row order is moot

  lemma {:induction false} RowsWithPositive(rows: seq<Row>, high: bool, term: string)
    requires RowsWith(rows, high, term) > 0
    ensures term in Seen(rows)
  {
    if !(rows[|rows| - 1].high == high && term in rows[|rows| - 1].terms) {
      RowsWithPositive(rows[..|rows| - 1], high, term);
    }
  }

  /** Taking out one row, wherever it stands, lowers the counts alike. */
  lemma {:induction false} RowsWithout(rows: seq<Row>, k: nat, high: bool, term: string)
    requires k < |rows|
    ensures RowsWith(rows, high, term) == RowsWith(rows[..k] + rows[k + 1..], high, term)
                                          + (if rows[k].high == high && term in rows[k].terms then 1 else 0)
    decreases |rows|
  {
    var n := |rows| - 1;
    var rest := rows[..k] + rows[k + 1..];
    if k == n {
      assert rest == rows[..n];
    } else {
      RowsWithout(rows[..n], k, high, term);
      assert rest[..n - 1] == rows[..n][..k] + rows[..n][k + 1..];
      assert rest[n - 1] == rows[n];
    }
  }

  lemma RowsWithLast(rows: seq<Row>, high: bool, term: string)
    requires rows != []
    ensures RowsWith(rows, high, term) == RowsWith(rows[..|rows| - 1], high, term)
                                          + (if rows[|rows| - 1].high == high && term in rows[|rows| - 1].terms then 1 else 0)
  {
  }

  lemma NoRows(high: bool, term: string)
    ensures RowsWith([], high, term) == 0
  {
  }

  /** The count is the number of rows of the arm that hold the term. */
  lemma {:induction false} RowsWithCounts(rows: seq<Row>, high: bool, term: string)
    ensures RowsWith(rows, high, term) == |set i | 0 <= i < |rows| && rows[i].high == high && term in rows[i].terms|
    decreases |rows|
  {
    hide RowsWith;
    if rows == [] {
      NoRows(high, term);
    } else {
      var n := |rows| - 1;
      var all := set i | 0 <= i < |rows| && rows[i].high == high && term in rows[i].terms;
      var fewer := set i | 0 <= i < n && rows[..n][i].high == high && term in rows[..n][i].terms;
      RowsWithLast(rows, high, term);
      RowsWithCounts(rows[..n], high, term);
      forall i
        ensures i in all <==> i in fewer || (i == n && rows[n].high == high && term in rows[n].terms)
      {
        if 0 <= i < n { assert rows[..n][i] == rows[i]; }
      }
      if rows[n].high == high && term in rows[n].terms { assert all == fewer + {n}; } else { assert all == fewer; }
    }
  }

  lemma PositionOf(a: seq<Row>, b: seq<Row>) returns (k: nat)
    requires multiset(a) == multiset(b) && a != []
    ensures k < |b| && b[k] == a[|a| - 1]
    ensures multiset(a[..|a| - 1]) == multiset(b[..k] + b[k + 1..])
  {
    var n := |a| - 1;
    assert a == a[..n] + [a[n]];
    assert a[n] in multiset(b);
    k :| 0 <= k < |b| && b[k] == a[n];
    assert b == b[..k] + [b[k]] + b[k + 1..];
    assert multiset(a) == multiset(a[..n]) + multiset{a[n]};
    assert multiset(b) == multiset(b[..k]) + multiset{b[k]} + multiset(b[k + 1..]);
    assert multiset(a[..n]) == multiset(a) - multiset{a[n]};
    assert multiset(b[..k] + b[k + 1..]) == multiset(b[..k]) + multiset(b[k + 1..]) == multiset(b) - multiset{b[k]};
  }

  lemma {:induction false} RowsWithPermuted(a: seq<Row>, b: seq<Row>, high: bool, term: string)
    requires multiset(a) == multiset(b)
    ensures RowsWith(a, high, term) == RowsWith(b, high, term)
    decreases |a|
  {
    hide RowsWith;
    assert |a| == |multiset(a)| == |multiset(b)| == |b|;
    if a == [] {
      assert b == a;
    } else {
      var k := PositionOf(a, b);
      RowsWithLast(a, high, term);
      RowsWithout(b, k, high, term);
      RowsWithPermuted(a[..|a| - 1], b[..k] + b[k + 1..], high, term);
    }
  }

  /** A term qualifies when it has three to forty-eight bytes and is no stop word,
      at least two rows of the high arm hold it and no row of the low arm does. */
  lemma QualifiesMeaning(stop: set<string>, rows: seq<Row>, term: string)
    ensures Qualifies(stop, rows, term) <==>
      && 3 <= |term| <= 48 && term !in stop
      && |set i | 0 <= i < |rows| && rows[i].high && term in rows[i].terms| >= 2
      && forall i :: 0 <= i < |rows| && !rows[i].high ==> term !in rows[i].terms
  {
    hide RowsWith;
    RowsWithCounts(rows, true, term);
    RowsWithCounts(rows, false, term);
    var high := set i | 0 <= i < |rows| && rows[i].high && term in rows[i].terms;
    assert high == set i | 0 <= i < |rows| && rows[i].high == true && term in rows[i].terms;
    var low := set i | 0 <= i < |rows| && rows[i].high == false && term in rows[i].terms;
    if low == {} {
      forall i | 0 <= i < |rows| && !rows[i].high
        ensures term !in rows[i].terms
      {
        assert i !in low;
      }
    } else {
      var i :| i in low;
      assert |low| > 0;
    }
  }

  lemma ChosenPermuted(stop: set<string>, a: seq<Row>, b: seq<Row>, term: string)
    requires multiset(a) == multiset(b)
    ensures Chosen(stop, a, term) == Chosen(stop, b, term)
  {
    forall u
      ensures Qualifies(stop, a, u) == Qualifies(stop, b, u) && Ahead(a, u, term) == Ahead(b, u, term)
    {
      RowsWithPermuted(a, b, true, u);
      RowsWithPermuted(a, b, false, u);
      RowsWithPermuted(a, b, true, term);
    }
    forall u
      ensures u in Rivals(stop, a, term) <==> u in Rivals(stop, b, term)
    {
      if Qualifies(stop, a, u) {
        RowsWithPositive(a, true, u);
        RowsWithPositive(b, true, u);
      }
    }
    assert Rivals(stop, a, term) == Rivals(stop, b, term);
  }

  /** The lexicon of a dataset is unique, and the same for every arrangement of
      its rows. */
  lemma LexiconIgnoresRowOrder(stop: set<string>, a: seq<Row>, b: seq<Row>, x: seq<string>, y: seq<string>)
    requires multiset(a) == multiset(b) && IsLexicon(stop, a, x) && IsLexicon(stop, b, y)
    ensures x == y
  {
    TermOrder();
    forall t
      ensures t in x <==> t in y
    {
      ChosenPermuted(stop, a, b, t);
    }
    AscendingUnique(TermLess, x, y);
  }

  // ------------------------------------------------------- sorting candidates

  datatype Candidate = Candidate(term: string, count: nat)

  predicate Better(a: Candidate, b: Candidate) {
    a.count > b.count || (a.count == b.count && TermLess(a.term, b.term))
  }

  lemma BetterOrder()
    ensures StrictOrder(Better)
  {
    TermOrder();
    forall x, y, z | Better(x, y) && Better(y, z)
      ensures Better(x, z)
    {
      if x.count == y.count == z.count { TermTransitive(x.term, y.term, z.term); }
    }
  }

  /** Exactly the qualifying terms, each with its count. */
  ghost predicate AreCandidates(stop: set<string>, rows: seq<Row>, cs: seq<Candidate>) {
    && (forall i :: 0 <= i < |cs| ==> Qualifies(stop, rows, cs[i].term) && cs[i].count == RowsWith(rows, true, cs[i].term))
    && (forall t :: Qualifies(stop, rows, t) ==> Candidate(t, RowsWith(rows, true, t)) in cs)
  }

  function TermsOf(cs: seq<Candidate>): seq<string> {
    if cs == [] then [] else TermsOf(cs[..|cs| - 1]) + [cs[|cs| - 1].term]
  }

  lemma {:induction false} TermsAt(cs: seq<Candidate>)
    ensures |TermsOf(cs)| == |cs| && forall i :: 0 <= i < |cs| ==> TermsOf(cs)[i] == cs[i].term
  {
    if cs != [] { TermsAt(cs[..|cs| - 1]); }
  }

  lemma NotAfter(cs: seq<Candidate>, i: nat, k: nat)
    requires StrictOrder(Better) && Ascending(Better, cs) && i < |cs| && k < |cs| && Better(cs[i], cs[k])
    ensures i < k
  {
    assert forall j | k < j < |cs| :: Better(cs[k], cs[j]);
  }

  /** The terms of the first k entries. */
  function FrontTerms(cs: seq<Candidate>, k: nat): set<string>
    requires k <= |cs|
  {
    if k == 0 then {} else FrontTerms(cs, k - 1) + {cs[k - 1].term}
  }

  lemma {:induction false} FrontTermsMembers(cs: seq<Candidate>, k: nat)
    requires k <= |cs|
    ensures forall t :: t in FrontTerms(cs, k) <==> exists i :: 0 <= i < k && cs[i].term == t
  {
    if k > 0 { FrontTermsMembers(cs, k - 1); }
  }

  lemma {:induction false} FirstTerms(cs: seq<Candidate>, k: nat)
    requires k <= |cs| && forall i, j :: 0 <= i < j < |cs| ==> cs[i].term != cs[j].term
    ensures |FrontTerms(cs, k)| == k
  {
    if k > 0 {
      FirstTerms(cs, k - 1);
      FrontTermsMembers(cs, k - 1);
      assert cs[k - 1].term !in FrontTerms(cs, k - 1);
    }
  }

  /** In sorted order the rivals of an entry are the entries before it. */
  lemma RivalsBefore(stop: set<string>, rows: seq<Row>, cs: seq<Candidate>, k: nat)
    requires AreCandidates(stop, rows, cs) && Ascending(Better, cs) && k < |cs|
    ensures |Rivals(stop, rows, cs[k].term)| == k
  {
    BetterOrder();
    var before := FrontTerms(cs, k);
    FrontTermsMembers(cs, k);
    forall u
      ensures u in Rivals(stop, rows, cs[k].term) <==> u in before
    {
      if u in Rivals(stop, rows, cs[k].term) {
        var c := Candidate(u, RowsWith(rows, true, u));
        assert c in cs;
        var i :| 0 <= i < |cs| && cs[i] == c;
        assert Better(c, cs[k]);
        assert i < k by { NotAfter(cs, i, k); }
      } else if u in before {
        var i :| 0 <= i < k && cs[i].term == u;
        assert Better(cs[i], cs[k]);
        RowsWithPositive(rows, true, u);
        assert false;
      }
    }
    assert Rivals(stop, rows, cs[k].term) == before;
    FirstTerms(cs, k);
  }

  /** The first 128 of the sorted candidates are the chosen terms. */
  lemma TruncatedAreChosen(stop: set<string>, rows: seq<Row>, cs: seq<Candidate>, best: seq<Candidate>)
    requires AreCandidates(stop, rows, cs) && Ascending(Better, cs)
    requires best == if |cs| > MAX_DISTILLED_TERMS then cs[..MAX_DISTILLED_TERMS] else cs
    ensures forall t :: t in TermsOf(best) <==> Chosen(stop, rows, t)
  {
    hide Qualifies, TermsOf, RowsWith, Rivals;
    TermsAt(best);
    forall t
      ensures t in TermsOf(best) <==> Chosen(stop, rows, t)
    {
      if Qualifies(stop, rows, t) {
        var c := Candidate(t, RowsWith(rows, true, t));
        assert c in cs;
        var k :| 0 <= k < |cs| && cs[k] == c;
        RivalsBefore(stop, rows, cs, k);
        if k < |best| { assert TermsOf(best)[k] == t; }
        if t in TermsOf(best) {
          var i :| 0 <= i < |best| && TermsOf(best)[i] == t;
          assert cs[i] == cs[k];
          RivalsBefore(stop, rows, cs, i);
        }
      }
      assert t in TermsOf(best) ==> Qualifies(stop, rows, t);
    }
  }

  lemma TermsDistinct(rows: seq<Row>, cs: seq<Candidate>)
    requires Ascending(Better, cs)
    requires forall i :: 0 <= i < |cs| ==> cs[i].count == RowsWith(rows, true, cs[i].term)
    ensures Comparable(TermLess, TermsOf(cs))
  {
    hide TermsOf, TermLess, RowsWith;
    TermsAt(cs);
    BetterOrder();
    forall i, j | 0 <= i < j < |cs|
      ensures TermLess(TermsOf(cs)[i], TermsOf(cs)[j]) || TermLess(TermsOf(cs)[j], TermsOf(cs)[i])
    {
      assert Better(cs[i], cs[j]);
      assert cs[i] != cs[j];
      TermTotal(cs[i].term, cs[j].term);
    }
  }

  // -------------------------------------------------------------- the method

  function Get(counts: map<string, nat>, term: string): nat {
    if term in counts then counts[term] else 0
  }

  /** Counts every eligible term of one row. */
  method CountTerms(stop: set<string>, counts: map<string, nat>, terms: set<string>) returns (after: map<string, nat>)
    requires forall t <- counts :: counts[t] > 0
    ensures forall t <- after :: after[t] > 0
    ensures forall t :: Get(after, t) == Get(counts, t) + if t in terms && Eligible(stop, t) then 1 else 0
  {
    after := counts;
    var left := terms;
    while left != {}
      invariant left <= terms && forall t <- after :: after[t] > 0
      invariant forall t :: Get(after, t) == Get(counts, t) + if t in terms - left && Eligible(stop, t) then 1 else 0
      decreases left
    {
      var term :| term in left;
      left := left - {term};
      if Eligible(stop, term) { after := after[term := Get(after, term) + 1]; }
    }
  }

  ghost predicate Counted(stop: set<string>, rows: seq<Row>, high: bool, counts: map<string, nat>) {
    && (forall t <- counts :: counts[t] > 0)
    && forall t :: Get(counts, t) == if Eligible(stop, t) then RowsWith(rows, high, t) else 0
  }

  /** One more row, of the arm counted or of the other. */
  lemma CountedNext(stop: set<string>, rows: seq<Row>, i: nat, high: bool, counts: map<string, nat>, after: map<string, nat>)
    requires i < |rows| && Counted(stop, rows[..i], high, counts)
    requires rows[i].high != high ==> after == counts
    requires forall t <- after :: after[t] > 0
    requires rows[i].high == high ==>
      forall t :: Get(after, t) == Get(counts, t) + if t in rows[i].terms && Eligible(stop, t) then 1 else 0
    ensures Counted(stop, rows[..i + 1], high, after)
  {
    hide RowsWith, Eligible, Get;
    assert rows[..i + 1][..i] == rows[..i];
    forall t
      ensures Get(after, t) == if Eligible(stop, t) then RowsWith(rows[..i + 1], high, t) else 0
    {
      RowsWithLast(rows[..i + 1], high, t);
    }
  }

  lemma CountedPositive(stop: set<string>, rows: seq<Row>, high: bool, counts: map<string, nat>)
    requires Counted(stop, rows, high, counts)
    ensures forall t <- counts :: counts[t] > 0
  {
  }

  /** The eligible terms of each arm with the number of rows that hold them. */
  method CountRows(stop: set<string>, rows: seq<Row>) returns (high: map<string, nat>, low: map<string, nat>)
    ensures Counted(stop, rows, true, high) && Counted(stop, rows, false, low)
  {
    hide Eligible;
    high, low := map[], map[];
    for i := 0 to |rows|
      invariant Counted(stop, rows[..i], true, high) && Counted(stop, rows[..i], false, low)
    {
      hide Counted, Get;
      ghost var wasHigh, wasLow := high, low;
      if rows[i].high {
        CountedPositive(stop, rows[..i], true, high);
        high := CountTerms(stop, high, rows[i].terms);
        CountedPositive(stop, rows[..i], false, low);
      } else {
        CountedPositive(stop, rows[..i], false, low);
        low := CountTerms(stop, low, rows[i].terms);
        CountedPositive(stop, rows[..i], true, high);
      }
      CountedNext(stop, rows, i, true, wasHigh, high);
      CountedNext(stop, rows, i, false, wasLow, low);
    }
    assert rows[..|rows|] == rows;
  }

  lemma CountedHas(stop: set<string>, rows: seq<Row>, arm: bool, counts: map<string, nat>, term: string)
    requires Counted(stop, rows, arm, counts)
    ensures Get(counts, term) == if Eligible(stop, term) then RowsWith(rows, arm, term) else 0
    ensures term in counts <==> Eligible(stop, term) && RowsWith(rows, arm, term) > 0
  {
  }

  /** The candidates of the high counts, in any order. */
  method Candidates(stop: set<string>, rows: seq<Row>, high: map<string, nat>, low: map<string, nat>) returns (cs: seq<Candidate>)
    requires Counted(stop, rows, true, high) && Counted(stop, rows, false, low)
    ensures AreCandidates(stop, rows, cs)
    ensures forall i, j :: 0 <= i < j < |cs| ==> cs[i].term != cs[j].term
  {
    hide Eligible, RowsWith, Counted;
    cs := [];
    var left := high.Keys;
    forall t
      ensures Qualifies(stop, rows, t) ==> t in left
    {
      CountedHas(stop, rows, true, high, t);
    }
    while left != {}
      invariant left <= high.Keys
      invariant forall i :: 0 <= i < |cs| ==>
        Qualifies(stop, rows, cs[i].term) && cs[i].count == RowsWith(rows, true, cs[i].term) && cs[i].term !in left
      invariant forall t :: Qualifies(stop, rows, t) && t !in left ==> Candidate(t, RowsWith(rows, true, t)) in cs
      invariant forall i, j :: 0 <= i < j < |cs| ==> cs[i].term != cs[j].term
      decreases left
    {
      var term :| term in left;
      left := left - {term};
      CountedHas(stop, rows, true, high, term);
      CountedHas(stop, rows, false, low, term);
      if high[term] >= 2 && Get(low, term) == 0 {
        cs := cs + [Candidate(term, high[term])];
      }
    }
  }

  method CountHigh(rows: seq<Row>) returns (highRows: nat)
    ensures highRows == ArmSize(rows, true) && |rows| - highRows == ArmSize(rows, false)
  {
    highRows := 0;
    for i := 0 to |rows|
      invariant highRows == ArmSize(rows[..i], true) && i - highRows == ArmSize(rows[..i], false)
    {
      assert rows[..i + 1][..i] == rows[..i];
      if rows[i].high { highRows := highRows + 1; }
    }
    assert rows[..|rows|] == rows;
  }

  lemma SameMembers(a: seq<string>, b: seq<string>)
    requires multiset(a) == multiset(b)
    ensures |a| == |b| && forall t :: t in a <==> t in b
  {
    assert |a| == |multiset(a)| == |multiset(b)| == |b|;
    forall t
      ensures t in a <==> t in b
    {
      assert t in multiset(a) <==> t in multiset(b);
    }
  }

  /** Sorting the candidates keeps them the candidates. */
  lemma SortedCandidates(stop: set<string>, rows: seq<Row>, cs: seq<Candidate>)
    requires AreCandidates(stop, rows, cs)
    requires forall i, j :: 0 <= i < j < |cs| ==> cs[i].term != cs[j].term
    ensures Ascending(Better, Sort(Better, cs)) && AreCandidates(stop, rows, Sort(Better, cs))
  {
    hide Qualifies, Sort, TermLess, RowsWith;
    BetterOrder();
    forall i, j | 0 <= i < j < |cs|
      ensures Better(cs[i], cs[j]) || Better(cs[j], cs[i])
    {
      TermTotal(cs[i].term, cs[j].term);
    }
    SortSorts(Better, cs);
    var sorted := Sort(Better, cs);
    forall c
      ensures c in sorted <==> c in cs
    {
      assert c in multiset(sorted) <==> c in multiset(cs);
    }
    assert forall i | 0 <= i < |sorted| :: sorted[i] in sorted;
  }

  /** The best candidates, as terms in order. */
  method BestTerms(stop: set<string>, rows: seq<Row>, candidates: seq<Candidate>) returns (r: Result<seq<string>, Error>)
    requires AreCandidates(stop, rows, candidates)
    requires forall i, j :: 0 <= i < j < |candidates| ==> candidates[i].term != candidates[j].term
    ensures r.Failure? ==> r.error == NothingFound && forall t :: !Qualifies(stop, rows, t)
    ensures r.Success? ==> r.value != [] && |r.value| <= MAX_DISTILLED_TERMS && IsLexicon(stop, rows, r.value)
  {
    hide Qualifies, Sort, TermLess, RowsWith, Chosen, TermsOf, Better;
    SortedCandidates(stop, rows, candidates);
    var best := Sort(Better, candidates);
    ghost var all := best;
    if |best| > MAX_DISTILLED_TERMS { best := best[..MAX_DISTILLED_TERMS]; }
    if best == [] {
      return Failure(NothingFound);
    }
    TruncatedAreChosen(stop, rows, all, best);
    TermsDistinct(rows, best);
    TermsAt(best);
    TermOrder();
    SortSorts(TermLess, TermsOf(best));
    var terms := Sort(TermLess, TermsOf(best));
    SameMembers(terms, TermsOf(best));
    r := Success(terms);
  }

  method DistillReasoningLexicon(stop: set<string>, rows: seq<Row>) returns (r: Result<seq<string>, Error>)
    ensures r == Failure(TooFewRows) <==>
      ArmSize(rows, true) < MIN_DISTILL_ROWS_PER_ARM || ArmSize(rows, false) < MIN_DISTILL_ROWS_PER_ARM
    ensures r == Failure(NothingFound) ==> forall t :: !Qualifies(stop, rows, t)
    ensures r.Success? ==> r.value != [] && |r.value| <= MAX_DISTILLED_TERMS && IsLexicon(stop, rows, r.value)
  {
    hide Qualifies, IsLexicon;
    var highRows := CountHigh(rows);
    var lowRows := |rows| - highRows;
    if highRows < MIN_DISTILL_ROWS_PER_ARM || lowRows < MIN_DISTILL_ROWS_PER_ARM {
      return Failure(TooFewRows);
    }
    var high, low := CountRows(stop, rows);
    var candidates := Candidates(stop, rows, high, low);
    r := BestTerms(stop, rows, candidates);
  }
}
