/** Which pairs are proposed, counted in words, and what a suggestion tells of its group. */
module CleanupRules {
  import opened Basics
  import opened Text
  import opened Cleanup

  // ----------------------------------------------------------------- the score

  /** The words both sets have, and those only one of them has. */
  function Shared(a: set<string>, b: set<string>): nat {
    |set w | w in a && w in b|
  }

  function Apart(a: set<string>, b: set<string>): nat {
    |set w | w in a && w !in b| + |set w | w in b && w !in a|
  }

  lemma Counts(a: set<string>, b: set<string>)
    ensures |a * b| == Shared(a, b) && |a + b| == Shared(a, b) + Apart(a, b)
  {
    assert a * b == set w | w in a && w in b;
    assert a - b == set w | w in a && w !in b;
    assert b - a == set w | w in b && w !in a;
    assert a + b == (a * b) + ((a - b) + (b - a));
    assert |(a * b) + ((a - b) + (b - a))| == |a * b| + |(a - b) + (b - a)|;
  }

  /** The score is what share of all their words two sets have in common. */
  lemma ScoreCounts(a: set<string>, b: set<string>)
    ensures Shared(a, b) + Apart(a, b) == 0 ==> Jaccard(a, b) == 0.0
    ensures Shared(a, b) + Apart(a, b) > 0 ==>
              Jaccard(a, b) == Shared(a, b) as real / (Shared(a, b) + Apart(a, b)) as real
  {
    Counts(a, b);
  }

  lemma Ratio(q: real, s: real, u: real)
    requires u > 0.0 && q * u == s
    ensures q >= 0.85 <==> s >= 0.85 * u
  {
    if q >= 0.85 { Scaled(0.85, q, u); } else { Scaled(q, 0.85, u); }
  }

  lemma Quotient(s: real, u: real)
    requires u > 0.0
    ensures s / u * u == s
  {}

  lemma InHundredths(s: int, u: int)
    ensures s as real >= 0.85 * u as real <==> 100 * s >= 85 * u
  {}

  lemma RatioAtLeast(s: nat, u: nat)
    requires u > 0
    ensures s as real / u as real >= 0.85 <==> 100 * s >= 85 * u
  {
    Quotient(s as real, u as real);
    Ratio(s as real / u as real, s as real, u as real);
    InHundredths(s, u);
  }

  lemma Scaled(x: real, y: real, u: real)
    requires x <= y && u > 0.0
    ensures x * u <= y * u
    ensures x < y ==> x * u < y * u
  {}

  /** Similar enough: 17 times the words only one set has is at most 3 times the words they share. */
  lemma ThresholdCounts(a: set<string>, b: set<string>)
    requires a != {}
    ensures Jaccard(a, b) >= 0.85 <==> 17 * Apart(a, b) <= 3 * Shared(a, b)
  {
    Counts(a, b);
    var w :| w in a;
    assert w in a + b;
    RatioAtLeast(Shared(a, b), Shared(a, b) + Apart(a, b));
  }

  lemma NothingApart(a: set<string>, b: set<string>)
    ensures Apart(a, b) == 0 <==> a == b
  {
    var onlyA, onlyB := set w | w in a && w !in b, set w | w in b && w !in a;
    if Apart(a, b) == 0 {
      assert onlyA == {} && onlyB == {};
      forall w ensures w in a <==> w in b {
        assert w !in onlyA && w !in onlyB;
      }
    }
  }

  lemma WholeRatio(s: nat, u: nat)
    requires u > 0
    ensures s as real / u as real == 1.0 <==> s == u
  {
    Quotient(s as real, u as real);
  }

  /** The score is 1 exactly for two equal sets of words that are not empty. */
  lemma ScoreOne(a: set<string>, b: set<string>)
    ensures Jaccard(a, b) == 1.0 <==> a == b && a != {}
  {
    Counts(a, b);
    NothingApart(a, b);
    if |a + b| > 0 {
      WholeRatio(Shared(a, b), Shared(a, b) + Apart(a, b));
    }
  }

  lemma FractionFalls(s: nat, u: nat)
    requires 0 < s <= u
    ensures s as real / (u + 1) as real < s as real / u as real
  {
    var x, y := s as real / (u + 1) as real, s as real / u as real;
    Quotient(s as real, (u + 1) as real);
    Quotient(s as real, u as real);
    assert x > 0.0;
    assert x * u as real < s as real;
    if y <= x { Scaled(y, x, u as real); }
  }

  /** A word added to one side only makes the score fall, if there was any. */
  lemma ScoreFalls(a: set<string>, b: set<string>, w: string)
    requires w !in a && w !in b && a * b != {}
    ensures Jaccard(a + {w}, b) < Jaccard(a, b)
  {
    assert (a + {w}) * b == a * b && (a + {w}) + b == (a + b) + {w};
    var x :| x in a * b;
    assert x in a && x in a + b;
    assert |a * b| <= |a + b| by { Counts(a, b); }
    assert |a * b| > 0;
    FractionFalls(|a * b|, |a + b|);
  }

  // ----------------------------------------------------------- pairs proposed

  /** Row `r` has a key and no other row has the same. */
  predicate OnlyOne(rows: set<Row>, r: Row) {
    r in rows && r.key.Some? && forall x :: x in rows && x.key == r.key ==> x == r
  }

  /** The suggestion is to merge just these two by likeness. */
  predicate MergesPair(s: Suggestion, a: Row, b: Row) {
    s.tier == One && {s.canonicalId} + Elems(s.sourceIds) == {a.id, b.id}
  }

  lemma OneIsAlone(rows: set<Row>, r: Row)
    ensures OnlyOne(rows, r) <==> r in Singles(rows)
  {
    if OnlyOne(rows, r) {
      assert Group(rows, r.key.value) == {r};
    }
    if r in Singles(rows) {
      forall x | x in rows && x.key == r.key ensures x == r {
        assert x in Group(rows, r.key.value);
      }
    }
  }

  lemma IdsOfElems(q: seq<Row>, id: int)
    ensures id in Ids(q) <==> exists r :: r in q && r.id == id
  {
    if id in Ids(q) {
      var r := IdOfRow(q, id);
    }
    if r :| r in q && r.id == id {
      IdIn(q, r);
    }
  }

  lemma {:induction false} IdIn(q: seq<Row>, r: Row)
    requires r in q
    ensures r.id in Ids(q)
  {
    if q[0] != r {
      assert r in q[1..];
      IdIn(q[1..], r);
    }
  }

  function IdsIn(group: set<Row>): set<int> {
    set r | r in group :: r.id
  }

  /** The ids a suggestion names are those of its group. */
  lemma NamesItsGroup(m: Merge)
    requires m.group != {}
    ensures {Suggest(m).canonicalId} + Elems(Suggest(m).sourceIds) == IdsIn(m.group)
  {
    var best := Best(m.group);
    var rest := m.group - {best};
    InOrderElems(rest);
    forall id ensures id in {Suggest(m).canonicalId} + Elems(Suggest(m).sourceIds) <==> id in IdsIn(m.group) {
      IdsOfElems(InOrder(rest), id);
      if r :| r in m.group && r.id == id {
        assert r == best || r in rest;
        assert r in rest ==> r in Elems(InOrder(rest));
      }
      if r :| r in InOrder(rest) && r.id == id {
        assert r in Elems(InOrder(rest));
      }
    }
  }

  lemma PairNamed(a: Row, b: Row)
    ensures MergesPair(Suggest(PairMerge(a, b)), a, b)
  {
    NamesItsGroup(PairMerge(a, b));
    IdsOfTwo(a, b);
  }

  lemma IdsOfTwo(a: Row, b: Row)
    ensures IdsIn({a, b}) == {a.id, b.id}
  {
    assert a in {a, b} && b in {a, b};
  }

  /** Rows with the ids of two others are those two. */
  lemma SamePair(rows: set<Row>, a: Row, b: Row, c: Row, d: Row)
    requires IdsDistinct(rows) && a in rows && b in rows && c in rows && d in rows && a != b && c != d
    requires {a.id, b.id} == {c.id, d.id}
    ensures (a == c && b == d) || (a == d && b == c)
  {
    assert a.id in {c.id, d.id} && b.id in {c.id, d.id};
  }

  lemma PairFound(rows: set<Row>, s: Suggestion, a: Row, b: Row)
    requires IdsDistinct(rows) && a in rows && b in rows && a != b && Called(rows, s) && MergesPair(s, a, b)
    ensures Similar(a, b) && s.score == Score(a, b)
  {
    var m :| Wanted(rows, m) && m.group != {} && s == Suggest(m);
    var c, d :| c in Singles(rows) && d in Singles(rows) && c != d && Similar(c, d) && m == PairMerge(c, d);
    PairNamed(c, d);
    SamePair(rows, a, b, c, d);
    PairSymmetric(c, d);
  }

  /**
   * Two rows, each alone with its key, are proposed for merging exactly when their keys share their first word and 17
   * times the words only one of them has is at most 3 times the words they share; the score is the share of all
   * their words that both have.
   */
  lemma ProposedExactly(rows: set<Row>, out: seq<Suggestion>, a: Row, b: Row)
    requires IdsDistinct(rows) && Answers(rows, out) && OnlyOne(rows, a) && OnlyOne(rows, b) && a != b
    ensures var v, w := Split(a.key.value), Split(b.key.value);
            var x, y := Elems(v), Elems(w);
            && ((exists s :: s in out && MergesPair(s, a, b))
                <==> v != [] && w != [] && v[0] == w[0] && 17 * Apart(x, y) <= 3 * Shared(x, y))
            && (forall s :: s in out && MergesPair(s, a, b) ==>
                  Shared(x, y) + Apart(x, y) > 0 && s.score == Shared(x, y) as real / (Shared(x, y) + Apart(x, y)) as real)
  {
    OneIsAlone(rows, a);
    OneIsAlone(rows, b);
    SimilarCounts(a, b);
    forall s | s in out && MergesPair(s, a, b)
      ensures Similar(a, b) && s.score == Score(a, b)
    {
      PairFound(rows, s, a, b);
    }
    if Similar(a, b) {
      SimilarCalled(rows, a, b);
    }
  }

  lemma SimilarCounts(a: Row, b: Row)
    requires a.key.Some? && b.key.Some?
    ensures var v, w := Split(a.key.value), Split(b.key.value);
            var x, y := Elems(v), Elems(w);
            && (Similar(a, b) <==> v != [] && w != [] && v[0] == w[0] && 17 * Apart(x, y) <= 3 * Shared(x, y))
            && (Similar(a, b) ==>
                  Shared(x, y) + Apart(x, y) > 0 && Score(a, b) == Shared(x, y) as real / (Shared(x, y) + Apart(x, y)) as real)
  {
    var x, y := Elems(Words(a)), Elems(Words(b));
    if Words(a) != [] {
      assert Words(a)[0] in x;
      ThresholdCounts(x, y);
    }
    ScoreCounts(x, y);
  }

  lemma SimilarCalled(rows: set<Row>, a: Row, b: Row)
    requires a in Singles(rows) && b in Singles(rows) && a != b && Similar(a, b)
    ensures Called(rows, Suggest(PairMerge(a, b))) && MergesPair(Suggest(PairMerge(a, b)), a, b)
  {
    var m := PairMerge(a, b);
    assert WantedPair(Singles(rows), m);
    PairNamed(a, b);
  }

  // ---------------------------------------------------------- groups proposed

  function KeyedBy(rows: set<Row>, key: string): set<Row> {
    set r | r in rows && r.key.Some? && r.key.value == key
  }

  /** The suggestion is to merge all of `group` for its key. */
  predicate MergesGroup(s: Suggestion, group: set<Row>) {
    s.tier == Zero && {s.canonicalId} + Elems(s.sourceIds) == IdsIn(group)
  }

  lemma SameIdsSameGroup(rows: set<Row>, g: set<Row>, h: set<Row>)
    requires IdsDistinct(rows) && g <= rows && h <= rows && IdsIn(g) == IdsIn(h)
    ensures g == h
  {
    forall r | r in rows ensures r in g <==> r in h {
      if r in g {
        assert r.id in IdsIn(h);
        var x :| x in h && x.id == r.id;
      }
      if r in h {
        assert r.id in IdsIn(g);
        var x :| x in g && x.id == r.id;
      }
    }
  }

  /** The rows under one key are proposed as one merge of score 1 exactly when there are two of them or more. */
  lemma GroupProposedExactly(rows: set<Row>, out: seq<Suggestion>, key: string)
    requires IdsDistinct(rows) && Answers(rows, out)
    ensures (exists s :: s in out && MergesGroup(s, KeyedBy(rows, key))) <==> |KeyedBy(rows, key)| >= 2
    ensures forall s :: s in out && MergesGroup(s, KeyedBy(rows, key)) ==> s.score == 1.0
  {
    var group := KeyedBy(rows, key);
    assert group == Group(rows, key);
    if |group| >= 2 {
      var m := Merge(Zero, 1.0, group);
      NamesItsGroup(m);
      assert WantedGroup(rows, m);
      assert Called(rows, Suggest(m));
    }
    forall s | s in out && MergesGroup(s, group) ensures s.score == 1.0 && |group| >= 2 {
      GroupFound(rows, s, group);
    }
  }

  lemma GroupFound(rows: set<Row>, s: Suggestion, group: set<Row>)
    requires IdsDistinct(rows) && group <= rows && Called(rows, s) && MergesGroup(s, group)
    ensures s.score == 1.0 && |group| >= 2
  {
    var m :| Wanted(rows, m) && m.group != {} && s == Suggest(m);
    NamesItsGroup(m);
    WantedWithin(rows, m);
    SameIdsSameGroup(rows, m.group, group);
  }

  // ------------------------------------------------------- what it tells

  /** `s` tells of `group` that `c` survives it: its names and ids, and how many books carry any of its rows. */
  predicate Tells(s: Suggestion, group: set<Row>, c: Row) {
    && c in group && s.canonicalId == c.id && s.canonicalName == c.name && s.primary == c.name
    && (forall r :: r in group ==> |r.books| < |c.books| || (|r.books| == |c.books| && c.id <= r.id))
    && |s.sourceIds| == |s.sourceNames| == |group| - 1
    && (forall i :: 0 <= i < |s.sourceIds| ==> NamesRow(group - {c}, s.sourceIds[i], s.sourceNames[i]))
    && s.secondary == (if |group| == 2 then Some(s.sourceNames[0]) else None)
    && s.bookCount == |set r, b | r in group && b in r.books :: b|
  }

  predicate NamesRow(group: set<Row>, id: int, name: string) {
    exists r :: r in group && r.id == id && r.name == name
  }

  lemma {:induction false} ListedAlike(q: seq<Row>)
    ensures |Ids(q)| == |Names(q)| == |q|
    ensures forall i :: 0 <= i < |q| ==> Ids(q)[i] == q[i].id && Names(q)[i] == q[i].name
  {
    if q != [] {
      ListedAlike(q[1..]);
    }
  }

  lemma {:induction false} InOrderSize(group: set<Row>)
    ensures |InOrder(group)| == |group|
  {
    if group != {} {
      InOrderSize(group - {Least(group)});
    }
  }

  /** A suggestion tells who survives its group, who goes into it, each under its own name, and how many books that is. */
  lemma SuggestionTells(m: Merge)
    requires m.group != {}
    ensures Suggest(m).tier == m.tier && Suggest(m).score == m.score && Tells(Suggest(m), m.group, Best(m.group))
  {
    var c := Best(m.group);
    var sources := InOrder(m.group - {c});
    ListedAlike(sources);
    InOrderSize(m.group - {c});
    InOrderElems(m.group - {c});
    forall i | 0 <= i < |sources| ensures NamesRow(m.group - {c}, Ids(sources)[i], Names(sources)[i]) {
      assert sources[i] in Elems(sources);
    }
    forall r | r in m.group ensures |r.books| < |c.books| || (|r.books| == |c.books| && c.id <= r.id) {
      assert Outranks(c, r);
    }
  }
}
