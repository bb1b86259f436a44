/** The ranker (instructions.go, `findRelevantSections`): score every section,
    keep the positive ones, order them by descending score, keep the first
    `maxSections`. */
module Ranking {
  import opened Unicode
  import opened Markdown
  import opened Tokenizer
  import opened Scoring

  /** A section with the score it got for one query. */
  datatype ScoredSection = ScoredSection(section: Section, score: real)

  /** The sections with a positive score, in index order, each with its score. */
  function Positives(sections: seq<Section>, score: Section -> real): seq<ScoredSection>
    decreases |sections|
  {
    if sections == [] then []
    else
      var s := sections[0];
      (if score(s) > 0.0 then [ScoredSection(s, score(s))] else []) + Positives(sections[1..], score)
  }

  /** Exactly the sections scoring positive make it through, each with its own score. */
  lemma {:induction false} PositivesSpec(sections: seq<Section>, score: Section -> real)
    ensures var r := Positives(sections, score);
            && |r| <= |sections|
            && (forall i :: 0 <= i < |r| ==>
                  r[i].score > 0.0 && r[i].section in sections && r[i].score == score(r[i].section))
            && (forall j :: 0 <= j < |sections| && score(sections[j]) > 0.0 ==>
                  ScoredSection(sections[j], score(sections[j])) in r)
    decreases |sections|
  {
    if sections != [] {
      PositivesSpec(sections[1..], score);
      var rest := Positives(sections[1..], score);
      var head := if score(sections[0]) > 0.0 then [ScoredSection(sections[0], score(sections[0]))] else [];
      var r := head + rest;
      forall i | 0 <= i < |r|
        ensures r[i].score > 0.0 && r[i].section in sections && r[i].score == score(r[i].section)
      {
        if i >= |head| {
          assert r[i] == rest[i - |head|];
          assert r[i].section in sections[1..];
        }
      }
      forall j | 0 <= j < |sections| && score(sections[j]) > 0.0
        ensures ScoredSection(sections[j], score(sections[j])) in r
      {
        if j > 0 {
          assert sections[j] == sections[1..][j - 1];
        }
      }
    }
  }

  predicate SortedDesc(xs: seq<ScoredSection>) {
    forall i, j :: 0 <= i < j < |xs| ==> xs[i].score >= xs[j].score
  }

  /** Inserting into a list sorted by descending score, after the entries that score at least as much. */
  function Insert(x: ScoredSection, xs: seq<ScoredSection>): seq<ScoredSection>
    decreases |xs|
  {
    if xs == [] || x.score >= xs[0].score then [x] + xs
    else [xs[0]] + Insert(x, xs[1..])
  }

  /** The sort: insertion, one entry at a time. Equal scores keep index order
      here; the source's sort makes no promise about them (see
      `RankTieOrderIrrelevant`). */
  function SortByScore(xs: seq<ScoredSection>): seq<ScoredSection>
    decreases |xs|
  {
    if xs == [] then [] else Insert(xs[0], SortByScore(xs[1..]))
  }

  lemma {:induction false} InsertMultiset(x: ScoredSection, xs: seq<ScoredSection>)
    ensures multiset(Insert(x, xs)) == multiset(xs) + multiset{x}
    decreases |xs|
  {
    if xs != [] && x.score < xs[0].score {
      InsertMultiset(x, xs[1..]);
      assert xs == [xs[0]] + xs[1..];
    }
  }

  lemma {:induction false} InsertSorted(x: ScoredSection, xs: seq<ScoredSection>)
    requires SortedDesc(xs)
    ensures SortedDesc(Insert(x, xs))
    decreases |xs|
  {
    if xs != [] && x.score < xs[0].score {
      var rest := Insert(x, xs[1..]);
      InsertSorted(x, xs[1..]);
      assert rest != [] && rest[0].score <= xs[0].score by {
        if xs[1..] != [] {
          assert xs[1..][0] == xs[1];
        }
      }
      var r := [xs[0]] + rest;
      forall i, j | 0 <= i < j < |r| ensures r[i].score >= r[j].score {
        if i == 0 {
          assert r[j] == rest[j - 1];
          assert rest[0].score >= rest[j - 1].score;
        } else {
          assert r[i] == rest[i - 1] && r[j] == rest[j - 1];
        }
      }
    }
  }

  lemma {:induction false} InsertSpec(x: ScoredSection, xs: seq<ScoredSection>)
    requires SortedDesc(xs)
    ensures SortedDesc(Insert(x, xs))
    ensures multiset(Insert(x, xs)) == multiset(xs) + multiset{x}
  {
    InsertSorted(x, xs);
    InsertMultiset(x, xs);
  }

  /** Sorting yields a permutation in descending order of score. */
  lemma {:induction false} SortSpec(xs: seq<ScoredSection>)
    ensures SortedDesc(SortByScore(xs))
    ensures multiset(SortByScore(xs)) == multiset(xs)
  {
    SortSorted(xs);
    SortPermutes(xs);
  }

  lemma {:induction false} SortSorted(xs: seq<ScoredSection>)
    ensures SortedDesc(SortByScore(xs))
    decreases |xs|
  {
    if xs != [] {
      SortSorted(xs[1..]);
      InsertSorted(xs[0], SortByScore(xs[1..]));
    }
  }

  lemma {:induction false} SortPermutes(xs: seq<ScoredSection>)
    ensures multiset(SortByScore(xs)) == multiset(xs)
    decreases |xs|
  {
    if xs != [] {
      SortPermutes(xs[1..]);
      InsertMultiset(xs[0], SortByScore(xs[1..]));
      assert xs == [xs[0]] + xs[1..];
    }
  }

  /** Keeping the first `k` entries. */
  function Truncate(xs: seq<ScoredSection>, k: nat): (r: seq<ScoredSection>)
    ensures |r| == if |xs| > k then k else |xs|
    ensures r == xs[..|r|]
  {
    if |xs| > k then xs[..k] else xs
  }

  lemma {:induction false} TruncateSplit(xs: seq<ScoredSection>, k: nat)
    ensures multiset(xs) == multiset(Truncate(xs, k)) + multiset(xs[|Truncate(xs, k)|..])
  {
    var r := Truncate(xs, k);
    assert xs == r + xs[|r|..];
  }

  /** Sorting then truncating keeps the best entries of `p`. */
  lemma {:induction false} SortTruncateKeepsBest(p: seq<ScoredSection>, k: nat)
    ensures var r := Truncate(SortByScore(p), k);
            && multiset(r) <= multiset(p)
            && (|p| <= k ==> multiset(r) == multiset(p))
            && forall x :: x in multiset(p) - multiset(r) ==>
                 forall i :: 0 <= i < |r| ==> x.score <= r[i].score
  {
    var sorted := SortByScore(p);
    SortSpec(p);
    var r := Truncate(sorted, k);
    TruncateSplit(sorted, k);
    var dropped := sorted[|r|..];
    forall x | x in multiset(p) - multiset(r)
      ensures forall i :: 0 <= i < |r| ==> x.score <= r[i].score
    {
      assert x in multiset(dropped);
      var j :| 0 <= j < |dropped| && dropped[j] == x;
      assert sorted[|r| + j] == x;
    }
  }

  lemma {:induction false} EntriesOfPositives(sections: seq<Section>, score: Section -> real, r: seq<ScoredSection>)
    requires multiset(r) <= multiset(Positives(sections, score))
    ensures forall i :: 0 <= i < |r| ==>
              r[i].score > 0.0 && r[i].section in sections && r[i].score == score(r[i].section)
  {
    var p := Positives(sections, score);
    PositivesSpec(sections, score);
    forall i | 0 <= i < |r|
      ensures r[i].score > 0.0 && r[i].section in sections && r[i].score == score(r[i].section)
    {
      assert r[i] in multiset(r);
      assert r[i] in p;
    }
  }

  /** The ranking of `sections` under `score`, at most `k` long and exactly
      `k` long when enough sections score positive: only positive scores, in
      descending order, each entry a section of the index with its own score. */
  function Rank(sections: seq<Section>, score: Section -> real, k: nat): (r: seq<ScoredSection>)
    ensures |r| == if |Positives(sections, score)| > k then k else |Positives(sections, score)|
    ensures SortedDesc(r)
    ensures forall i :: 0 <= i < |r| ==>
              r[i].score > 0.0 && r[i].section in sections && r[i].score == score(r[i].section)
  {
    var p := Positives(sections, score);
    var r := Truncate(SortByScore(p), k);
    SortSpec(p);
    SortTruncateKeepsBest(p, k);
    EntriesOfPositives(sections, score, r);
    r
  }

  /** The ranking keeps the best: its entries are positive entries, all of
      them when there are at most `k`, and every positive entry left out
      scores no more than any entry kept. */
  lemma {:induction false} RankKeepsBest(sections: seq<Section>, score: Section -> real, k: nat)
    ensures var p, r := Positives(sections, score), Rank(sections, score, k);
            && multiset(r) <= multiset(p)
            && (|p| <= k ==> multiset(r) == multiset(p))
            && forall x :: x in multiset(p) - multiset(r) ==>
                 forall i :: 0 <= i < |r| ==> x.score <= r[i].score
  {
    SortTruncateKeepsBest(Positives(sections, score), k);
  }

  lemma {:induction false} NoPositives(sections: seq<Section>, score: Section -> real)
    requires forall j :: 0 <= j < |sections| ==> score(sections[j]) <= 0.0
    ensures Positives(sections, score) == []
    decreases |sections|
  {
    if sections != [] {
      NoPositives(sections[1..], score);
    }
  }

  /** A section that scores positive but is not ranked lost to a full ranking
      of sections scoring at least as much. */
  lemma {:induction false} RankSelectsTopK(sections: seq<Section>, score: Section -> real, k: nat, j: nat)
    requires j < |sections| && score(sections[j]) > 0.0
    requires ScoredSection(sections[j], score(sections[j])) !in Rank(sections, score, k)
    ensures |Rank(sections, score, k)| == k
    ensures forall i :: 0 <= i < k ==> score(sections[j]) <= Rank(sections, score, k)[i].score
  {
    var x := ScoredSection(sections[j], score(sections[j]));
    var p, r := Positives(sections, score), Rank(sections, score, k);
    PositivesSpec(sections, score);
    RankKeepsBest(sections, score, k);
    assert x in multiset(p);
    assert x !in multiset(r);
    assert x in multiset(p) - multiset(r);
  }

  /** `findRelevantSections`: rank the index for the lower-cased, tokenized
      query. Every entry returned is a section some query term matches, and
      with room for at least one entry nothing is returned exactly when no
      section of the index is matched by any query term. */
  function FindRelevantSections(cc: CharClasses, num: Numerics, sections: seq<Section>, query: string, maxSections: nat)
    : (r: seq<ScoredSection>)
    ensures |r| <= maxSections
    ensures Tokenize(cc, Lower(cc, query)) == [] ==> r == []
    ensures forall i :: 0 <= i < |r| ==>
              r[i].section in sections && Relevant(cc, Tokenize(cc, Lower(cc, query)), r[i].section)
    ensures maxSections >= 1 ==>
              (r == [] <==> forall j :: 0 <= j < |sections| ==> !Relevant(cc, Tokenize(cc, Lower(cc, query)), sections[j]))
    ensures SortedDesc(r)
  {
    var queryTerms := Tokenize(cc, Lower(cc, query));
    var score := s => CalculateRelevanceScore(cc, num, queryTerms, s);
    var r := Rank(sections, score, maxSections);
    if maxSections >= 1 then
      RankEmptyIff(sections, score, maxSections);
      assert forall j :: 0 <= j < |sections| ==> (score(sections[j]) <= 0.0 <==> !Relevant(cc, queryTerms, sections[j]));
      r
    else r
  }

  /** With room for one entry, the ranking is empty exactly when no section scores positive. */
  lemma {:induction false} RankEmptyIff(sections: seq<Section>, score: Section -> real, k: nat)
    requires k >= 1
    ensures Rank(sections, score, k) == [] <==> forall j :: 0 <= j < |sections| ==> score(sections[j]) <= 0.0
  {
    PositivesSpec(sections, score);
    if forall j :: 0 <= j < |sections| ==> score(sections[j]) <= 0.0 {
      NoPositives(sections, score);
    } else {
      var j :| 0 <= j < |sections| && score(sections[j]) > 0.0;
      assert ScoredSection(sections[j], score(sections[j])) in Positives(sections, score);
    }
  }

  // ----------------------------------------------------------------------
  // Ties: the source's sort is not stable, so only scores are determined.
  // ----------------------------------------------------------------------

  lemma {:induction false} SortedHeadIsMax(a: seq<ScoredSection>, x: ScoredSection)
    requires SortedDesc(a) && x in a
    ensures x.score <= a[0].score
  {
  }

  function RemoveAt(b: seq<ScoredSection>, j: nat): (r: seq<ScoredSection>)
    requires j < |b|
    ensures |r| == |b| - 1
    ensures forall i :: 0 <= i < |r| ==> r[i] == if i < j then b[i] else b[i + 1]
  {
    b[..j] + b[j + 1..]
  }

  lemma {:induction false} RemoveAtFacts(b: seq<ScoredSection>, j: nat)
    requires j < |b| && SortedDesc(b)
    ensures SortedDesc(RemoveAt(b, j))
    ensures multiset(RemoveAt(b, j)) == multiset(b) - multiset{b[j]}
  {
    var r := RemoveAt(b, j);
    forall p, q | 0 <= p < q < |r| ensures r[p].score >= r[q].score {
      var p' := if p < j then p else p + 1;
      var q' := if q < j then q else q + 1;
      assert r[p] == b[p'] && r[q] == b[q'];
    }
    assert b == b[..j] + [b[j]] + b[j + 1..];
  }

  /** The inductive step: once the tails agree, so do the whole sequences. */
  lemma {:induction false} AgreeFromTail(a: seq<ScoredSection>, b: seq<ScoredSection>, j: nat)
    requires SortedDesc(a) && SortedDesc(b) && |a| == |b| && j < |b|
    requires b[j] == a[0] && b[0].score <= a[0].score
    requires forall i :: 0 <= i < |a| - 1 ==> a[i + 1].score == RemoveAt(b, j)[i].score
    ensures forall i :: 0 <= i < |a| ==> a[i].score == b[i].score
  {
    var b' := RemoveAt(b, j);
    forall i | 0 <= i < |a| ensures a[i].score == b[i].score {
      if i == 0 {
        assert b[0].score >= b[j].score;
      } else {
        assert a[i].score == b'[i - 1].score;
        if i <= j {
          assert a[i].score <= a[0].score;
          assert b[i - 1].score >= b[i].score >= b[j].score;
        }
      }
    }
  }

  lemma {:induction false} PermutationLength(a: seq<ScoredSection>, b: seq<ScoredSection>)
    requires multiset(a) == multiset(b)
    ensures |a| == |b|
  {
    assert |a| == |multiset(a)| && |b| == |multiset(b)|;
  }

  /** The head of `a` sits at some position `j` of `b`; removing it leaves a
      sorted permutation of the tail of `a`. */
  lemma {:induction false} HeadMatch(a: seq<ScoredSection>, b: seq<ScoredSection>) returns (j: nat)
    requires SortedDesc(a) && SortedDesc(b) && multiset(a) == multiset(b) && |a| > 0
    ensures j < |b| && b[j] == a[0] && b[0].score <= a[0].score
    ensures SortedDesc(RemoveAt(b, j)) && multiset(RemoveAt(b, j)) == multiset(a[1..])
  {
    assert a[0] in multiset(b);
    j :| 0 <= j < |b| && b[j] == a[0];
    assert b[0] in multiset(a);
    SortedHeadIsMax(a, b[0]);
    RemoveAtFacts(b, j);
    assert a == [a[0]] + a[1..];
  }

  /** Two orderings of the same entries, both by descending score, agree on the score at every position. */
  lemma {:induction false} SortedPermutationsAgree(a: seq<ScoredSection>, b: seq<ScoredSection>)
    requires SortedDesc(a) && SortedDesc(b) && multiset(a) == multiset(b)
    ensures |a| == |b|
    ensures forall i :: 0 <= i < |a| ==> a[i].score == b[i].score
    decreases |a|
  {
    PermutationLength(a, b);
    if |a| > 0 {
      var j := HeadMatch(a, b);
      SortedPermutationsAgree(a[1..], RemoveAt(b, j));
      AgreeFromTail(a, b, j);
    }
  }

  /** Whatever order the sort gives to equal scores, the ranking has the same
      length and the same score at every position as the one modelled here. */
  lemma {:induction false} RankTieOrderIrrelevant(sections: seq<Section>, score: Section -> real, k: nat, other: seq<ScoredSection>)
    requires SortedDesc(other)
    requires multiset(other) == multiset(Positives(sections, score))
    ensures |Truncate(other, k)| == |Rank(sections, score, k)|
    ensures forall i :: 0 <= i < |Truncate(other, k)| ==>
              Truncate(other, k)[i].score == Rank(sections, score, k)[i].score
  {
    var sorted := SortByScore(Positives(sections, score));
    SortSpec(Positives(sections, score));
    SortedPermutationsAgree(other, sorted);
  }

  /** Scores 5, 1, 3, 0, 8 with room for two give the sections scoring 8 and 5, in that order. */
  lemma {:induction false} ExampleTopTwo(s1: Section, s2: Section, s3: Section, s4: Section, s5: Section, score: Section -> real)
    requires score(s1) == 5.0 && score(s2) == 1.0 && score(s3) == 3.0 && score(s4) == 0.0 && score(s5) == 8.0
    ensures Rank([s1, s2, s3, s4, s5], score, 2) == [ScoredSection(s5, 8.0), ScoredSection(s1, 5.0)]
  {
    ExamplePositives(s1, s2, s3, s4, s5, score);
    var a, b, c, e := ScoredSection(s1, 5.0), ScoredSection(s2, 1.0), ScoredSection(s3, 3.0), ScoredSection(s5, 8.0);
    ExampleSort(a, b, c, e);
  }

  lemma {:induction false} ExamplePositives(s1: Section, s2: Section, s3: Section, s4: Section, s5: Section, score: Section -> real)
    requires score(s1) == 5.0 && score(s2) == 1.0 && score(s3) == 3.0 && score(s4) == 0.0 && score(s5) == 8.0
    ensures Positives([s1, s2, s3, s4, s5], score)
            == [ScoredSection(s1, 5.0), ScoredSection(s2, 1.0), ScoredSection(s3, 3.0), ScoredSection(s5, 8.0)]
  {
    var e := ScoredSection(s5, 8.0);
    assert [s5][1..] == [];
    assert Positives([s5], score) == [e] + Positives([], score);
    assert [s4, s5][1..] == [s5];
    assert Positives([s4, s5], score) == Positives([s5], score);
    assert [s3, s4, s5][1..] == [s4, s5];
    assert Positives([s3, s4, s5], score) == [ScoredSection(s3, 3.0)] + Positives([s4, s5], score);
    assert [s2, s3, s4, s5][1..] == [s3, s4, s5];
    assert Positives([s2, s3, s4, s5], score) == [ScoredSection(s2, 1.0)] + Positives([s3, s4, s5], score);
    assert [s1, s2, s3, s4, s5][1..] == [s2, s3, s4, s5];
    assert Positives([s1, s2, s3, s4, s5], score) == [ScoredSection(s1, 5.0)] + Positives([s2, s3, s4, s5], score);
  }

  lemma {:induction false} ExampleSort(a: ScoredSection, b: ScoredSection, c: ScoredSection, e: ScoredSection)
    requires a.score == 5.0 && b.score == 1.0 && c.score == 3.0 && e.score == 8.0
    ensures SortByScore([a, b, c, e]) == [e, a, c, b]
  {
    assert [e][1..] == [];
    assert SortByScore([e]) == Insert(e, []) == [e];
    assert [c, e][1..] == [e];
    assert Insert(c, [e]) == [e] + Insert(c, []);
    assert SortByScore([c, e]) == [e, c];
    assert [b, c, e][1..] == [c, e];
    assert [e, c][1..] == [c] && [c][1..] == [];
    assert Insert(b, [c]) == [c] + Insert(b, []);
    assert Insert(b, [e, c]) == [e] + Insert(b, [c]);
    assert SortByScore([b, c, e]) == [e, c, b];
    assert [a, b, c, e][1..] == [b, c, e];
    assert [e, c, b][1..] == [c, b];
    assert Insert(a, [c, b]) == [a, c, b];
    assert Insert(a, [e, c, b]) == [e] + Insert(a, [c, b]);
  }
}
