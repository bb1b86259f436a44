/** The relevance scorer (instructions.go, `calculateRelevanceScore`), kept to
    its structure: which rules fire and how they combine. The logarithm and
    the square root are abstract positive functions and the arithmetic is on
    reals, so rounding is not modelled. */
module Scoring {
  import opened Unicode
  import opened Strings
  import opened Markdown
  import opened Tokenizer

  type PosReal = r: real | r > 0.0 witness 1.0

  /** `logOnePlus(c)` stands for ln(c + 1) and `sqrt(n)` for the square root of
      `n`; the score applies them only to positive counts, where both are positive. */
  datatype Numerics = Numerics(logOnePlus: nat -> PosReal, sqrt: nat -> PosReal)

  /** Query terms that multiply the score when they occur in the section. */
  const HighValueKeywords: map<string, real> := map[
    "log" := 2.0,
    "logs" := 2.0,
    "logging" := 2.0,
    "query" := 2.0,
    "cost" := 2.0,
    "cluster" := 1.5,
    "auth" := 2.0,
    "authentication" := 2.0,
    "giq" := 2.0,
    "monitoring" := 1.5,
    "kubectl" := 1.5,
    "gcloud" := 1.5
  ]

  lemma {:induction false} BoostsAtLeastOneAndHalf()
    ensures forall k :: k in HighValueKeywords ==> HighValueKeywords[k] >= 1.5
  {
  }

  /** Either text contains the other. */
  predicate Overlaps(a: string, b: string) {
    Contains(a, b) || Contains(b, a)
  }

  /** How many title terms overlap the query term (each one adds 5). */
  function TitleOverlaps(q: string, titleTerms: seq<string>): nat
    decreases |titleTerms|
  {
    if titleTerms == [] then 0
    else (if Overlaps(titleTerms[0], q) then 1 else 0) + TitleOverlaps(q, titleTerms[1..])
  }

  /** How many content terms overlap the query term, counting only when both
      are longer than three bytes (each one adds 1). */
  function ContentOverlaps(q: string, contentTerms: seq<string>): nat
    decreases |contentTerms|
  {
    if contentTerms == [] then 0
    else
      var t := contentTerms[0];
      (if ByteLen(q) > 3 && ByteLen(t) > 3 && Overlaps(t, q) then 1 else 0)
      + ContentOverlaps(q, contentTerms[1..])
  }

  /** The texts of one section the score looks at. */
  datatype View = View(titleText: string, titleTerms: seq<string>, contentText: string, contentTerms: seq<string>)

  function ViewOf(cc: CharClasses, s: Section): View {
    var titleText := Lower(cc, s.title);
    var contentText := Lower(cc, s.content);
    View(titleText, Tokenize(cc, titleText), contentText, Tokenize(cc, contentText))
  }

  /** The four rules, stated as conditions: a query term matches a section when
      the title contains it, a title term overlaps it, the content contains
      it, or (both longer than three bytes) a content term overlaps it. */
  predicate TermMatches(q: string, v: View) {
    || Contains(v.titleText, q)
    || (exists k :: 0 <= k < |v.titleTerms| && Overlaps(v.titleTerms[k], q))
    || Contains(v.contentText, q)
    || (exists k :: 0 <= k < |v.contentTerms| &&
          ByteLen(q) > 3 && ByteLen(v.contentTerms[k]) > 3 && Overlaps(v.contentTerms[k], q))
  }

  /** Some query term matches the section. */
  predicate Relevant(cc: CharClasses, queryTerms: seq<string>, s: Section) {
    exists i :: 0 <= i < |queryTerms| && TermMatches(queryTerms[i], ViewOf(cc, s))
  }

  lemma {:induction false} TitleOverlapsPositive(q: string, terms: seq<string>)
    ensures TitleOverlaps(q, terms) > 0 <==> exists k :: 0 <= k < |terms| && Overlaps(terms[k], q)
    decreases |terms|
  {
    if terms != [] {
      TitleOverlapsPositive(q, terms[1..]);
      if exists k :: 0 <= k < |terms| && Overlaps(terms[k], q) {
        var k :| 0 <= k < |terms| && Overlaps(terms[k], q);
        if k > 0 {
          assert terms[1..][k - 1] == terms[k];
        }
      }
    }
  }

  lemma {:induction false} ContentOverlapsPositive(q: string, terms: seq<string>)
    ensures ContentOverlaps(q, terms) > 0 <==>
              exists k :: 0 <= k < |terms| && ByteLen(q) > 3 && ByteLen(terms[k]) > 3 && Overlaps(terms[k], q)
    decreases |terms|
  {
    if terms != [] {
      ContentOverlapsPositive(q, terms[1..]);
      if exists k :: 0 <= k < |terms| && ByteLen(q) > 3 && ByteLen(terms[k]) > 3 && Overlaps(terms[k], q) {
        var k :| 0 <= k < |terms| && ByteLen(q) > 3 && ByteLen(terms[k]) > 3 && Overlaps(terms[k], q);
        if k > 0 {
          assert terms[1..][k - 1] == terms[k];
        }
      }
    }
  }

  /** What one query term adds to the score. */
  function TermScore(num: Numerics, q: string, v: View): (r: real)
    ensures r >= 0.0
    ensures r > 0.0 <==> TermMatches(q, v)
  {
    TitleOverlapsPositive(q, v.titleTerms);
    ContentOverlapsPositive(q, v.contentTerms);
    CountPositiveIffContains(v.contentText, q);
    var c := Count(v.contentText, q);
    (if Contains(v.titleText, q) then 10.0 else 0.0)
    + 5.0 * TitleOverlaps(q, v.titleTerms) as real
    + (if c > 0 then num.logOnePlus(c) * 2.0 else 0.0)
    + ContentOverlaps(q, v.contentTerms) as real
  }

  /** The per-term loop: the sum of what every query term adds. */
  function SumTermScores(num: Numerics, qs: seq<string>, v: View): (r: real)
    ensures r >= 0.0
    ensures r > 0.0 <==> exists i :: 0 <= i < |qs| && TermMatches(qs[i], v)
    decreases |qs|
  {
    if qs == [] then 0.0
    else
      var r := TermScore(num, qs[0], v) + SumTermScores(num, qs[1..], v);
      assert (exists i :: 0 <= i < |qs| && TermMatches(qs[i], v)) <==>
             TermMatches(qs[0], v) || (exists i :: 0 <= i < |qs[1..]| && TermMatches(qs[1..][i], v)) by {
        if exists i :: 0 <= i < |qs| && TermMatches(qs[i], v) {
          var i :| 0 <= i < |qs| && TermMatches(qs[i], v);
          if i > 0 {
            assert qs[1..][i - 1] == qs[i];
          }
        }
      }
      r
  }

  /** The boost pass: every query term that is a high-value keyword and
      occurs in the section's text multiplies the score by its weight.
      Boosting keeps the sign of the score and never lowers a non-negative one. */
  function ApplyBoosts(score: real, qs: seq<string>, allText: string): (r: real)
    ensures r > 0.0 <==> score > 0.0
    ensures r == 0.0 <==> score == 0.0
    ensures score >= 0.0 ==> r >= score
    decreases |qs|
  {
    if qs == [] then score
    else
      var q := qs[0];
      BoostsAtLeastOneAndHalf();
      var boosted := if q in HighValueKeywords && Contains(allText, q) then score * HighValueKeywords[q] else score;
      ApplyBoosts(boosted, qs[1..], allText)
  }

  /** `calculateRelevanceScore`: zero for an empty query, never negative, and
      positive exactly when some query term matches the section by one of the four rules. */
  function CalculateRelevanceScore(cc: CharClasses, num: Numerics, queryTerms: seq<string>, s: Section): (r: real)
    ensures queryTerms == [] ==> r == 0.0
    ensures r >= 0.0
    ensures r > 0.0 <==> Relevant(cc, queryTerms, s)
  {
    if |queryTerms| == 0 then 0.0
    else
      var v := ViewOf(cc, s);
      var allText := v.titleText + " " + v.contentText;
      var wordCount := |v.titleTerms| + |v.contentTerms|;
      var score := ApplyBoosts(SumTermScores(num, queryTerms, v), queryTerms, allText);
      if wordCount > 0 then Normalize(score, num.sqrt(wordCount)) else score
  }

  /** Dividing by the positive square root and scaling by 10 keeps the sign. */
  function Normalize(score: real, root: PosReal): (r: real)
    ensures r > 0.0 <==> score > 0.0
    ensures r >= 0.0 <==> score >= 0.0
  {
    var q := score / root;
    assert q * root == score;
    assert q > 0.0 <==> score > 0.0;
    assert q >= 0.0 <==> score >= 0.0;
    q * 10.0
  }
}
