/** The `get_instructions` tool handler (instructions.go,
    `handleGetInstructions`): strip the phrase that invoked the tool from the
    query, clamp the section count, rank the index and format the answer. */
module Handler {
  import opened Options
  import opened Unicode
  import opened Strings
  import opened Markdown
  import opened Tokenizer
  import opened Scoring
  import opened Ranking

  /** The phrases a user says to invoke the tool, tried in this order. */
  const TriggerPhrases: seq<string> := [
    "using the gke mcp instructions",
    "use the gke mcp instructions",
    "gke mcp instructions",
    "with gke mcp instructions",
    "from gke mcp instructions"
  ]

  /** The first trigger phrase, from index `from` on, that the lower-cased query contains. */
  function FirstTrigger(lowered: string, from: nat): (r: Option<nat>)
    requires from <= |TriggerPhrases|
    ensures r.Some? ==>
              && from <= r.value < |TriggerPhrases|
              && Contains(lowered, TriggerPhrases[r.value])
              && forall j :: from <= j < r.value ==> !Contains(lowered, TriggerPhrases[j])
    ensures r.None? <==> forall j :: from <= j < |TriggerPhrases| ==> !Contains(lowered, TriggerPhrases[j])
    decreases |TriggerPhrases| - from
  {
    if from == |TriggerPhrases| then None
    else if Contains(lowered, TriggerPhrases[from]) then Some(from)
    else FirstTrigger(lowered, from + 1)
  }

  /** The query the handler searches for. When the lower-cased query contains
      a trigger phrase, every occurrence of the first such phrase is removed
      from the lower-cased query and the rest trimmed; otherwise the query is
      kept as given, case included. */
  function StripTriggers(cc: CharClasses, query: string): (r: string)
    ensures |r| <= |query|
    ensures (forall j :: 0 <= j < |TriggerPhrases| ==> !Contains(Lower(cc, query), TriggerPhrases[j])) ==> r == query
    ensures (exists j :: 0 <= j < |TriggerPhrases| && Contains(Lower(cc, query), TriggerPhrases[j])) ==>
              |r| + 20 <= |query|
    ensures var first := FirstTrigger(Lower(cc, query), 0);
            first.Some? ==> r == TrimSpace(RemoveAll(Lower(cc, query), TriggerPhrases[first.value]))
  {
    var lowered := Lower(cc, query);
    match FirstTrigger(lowered, 0)
    case None => query
    case Some(i) =>
      var phrase := TriggerPhrases[i];
      PhrasesAtLeastTwenty(i);
      RemovalShrinks(lowered, phrase);
      TrimSpaceSpec(RemoveAll(lowered, phrase));
      TrimSpace(RemoveAll(lowered, phrase))
  }

  /** Every trigger phrase is at least 20 characters long. */
  lemma {:induction false} PhrasesAtLeastTwenty(i: nat)
    requires i < |TriggerPhrases|
    ensures |TriggerPhrases[i]| >= 20
  {
  }

  /** Removing a phrase the text contains shortens it by at least the phrase's length. */
  lemma {:induction false} RemovalShrinks(s: string, p: string)
    requires |p| > 0 && Contains(s, p)
    ensures |RemoveAll(s, p)| + |p| <= |s|
  {
    RemoveAllLength(s, p);
    CountPositiveIffContains(s, p);
    ProductAtLeast(|p|, Count(s, p));
  }

  lemma {:induction false} ProductAtLeast(a: nat, c: nat)
    requires c >= 1
    ensures a * c >= a
    decreases c
  {
    if c > 1 {
      ProductAtLeast(a, c - 1);
      assert a * c == a * (c - 1) + a;
    }
  }

  /** A query holding "with gke mcp instructions" or "from gke mcp instructions"
      also holds "gke mcp instructions". */
  lemma {:induction false} ShadowedBy(lowered: string)
    requires Contains(lowered, TriggerPhrases[3]) || Contains(lowered, TriggerPhrases[4])
    ensures Contains(lowered, TriggerPhrases[2])
  {
    assert TriggerPhrases[2] == "gke mcp instructions";
    if Contains(lowered, TriggerPhrases[3]) {
      assert TriggerPhrases[3] == "with gke mcp instructions";
      InnerOfWith();
      ContainsTransitive(lowered, "with gke mcp instructions", "gke mcp instructions");
    } else {
      assert TriggerPhrases[4] == "from gke mcp instructions";
      InnerOfFrom();
      ContainsTransitive(lowered, "from gke mcp instructions", "gke mcp instructions");
    }
  }

  lemma {:induction false} InnerOfWith()
    ensures Contains("with gke mcp instructions", "gke mcp instructions")
  {
    assert "with gke mcp instructions"[5..25] == "gke mcp instructions";
    OccursAtContains("with gke mcp instructions", "gke mcp instructions", 5);
  }

  lemma {:induction false} InnerOfFrom()
    ensures Contains("from gke mcp instructions", "gke mcp instructions")
  {
    assert "from gke mcp instructions"[5..25] == "gke mcp instructions";
    OccursAtContains("from gke mcp instructions", "gke mcp instructions", 5);
  }

  /** The shorter phrase "gke mcp instructions" occurs inside the two phrases
      listed after it, so those two can never be the one removed. */
  lemma {:induction false} ShadowedPhrases(lowered: string)
    ensures FirstTrigger(lowered, 0) != Some(3)
    ensures FirstTrigger(lowered, 0) != Some(4)
  {
    if Contains(lowered, TriggerPhrases[3]) || Contains(lowered, TriggerPhrases[4]) {
      ShadowedBy(lowered);
    }
  }

  /** The number of sections to return: 3 when the caller gives none, the
      caller's number otherwise, clamped to between 1 and 10. The caller's
      number is the argument already truncated to an integer. */
  function EffectiveMaxSections(arg: Option<int>): (k: nat)
    ensures 1 <= k <= 10
    ensures arg.None? ==> k == 3
    ensures arg.Some? ==> (k == arg.value <==> 1 <= arg.value <= 10)
    ensures arg.Some? && arg.value > 10 ==> k == 10
    ensures arg.Some? && arg.value < 1 ==> k == 1
  {
    var n := match arg case None => 3 case Some(v) => v;
    if n > 10 then 10 else if n < 1 then 1 else n
  }

  /** Passing the clamped count back in changes nothing, and the clamp never
      reverses the order of two requested counts. */
  lemma {:induction false} ClampStable(a: int, b: int)
    requires a <= b
    ensures EffectiveMaxSections(Some(EffectiveMaxSections(Some(a)))) == EffectiveMaxSections(Some(a))
    ensures EffectiveMaxSections(Some(a)) <= EffectiveMaxSections(Some(b))
  {
  }

  // ----------------------------------------------------------------------
  // The index and the answer.
  // ----------------------------------------------------------------------

  /** The index: the sections of the instructions document, parsed once when
      the tool is set up. */
  datatype InstructionsRag = InstructionsRag(sections: seq<Section>)

  function NewInstructionsRag(document: string): (rag: InstructionsRag)
    ensures forall i :: 0 <= i < |rag.sections| ==> WellFormed(rag.sections[i])
    ensures |rag.sections| <= HeadingCount(Split(document, '\n'))
  {
    InstructionsRag(ParseMarkdown(document))
  }

  /** What the handler answers: an error for a missing query, a request for a
      topic when the query is empty, a note that nothing matched, or the
      ranked sections for the query it searched. */
  datatype Response =
    | MissingQuery
    | Guidance
    | NoResults
    | Found(query: string, sections: seq<ScoredSection>)

  /** `handleGetInstructions`. */
  function HandleGetInstructions(cc: CharClasses, num: Numerics, rag: InstructionsRag,
                                 query: Option<string>, maxSections: Option<int>): (r: Response)
    ensures r.MissingQuery? <==> query.None?
    ensures query.Some? ==> (r.Guidance? <==> StripTriggers(cc, query.value) == "")
    ensures r.NoResults? ==>
              query.Some? &&
              forall j :: 0 <= j < |rag.sections| ==>
                !Relevant(cc, Tokenize(cc, Lower(cc, StripTriggers(cc, query.value))), rag.sections[j])
    ensures r.Found? ==>
              && query.Some? && r.query == StripTriggers(cc, query.value)
              && 1 <= |r.sections| <= EffectiveMaxSections(maxSections)
              && SortedDesc(r.sections)
              && forall i :: 0 <= i < |r.sections| ==>
                   r.sections[i].section in rag.sections
                   && Relevant(cc, Tokenize(cc, Lower(cc, r.query)), r.sections[i].section)
  {
    match query
    case None => MissingQuery
    case Some(q) =>
      var stripped := StripTriggers(cc, q);
      if stripped == "" then Guidance
      else
        var found := FindRelevantSections(cc, num, rag.sections, stripped, EffectiveMaxSections(maxSections));
        if found == [] then NoResults else Found(stripped, found)
  }

  // ----------------------------------------------------------------------
  // The answer's text.
  // ----------------------------------------------------------------------

  function Header(query: string): string {
    "# Relevant GKE MCP Instructions for: \"" + query + "\"\n\n"
  }

  const Separator: string := "\n---\n\n"

  /** The sections as the answer writes them (see `RenderSection`), with a
      separator between neighbours. */
  function RenderedSections(ss: seq<ScoredSection>): string
    decreases |ss|
  {
    if ss == [] then ""
    else if |ss| == 1 then RenderSection(ss[0].section)
    else RenderSection(ss[0].section) + Separator + RenderedSections(ss[1..])
  }

  lemma {:induction false} RenderedSectionsSnoc(ss: seq<ScoredSection>, x: ScoredSection)
    requires ss != []
    ensures RenderedSections(ss + [x]) == RenderedSections(ss) + Separator + RenderSection(x.section)
    decreases |ss|
  {
    var t := ss + [x];
    assert t[0] == ss[0];
    var head := RenderSection(ss[0].section);
    if |ss| == 1 {
      assert t[1..] == [x];
      assert RenderedSections(ss) == head;
      assert RenderedSections(t) == head + Separator + RenderedSections([x]);
    } else {
      assert t[1..] == ss[1..] + [x];
      RenderedSectionsSnoc(ss[1..], x);
      assert RenderedSections(t) == head + Separator + RenderedSections(ss[1..] + [x]);
      assert RenderedSections(ss) == head + Separator + RenderedSections(ss[1..]);
    }
  }

  /** The answer as the handler builds it, section by section: the header,
      then each rendered section, preceded by the separator from the second on. */
  method FormatResult(query: string, ss: seq<ScoredSection>) returns (text: string)
    ensures text == Header(query) + RenderedSections(ss)
  {
    text := Header(query);
    var i := 0;
    while i < |ss|
      invariant 0 <= i <= |ss|
      invariant text == Header(query) + RenderedSections(ss[..i])
    {
      if i > 0 {
        text := text + Separator;
      }
      text := text + RenderSection(ss[i].section);
      if i > 0 {
        RenderedSectionsSnoc(ss[..i], ss[i]);
      }
      assert ss[..i + 1] == ss[..i] + [ss[i]];
      i := i + 1;
    }
    assert ss[..|ss|] == ss;
  }

  // ----------------------------------------------------------------------
  // Examples.
  // ----------------------------------------------------------------------

  /** No query, no search. */
  lemma {:induction false} ExampleMissingQuery(cc: CharClasses, num: Numerics, rag: InstructionsRag)
    ensures HandleGetInstructions(cc, num, rag, None, None) == MissingQuery
  {
  }

  /** The clamp: nothing given is 3, 0 becomes 1, 999 becomes 10, 5 stays. */
  lemma {:induction false} ExampleClamp()
    ensures EffectiveMaxSections(None) == 3
    ensures EffectiveMaxSections(Some(0)) == 1
    ensures EffectiveMaxSections(Some(999)) == 10
    ensures EffectiveMaxSections(Some(5)) == 5
  {
  }

  lemma {:induction false} TooLongToOccur(s: string, t: string)
    requires |t| > |s|
    ensures !Contains(s, t)
  {
    ContainsIff(s, t);
  }

  /** A query shorter than every trigger phrase is searched as given, case included. */
  lemma {:induction false} ExampleNoTrigger(cc: CharClasses)
    ensures StripTriggers(cc, "Logging") == "Logging"
  {
    var lowered := Lower(cc, "Logging");
    forall j | 0 <= j < |TriggerPhrases| ensures !Contains(lowered, TriggerPhrases[j]) {
      TooLongToOccur(lowered, TriggerPhrases[j]);
    }
  }

  lemma {:induction false} LowerOfLowercase(cc: CharClasses, s: string)
    requires AsciiFaithful(cc)
    requires forall k :: 0 <= k < |s| ==> s[k] == ' ' || 'a' <= s[k] <= 'z'
    ensures Lower(cc, s) == s
  {
    forall k | 0 <= k < |s| ensures cc.toLower(s[k]) == s[k] {
      assert AsciiLower(s[k]) == s[k];
    }
  }

  /** Because "gke mcp instructions" is tried before "with gke mcp
      instructions", a query saying only the latter keeps the word "with" and
      is searched for it instead of asking for a topic. */
  lemma {:induction false} ExampleWithPhraseKeepsWith(cc: CharClasses)
    requires AsciiFaithful(cc)
    ensures StripTriggers(cc, "with gke mcp instructions") == "with"
  {
    LowerOfLowercase(cc, "with gke mcp instructions");
    WithPhraseStripped(cc);
  }

  lemma {:induction false} WithPhraseStripped(cc: CharClasses)
    requires Lower(cc, "with gke mcp instructions") == "with gke mcp instructions"
    ensures StripTriggers(cc, "with gke mcp instructions") == "with"
  {
    var q := "with gke mcp instructions";
    var inner := "gke mcp instructions";
    WithPhraseMatchesInner();
    StripFirstMatch(cc, q, 2);
    RemoveInnerFromWith();
    TrimWith();
  }

  lemma {:induction false} RemoveInnerFromWith()
    ensures RemoveAll("with gke mcp instructions", "gke mcp instructions") == "with "
  {
    var inner := "gke mcp instructions";
    assert "with gke mcp instructions" == "with " + inner;
    assert inner[0] == 'g' && 'g' !in "with ";
    RemoveAllAfter("with ", inner);
  }

  /** A mixed-case query that starts with the first phrase is searched for
      what follows it, lower-cased: "Using the GKE MCP Instructions logging"
      becomes "logging". */
  lemma {:induction false} ExampleMixedCaseStripped(cc: CharClasses)
    requires AsciiFaithful(cc)
    ensures StripTriggers(cc, "Using the GKE MCP Instructions logging") == "logging"
  {
    var q := "Using the GKE MCP Instructions logging";
    var lowered := "using the gke mcp instructions logging";
    MixedCaseLowered(cc);
    UsingPhraseFirst(lowered);
    RemoveUsingPhrase();
    TrimLogging();
    StripFirstMatch(cc, q, 0);
  }

  lemma {:induction false} MixedCaseLowered(cc: CharClasses)
    requires AsciiFaithful(cc)
    ensures Lower(cc, "Using the GKE MCP Instructions logging") == "using the gke mcp instructions logging"
  {
    LowerOfAscii(cc, "Using the GKE MCP Instructions logging", "using the gke mcp instructions logging");
  }

  /** On ASCII text, lower-casing is ASCII lower-casing. */
  lemma {:induction false} LowerOfAscii(cc: CharClasses, s: string, t: string)
    requires AsciiFaithful(cc)
    requires |s| == |t| && forall k :: 0 <= k < |s| ==> (s[k] as int) < 0x80 && AsciiLower(s[k]) == t[k]
    ensures Lower(cc, s) == t
  {
    forall k | 0 <= k < |s| ensures cc.toLower(s[k]) == t[k] {
      assert (s[k] as int) < 0x80;
    }
  }

  /** A query that starts with "using the gke mcp instructions" matches the first phrase. */
  lemma {:induction false} UsingPhraseFirst(lowered: string)
    requires |lowered| >= 30 && lowered[..30] == "using the gke mcp instructions"
    ensures FirstTrigger(lowered, 0) == Some(0)
    ensures TriggerPhrases[0] == "using the gke mcp instructions"
  {
    assert TriggerPhrases[0] == "using the gke mcp instructions";
    assert lowered[0..30] == lowered[..30];
    OccursAtContains(lowered, TriggerPhrases[0], 0);
  }

  lemma {:induction false} RemoveUsingPhrase()
    ensures RemoveAll("using the gke mcp instructions logging", "using the gke mcp instructions") == " logging"
  {
    var p := "using the gke mcp instructions";
    var s := "using the gke mcp instructions logging";
    assert HasPrefix(s, p) by {
      assert s[..|p|] == p;
    }
    assert s[|p|..] == " logging";
    TooLongToOccur(" logging", p);
  }

  lemma {:induction false} TrimLogging()
    ensures TrimSpace(" logging") == "logging"
  {
    assert " logging"[1..] == "logging";
    assert TrimLeft(" logging") == TrimLeft("logging") == "logging";
    assert TrimRight("logging") == "logging";
  }

  lemma {:induction false} StripFirstMatch(cc: CharClasses, query: string, i: nat)
    requires FirstTrigger(Lower(cc, query), 0) == Some(i)
    ensures i < |TriggerPhrases|
    ensures StripTriggers(cc, query) == TrimSpace(RemoveAll(Lower(cc, query), TriggerPhrases[i]))
  {
  }

  /** The first phrase "with gke mcp instructions" contains is "gke mcp instructions". */
  lemma {:induction false} WithPhraseMatchesInner()
    ensures FirstTrigger("with gke mcp instructions", 0) == Some(2)
    ensures TriggerPhrases[2] == "gke mcp instructions"
  {
    InnerOfWith();
    assert |"with gke mcp instructions"| == 25;
    ShortQueryMatchesInner("with gke mcp instructions");
  }

  /** A query of at most 25 characters is too short for the first two phrases,
      so if it holds "gke mcp instructions" that is its first match. */
  lemma {:induction false} ShortQueryMatchesInner(lowered: string)
    requires |lowered| <= 25 && Contains(lowered, "gke mcp instructions")
    ensures FirstTrigger(lowered, 0) == Some(2)
    ensures TriggerPhrases[2] == "gke mcp instructions"
  {
    assert |TriggerPhrases[0]| == 30 && |TriggerPhrases[1]| == 28;
    assert TriggerPhrases[2] == "gke mcp instructions";
    TooLongToOccur(lowered, TriggerPhrases[0]);
    TooLongToOccur(lowered, TriggerPhrases[1]);
    FirstTriggerIsInner(lowered);
  }

  /** A query that holds "gke mcp instructions" but neither longer phrase
      listed before it has that phrase as its first match. */
  lemma {:induction false} FirstTriggerIsInner(lowered: string)
    requires !Contains(lowered, TriggerPhrases[0]) && !Contains(lowered, TriggerPhrases[1])
    requires Contains(lowered, TriggerPhrases[2])
    ensures FirstTrigger(lowered, 0) == Some(2)
  {
    assert FirstTrigger(lowered, 0) == FirstTrigger(lowered, 1);
    assert FirstTrigger(lowered, 1) == FirstTrigger(lowered, 2);
  }

  lemma {:induction false} TrimWith()
    ensures TrimSpace("with ") == "with"
  {
    assert TrimLeft("with ") == "with ";
    assert "with "[..4] == "with";
    assert TrimRight("with ") == TrimRight("with");
  }

  /** Removing `p` from `a + p` leaves `a` when no character of `a` can start `p`. */
  lemma {:induction false} RemoveAllAfter(a: string, p: string)
    requires |p| > 0
    requires p[0] !in a
    ensures RemoveAll(a + p, p) == a
    decreases |a|
  {
    var s := a + p;
    if a == [] {
      assert s == p && HasPrefix(s, p);
      assert s[|p|..] == [];
    } else {
      assert s[0] == a[0];
      assert !HasPrefix(s, p) by {
        if |p| <= |s| {
          assert s[..|p|][0] == a[0];
        }
      }
      assert s[1..] == a[1..] + p;
      RemoveAllAfter(a[1..], p);
      assert a == [a[0]] + a[1..];
    }
  }
}
