/** The tokenizer (instructions.go, `tokenize`): maximal runs of letters and
    numbers, keeping only runs longer than one byte. */
module Tokenizer {
  import opened Unicode
  import opened Strings

  predicate AllWord(cc: CharClasses, t: string) {
    forall k :: 0 <= k < |t| ==> cc.isLetterOrNumber(t[k])
  }

  /** What every emitted token looks like: letters and numbers only, and more
      than one byte long (Go's `len` counts bytes, so one non-ASCII letter is enough). */
  predicate IsToken(cc: CharClasses, t: string) {
    t != [] && ByteLen(t) > 1 && AllWord(cc, t)
  }

  // ----------------------------------------------------------------------
  // The tokenizer as written: one pass with a token buffer.
  // ----------------------------------------------------------------------

  /** Flushing the buffer: a non-empty buffer becomes a token if it is longer than one byte. */
  function Flush(tokens: seq<string>, cur: string): seq<string> {
    if |cur| > 0 && ByteLen(cur) > 1 then tokens + [cur] else tokens
  }

  function Scan(cc: CharClasses, text: string, cur: string, tokens: seq<string>): seq<string>
    decreases |text|
  {
    if text == [] then Flush(tokens, cur)
    else if cc.isLetterOrNumber(text[0]) then Scan(cc, text[1..], cur + [text[0]], tokens)
    else Scan(cc, text[1..], "", Flush(tokens, cur))
  }

  /** `tokenize`. */
  function Tokenize(cc: CharClasses, text: string): (r: seq<string>)
    ensures forall i :: 0 <= i < |r| ==> IsToken(cc, r[i])
  {
    TokenizeMatchesRuns(cc, text);
    var runs := Runs(cc, text);
    RunsSpec(cc, text);
    LongSpec(runs);
    assert forall t :: t in runs ==> t != [] && AllWord(cc, t);
    Scan(cc, text, "", [])
  }

  // ----------------------------------------------------------------------
  // The same tokens described run by run.
  // ----------------------------------------------------------------------

  /** Length of the run of letters and numbers that starts `s`. */
  function WordRun(cc: CharClasses, s: string): (n: nat)
    ensures n <= |s|
    ensures forall k :: 0 <= k < n ==> cc.isLetterOrNumber(s[k])
    ensures n == |s| || !cc.isLetterOrNumber(s[n])
    decreases |s|
  {
    if |s| > 0 && cc.isLetterOrNumber(s[0]) then 1 + WordRun(cc, s[1..]) else 0
  }

  /** The maximal runs of letters and numbers of `s`, left to right. */
  function Runs(cc: CharClasses, s: string): seq<string>
    decreases |s|
  {
    if s == [] then []
    else if !cc.isLetterOrNumber(s[0]) then Runs(cc, s[1..])
    else
      var n := WordRun(cc, s);
      [s[..n]] + Runs(cc, s[n..])
  }

  /** The runs longer than one byte. */
  function Long(runs: seq<string>): seq<string>
    decreases |runs|
  {
    if runs == [] then []
    else (if ByteLen(runs[0]) > 1 then [runs[0]] else []) + Long(runs[1..])
  }

  /** Every run is a non-empty stretch of letters and numbers. */
  lemma {:induction false} RunsSpec(cc: CharClasses, s: string)
    ensures forall i :: 0 <= i < |Runs(cc, s)| ==> Runs(cc, s)[i] != [] && AllWord(cc, Runs(cc, s)[i])
    decreases |s|
  {
    if s != [] {
      if !cc.isLetterOrNumber(s[0]) {
        RunsSpec(cc, s[1..]);
      } else {
        var n := WordRun(cc, s);
        RunsSpec(cc, s[n..]);
        var r := [s[..n]] + Runs(cc, s[n..]);
        assert forall i :: 1 <= i < |r| ==> r[i] == Runs(cc, s[n..])[i - 1];
      }
    }
  }

  /** The long runs are runs longer than one byte. */
  lemma {:induction false} LongSpec(runs: seq<string>)
    ensures forall i :: 0 <= i < |Long(runs)| ==> ByteLen(Long(runs)[i]) > 1 && Long(runs)[i] in runs
    decreases |runs|
  {
    if runs != [] {
      LongSpec(runs[1..]);
      var head := if ByteLen(runs[0]) > 1 then [runs[0]] else [];
      var r := head + Long(runs[1..]);
      forall i | 0 <= i < |r| ensures ByteLen(r[i]) > 1 && r[i] in runs {
        if i >= |head| {
          assert r[i] == Long(runs[1..])[i - |head|];
          assert r[i] in runs[1..];
        }
      }
    }
  }

  lemma {:induction false} FlushAppends(tokens: seq<string>, cur: string)
    ensures Flush(tokens, cur) == tokens + Flush([], cur)
  {
  }

  lemma {:induction false} LongAppend(a: seq<string>, b: seq<string>)
    ensures Long(a + b) == Long(a) + Long(b)
    decreases |a|
  {
    if a == [] {
      assert a + b == b;
    } else {
      var h := if ByteLen(a[0]) > 1 then [a[0]] else [];
      assert (a + b)[0] == a[0];
      assert (a + b)[1..] == a[1..] + b;
      LongAppend(a[1..], b);
      ConcatAssoc(h, Long(a[1..]), Long(b));
    }
  }

  lemma {:induction false} LongRunsUnfold(cc: CharClasses, s: string)
    ensures var n := WordRun(cc, s);
            Long(Runs(cc, s)) == Flush([], s[..n]) + Long(Runs(cc, s[n..]))
  {
    var n := WordRun(cc, s);
    if n == 0 {
      assert s[..n] == [] && s[n..] == s;
      assert Flush([], s[..n]) == [];
    } else {
      var w, rest := s[..n], Runs(cc, s[n..]);
      var r := [w] + rest;
      assert Runs(cc, s) == r;
      assert r[0] == w && r[1..] == rest;
      assert Long(r) == (if ByteLen(w) > 1 then [w] else []) + Long(rest);
      assert Flush([], w) == if ByteLen(w) > 1 then [w] else [];
    }
  }

  /** The buffered scan, from any buffer, emits the buffer extended by the
      leading run, then the long runs of the rest. */
  lemma {:induction false} ScanRuns(cc: CharClasses, text: string, cur: string, tokens: seq<string>)
    ensures ScanRunsHolds(cc, text, cur, tokens)
    decreases |text|
  {
    if text == [] {
      ScanRunsEmpty(cc, cur, tokens);
    } else if cc.isLetterOrNumber(text[0]) {
      ScanRuns(cc, text[1..], cur + [text[0]], tokens);
      ScanRunsWord(cc, text, cur, tokens);
    } else {
      ScanRuns(cc, text[1..], "", Flush(tokens, cur));
      ScanRunsSeparator(cc, text, cur, tokens);
    }
  }

  /** The statement of `ScanRuns` for one text, buffer and token list. */
  predicate ScanRunsHolds(cc: CharClasses, text: string, cur: string, tokens: seq<string>) {
    var n := WordRun(cc, text);
    Scan(cc, text, cur, tokens) == Flush(tokens, cur + text[..n]) + Long(Runs(cc, text[n..]))
  }

  lemma {:induction false} ScanRunsEmpty(cc: CharClasses, cur: string, tokens: seq<string>)
    ensures ScanRunsHolds(cc, "", cur, tokens)
  {
    assert cur + ""[..0] == cur;
  }

  lemma {:induction false} ScanRunsSeparator(cc: CharClasses, text: string, cur: string, tokens: seq<string>)
    requires text != [] && !cc.isLetterOrNumber(text[0])
    requires ScanRunsHolds(cc, text[1..], "", Flush(tokens, cur))
    ensures ScanRunsHolds(cc, text, cur, tokens)
  {
    var t1 := text[1..];
    var n1 := WordRun(cc, t1);
    var f, w, rest := Flush(tokens, cur), t1[..n1], Long(Runs(cc, t1[n1..]));
    assert WordRun(cc, text) == 0;
    assert cur + text[..0] == cur && text[0..] == text;
    assert "" + w == w;
    calc {
      Scan(cc, text, cur, tokens);
      Scan(cc, t1, "", f);
      Flush(f, w) + rest;
      { FlushAppends(f, w); }
      f + Flush([], w) + rest;
      { ConcatAssoc(f, Flush([], w), rest); }
      f + (Flush([], w) + rest);
      { LongRunsUnfold(cc, t1); }
      f + Long(Runs(cc, t1));
      { assert Runs(cc, text) == Runs(cc, t1); }
      Flush(tokens, cur + text[..0]) + Long(Runs(cc, text[0..]));
    }
  }

  lemma {:induction false} ScanRunsWord(cc: CharClasses, text: string, cur: string, tokens: seq<string>)
    requires text != [] && cc.isLetterOrNumber(text[0])
    requires ScanRunsHolds(cc, text[1..], cur + [text[0]], tokens)
    ensures ScanRunsHolds(cc, text, cur, tokens)
  {
    var n := WordRun(cc, text);
    var t1 := text[1..];
    var n1 := WordRun(cc, t1);
    assert Scan(cc, text, cur, tokens) == Scan(cc, t1, cur + [text[0]], tokens);
    assert n == n1 + 1;
    assert text[..n] == [text[0]] + t1[..n1];
    assert cur + [text[0]] + t1[..n1] == cur + text[..n];
    assert t1[n1..] == text[n..];
  }

  /** The buffered scan yields exactly the runs longer than one byte, in order, duplicates kept. */
  lemma {:induction false} TokenizeMatchesRuns(cc: CharClasses, text: string)
    ensures Scan(cc, text, "", []) == Long(Runs(cc, text))
  {
    ScanRuns(cc, text, "", []);
    assert ScanRunsHolds(cc, text, "", []);
    LongRunsUnfold(cc, text);
    assert "" + text[..WordRun(cc, text)] == text[..WordRun(cc, text)];
  }

  lemma {:induction false} WordRunStopsAt(cc: CharClasses, a: string, c: char, b: string)
    requires !cc.isLetterOrNumber(c)
    ensures WordRun(cc, a + [c] + b) == WordRun(cc, a)
    decreases |a|
  {
    var s := a + [c] + b;
    if a == [] {
      assert s[0] == c;
    } else {
      assert s[0] == a[0];
      assert s[1..] == a[1..] + [c] + b;
      WordRunStopsAt(cc, a[1..], c, b);
    }
  }

  lemma {:induction false} RunsSeparator(cc: CharClasses, a: string, c: char, b: string)
    requires !cc.isLetterOrNumber(c)
    ensures Runs(cc, a + [c] + b) == Runs(cc, a) + Runs(cc, b)
    decreases |a|
  {
    var s := a + [c] + b;
    if a == [] {
      assert s[0] == c && s[1..] == b;
    } else if !cc.isLetterOrNumber(a[0]) {
      assert s[0] == a[0];
      assert s[1..] == a[1..] + [c] + b;
      RunsSeparator(cc, a[1..], c, b);
    } else {
      var n := WordRun(cc, a);
      WordRunStopsAt(cc, a, c, b);
      assert s[0] == a[0];
      assert s[..n] == a[..n];
      assert s[n..] == a[n..] + [c] + b;
      RunsSeparator(cc, a[n..], c, b);
    }
  }

  /** A character that is neither letter nor number separates: the tokens of
      `a + c + b` are the tokens of `a` followed by the tokens of `b`. */
  lemma {:induction false} TokenizeSeparator(cc: CharClasses, a: string, c: char, b: string)
    requires !cc.isLetterOrNumber(c)
    ensures Tokenize(cc, a + [c] + b) == Tokenize(cc, a) + Tokenize(cc, b)
  {
    TokenizeMatchesRuns(cc, a + [c] + b);
    TokenizeMatchesRuns(cc, a);
    TokenizeMatchesRuns(cc, b);
    RunsSeparator(cc, a, c, b);
    LongAppend(Runs(cc, a), Runs(cc, b));
  }

  lemma {:induction false} RunsOfNoWord(cc: CharClasses, s: string)
    requires forall k :: 0 <= k < |s| ==> !cc.isLetterOrNumber(s[k])
    ensures Runs(cc, s) == []
    decreases |s|
  {
    if s != [] {
      RunsOfNoWord(cc, s[1..]);
    }
  }

  /** Text without letters or numbers has no tokens. */
  lemma {:induction false} NoWordNoTokens(cc: CharClasses, s: string)
    requires forall k :: 0 <= k < |s| ==> !cc.isLetterOrNumber(s[k])
    ensures Tokenize(cc, s) == []
  {
    TokenizeMatchesRuns(cc, s);
    RunsOfNoWord(cc, s);
  }

  /** A lone letter is dropped when it is ASCII and kept when it is not:
      the length test counts bytes, not characters. */
  lemma {:induction false} SingleLetter(cc: CharClasses, c: char)
    requires cc.isLetterOrNumber(c)
    ensures Tokenize(cc, [c]) == (if (c as int) < 0x80 then [] else [[c]])
  {
    TokenizeMatchesRuns(cc, [c]);
    assert WordRun(cc, [c]) == 1;
    assert [c][..1] == [c] && [c][1..] == [];
    assert ByteLen([c]) == Utf8Len(c);
  }

  /** `"a bb ccc"` gives `["bb", "ccc"]`. */
  lemma {:induction false} ExampleSingleLettersDropped(cc: CharClasses)
    requires AsciiFaithful(cc)
    ensures Tokenize(cc, "a bb ccc") == ["bb", "ccc"]
  {
    assert !cc.isLetterOrNumber(' ');
    SingleLetter(cc, 'a');
    assert "a bb ccc" == "a" + [' '] + "bb ccc";
    TokenizeSeparator(cc, "a", ' ', "bb ccc");
    ExampleTwoWords(cc);
  }

  lemma {:induction false} ExampleTwoWords(cc: CharClasses)
    requires AsciiFaithful(cc)
    ensures Tokenize(cc, "bb ccc") == ["bb", "ccc"]
  {
    assert !cc.isLetterOrNumber(' ');
    assert "bb ccc" == "bb" + [' '] + "ccc";
    TokenizeSeparator(cc, "bb", ' ', "ccc");
    ExampleWord(cc, "bb");
    ExampleWord(cc, "ccc");
  }

  lemma {:induction false} ExampleWord(cc: CharClasses, w: string)
    requires AsciiFaithful(cc)
    requires 2 <= |w| && forall k :: 0 <= k < |w| ==> 'a' <= w[k] <= 'z'
    ensures Tokenize(cc, w) == [w]
  {
    TokenizeMatchesRuns(cc, w);
    assert forall k :: 0 <= k < |w| ==> cc.isLetterOrNumber(w[k]);
    WordRunAll(cc, w);
    assert w[..|w|] == w && w[|w|..] == [];
    AsciiByteLen(w);
  }

  lemma {:induction false} WordRunAll(cc: CharClasses, w: string)
    requires AllWord(cc, w)
    ensures WordRun(cc, w) == |w|
    decreases |w|
  {
    if w != [] {
      WordRunAll(cc, w[1..]);
    }
  }
}
