/**
 * The BIO span merger of the skill extractor (`merge_bio_entities`).
 * A token-classification model labels each word piece B (begins a skill),
 * I (inside a skill) or anything else (outside); word pieces that continue
 * the previous piece start with "##". The merger walks the tokens once,
 * keeping an open span of words with one score slot per word, and emits a
 * candidate phrase whenever the span is closed.
 */
module SkillsPostprocessing {
  import opened Text
  import opened Numeric

  /** One entry of the model's output: the piece, its label and its confidence. */
  datatype Token = Token(word: string, entity: string, score: real)

  /** An emitted skill phrase and its mean score. */
  datatype Candidate = Candidate(skill: string, score: real)

  /** The merger's variables: emitted candidates, the open span's words and their score slots. */
  datatype MergeState = MergeState(skills: seq<Candidate>, current: seq<string>, scores: seq<real>)

  const Empty := MergeState([], [], [])

  predicate IsSubword(t: Token) { StartsWith(t.word, "##") }
  predicate IsBegin(t: Token) { StartsWith(t.entity, "B") }
  predicate IsInside(t: Token) { StartsWith(t.entity, "I") }

  /** A lower-cased phrase without surrounding whitespace. */
  predicate IsNormalizedPhrase(s: string) {
    HasNoUpper(s) && (s == [] || (!IsSpace(s[0]) && !IsSpace(s[|s| - 1])))
  }

  /** The candidate for an open span: its words joined by spaces, stripped and lower-cased, with the mean slot score. */
  function Emit(current: seq<string>, scores: seq<real>): (c: Candidate)
    requires |current| == |scores| > 0
    ensures IsNormalizedPhrase(c.skill)
    ensures Sum(scores) >= 0.0 ==> c.score >= 0.0
  {
    var phrase := Strip(Join(current, " "));
    var total, count := Sum(scores), |scores| as real;
    Mean(total, count);
    LowerStripped(phrase);
    Candidate(Lower(phrase), total / count)
  }

  /** The emitted score is the sum of the slots over their number, which is more than 1 whenever the slots add up to more than their count. */
  lemma EmitScoreIsMean(current: seq<string>, scores: seq<real>)
    requires |current| == |scores| > 0
    ensures Emit(current, scores).score == Sum(scores) / (|scores| as real)
    ensures Sum(scores) > |scores| as real ==> Emit(current, scores).score > 1.0
  {
    MeanAboveOne(Sum(scores), |scores| as real);
  }

  lemma MeanAboveOne(x: real, n: real)
    requires n > 0.0
    ensures x > n ==> x / n > 1.0
  {
    if x > n {
      var q := x / n;
      assert q * n == x;
      assert (q - 1.0) * n > 0.0;
    }
  }

  lemma Mean(x: real, n: real)
    requires n > 0.0
    ensures x >= 0.0 ==> x / n >= 0.0
  {
  }

  /** Lower-casing a stripped phrase gives a normalised phrase. */
  lemma LowerStripped(s: string)
    requires s == [] || (!IsSpace(s[0]) && !IsSpace(s[|s| - 1]))
    ensures IsNormalizedPhrase(Lower(s))
  {
    var l := Lower(s);
    if s != [] {
      assert l[0] == LowerChar(s[0]) && l[|l| - 1] == LowerChar(s[|s| - 1]);
    }
  }

  /** The candidates emitted by closing the span, if one is open. */
  function Close(current: seq<string>, scores: seq<real>): (cs: seq<Candidate>)
    requires |current| == |scores|
    ensures |cs| == if |current| > 0 then 1 else 0
  {
    if |current| > 0 then [Emit(current, scores)] else []
  }

  /** One iteration of the merger's loop. */
  function Step(st: MergeState, t: Token): (r: MergeState)
    requires |st.current| == |st.scores|
    ensures |r.current| == |r.scores|
  {
    var n := |st.current|;
    if IsSubword(t) && n > 0 then
      MergeState(st.skills, st.current[..n - 1] + [st.current[n - 1] + t.word[2..]],
                 st.scores[..n - 1] + [st.scores[n - 1] + t.score])
    else if IsBegin(t) then
      MergeState(st.skills + Close(st.current, st.scores), [t.word], [t.score])
    else if IsInside(t) then
      if n > 0 then MergeState(st.skills, st.current + [t.word], st.scores + [t.score]) else st
    else
      MergeState(st.skills + Close(st.current, st.scores), [], [])
  }

  /** The state after the loop has consumed `tokens`; the span always has one slot per word. */
  function Fold(tokens: seq<Token>): (r: MergeState)
    ensures |r.current| == |r.scores|
    decreases |tokens|
  {
    if tokens == [] then Empty else Step(Fold(tokens[..|tokens| - 1]), tokens[|tokens| - 1])
  }

  lemma FoldSnoc(tokens: seq<Token>, i: int)
    requires 0 <= i < |tokens|
    ensures Fold(tokens[..i + 1]) == Step(Fold(tokens[..i]), tokens[i])
  {
    assert tokens[..i + 1][..i] == tokens[..i];
  }

  /** The merger's result: the emitted candidates and the span still open at the end. */
  function Merge(tokens: seq<Token>): seq<Candidate>
  {
    var st := Fold(tokens);
    st.skills + Close(st.current, st.scores)
  }

  /** `merge_bio_entities`, as the loop that updates `current` and `scores` in place. */
  method MergeBioEntities(nerOutput: seq<Token>) returns (skills: seq<Candidate>)
    ensures skills == Merge(nerOutput)
  {
    skills := [];
    var current: seq<string> := [];
    var scores: seq<real> := [];
    for i := 0 to |nerOutput|
      invariant MergeState(skills, current, scores) == Fold(nerOutput[..i])
    {
      FoldSnoc(nerOutput, i);
      skills, current, scores := MergeToken(skills, current, scores, nerOutput[i]);
    }
    assert nerOutput[..|nerOutput|] == nerOutput;
    if |current| > 0 {
      skills := skills + [Emit(current, scores)];
    }
  }

  /** The body of the merger's loop for one token. */
  method MergeToken(skills: seq<Candidate>, current: seq<string>, scores: seq<real>, t: Token)
    returns (skills': seq<Candidate>, current': seq<string>, scores': seq<real>)
    requires |current| == |scores|
    ensures MergeState(skills', current', scores') == Step(MergeState(skills, current, scores), t)
  {
    skills', current', scores' := skills, current, scores;
    if IsSubword(t) && |current| > 0 {
      current' := current[..|current| - 1] + [current[|current| - 1] + t.word[2..]];
      scores' := scores[..|scores| - 1] + [scores[|scores| - 1] + t.score];
      return;
    }
    if IsBegin(t) {
      if |current| > 0 {
        skills' := skills + [Emit(current, scores)];
      }
      current' := [t.word];
      scores' := [t.score];
    } else if IsInside(t) {
      if |current| > 0 {
        current' := current + [t.word];
        scores' := scores + [t.score];
      }
    } else {
      if |current| > 0 {
        skills' := skills + [Emit(current, scores)];
        current' := [];
        scores' := [];
      }
    }
  }

  /**
   * With a span open, a "##" piece of any label is glued to the last word without a
   * space and its score is added into the last slot: the word and slot counts stay,
   * the joined text grows by the piece without its marker, the slot total grows by its score.
   */
  lemma StepGluesSubword(st: MergeState, t: Token)
    requires |st.current| == |st.scores| > 0 && IsSubword(t)
    ensures Step(st, t).skills == st.skills
    ensures |Step(st, t).current| == |st.current|
    ensures Join(Step(st, t).current, " ") == Join(st.current, " ") + t.word[2..]
    ensures Sum(Step(st, t).scores) == Sum(st.scores) + t.score
  {
    var n := |st.current|;
    var init := st.current[..n - 1];
    assert st.scores == st.scores[..n - 1] + [st.scores[n - 1]];
    assert (st.scores[..n - 1] + [st.scores[n - 1] + t.score])[..n - 1] == st.scores[..n - 1];
    if n > 1 {
      assert st.current == init + [st.current[n - 1]];
      JoinSnoc(init, st.current[n - 1], " ");
      JoinSnoc(init, st.current[n - 1] + t.word[2..], " ");
    }
  }

  /** With a span open, an I piece adds a word, separated by a space, and a slot. */
  lemma StepExtendsSpan(st: MergeState, t: Token)
    requires |st.current| == |st.scores| > 0 && !IsSubword(t) && !IsBegin(t) && IsInside(t)
    ensures Step(st, t).skills == st.skills
    ensures |Step(st, t).current| == |st.current| + 1
    ensures Join(Step(st, t).current, " ") == Join(st.current, " ") + " " + t.word
    ensures Sum(Step(st, t).scores) == Sum(st.scores) + t.score
  {
    JoinSnoc(st.current, t.word, " ");
    assert (st.scores + [t.score])[..|st.scores|] == st.scores;
  }

  /**
   * A B token (unless it is a "##" piece glued to an open span) emits the open span, if
   * any, and opens a new span holding just its own word and score, "##" marker included.
   */
  lemma StepBegins(st: MergeState, t: Token)
    requires |st.current| == |st.scores| && !(IsSubword(t) && |st.current| > 0) && IsBegin(t)
    ensures Step(st, t).skills == st.skills + (if |st.current| > 0 then [Emit(st.current, st.scores)] else [])
    ensures Step(st, t).current == [t.word] && Step(st, t).scores == [t.score]
  {
  }

  /**
   * A token labelled neither B nor I (unless it is a "##" piece glued to an open span)
   * emits the open span, if any, and leaves no span open; with none open it changes nothing.
   */
  lemma StepOutside(st: MergeState, t: Token)
    requires |st.current| == |st.scores| && !(IsSubword(t) && |st.current| > 0) && !IsBegin(t) && !IsInside(t)
    ensures Step(st, t).skills == st.skills + (if |st.current| > 0 then [Emit(st.current, st.scores)] else [])
    ensures Step(st, t).current == [] && Step(st, t).scores == []
    ensures |st.current| == 0 ==> Step(st, t) == st
  {
  }

  /** Without an open span, an I piece (a "##" one included) changes nothing. */
  lemma StepIgnoresOrphanInside(st: MergeState, t: Token)
    requires |st.current| == |st.scores| == 0 && !IsBegin(t) && IsInside(t)
    ensures Step(st, t) == st
  {
  }

  /** The number of tokens labelled B. */
  function CountBegins(tokens: seq<Token>): (n: nat)
    ensures n <= |tokens|
    decreases |tokens|
  {
    if tokens == [] then 0
    else CountBegins(tokens[..|tokens| - 1]) + (if IsBegin(tokens[|tokens| - 1]) then 1 else 0)
  }

  /** Only a B token opens a span, so emitted candidates plus the open span never outnumber the B tokens. */
  lemma {:induction false} FoldBeginsBound(tokens: seq<Token>)
    ensures |Fold(tokens).skills| + (if |Fold(tokens).current| > 0 then 1 else 0) <= CountBegins(tokens)
    decreases |tokens|
  {
    if tokens != [] {
      FoldBeginsBound(tokens[..|tokens| - 1]);
    }
  }

  /** At most one candidate per B-labelled token. */
  lemma MergeCandidateBound(tokens: seq<Token>)
    ensures |Merge(tokens)| <= CountBegins(tokens)
  {
    FoldBeginsBound(tokens);
  }

  predicate NonNegativeScores(tokens: seq<Token>) {
    forall j :: 0 <= j < |tokens| ==> tokens[j].score >= 0.0
  }

  /** Emitted phrases are normalized; with non-negative inputs, slots and emitted scores are non-negative. */
  predicate GoodState(st: MergeState, nonNegative: bool) {
    (forall i :: 0 <= i < |st.skills| ==> IsNormalizedPhrase(st.skills[i].skill)) &&
    (nonNegative ==>
      (forall i :: 0 <= i < |st.scores| ==> st.scores[i] >= 0.0) &&
      (forall i :: 0 <= i < |st.skills| ==> st.skills[i].score >= 0.0))
  }

  lemma CloseGood(st: MergeState, nonNegative: bool)
    requires |st.current| == |st.scores| && GoodState(st, nonNegative)
    ensures GoodState(MergeState(st.skills + Close(st.current, st.scores), [], []), nonNegative)
  {
    if |st.current| > 0 {
      var c := Emit(st.current, st.scores);
      AppendGood(st.skills, c, nonNegative);
    } else {
      assert st.skills + Close(st.current, st.scores) == st.skills;
    }
  }

  lemma AppendGood(skills: seq<Candidate>, c: Candidate, nonNegative: bool)
    requires GoodState(MergeState(skills, [], []), nonNegative)
    requires IsNormalizedPhrase(c.skill) && (nonNegative ==> c.score >= 0.0)
    ensures GoodState(MergeState(skills + [c], [], []), nonNegative)
  {
  }


  lemma StepGood(st: MergeState, t: Token, nonNegative: bool)
    requires |st.current| == |st.scores| && GoodState(st, nonNegative)
    requires nonNegative ==> t.score >= 0.0
    ensures GoodState(Step(st, t), nonNegative)
  {
    if !(IsSubword(t) && |st.current| > 0) && (IsBegin(t) || !IsInside(t)) {
      CloseGood(st, nonNegative);
    }
  }

  lemma {:induction false} FoldGood(tokens: seq<Token>, nonNegative: bool)
    requires nonNegative ==> NonNegativeScores(tokens)
    ensures GoodState(Fold(tokens), nonNegative)
    decreases |tokens|
  {
    if tokens != [] {
      var init := tokens[..|tokens| - 1];
      assert nonNegative ==> NonNegativeScores(init) by {
        assert forall j :: 0 <= j < |init| ==> init[j] == tokens[j];
      }
      FoldGood(init, nonNegative);
      StepGood(Fold(init), tokens[|tokens| - 1], nonNegative);
    }
  }

  /**
   * Each phrase is lower-case with no surrounding whitespace, and each score is
   * non-negative when the token scores are.
   */
  lemma MergeNormalized(tokens: seq<Token>)
    ensures forall i :: 0 <= i < |Merge(tokens)| ==> IsNormalizedPhrase(Merge(tokens)[i].skill)
    ensures NonNegativeScores(tokens) ==> forall i :: 0 <= i < |Merge(tokens)| ==> Merge(tokens)[i].score >= 0.0
  {
    var nonNegative := NonNegativeScores(tokens);
    FoldGood(tokens, nonNegative);
    CloseGood(Fold(tokens), nonNegative);
  }

  /** No tokens, no candidates. */
  lemma MergeEmpty()
    ensures Merge([]) == []
  {
  }

  lemma PythonPrefix()
    ensures Fold([Token("py", "B", 0.9), Token("##thon", "I", 0.8)]) == MergeState([], ["python"], [1.7])
  {
    var t0, t1 := Token("py", "B", 0.9), Token("##thon", "I", 0.8);
    assert [t0][..0] == [] && [t0, t1][..1] == [t0];
    var st1 := MergeState([], ["py"], [0.9]);
    assert Fold([t0]) == st1;
    assert "##thon"[2..] == "thon" && "py" + "thon" == "python";
  }

  lemma PythonEmit()
    ensures Emit(["python"], [1.7]) == Candidate("python", 1.7)
  {
    assert Sum([1.7]) == 1.7 by { assert [1.7][..0] == []; }
    assert Join(["python"], " ") == "python";
    StripUnchanged("python");
    LowerUnchanged("python");
  }

  /** "py" + "##thon" becomes "python"; the two scores share one slot, so the mean is 1.7. */
  lemma MergeGluesPython()
    ensures Merge([Token("py", "B", 0.9), Token("##thon", "I", 0.8), Token("and", "O", 0.99)])
      == [Candidate("python", 1.7)]
  {
    var t0, t1, t2 := Token("py", "B", 0.9), Token("##thon", "I", 0.8), Token("and", "O", 0.99);
    var ts := [t0, t1, t2];
    assert ts[..2] == [t0, t1];
    PythonPrefix();
    PythonEmit();
    assert "and"[..2][0] == 'a' && "O"[..1][0] == 'O';
    assert !IsSubword(t2) && !IsBegin(t2) && !IsInside(t2);
    assert Fold(ts) == MergeState([Candidate("python", 1.7)], [], []);
  }

  /** A B-labelled "##" piece with no open span opens a span that keeps the marker. */
  lemma MergeKeepsOrphanMarker()
    ensures Merge([Token("##js", "B", 0.5)]) == [Candidate("##js", 0.5)]
  {
    var t := Token("##js", "B", 0.5);
    assert [t][..0] == [];
    assert Fold([t]) == MergeState([], ["##js"], [0.5]);
    assert Join(["##js"], " ") == "##js";
    StripUnchanged("##js");
    LowerUnchanged("##js");
  }

  lemma JavaScriptPhrase()
    ensures Lower(Strip(Join(["java", "script"], " "))) == "java script"
  {
    assert Join(["java", "script"], " ") == "java script" by {
      assert ["java", "script"][1..] == ["script"];
    }
    LowerUnchanged("java script");
    StripUnchanged("java script");
  }

  lemma JavaScriptEmit()
    ensures Emit(["java", "script"], [1.0, 1.0]) == Candidate("java script", 1.0)
  {
    assert Sum([1.0, 1.0]) == 2.0 by { assert [1.0, 1.0][..1] == [1.0] && [1.0][..0] == []; }
    JavaScriptPhrase();
  }

  lemma JavaPhrase()
    ensures Lower(Strip(Join(["java"], " "))) == "java"
  {
    LowerUnchanged("java");
    StripUnchanged("java");
  }

  lemma JavaEmit()
    ensures Emit(["java"], [1.0]) == Candidate("java", 1.0)
  {
    assert Sum([1.0]) == 1.0 by { assert [1.0][..0] == []; }
    JavaPhrase();
  }

  lemma JavaScriptFold()
    ensures Fold([Token("java", "B", 1.0), Token("script", "I", 1.0)]) == MergeState([], ["java", "script"], [1.0, 1.0])
    ensures Fold([Token("java", "B", 1.0)]) == MergeState([], ["java"], [1.0])
    ensures Fold([Token("script", "I", 1.0)]) == Empty
  {
    var a, b := Token("java", "B", 1.0), Token("script", "I", 1.0);
    assert [a][..0] == [] && [b][..0] == [] && [a, b][..1] == [a];
    assert "script"[..2][0] == 's' && "I"[..1][0] == 'I';
    assert !IsSubword(b) && !IsBegin(b) && IsInside(b);
  }

  /**
   * Merging is not done piece by piece: a span left open at the end of one run of
   * tokens takes in an I token at the start of the next, so merging the
   * concatenation differs from concatenating the merges.
   */
  lemma MergeSpansSeam()
    ensures Merge([Token("java", "B", 1.0)] + [Token("script", "I", 1.0)]) == [Candidate("java script", 1.0)]
    ensures Merge([Token("java", "B", 1.0)]) + Merge([Token("script", "I", 1.0)]) == [Candidate("java", 1.0)]
  {
    assert [Token("java", "B", 1.0)] + [Token("script", "I", 1.0)] == [Token("java", "B", 1.0), Token("script", "I", 1.0)];
    JavaScriptFold();
    JavaScriptEmit();
    JavaEmit();
  }
}
