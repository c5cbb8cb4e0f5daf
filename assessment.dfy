/**
 * The assessment rules of the applications controller that do not touch the
 * database: the assessment document, the public view shown to a candidate, MCQ
 * grading and the final score, the verdict on one code run, the proctoring
 * counters and flag, and the Fisher-Yates shuffle of the question order.
 * The assessment JSON is a datatype: a field is `None` when the property is
 * missing or not of the JSON kind the code asks for.
 */
module Assessment {
  import opened Wrappers
  import opened Text
  import opened Numeric
  import opened Collections

  datatype TestCase = TestCase(stdin: Option<string>, expected: Option<string>)

  /** One element of the `questions` array. */
  datatype Question = Question(
    id: Option<string>,
    qtype: Option<string>,
    correctIndex: Option<int>,
    prompt: Option<string>,
    options: Option<seq<Option<string>>>,
    title: Option<string>,
    starterCode: Option<string>,
    languageIdsAllowed: Option<seq<Option<int>>>,
    publicTests: Option<seq<TestCase>>)

  /** The parsed `AssessmentJson` of an opportunity. */
  datatype AssessmentDoc = AssessmentDoc(
    timeLimitSeconds: Option<int>,
    randomize: Option<bool>,
    questions: Option<seq<Question>>)

  const DefaultTimeLimitSeconds: int := 1800

  /** The question's type, "mcq" when it has none. */
  function TypeOrMcq(q: Question): string { q.qtype.GetOr("mcq") }

  predicate IsMcq(q: Question) { EqualsIgnoreCase(TypeOrMcq(q), "mcq") }

  predicate IsCode(q: Question) { EqualsIgnoreCase(TypeOrMcq(q), "code") }

  /** A string-valued, non-blank id. */
  predicate HasUsableId(q: Question) { q.id.Some? && !IsBlank(q.id.value) }

  // ---------------------------------------------------------------- public view

  /** What a candidate sees of a question: MCQ questions never carry their correct index. */
  datatype PublicQuestion =
    | PublicMcq(id: string, prompt: string, options: seq<Option<string>>)
    | PublicCode(id: string, title: string, prompt: string, starterCode: string,
                 languageIdsAllowed: seq<int>, publicTests: seq<(string, string)>)

  datatype PublicAssessment = PublicAssessment(timeLimitSeconds: int, randomize: bool, questions: seq<PublicQuestion>)

  /** The numeric entries of a JSON array, in order. */
  function Numbers(xs: seq<Option<int>>): (r: seq<int>)
    ensures |r| <= |xs|
    decreases |xs|
  {
    if xs == [] then []
    else (if xs[0].Some? then [xs[0].value] else []) + Numbers(xs[1..])
  }

  /** The public form of a question of type mcq or code (any case), or nothing for other types. */
  function PublicOf(q: Question, id: string): (r: Option<PublicQuestion>)
    ensures r.Some? <==> IsMcq(q) || IsCode(q)
    ensures r.Some? ==> r.value.id == id && (r.value.PublicMcq? <==> IsMcq(q))
  {
    if IsMcq(q) then Some(PublicMcq(id, q.prompt.GetOr(""), q.options.GetOr([])))
    else if IsCode(q) then
      var tests := q.publicTests.GetOr([]);
      Some(PublicCode(id, q.title.GetOr(""), q.prompt.GetOr(""), q.starterCode.GetOr(""),
                      Numbers(q.languageIdsAllowed.GetOr([])),
                      seq(|tests|, i requires 0 <= i < |tests| => (tests[i].stdin.GetOr(""), tests[i].expected.GetOr("")))))
    else
      assert !EqualsIgnoreCase("mcq", "code") by { assert Lower("mcq")[0] != Lower("code")[0]; }
      None
  }

  /** An entry of the case-insensitive dictionary: the key it was first added under and its current value. */
  datatype Entry = Entry(key: string, value: PublicQuestion)

  /** No two keys equal ignoring case. */
  predicate DistinctKeys(es: seq<Entry>) {
    forall i, j :: 0 <= i < j < |es| ==> !EqualsIgnoreCase(es[i].key, es[j].key)
  }

  /** The position of the entry whose key equals `key` ignoring case, or -1. */
  function FindKey(es: seq<Entry>, key: string): (i: int)
    ensures -1 <= i < |es|
    ensures i >= 0 ==> EqualsIgnoreCase(es[i].key, key)
    ensures i >= 0 ==> forall j :: 0 <= j < i ==> !EqualsIgnoreCase(es[j].key, key)
    ensures i < 0 ==> forall j :: 0 <= j < |es| ==> !EqualsIgnoreCase(es[j].key, key)
    decreases |es|
  {
    if es == [] then -1
    else if EqualsIgnoreCase(es[0].key, key) then 0
    else var k := FindKey(es[1..], key); if k < 0 then -1 else k + 1
  }

  /**
   * `map[key] = value` on a dictionary with `StringComparer.OrdinalIgnoreCase`: an
   * existing entry keeps its key and its place and takes the new value; otherwise
   * the entry is added at the end. Keys stay distinct ignoring case.
   */
  function Upsert(es: seq<Entry>, key: string, v: PublicQuestion): (r: seq<Entry>)
    ensures DistinctKeys(es) ==> DistinctKeys(r)
    ensures FindKey(es, key) >= 0 ==> |r| == |es| && r == es[FindKey(es, key) := Entry(es[FindKey(es, key)].key, v)]
    ensures FindKey(es, key) < 0 ==> r == es + [Entry(key, v)]
  {
    var i := FindKey(es, key);
    if i >= 0 then es[i := Entry(es[i].key, v)]
    else
      var r := es + [Entry(key, v)];
      assert DistinctKeys(es) ==> DistinctKeys(r) by {
        if DistinctKeys(es) {
          forall a, b | 0 <= a < b < |r| ensures !EqualsIgnoreCase(r[a].key, r[b].key) {
            if b == |es| { assert r[a] == es[a]; } else { assert r[a] == es[a] && r[b] == es[b]; }
          }
        }
      }
      r
  }

  /** The dictionary after the loop over the questions of the document. */
  function PublicEntries(qs: seq<Question>): (es: seq<Entry>)
    decreases |qs|
  {
    if qs == [] then []
    else
      var es := PublicEntries(qs[..|qs| - 1]);
      var q := qs[|qs| - 1];
      if !HasUsableId(q) then es
      else match PublicOf(q, q.id.value)
        case None => es
        case Some(v) => Upsert(es, q.id.value, v)
  }

  /** Each entry's key and its question's id are the same ignoring case. */
  predicate WellKeyed(es: seq<Entry>) {
    DistinctKeys(es) &&
    forall i :: 0 <= i < |es| ==> !IsBlank(es[i].value.id) && EqualsIgnoreCase(es[i].key, es[i].value.id)
  }

  /**
   * The dictionary has one entry per id ignoring case, only for questions with a
   * usable id and a type of mcq or code, and every such question has its entry.
   */
  lemma PublicEntriesWellKeyed(qs: seq<Question>)
    ensures WellKeyed(PublicEntries(qs))
    ensures forall k :: 0 <= k < |qs| && HasUsableId(qs[k]) && (IsMcq(qs[k]) || IsCode(qs[k])) ==>
      FindKey(PublicEntries(qs), qs[k].id.value) >= 0
  {
    PublicEntriesKeyed(qs);
    PublicEntriesCover(qs);
  }

  /** Upserting a value under a key matching its id keeps the dictionary well keyed. */
  lemma UpsertWellKeyed(es: seq<Entry>, key: string, v: PublicQuestion)
    requires WellKeyed(es) && !IsBlank(v.id) && EqualsIgnoreCase(key, v.id)
    ensures WellKeyed(Upsert(es, key, v))
  {
    var r := Upsert(es, key, v);
    var i := FindKey(es, key);
    forall a | 0 <= a < |r| ensures !IsBlank(r[a].value.id) && EqualsIgnoreCase(r[a].key, r[a].value.id) {
      if a < |es| && (i < 0 || a != i) { assert r[a] == es[a]; }
    }
  }

  /** After an upsert the key is found, and so is every key found before. */
  lemma UpsertFinds(es: seq<Entry>, key: string, v: PublicQuestion, other: string)
    ensures FindKey(es, other) >= 0 ==> FindKey(Upsert(es, key, v), other) >= 0
    ensures FindKey(Upsert(es, key, v), key) >= 0
  {
    var r := Upsert(es, key, v);
    var i := FindKey(es, key);
    if FindKey(es, other) >= 0 {
      var m := FindKey(es, other);
      assert r[m].key == es[m].key;
    }
    if i >= 0 { assert r[i].key == es[i].key; } else { assert r[|es|].key == key; }
  }

  lemma {:induction false} PublicEntriesKeyed(qs: seq<Question>)
    ensures WellKeyed(PublicEntries(qs))
    decreases |qs|
  {
    if qs != [] {
      var init := qs[..|qs| - 1];
      var q := qs[|qs| - 1];
      PublicEntriesKeyed(init);
      if HasUsableId(q) && PublicOf(q, q.id.value).Some? {
        UpsertWellKeyed(PublicEntries(init), q.id.value, PublicOf(q, q.id.value).value);
      }
    }
  }

  lemma {:induction false} PublicEntriesCover(qs: seq<Question>)
    ensures forall k :: 0 <= k < |qs| && HasUsableId(qs[k]) && (IsMcq(qs[k]) || IsCode(qs[k])) ==>
      FindKey(PublicEntries(qs), qs[k].id.value) >= 0
    decreases |qs|
  {
    if qs != [] {
      var init := qs[..|qs| - 1];
      var q := qs[|qs| - 1];
      PublicEntriesCover(init);
      var es := PublicEntries(init);
      forall k | 0 <= k < |qs| && HasUsableId(qs[k]) && (IsMcq(qs[k]) || IsCode(qs[k]))
        ensures FindKey(PublicEntries(qs), qs[k].id.value) >= 0
      {
        var upsert := HasUsableId(q) && PublicOf(q, q.id.value).Some?;
        if k < |init| {
          assert qs[k] == init[k];
          if upsert { UpsertFinds(es, q.id.value, PublicOf(q, q.id.value).value, qs[k].id.value); }
        } else {
          UpsertFinds(es, q.id.value, PublicOf(q, q.id.value).value, q.id.value);
        }
      }
    }
  }

  /** The values in the order of the ids, skipping ids with no entry. */
  function OrderedBy(es: seq<Entry>, order: seq<string>): (r: seq<PublicQuestion>)
    ensures |r| <= |order|
    decreases |order|
  {
    if order == [] then []
    else
      var i := FindKey(es, order[|order| - 1]);
      OrderedBy(es, order[..|order| - 1]) + (if i >= 0 then [es[i].value] else [])
  }

  /** When every id of the order has an entry, the output follows the order one to one. */
  lemma {:induction false} OrderedByAllPresent(es: seq<Entry>, order: seq<string>)
    requires forall j :: 0 <= j < |order| ==> FindKey(es, order[j]) >= 0
    ensures |OrderedBy(es, order)| == |order|
    ensures forall k :: 0 <= k < |order| ==> OrderedBy(es, order)[k] == es[FindKey(es, order[k])].value
    decreases |order|
  {
    if order != [] {
      var init := order[..|order| - 1];
      assert forall j :: 0 <= j < |init| ==> init[j] == order[j];
      OrderedByAllPresent(es, init);
      var i := FindKey(es, order[|order| - 1]);
      var r := OrderedBy(es, order);
      assert r == OrderedBy(es, init) + [es[i].value];
      forall k | 0 <= k < |order| ensures r[k] == es[FindKey(es, order[k])].value {
        if k < |init| { assert order[k] == init[k]; }
      }
    }
  }

  /** The output for a concatenated order is the concatenation of the outputs; an id with no entry contributes nothing. */
  lemma {:induction false} OrderedByAppend(es: seq<Entry>, a: seq<string>, b: seq<string>)
    ensures OrderedBy(es, a + b) == OrderedBy(es, a) + OrderedBy(es, b)
    decreases |b|
  {
    if b == [] {
      assert a + b == a;
    } else {
      var b0 := b[..|b| - 1];
      var ab := a + b;
      assert ab[..|ab| - 1] == a + b0 && ab[|ab| - 1] == b[|b| - 1];
      OrderedByAppend(es, a, b0);
    }
  }

  lemma OrderedByMissing(es: seq<Entry>, id: string)
    requires FindKey(es, id) < 0
    ensures OrderedBy(es, [id]) == []
  {
    assert [id][..0] == [];
  }

  function Values(es: seq<Entry>): (r: seq<PublicQuestion>)
    ensures |r| == |es| && forall i :: 0 <= i < |es| ==> r[i] == es[i].value
  {
    seq(|es|, i requires 0 <= i < |es| => es[i].value)
  }

  /** `MakePublicAssessment`: null for a blank document; otherwise the settings and the questions to show. */
  function PublicView(json: Option<AssessmentDoc>, questionOrder: Option<seq<string>>): (r: Option<PublicAssessment>)
    ensures r.None? <==> json.None?
    ensures r.Some? ==> r.value.timeLimitSeconds == json.value.timeLimitSeconds.GetOr(DefaultTimeLimitSeconds)
    ensures r.Some? ==> (r.value.randomize <==> json.value.randomize == Some(true))
    ensures r.Some? && json.value.questions.None? ==> r.value.questions == []
  {
    match json
    case None => None
    case Some(doc) =>
      var timeLimitSeconds := doc.timeLimitSeconds.GetOr(DefaultTimeLimitSeconds);
      var randomize := doc.randomize == Some(true);
      match doc.questions
      case None => Some(PublicAssessment(timeLimitSeconds, randomize, []))
      case Some(qs) =>
        var es := PublicEntries(qs);
        var ordered := if questionOrder.Some? && |questionOrder.value| > 0 then OrderedBy(es, questionOrder.value) else Values(es);
        Some(PublicAssessment(timeLimitSeconds, randomize, ordered))
  }

  /** Every question shown has a non-blank id; without an order, no two shown ids are equal ignoring case. */
  lemma PublicViewIds(json: Option<AssessmentDoc>, questionOrder: Option<seq<string>>)
    requires PublicView(json, questionOrder).Some?
    ensures forall k :: 0 <= k < |PublicView(json, questionOrder).value.questions| ==>
      !IsBlank(PublicView(json, questionOrder).value.questions[k].id)
    ensures (questionOrder.None? || questionOrder.value == []) ==>
      forall k, l :: 0 <= k < l < |PublicView(json, questionOrder).value.questions| ==>
        !EqualsIgnoreCase(PublicView(json, questionOrder).value.questions[k].id,
                          PublicView(json, questionOrder).value.questions[l].id)
  {
    if json.value.questions.Some? {
      var es := PublicEntries(json.value.questions.value);
      PublicEntriesWellKeyed(json.value.questions.value);
      var out := PublicView(json, questionOrder).value.questions;
      if questionOrder.Some? && |questionOrder.value| > 0 {
        OrderedByMembers(es, questionOrder.value);
        forall k | 0 <= k < |out| ensures !IsBlank(out[k].id) {
          assert IsEntryValue(es, out[k]);
        }
      } else {
        forall k, l | 0 <= k < l < |out| ensures !EqualsIgnoreCase(out[k].id, out[l].id) {
          assert out[k] == es[k].value && out[l] == es[l].value;
          assert !EqualsIgnoreCase(es[k].key, es[l].key);
        }
      }
    }
  }

  /** `v` is the value of one of the entries. */
  predicate IsEntryValue(es: seq<Entry>, v: PublicQuestion) {
    exists i :: 0 <= i < |es| && es[i].value == v
  }

  /** Every output of the ordering is the value of some entry. */
  lemma {:induction false} OrderedByMembers(es: seq<Entry>, order: seq<string>)
    ensures forall k :: 0 <= k < |OrderedBy(es, order)| ==> IsEntryValue(es, OrderedBy(es, order)[k])
    decreases |order|
  {
    if order != [] {
      var init := order[..|order| - 1];
      OrderedByMembers(es, init);
      var r0 := OrderedBy(es, init);
      var r := OrderedBy(es, order);
      var m := FindKey(es, order[|order| - 1]);
      forall k | 0 <= k < |r| ensures IsEntryValue(es, r[k]) {
        if k < |r0| {
          assert r[k] == r0[k];
        } else {
          assert r[k] == es[m].value;
        }
      }
    }
  }

  /** The dictionary-building loop of `MakePublicAssessment`. */
  method BuildPublicEntries(qs: seq<Question>) returns (es: seq<Entry>)
    ensures es == PublicEntries(qs)
  {
    es := [];
    for n := 0 to |qs|
      invariant es == PublicEntries(qs[..n])
    {
      assert qs[..n + 1][..n] == qs[..n];
      var q := qs[n];
      if !HasUsableId(q) {
        continue;
      }
      var id := q.id.value;
      var pq := PublicOf(q, id);
      if pq.Some? {
        var i := FindKey(es, id);
        if i >= 0 {
          es := es[i := Entry(es[i].key, pq.value)];
        } else {
          es := es + [Entry(id, pq.value)];
        }
      }
    }
    assert qs[..|qs|] == qs;
  }

  /** `MakePublicAssessment`, with its two loops. */
  method MakePublicAssessment(json: Option<AssessmentDoc>, questionOrder: Option<seq<string>>)
    returns (r: Option<PublicAssessment>)
    ensures r == PublicView(json, questionOrder)
  {
    if json.None? {
      return None;
    }
    var doc := json.value;
    var timeLimitSeconds := doc.timeLimitSeconds.GetOr(DefaultTimeLimitSeconds);
    var randomize := doc.randomize == Some(true);
    if doc.questions.None? {
      return Some(PublicAssessment(timeLimitSeconds, randomize, []));
    }
    var es := BuildPublicEntries(doc.questions.value);
    var ordered: seq<PublicQuestion> := [];
    if questionOrder.Some? && |questionOrder.value| > 0 {
      var order := questionOrder.value;
      for k := 0 to |order|
        invariant ordered == OrderedBy(es, order[..k])
      {
        assert order[..k + 1][..k] == order[..k];
        var i := FindKey(es, order[k]);
        if i >= 0 {
          ordered := ordered + [es[i].value];
        }
      }
      assert order[..|order|] == order;
    } else {
      ordered := Values(es);
    }
    r := Some(PublicAssessment(timeLimitSeconds, randomize, ordered));
  }

  // ------------------------------------------------------------------ grading

  /** A question `ComputeMcqScore` counts: type mcq, a usable id and a numeric correct index. */
  predicate IsGradable(q: Question) { IsMcq(q) && HasUsableId(q) && q.correctIndex.Some? }

  /** The numeric answer stored under the question's exact id equals its correct index. */
  predicate AnsweredCorrectly(q: Question, answers: map<string, int>) {
    IsGradable(q) && q.id.value in answers && answers[q.id.value] == q.correctIndex.value
  }

  function CountGradable(qs: seq<Question>): (n: nat)
    ensures n <= |qs|
    decreases |qs|
  {
    if qs == [] then 0 else CountGradable(qs[..|qs| - 1]) + (if IsGradable(qs[|qs| - 1]) then 1 else 0)
  }

  function CountCorrect(qs: seq<Question>, answers: map<string, int>): (n: nat)
    ensures n <= CountGradable(qs)
    decreases |qs|
  {
    if qs == [] then 0 else CountCorrect(qs[..|qs| - 1], answers) + (if AnsweredCorrectly(qs[|qs| - 1], answers) then 1 else 0)
  }

  /** The MCQ percentage, rounded to two places; 0 when nothing is gradable. */
  function McqScore(doc: AssessmentDoc, answers: map<string, int>): (r: real)
    ensures 0.0 <= r <= 100.0
    ensures doc.questions.None? || CountGradable(doc.questions.value) == 0 ==> r == 0.0
  {
    match doc.questions
    case None => 0.0
    case Some(qs) =>
      var total := CountGradable(qs);
      if total == 0 then 0.0
      else
        PercentWithin(CountCorrect(qs, answers), total);
        var x := (CountCorrect(qs, answers) as real) * 100.0 / (total as real);
        Round2Within(x);
        Round2(x)
  }

  /** All gradable questions answered correctly give exactly 100. */
  lemma McqScoreAllCorrect(doc: AssessmentDoc, answers: map<string, int>)
    requires doc.questions.Some? && CountGradable(doc.questions.value) > 0
    requires CountCorrect(doc.questions.value, answers) == CountGradable(doc.questions.value)
    ensures McqScore(doc, answers) == 100.0
  {
    var qs := doc.questions.value;
    var x := (CountCorrect(qs, answers) as real) * 100.0 / (CountGradable(qs) as real);
    PercentWithin(CountCorrect(qs, answers), CountGradable(qs));
    assert McqScore(doc, answers) == Round2(x);
    Round2Hundred();
  }

  /** `ComputeMcqScore`: one pass over the questions with two counters. */
  method ComputeMcqScore(doc: AssessmentDoc, answers: map<string, int>) returns (score: real)
    ensures score == McqScore(doc, answers)
  {
    if doc.questions.None? {
      return 0.0;
    }
    var qs := doc.questions.value;
    var totalMcq := 0;
    var correct := 0;
    for n := 0 to |qs|
      invariant totalMcq == CountGradable(qs[..n])
      invariant correct == CountCorrect(qs[..n], answers)
    {
      assert qs[..n + 1][..n] == qs[..n];
      var q := qs[n];
      if !IsMcq(q) || !HasUsableId(q) || q.correctIndex.None? {
        continue;
      }
      totalMcq := totalMcq + 1;
      if q.id.value in answers && answers[q.id.value] == q.correctIndex.value {
        correct := correct + 1;
      }
    }
    assert qs[..|qs|] == qs;
    if totalMcq == 0 {
      return 0.0;
    }
    score := Round2((correct as real) * 100.0 / (totalMcq as real));
  }

  /** `HasQuestionType`: some question has a string type equal to `wanted` ignoring case; a missing type matches nothing. */
  predicate HasQuestionType(doc: AssessmentDoc, wanted: string) {
    doc.questions.Some? &&
    exists i :: 0 <= i < |doc.questions.value| && doc.questions.value[i].qtype.Some? &&
      EqualsIgnoreCase(doc.questions.value[i].qtype.value, wanted)
  }

  /** The submitted score: the rounded mean when there are both kinds, otherwise the one kind's score. */
  function FinalScore(mcqScore: real, codeScore: real, hasMcq: bool, hasCode: bool): (r: real)
    ensures hasMcq && hasCode ==> r == Round2(mcqScore * 0.5 + codeScore * 0.5)
    ensures hasCode && !hasMcq ==> r == codeScore
    ensures !hasCode ==> r == mcqScore
  {
    if hasMcq && hasCode then Round2(mcqScore * 0.5 + codeScore * 0.5)
    else if hasCode then codeScore
    else mcqScore
  }

  /** The final score stays a percentage. */
  lemma FinalScoreWithin(mcqScore: real, codeScore: real, hasMcq: bool, hasCode: bool)
    requires 0.0 <= mcqScore <= 100.0 && 0.0 <= codeScore <= 100.0
    ensures 0.0 <= FinalScore(mcqScore, codeScore, hasMcq, hasCode) <= 100.0
  {
    if hasMcq && hasCode {
      Round2Within(mcqScore * 0.5 + codeScore * 0.5);
    }
  }

  /**
   * An untyped question is graded as MCQ, but `HasQuestionType` does not count it as
   * one: with an untyped MCQ question next to a code question the final score is
   * the code score alone, whatever the MCQ answers.
   */
  lemma UntypedMcqIgnoredBesideCode(doc: AssessmentDoc, answers: map<string, int>, codeScore: real)
    requires doc.questions.Some? && |doc.questions.value| == 2
    requires doc.questions.value[0].qtype.None? && IsGradable(doc.questions.value[0])
    requires doc.questions.value[1].qtype == Some("code")
    ensures CountGradable(doc.questions.value) == 1
    ensures !HasQuestionType(doc, "mcq") && HasQuestionType(doc, "code")
    ensures FinalScore(McqScore(doc, answers), codeScore, HasQuestionType(doc, "mcq"), HasQuestionType(doc, "code")) == codeScore
  {
    var qs := doc.questions.value;
    assert !EqualsIgnoreCase("code", "mcq") by { assert Lower("code")[0] != Lower("mcq")[0]; }
    assert !IsGradable(qs[1]);
    assert qs[..1][..0] == [] && qs[..2] == qs && qs[..1] == [qs[0]];
    assert EqualsIgnoreCase(qs[1].qtype.value, "code");
  }

  // ---------------------------------------------------------------- code runs

  /** `s.Replace("\r\n", "\n")`: each CR LF pair, scanned left to right, becomes LF. */
  function ReplaceCrLf(s: string): (r: string)
    ensures |r| <= |s|
    decreases |s|
  {
    if s == [] then []
    else if |s| >= 2 && s[0] == '\r' && s[1] == '\n' then "\n" + ReplaceCrLf(s[2..])
    else [s[0]] + ReplaceCrLf(s[1..])
  }

  /** Text without a CR is left as it is. */
  lemma {:induction false} ReplaceCrLfNoCr(s: string)
    requires '\r' !in s
    ensures ReplaceCrLf(s) == s
    decreases |s|
  {
    if s != [] {
      assert '\r' !in s[1..] by {
        forall i | 0 <= i < |s[1..]| ensures s[1..][i] != '\r' { assert s[1..][i] == s[i + 1]; }
      }
      ReplaceCrLfNoCr(s[1..]);
      assert s == [s[0]] + s[1..];
    }
  }

  /** `Norm`: "" for null; otherwise CR LF to LF, then trailing whitespace removed. */
  function Norm(s: Option<string>): (r: string)
    ensures r == [] || !IsSpace(r[|r| - 1])
  {
    match s
    case None => ""
    case Some(x) => TrimEnd(ReplaceCrLf(x))
  }

  /** A leading CR LF pair becomes one LF. */
  lemma ReplaceCrLfPair(s: string)
    requires |s| >= 2 && s[0] == '\r' && s[1] == '\n'
    ensures ReplaceCrLf(s) == "\n" + ReplaceCrLf(s[2..])
  {
  }

  /** Any other leading character is copied. */
  lemma ReplaceCrLfSingle(s: string)
    requires s != [] && !(|s| >= 2 && s[0] == '\r' && s[1] == '\n')
    ensures ReplaceCrLf(s) == [s[0]] + ReplaceCrLf(s[1..])
  {
  }

  lemma {:induction false} ReplaceCrLfAppend(a: string, b: string)
    requires a == [] || a[|a| - 1] != '\r'
    ensures ReplaceCrLf(a + b) == ReplaceCrLf(a) + ReplaceCrLf(b)
    decreases |a|
  {
    if a == [] {
      assert a + b == b;
    } else if |a| >= 2 && a[0] == '\r' && a[1] == '\n' {
      var ab := a + b;
      assert ab[0] == a[0] && ab[1] == a[1];
      assert ab[2..] == a[2..] + b;
      ReplaceCrLfPair(a);
      ReplaceCrLfPair(ab);
      assert |a| >= 3 ==> a[2..][|a| - 3] == a[|a| - 1];
      ReplaceCrLfAppend(a[2..], b);
      assert ReplaceCrLf(ab) == "\n" + (ReplaceCrLf(a[2..]) + ReplaceCrLf(b));
      AppendAssoc("\n", ReplaceCrLf(a[2..]), ReplaceCrLf(b));
    } else {
      var ab := a + b;
      assert ab[0] == a[0];
      assert |a| >= 2 ==> ab[1] == a[1];
      assert ab[1..] == a[1..] + b;
      ReplaceCrLfSingle(a);
      ReplaceCrLfSingle(ab);
      assert |a| >= 2 ==> a[1..][|a| - 2] == a[|a| - 1];
      ReplaceCrLfAppend(a[1..], b);
      assert ReplaceCrLf(ab) == [a[0]] + (ReplaceCrLf(a[1..]) + ReplaceCrLf(b));
      AppendAssoc([a[0]], ReplaceCrLf(a[1..]), ReplaceCrLf(b));
    }
  }

  lemma TrimEndAppendBlank(a: string, w: string)
    requires IsBlank(w)
    ensures TrimEnd(a + w) == TrimEnd(a)
  {
    var k := |TrimEnd(a)|;
    assert (a + w)[..k] == a[..k];
    TrimEndUnique(a + w, k);
  }

  /** A trailing line break, LF or CR LF, does not change the normalised output. */
  lemma NormIgnoresTrailingLineBreak(out: string)
    requires out == [] || out[|out| - 1] != '\r'
    ensures Norm(Some(out + "\r\n")) == Norm(Some(out))
    ensures Norm(Some(out + "\n")) == Norm(Some(out))
  {
    ReplaceCrLfAppend(out, "\r\n");
    ReplaceCrLfAppend(out, "\n");
    assert ReplaceCrLf("\r\n") == "\n" by { assert "\r\n"[2..] == []; }
    assert ReplaceCrLf("\n") == "\n" by { assert "\n"[1..] == []; }
    TrimEndAppendBlank(ReplaceCrLf(out), "\n");
  }

  lemma ReplaceCrLfTail()
    ensures ReplaceCrLf("\r\nb") == "\nb"
  {
    assert "\r\nb"[2..] == "b";
    ReplaceCrLfPair("\r\nb");
    ReplaceCrLfSingle("b");
    assert "b"[1..] == [];
  }

  lemma ReplaceCrLfDoubleCr()
    ensures ReplaceCrLf("a\r\r\nb") == "a\r\nb"
  {
    assert "a\r\r\nb"[1..] == "\r\r\nb";
    assert "\r\r\nb"[1..] == "\r\nb";
    ReplaceCrLfSingle("a\r\r\nb");
    ReplaceCrLfSingle("\r\r\nb");
    ReplaceCrLfTail();
  }

  lemma ReplaceCrLfSinglePair()
    ensures ReplaceCrLf("a\r\nb") == "a\nb"
  {
    assert "a\r\nb"[1..] == "\r\nb";
    ReplaceCrLfSingle("a\r\nb");
    ReplaceCrLfTail();
  }

  /** Normalising is not idempotent: a CR before a CR LF survives one pass as a new CR LF. */
  lemma NormNotIdempotent()
    ensures Norm(Some("a\r\r\nb")) == "a\r\nb"
    ensures Norm(Some("a\r\nb")) == "a\nb"
  {
    ReplaceCrLfDoubleCr();
    ReplaceCrLfSinglePair();
    assert TrimEnd("a\r\nb") == "a\r\nb";
    assert TrimEnd("a\nb") == "a\nb";
  }

  /** Judge0's answer for one run: status description, outputs and compiler output. */
  datatype RunResult = RunResult(status: string, stdout: Option<string>, stderr: Option<string>, compileOutput: Option<string>)

  predicate NonBlank(s: Option<string>) { s.Some? && !IsBlank(s.value) }

  /** A compiler message, anything on stderr, or an error or time-limit status. */
  predicate IsRunError(res: RunResult) {
    NonBlank(res.compileOutput) || NonBlank(res.stderr) ||
    ContainsIgnoreCase(res.status, "Error") || ContainsIgnoreCase(res.status, "Time Limit")
  }

  /** The status `Judge0Submit` reports for a run against an expected output. */
  function Verdict(res: RunResult, expectedOutput: string): string
  {
    var normExp := Norm(Some(expectedOutput));
    var normOut := Norm(res.stdout);
    if !IsRunError(res) && normExp != "" then (if normOut == normExp then "Accepted" else "Wrong Answer")
    else res.status
  }

  /**
   * With no error and a non-empty expected output the verdict is "Accepted" exactly
   * when the normalised outputs agree and "Wrong Answer" otherwise; in every other
   * case the raw status is kept.
   */
  lemma VerdictRule(res: RunResult, expectedOutput: string)
    ensures !IsRunError(res) && Norm(Some(expectedOutput)) != "" ==>
      (Verdict(res, expectedOutput) == "Accepted" <==> Norm(res.stdout) == Norm(Some(expectedOutput))) &&
      (Verdict(res, expectedOutput) == "Wrong Answer" <==> Norm(res.stdout) != Norm(Some(expectedOutput)))
    ensures IsRunError(res) || Norm(Some(expectedOutput)) == "" ==> Verdict(res, expectedOutput) == res.status
  {
    assert "Accepted" != "Wrong Answer" by { assert "Accepted"[0] != "Wrong Answer"[0]; }
  }

  // --------------------------------------------------------------- proctoring

  datatype EventClass = TabEvent | CopyEvent | SuspiciousEvent | OtherEvent

  /** The class of `(type ?? "").Trim().ToUpperInvariant()`. */
  function Classify(eventType: Option<string>): (c: EventClass)
  {
    var t := Upper(Strip(eventType.GetOr("")));
    if t == "TAB_BLUR" || t == "VISIBILITY_HIDDEN" || t == "WINDOW_BLUR" then TabEvent
    else if t == "COPY" || t == "PASTE" || t == "CUT" then CopyEvent
    else if t == "DEVTOOLS" || t == "UNUSUAL_BEHAVIOR" then SuspiciousEvent
    else OtherEvent
  }

  datatype FlagReason = TooManyTabSwitches | TooManyCopyPaste | SuspiciousBehavior

  /** The proctoring fields of an attempt. */
  datatype Proctoring = Proctoring(tabSwitchCount: int, copyPasteCount: int, suspiciousCount: int,
                                   flagged: bool, flagReason: Option<FlagReason>)

  const WarnTabAt: int := 1
  const FlagTabAt: int := 3
  const FlagCopyPasteAt: int := 5
  const FlagSuspiciousAt: int := 2

  const FreshProctoring := Proctoring(0, 0, 0, false, None)

  /** The message of the response. */
  datatype ProctorMessage = NoMessage | TabWarning(count: int) | FlaggedForTabs | FlaggedForCopyPaste | FlaggedForSuspicious

  /** Counters the flag rules have not yet reached. */
  predicate BelowThresholds(p: Proctoring) {
    p.tabSwitchCount < FlagTabAt && p.copyPasteCount < FlagCopyPasteAt && p.suspiciousCount < FlagSuspiciousAt
  }

  /** A reason exactly when flagged; the counters of an unflagged attempt are below every threshold. */
  predicate ProctoringValid(p: Proctoring) {
    p.tabSwitchCount >= 0 && p.copyPasteCount >= 0 && p.suspiciousCount >= 0 &&
    (p.flagged <==> p.flagReason.Some?) &&
    (!p.flagged ==> BelowThresholds(p))
  }

  function CountEvent(p: Proctoring, c: EventClass): (r: Proctoring)
  {
    p.(copyPasteCount := p.copyPasteCount + (if c == CopyEvent then 1 else 0),
       tabSwitchCount := p.tabSwitchCount + (if c == TabEvent then 1 else 0),
       suspiciousCount := p.suspiciousCount + (if c == SuspiciousEvent then 1 else 0))
  }

  /** The counter and flag update of `ProctorEvent`, with the message it answers with. */
  function ProctorStep(p: Proctoring, c: EventClass): (r: (Proctoring, ProctorMessage))
  {
    var q := CountEvent(p, c);
    var warning := if c == TabEvent && !q.flagged && WarnTabAt <= q.tabSwitchCount < FlagTabAt
                   then TabWarning(q.tabSwitchCount) else NoMessage;
    if q.flagged then (q, warning)
    else if q.tabSwitchCount >= FlagTabAt then (q.(flagged := true, flagReason := Some(TooManyTabSwitches)), FlaggedForTabs)
    else if q.copyPasteCount >= FlagCopyPasteAt then (q.(flagged := true, flagReason := Some(TooManyCopyPaste)), FlaggedForCopyPaste)
    else if q.suspiciousCount >= FlagSuspiciousAt then (q.(flagged := true, flagReason := Some(SuspiciousBehavior)), FlaggedForSuspicious)
    else (q, warning)
  }

  /** An event moves exactly its own class's counter by one and leaves the others. */
  lemma ProctorStepCounts(p: Proctoring, c: EventClass)
    ensures ProctorStep(p, c).0.tabSwitchCount == p.tabSwitchCount + (if c == TabEvent then 1 else 0)
    ensures ProctorStep(p, c).0.copyPasteCount == p.copyPasteCount + (if c == CopyEvent then 1 else 0)
    ensures ProctorStep(p, c).0.suspiciousCount == p.suspiciousCount + (if c == SuspiciousEvent then 1 else 0)
    ensures var r := ProctorStep(p, c).0;
      (r.tabSwitchCount - p.tabSwitchCount) + (r.copyPasteCount - p.copyPasteCount) +
      (r.suspiciousCount - p.suspiciousCount) == (if c == OtherEvent then 0 else 1)
  {
  }

  /** Once flagged, always flagged, and the reason never changes. */
  lemma ProctorStepKeepsFlag(p: Proctoring, c: EventClass)
    requires p.flagged
    ensures ProctorStep(p, c).0.flagged && ProctorStep(p, c).0.flagReason == p.flagReason
  {
  }

  /**
   * An unflagged attempt becomes flagged exactly when a threshold is reached, with
   * the reason of the first rule that matches: tab switches, then copy/paste, then
   * suspicious events.
   */
  lemma ProctorStepFlagRules(p: Proctoring, c: EventClass)
    requires !p.flagged
    ensures var r := ProctorStep(p, c).0;
      (r.flagged <==> !BelowThresholds(r)) &&
      (r.tabSwitchCount >= FlagTabAt ==> r.flagReason == Some(TooManyTabSwitches)) &&
      (r.tabSwitchCount < FlagTabAt && r.copyPasteCount >= FlagCopyPasteAt ==> r.flagReason == Some(TooManyCopyPaste)) &&
      (r.tabSwitchCount < FlagTabAt && r.copyPasteCount < FlagCopyPasteAt && r.suspiciousCount >= FlagSuspiciousAt ==>
        r.flagReason == Some(SuspiciousBehavior))
  {
  }

  /** The warning is given for a tab event of an unflagged attempt while the new count is 1 or 2. */
  lemma ProctorStepWarning(p: Proctoring, c: EventClass)
    requires ProctoringValid(p)
    ensures ProctorStep(p, c).1.TabWarning? <==>
      c == TabEvent && !p.flagged && WarnTabAt <= p.tabSwitchCount + 1 < FlagTabAt
  {
  }

  /** Every event keeps the attempt's proctoring fields valid. */
  lemma ProctorStepValid(p: Proctoring, c: EventClass)
    requires ProctoringValid(p)
    ensures ProctoringValid(ProctorStep(p, c).0)
  {
  }

  /** A third tab switch flags an unflagged attempt. */
  lemma ThirdTabSwitchFlags()
    ensures var p1 := ProctorStep(FreshProctoring, TabEvent);
      var p2 := ProctorStep(p1.0, TabEvent);
      var p3 := ProctorStep(p2.0, TabEvent);
      p1.1 == TabWarning(1) && p2.1 == TabWarning(2) && p3.1 == FlaggedForTabs &&
      !p2.0.flagged && p3.0.flagReason == Some(TooManyTabSwitches)
  {
  }

  // ----------------------------------------------------------------- shuffle

  /** The draws of `rng.Next(i + 1)`: one per index, the one for index `i` between 0 and `i`. */
  predicate ValidDraws(draws: seq<int>, n: int) {
    |draws| == n && forall i :: 0 <= i < |draws| ==> 0 <= draws[i] <= i
  }

  function Swap(xs: seq<string>, i: int, j: int): (r: seq<string>)
    requires 0 <= i < |xs| && 0 <= j < |xs|
    ensures |r| == |xs|
  {
    xs[i := xs[j]][j := xs[i]]
  }

  /** The list after the swaps for indices `i`, `i - 1`, ..., 1. */
  function FisherYates(xs: seq<string>, draws: seq<int>, i: int): (r: seq<string>)
    requires ValidDraws(draws, |xs|) && i < |xs|
    ensures |r| == |xs|
    decreases i
  {
    if i <= 0 then xs else FisherYates(Swap(xs, i, draws[i]), draws, i - 1)
  }

  /** The shuffle only reorders: the result is a permutation of the input. */
  lemma {:induction false} FisherYatesPermutes(xs: seq<string>, draws: seq<int>, i: int)
    requires ValidDraws(draws, |xs|) && i < |xs|
    ensures multiset(FisherYates(xs, draws, i)) == multiset(xs)
    decreases i
  {
    if i > 0 {
      var ys := Swap(xs, i, draws[i]);
      assert multiset(ys) == multiset(xs);
      FisherYatesPermutes(ys, draws, i - 1);
    }
  }

  /** Drawing `j = i` at every step leaves the order as it was. */
  lemma {:induction false} FisherYatesIdentityDraws(xs: seq<string>, draws: seq<int>, i: int)
    requires ValidDraws(draws, |xs|) && i < |xs|
    requires forall k :: 0 <= k < |draws| ==> draws[k] == k
    ensures FisherYates(xs, draws, i) == xs
    decreases i
  {
    if i > 0 {
      assert Swap(xs, i, i) == xs;
      FisherYatesIdentityDraws(xs, draws, i - 1);
    }
  }

  lemma FisherYatesStep(xs: seq<string>, draws: seq<int>, i: int)
    requires ValidDraws(draws, |xs|) && 0 < i < |xs|
    ensures FisherYates(xs, draws, i) == FisherYates(Swap(xs, i, draws[i]), draws, i - 1)
  {
  }

  /** `Shuffle`: the in-place Fisher-Yates loop from the last index down to 1. */
  method Shuffle(items: array<string>, draws: seq<int>)
    requires ValidDraws(draws, items.Length)
    modifies items
    ensures items[..] == FisherYates(old(items[..]), draws, items.Length - 1)
    ensures multiset(items[..]) == multiset(old(items[..]))
  {
    ghost var original := items[..];
    if items.Length == 0 {
      return;
    }
    var i := items.Length - 1;
    while i > 0
      invariant 0 <= i < items.Length
      invariant FisherYates(items[..], draws, i) == FisherYates(original, draws, items.Length - 1)
      decreases i
    {
      var j := draws[i];
      ghost var before := items[..];
      var t := items[i];
      items[i] := items[j];
      assert items[..] == before[i := before[j]];
      items[j] := t;
      assert items[..] == before[i := before[j]][j := t] == Swap(before, i, j);
      FisherYatesStep(before, draws, i);
      i := i - 1;
    }
    FisherYatesPermutes(original, draws, items.Length - 1);
  }
}
