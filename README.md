# Jobify core logic in Dafny

This project models the deterministic core of Jobify, a job and internship
platform. Jobify has two parts.

**The ML service** reads a CV and extracts a case-insensitively deduplicated
list of skill names. It runs these steps:

1. `extract_text` picks a reader by file extension.
2. `clean_cv_text` normalises the text.
3. `extract_skills` splits the text into lines. A line that encodes to more
   than 510 token ids is cut into windows of at most 510 ids.
4. A token-classification model labels the word pieces B, I or O.
5. `merge_bio_entities` glues the labelled pieces into candidate phrases. Each
   phrase carries a mean score.
6. `run_main_pipeline` keeps confident candidates and looks the others up in
   the ESCO catalogue. It then deduplicates the names, ignoring case and keeping
   the first one seen.

**The C# backend** holds the rest of the modelled logic:

- **Assessment engine.** A student takes an assessment attached to an
  application. The engine handles:
  - the question order, shuffled by Fisher–Yates;
  - the public view of the questions;
  - grading of multiple-choice (MCQ) questions;
  - the attempt's lifecycle: start, resume, save, submit, expire and reset;
  - proctoring counters and flags;
  - the final score;
  - the verdict rule for code runs returned by Judge0, an external
    code-execution service.
- **Recommender.** Weighted skill matching between a student and opportunities.
- **Skill persistence.** Updates to the skill tables: skills, student skills and
  opportunity skills.
- **Opportunity listing.** Helpers for paging, level parsing, the pay filter,
  similarity ranking, list cleaning, and close, reopen and apply.
- **Profile uploads.** Checks on uploaded files, and on clearing them again.

**Modules and files:**
- `Text` (`text.dfy`): ASCII string helpers (lower/upper case, strip, split, index of), shared by every module.
- `Collections` (`collections.dfy`): `Filter`, `DistinctBy` (LINQ `Distinct` with a key, and Python's first-occurrence dedup), and a stable descending sort with its sortedness and permutation lemmas.
- `Numeric` (`numeric.dfy`): banker's rounding (`Math.Round`), `Math.Clamp`, sums.
- `Wrappers` (`wrappers.dfy`): `Option`/`Result`.
- `SkillsPostprocessing` (`bio_merge.dfy`): the BIO merger.
- `SkillsExtraction` (`skills_extraction.dfy`): windowing and line annotation.
- `MainPipeline` (`main_pipeline.dfy`): reconciliation, dedup and the whole pipeline.
- `InputToText` (`input_to_text.dfy`): text cleaning and extension dispatch.
- `Assessment` (`assessment.dfy`): pure assessment rules.
- `AssessmentEngine` (`assessment_engine.dfy`): attempts and applications as tables, in a class `AssessmentStore`.
- `Recommendation` (`recommendation.dfy`): the recommender.
- `SkillPersistence` (`skill_service.dfy`): class `SkillService` over the skill tables.
- `Opportunities` (`opportunities.dfy`): listing helpers and class `OpportunityBoard`.
- `Profiles` (`profile.dfy`): upload validators and class `StudentProfile`.

**How the code is modelled:**
- Loops and in-place updates, such as the merger loop, the chunk loop, the
  reconcile loop and the recommender's accumulators, are methods with loop
  invariants. Each is proved equal to a specification function, and the
  properties are lemmas about that function.
- Fisher–Yates works in place on an `array`.
- The controllers' database tables are `seq` fields of classes. Each class
  method is proved to move its state exactly as a pure step function
  (`StartStep`, `SaveStep`, `CloseStep`, …) does.
- The lemmas about those step functions state the rules: guards, "nothing
  else changes", and the invariants they keep.
- The tokenizer, the NER model, the ESCO lookup, the document readers, the
  clock and the random number generator are parameters.

**Span scores.** The merger adds a `##` piece's score into the last slot
(skills_postprocessing.py:14-15) and the span's score is the sum of the slots
over their number (:20-21). So "py" (0.9) followed by "##thon" (0.8) gives one
slot, "python", scored 1.7 rather than the mean of the two pieces' scores. The
model computes the same (`MergeGluesPython`).

**Where the code is inconsistent with itself:**
- **`HasQuestionType`.** It treats a question without a `type` as having no
  type. The other readers of the assessment JSON default it to "mcq". The
  model keeps both. `UntypedMcqIgnoredBesideCode` shows the consequence: an
  untyped question beside a code question is graded but does not count towards
  the final score.

## Model

| member | source | states |
|---|---|---|
| SkillsPostprocessing.Emit | ml/src/utils/skills_postprocessing.py:20-21 | the emitted phrase is lower-cased with no surrounding whitespace, and the score is non-negative when the slots sum to a non-negative value |
| SkillsPostprocessing.EmitScoreIsMean | ml/src/utils/skills_postprocessing.py:20-21 | the emitted score is the sum of the slots divided by the slot count, and exceeds 1 when the sum exceeds the count |
| SkillsPostprocessing.Close | ml/src/utils/skills_postprocessing.py:19-22 | closing emits exactly one candidate when a span is open and none otherwise |
| SkillsPostprocessing.Step | ml/src/utils/skills_postprocessing.py:12-39 | one loop iteration keeps the open span's words and score slots of equal length; each branch is stated by the `Step…` lemmas below |
| SkillsPostprocessing.Fold | ml/src/utils/skills_postprocessing.py:7-39 | after any prefix of the tokens the words and slots have equal length |
| SkillsPostprocessing.FoldSnoc | ml/src/utils/skills_postprocessing.py:7-39 | the state after `i + 1` tokens is one step from the state after `i` tokens |
| SkillsPostprocessing.MergeBioEntities | ml/src/utils/skills_postprocessing.py:2-46 | the loop computes exactly the candidates of the specification `Merge` |
| SkillsPostprocessing.MergeToken | ml/src/utils/skills_postprocessing.py:12-39 | the in-place updates of one iteration (append, `[-1] +=`, reset) equal one `Step` |
| SkillsPostprocessing.StepGluesSubword | ml/src/utils/skills_postprocessing.py:12-16 | with a span open, a `##` piece is glued to the last word without a space and its score added into the last slot, whatever its label; word and slot counts are unchanged and nothing is emitted |
| SkillsPostprocessing.StepBegins | ml/src/utils/skills_postprocessing.py:18-25 | a B token not glued as a `##` piece emits the open span, if any, and opens a span of just its word and score |
| SkillsPostprocessing.StepOutside | ml/src/utils/skills_postprocessing.py:32-39 | a token labelled neither B nor I and not glued emits the open span, if any, and closes it; with none open nothing changes |
| SkillsPostprocessing.StepExtendsSpan | ml/src/utils/skills_postprocessing.py:27-30 | with a span open, an I token adds one word and one slot |
| SkillsPostprocessing.StepIgnoresOrphanInside | ml/src/utils/skills_postprocessing.py:27-28 | an I token with no open span changes nothing |
| SkillsPostprocessing.FoldBeginsBound | ml/src/utils/skills_postprocessing.py:18-25 | emitted plus open spans never outnumber the B-labelled tokens seen so far |
| SkillsPostprocessing.MergeCandidateBound | ml/src/utils/skills_postprocessing.py:18-44 | there are at most as many candidates as B-labelled tokens |
| SkillsPostprocessing.StepGood | ml/src/utils/skills_postprocessing.py:12-39 | each step keeps every emitted phrase normalised, and keeps scores non-negative for non-negative inputs |
| SkillsPostprocessing.FoldGood | ml/src/utils/skills_postprocessing.py:7-39 | that invariant holds after every prefix of the input |
| SkillsPostprocessing.MergeNormalized | ml/src/utils/skills_postprocessing.py:20-42 | every candidate phrase is lower-cased and stripped; with non-negative token scores every candidate score is non-negative |
| SkillsPostprocessing.MergeEmpty | ml/src/utils/skills_postprocessing.py:3-46 | no tokens give no candidates |
| SkillsPostprocessing.PythonPrefix | ml/src/utils/skills_postprocessing.py:12-25 | `B py 0.9` then `I ##thon 0.8` leaves one open word "python" with the single slot 1.7 |
| SkillsPostprocessing.MergeGluesPython | ml/src/utils/skills_postprocessing.py:12-36 | `[B py 0.9, I ##thon 0.8, O and]` gives exactly `("python", 1.7)`, a mean above 1 |
| SkillsPostprocessing.MergeKeepsOrphanMarker | ml/src/utils/skills_postprocessing.py:12-44 | a B-labelled `##js` with no open span is not glued and its candidate keeps the marker: `("##js", 0.5)` |
| SkillsPostprocessing.MergeSpansSeam | ml/src/utils/skills_postprocessing.py:27-44 | merging is not compositional: one merge over `B java` + `I script` gives "java script", while merging the two halves separately gives only "java" |
| SkillsExtraction.Windows | ml/src/services/skills_extraction.py:29-30 | every window is non-empty and at most `m` ids long, and there are windows exactly when there are ids |
| SkillsExtraction.WindowCountBounds | ml/src/services/skills_extraction.py:29 | `(count - 1) * m < n <= count * m` |
| SkillsExtraction.WindowCount | ml/src/services/skills_extraction.py:29 | the number of windows is `ceil(n / m)` |
| SkillsExtraction.FlattenWindows | ml/src/services/skills_extraction.py:29-30 | the windows concatenate back to the ids |
| SkillsExtraction.WindowAt | ml/src/services/skills_extraction.py:29-30 | window `k` is `ids[k*m .. min((k+1)*m, n)]` |
| SkillsExtraction.WindowsOneOver | ml/src/services/skills_extraction.py:29-30 | `m + 1` ids give exactly the two windows `[0, m)` and `[m, m+1)` |
| SkillsExtraction.WindowsDrop | ml/src/services/skills_extraction.py:29-30 | the windows from `start` are the window at `start` followed by the windows from `start + m` |
| SkillsExtraction.AnnotateChunks | ml/src/services/skills_extraction.py:29-32 | the chunk loop extends the entities with the annotations of the decoded windows, in window order |
| SkillsExtraction.AnnotateFromWindows | ml/src/services/skills_extraction.py:29-32 | the loop's remaining work from `start` is the annotation of the windows of the ids from `start` |
| SkillsExtraction.AnnotateDrop | ml/src/services/skills_extraction.py:30-32 | one loop iteration annotates the decoded slice `ids[start : start + m]` |
| SkillsExtraction.ConcatMapAppend | ml/src/services/skills_extraction.py:19-32 | contributions are concatenated in line order |
| SkillsExtraction.EntitiesSnoc | ml/src/services/skills_extraction.py:19-32 | the entities of `k + 1` lines are those of `k` lines followed by line `k`'s |
| SkillsExtraction.EntitiesAppend | ml/src/services/skills_extraction.py:19-32 | the entities of `a + b` are those of `a` followed by those of `b` |
| SkillsExtraction.ExtractSkills | ml/src/services/skills_extraction.py:15-36 | the result is one merge over the concatenated annotations of all stripped lines, so spans may run across line and chunk seams |
| SkillsExtraction.BlankLineContributesNothing | ml/src/services/skills_extraction.py:20-22 | a blank or whitespace-only line contributes no annotations |
| SkillsExtraction.ShortLineAnnotatedDirectly | ml/src/services/skills_extraction.py:25-27 | a stripped line of at most `m` ids goes to the model unchanged, and the decoder plays no part |
| SkillsExtraction.LongLineAnnotatedByWindows | ml/src/services/skills_extraction.py:28-32 | a longer line is annotated as its decoded windows, of which there are at least two |
| SkillsExtraction.EmptyTextNoSkills | ml/src/services/skills_extraction.py:19-34 | empty text yields no candidates, whatever the tokenizer and model do |
| MainPipeline.Validate | ml/src/main.py:36-42 | a candidate at or above the threshold is kept verbatim; below it, the lookup's name replaces it on a match and it is dropped otherwise |
| MainPipeline.Reconcile | ml/src/main.py:33-42 | the reconciled list is no longer than the candidate list |
| MainPipeline.ReconcileCandidates | ml/src/main.py:33-42 | the reconcile loop computes `Reconcile` |
| MainPipeline.ReconcileSnoc | ml/src/main.py:34-42 | reconciling one more candidate appends exactly its `Validate` result |
| MainPipeline.ReconcileAppend | ml/src/main.py:34-42 | reconciliation follows candidate order: `Reconcile(a + b) == Reconcile(a) + Reconcile(b)` |
| MainPipeline.ReconcileOnlyLooksUpBelowThreshold | ml/src/main.py:36-39 | the result depends on the lookup only at names of candidates below the threshold |
| MainPipeline.ReconcileAllConfident | ml/src/main.py:36-37 | when every score reaches the threshold, the result is the candidates' names in order |
| MainPipeline.DedupSkills | ml/src/main.py:45-48 | the set-mutating comprehension computes `Dedup` |
| MainPipeline.DedupProperties | ml/src/main.py:45-48 | no two outputs are equal after lower-casing; the lower-cased outputs are exactly the lower-cased inputs; each output is the first input with its key, in first-occurrence order; dedup is idempotent |
| MainPipeline.DedupPythonExample | ml/src/main.py:48 | `["Python", "python", "PYTHON"]` gives `["Python"]` |
| MainPipeline.RunMainPipeline | ml/src/main.py:20-51 | fails exactly when text extraction fails, with the same error; otherwise returns the deduplicated, reconciled merge of the text's annotations, with no case-insensitive duplicates |
| InputToText.SqueezeNewlines | ml/src/utils/input_to_text.py:9-13 | `re.sub('\n+', '\n')`: no two adjacent newlines remain, nothing new is introduced, and the result is empty exactly when the input is |
| InputToText.SqueezeNewlinesUnchanged | ml/src/utils/input_to_text.py:13 | text without two adjacent newlines is left unchanged |
| InputToText.CollapseBlanks | ml/src/utils/input_to_text.py:12 | `re.sub('[ \t]+', ' ')`: every output character is a space or a non-blank input character |
| InputToText.CollapseBlanksUnchanged | ml/src/utils/input_to_text.py:12 | text with no tab and no double space is left unchanged |
| InputToText.CollapseBlanksKeepsNoDoubleNewline | ml/src/utils/input_to_text.py:12-13 | collapsing blanks creates no adjacent newlines |
| InputToText.DigitRun | ml/src/utils/input_to_text.py:16 | `\d+` matches the maximal run of leading digits |
| InputToText.PageMarkAt | ml/src/utils/input_to_text.py:16 | a match of `page \d+ of \d+` starts with "page " and is at least 11 characters long |
| InputToText.RemovePageMarks | ml/src/utils/input_to_text.py:16 | removing page marks only deletes characters |
| InputToText.ReplaceBullets | ml/src/utils/input_to_text.py:19 | each bullet or long dash becomes a space and every other character is kept |
| InputToText.FirstStepsNoUpperNoTab | ml/src/utils/input_to_text.py:6-13 | after lower-casing and the three substitutions there is no upper-case letter and no tab |
| InputToText.MiddleStepsClean | ml/src/utils/input_to_text.py:16-19 | page-mark removal and bullet replacement introduce no upper case, tab or bullet |
| InputToText.StripClean | ml/src/utils/input_to_text.py:22 | stripping clean text leaves clean text with no surrounding whitespace |
| InputToText.CleanCvText | ml/src/utils/input_to_text.py:4-22 | the cleaned text has no upper-case letter, no tab, no bullet or long dash, and no leading or trailing whitespace |
| InputToText.SecondNewlinePassIsNoOp | ml/src/utils/input_to_text.py:9-13 | the second newline substitution never changes the text |
| InputToText.PageFooterCleansToEmpty | ml/src/utils/input_to_text.py:6-22 | "Page 3 of 4" alone cleans to the empty string |
| InputToText.SplitExt | ml/src/utils/input_to_text.py:53 | `os.path.splitext`: the extension is empty or a dot-led suffix of the path with no separator |
| InputToText.SplitExtMeansExtension | ml/src/utils/input_to_text.py:53 | the extension is non-empty exactly when the path has a last dot with no '.' or '/' after it and a non-dot character before it in the last component, and it is then the suffix from that dot |
| InputToText.SplitExtExamples | ml/src/utils/input_to_text.py:53 | "cv/.bashrc" has no extension, "cv.tar.gz" has ".gz", "CV.PDF" keeps its case as ".PDF" |
| InputToText.KindOf | ml/src/utils/input_to_text.py:55-63 | exactly ".docx", ".pdf" and ".txt" select a reader |
| InputToText.ExtractText | ml/src/utils/input_to_text.py:52-66 | an unsupported lower-cased extension is an error naming it; a supported one cleans the reader's text or passes on its error; every success is clean text |
| Assessment.Numbers | backend/Controllers/ApplicationController.cs:96-98 | the numeric entries kept from the JSON array are no more than its entries |
| Assessment.PublicOf | backend/Controllers/ApplicationController.cs:76-121 | only mcq and code questions (any case, mcq by default) have a public form, which carries the question's id |
| Assessment.FindKey | backend/Controllers/ApplicationController.cs:69-111 | the first entry whose key equals the id ignoring case, or none |
| Assessment.Upsert | backend/Controllers/ApplicationController.cs:87-111 | `map[id] = …` on an ordinal-ignore-case dictionary replaces the value under an equal key and otherwise appends, keeping keys distinct |
| Assessment.UpsertWellKeyed | backend/Controllers/ApplicationController.cs:69-111 | inserting under a key equal to the question's id keeps keys distinct and matching their values' ids |
| Assessment.UpsertFinds | backend/Controllers/ApplicationController.cs:87-111 | after an insert the key is present and every earlier key still is |
| Assessment.PublicEntriesKeyed | backend/Controllers/ApplicationController.cs:71-122 | the public map has distinct, non-blank keys matching their questions |
| Assessment.PublicEntriesCover | backend/Controllers/ApplicationController.cs:73-89 | every mcq or code question with a usable id is in the public map |
| Assessment.PublicEntriesWellKeyed | backend/Controllers/ApplicationController.cs:71-122 | both facts together |
| Assessment.OrderedBy | backend/Controllers/ApplicationController.cs:125-129 | the ordered list is no longer than the order |
| Assessment.OrderedByAllPresent | backend/Controllers/ApplicationController.cs:127-128 | when every id is present, the output follows the order exactly |
| Assessment.OrderedByAppend | backend/Controllers/ApplicationController.cs:127-128 | ordering is compositional in the order list |
| Assessment.OrderedByMissing | backend/Controllers/ApplicationController.cs:128 | an id not in the map contributes nothing |
| Assessment.OrderedByMembers | backend/Controllers/ApplicationController.cs:127-128 | every ordered question is a value of the map |
| Assessment.Values | backend/Controllers/ApplicationController.cs:132 | `map.Values` in insertion order |
| Assessment.PublicView | backend/Controllers/ApplicationController.cs:51-136 | blank JSON gives null; the time limit defaults to 1800; randomize only when the JSON says true; no question array gives no questions |
| Assessment.PublicViewIds | backend/Controllers/ApplicationController.cs:73-133 | every public question has a non-blank id, and without an order no two ids are equal ignoring case |
| Assessment.BuildPublicEntries | backend/Controllers/ApplicationController.cs:69-122 | the question loop builds the public map |
| Assessment.MakePublicAssessment | backend/Controllers/ApplicationController.cs:51-136 | the method computes `PublicView` |
| Assessment.CountGradable | backend/Controllers/ApplicationController.cs:149-161 | gradable questions are at most all questions |
| Assessment.CountCorrect | backend/Controllers/ApplicationController.cs:163-168 | correct answers are at most the gradable questions |
| Assessment.McqScore | backend/Controllers/ApplicationController.cs:138-173 | the MCQ score lies in [0, 100], and is 0 when there is no question array or no gradable question |
| Assessment.McqScoreAllCorrect | backend/Controllers/ApplicationController.cs:171-172 | all gradable questions right gives exactly 100 |
| Assessment.ComputeMcqScore | backend/Controllers/ApplicationController.cs:138-173 | the counting loop computes `McqScore` |
| Numeric.RoundToEven | backend/Controllers/ApplicationController.cs:172 | `Math.Round` to an integer: within 1/2 of its argument, and an argument exactly halfway between two integers goes to the even one |
| Numeric.BankersTies | backend/Controllers/ApplicationController.cs:172 | 2.5 rounds to 2, 3.5 to 4, and 0.125 to two places gives 0.12 |
| Numeric.RoundToEvenMonotonic | backend/Controllers/ApplicationController.cs:172 | rounding is monotonic |
| Numeric.RoundToEvenOfInt | backend/Controllers/ApplicationController.cs:172 | an integer rounds to itself |
| Numeric.Round2 | backend/Controllers/ApplicationController.cs:172 | `Math.Round(x, 2)`: a whole number of hundredths within 0.005 of x, a tie going to an even number of hundredths |
| Numeric.Round2Within | backend/Controllers/ApplicationController.cs:172 | rounding to two places keeps values in [0, 100] |
| Numeric.Round2Hundred | backend/Controllers/ApplicationController.cs:172 | 100 rounds to 100 |
| Numeric.PercentWithin | backend/Controllers/ApplicationController.cs:172 | `correct*100/total` lies in [0, 100] and is 100 when all are correct |
| Numeric.Round4Within | backend/Services/Auth/RecommendationService.cs:131 | `Math.Round(x, 4)` keeps values in [0.6, 1] |
| Assessment.FinalScore | backend/Controllers/ApplicationController.cs:731-734 | with both kinds of question the final score is the even-weighted mean rounded to two places; code-only assessments take the code score; without code questions the MCQ score |
| Assessment.FinalScoreWithin | backend/Controllers/ApplicationController.cs:731-734 | with both scores in [0, 100] the final score is too |
| Assessment.UntypedMcqIgnoredBesideCode | backend/Controllers/ApplicationController.cs:726-734 | an untyped question is graded as mcq, but beside a code question the final score is the code score alone |
| Assessment.ReplaceCrLf | backend/Controllers/ApplicationController.cs:849 | `Replace("\r\n", "\n")` never lengthens the text |
| Assessment.ReplaceCrLfNoCr | backend/Controllers/ApplicationController.cs:849 | text without a carriage return is unchanged |
| Assessment.ReplaceCrLfPair | backend/Controllers/ApplicationController.cs:849 | a leading CR LF becomes one LF |
| Assessment.ReplaceCrLfSingle | backend/Controllers/ApplicationController.cs:849 | any other first character is kept |
| Assessment.ReplaceCrLfAppend | backend/Controllers/ApplicationController.cs:849 | the replacement distributes over a split that does not fall after a CR |
| Assessment.Norm | backend/Controllers/ApplicationController.cs:846-850 | the normalised output has no trailing whitespace |
| Assessment.TrimEndAppendBlank | backend/Controllers/ApplicationController.cs:849 | trailing whitespace is ignored by `TrimEnd` |
| Assessment.NormIgnoresTrailingLineBreak | backend/Controllers/ApplicationController.cs:846-850 | a trailing CR LF or LF does not change `Norm` |
| Assessment.ReplaceCrLfTail | backend/Controllers/ApplicationController.cs:849 | "\r\nb" becomes "\nb" |
| Assessment.ReplaceCrLfDoubleCr | backend/Controllers/ApplicationController.cs:849 | "a\r\r\nb" becomes "a\r\nb": the replacement makes a single pass |
| Assessment.ReplaceCrLfSinglePair | backend/Controllers/ApplicationController.cs:849 | "a\r\nb" becomes "a\nb" |
| Assessment.NormNotIdempotent | backend/Controllers/ApplicationController.cs:846-850 | `Norm` is not idempotent: a CR before CR LF survives one pass |
| Assessment.VerdictRule | backend/Controllers/ApplicationController.cs:892-906 | with no error and a non-empty expected output, "Accepted" exactly when the normalised outputs agree and "Wrong Answer" exactly when they differ; otherwise the raw status |
| Assessment.ProctorStepCounts | backend/Controllers/ApplicationController.cs:463-471 | each event increments at most one counter, the one of its class |
| Assessment.ProctorStepKeepsFlag | backend/Controllers/ApplicationController.cs:487-507 | a flagged attempt stays flagged with its reason unchanged |
| Assessment.ProctorStepFlagRules | backend/Controllers/ApplicationController.cs:487-507 | an unflagged attempt becomes flagged exactly when a threshold is reached, with the first matching reason: tab ≥ 3, then copy/paste ≥ 5, then suspicious ≥ 2 |
| Assessment.ProctorStepWarning | backend/Controllers/ApplicationController.cs:474-485 | a tab warning is given exactly for a tab event on an unflagged attempt whose new tab count is 1 or 2 |
| Assessment.ProctorStepValid | backend/Controllers/ApplicationController.cs:479-507 | a reason exactly when flagged, and an unflagged attempt stays below every threshold |
| Assessment.ThirdTabSwitchFlags | backend/Controllers/ApplicationController.cs:474-494 | three tab switches give warnings 1 and 2, then the tab flag |
| Assessment.Swap | backend/Controllers/ApplicationController.cs:43 | swapping keeps the length |
| Assessment.FisherYates | backend/Controllers/ApplicationController.cs:40-44 | the shuffle keeps the length |
| Assessment.FisherYatesPermutes | backend/Controllers/ApplicationController.cs:40-44 | the shuffle is a permutation |
| Assessment.FisherYatesIdentityDraws | backend/Controllers/ApplicationController.cs:40-44 | drawing `j = i` every time leaves the order unchanged |
| Assessment.FisherYatesStep | backend/Controllers/ApplicationController.cs:40-44 | the loop swaps the top element, then shuffles the rest |
| Assessment.Shuffle | backend/Controllers/ApplicationController.cs:37-46 | the in-place loop yields `FisherYates` of the old list, a permutation of it |
| AssessmentEngine.ExpiryIsStrict | backend/Controllers/ApplicationController.cs:48-49 | an attempt is not expired at its expiry instant, and is one second later |
| AssessmentEngine.AppIndex | backend/Controllers/ApplicationController.cs:313-315 | the first application with that id owned by that user, or none |
| AssessmentEngine.AttemptIndex | backend/Controllers/ApplicationController.cs:323-324 | the first attempt of that application, or none |
| AssessmentEngine.OwnedAttemptIndex | backend/Controllers/ApplicationController.cs:425-427 | the attempt joined through an application of that user: -1 or a row of the attempts table |
| AssessmentEngine.RemoveAt | backend/Controllers/ApplicationController.cs:330-334 | removing a row shortens the table by one |
| AssessmentEngine.ValidRemoveAt | backend/Controllers/ApplicationController.cs:927-938 | removing an attempt keeps the store valid, leaves that application with no attempt and touches nothing else |
| AssessmentEngine.ValidUpdateAttempt | backend/Controllers/ApplicationController.cs:469-507 | updating an attempt's fields keeps the store valid and touches only its application |
| AssessmentEngine.ValidAppend | backend/Controllers/ApplicationController.cs:410 | adding the first attempt of an application keeps the store valid |
| AssessmentEngine.ValidUpdateStatus | backend/Controllers/ApplicationController.cs:388 | changing an application's status keeps the store valid |
| AssessmentEngine.OnlyTouchesTrans | backend/Controllers/ApplicationController.cs:308-414 | touching only one application is preserved across steps |
| AssessmentEngine.SoleAttempt | backend/Controllers/ApplicationController.cs:323-324 | with one attempt per application, the filter finds exactly that one |
| AssessmentEngine.NoneMatch | backend/Controllers/ApplicationController.cs:323-324 | no matching row means an empty filter |
| AssessmentEngine.QuestionIds | backend/Controllers/ApplicationController.cs:363-371 | collected ids are non-blank and at most one per question |
| AssessmentEngine.CountsBound | backend/Controllers/ApplicationController.cs:373-378 | the mcq and code counts together never exceed the question count |
| AssessmentEngine.Draws | backend/Controllers/ApplicationController.cs:42 | `rng.Next(i + 1)` draws lie in `[0, i]` |
| AssessmentEngine.NewAttempt | backend/Controllers/ApplicationController.cs:390-408 | a new attempt is well formed: fresh counters, not flagged, not submitted |
| AssessmentEngine.ResumeStepSound | backend/Controllers/ApplicationController.cs:326-343 | the resume and expire branch keeps the store valid and touches only this application |
| AssessmentEngine.CreateStepSound | backend/Controllers/ApplicationController.cs:345-413 | the create branch keeps the store valid and touches only this application |
| AssessmentEngine.StartStepSound | backend/Controllers/ApplicationController.cs:308-414 | starting keeps the store valid and touches only this application |
| AssessmentEngine.StartedIsLive | backend/Controllers/ApplicationController.cs:335-413 | a start that returns an attempt leaves the application in assessment with exactly one live, unsubmitted attempt, whose id and expiry are returned |
| AssessmentEngine.ResumeIsLive | backend/Controllers/ApplicationController.cs:335-341 | resuming a live attempt returns it and sets the application in assessment |
| AssessmentEngine.CreateIsLive | backend/Controllers/ApplicationController.cs:388-413 | a created attempt is the application's only attempt and is returned |
| AssessmentEngine.AppIndexUnique | backend/Controllers/ApplicationController.cs:313-315 | with unique application ids the join finds that application |
| AssessmentEngine.StartChangesOnlyWhenStarted | backend/Controllers/ApplicationController.cs:310-329 | an unauthorized, not-found, withdrawn, no-assessment or already-submitted reply changes nothing; any other change is a started attempt, or the removal of the expired attempt before a no-questions reply |
| AssessmentEngine.CreateStepOutcome | backend/Controllers/ApplicationController.cs:383 | creation either starts an attempt or reports no questions and changes nothing |
| AssessmentEngine.StartCreatesFreshAttempt | backend/Controllers/ApplicationController.cs:345-413 | with no attempt, or an expired one, a new attempt is created with empty answers, fresh counters, expiry `now + timeLimit` (1800 by default), and an order that is a permutation of the question ids, equal to them when randomize is false |
| AssessmentEngine.CreateStepFresh | backend/Controllers/ApplicationController.cs:345-413 | the same facts for the create branch alone |
| AssessmentEngine.StartOrderPermutes | backend/Controllers/ApplicationController.cs:385-386 | the stored order is a permutation of the ids, and the ids themselves when randomize is false |
| AssessmentEngine.SaveStepRules | backend/Controllers/ApplicationController.cs:420-437 | saving into a submitted or expired attempt is refused and changes nothing; a successful save replaces only that attempt's answers (empty when none are given) |
| AssessmentEngine.ProctorEventStepRules | backend/Controllers/ApplicationController.cs:443-532 | events on a submitted attempt are ignored; otherwise one log row is added, at most one counter rises by one, a flag is never cleared, and the reply is 429 exactly when the attempt is flagged |
| AssessmentEngine.SubmitStepRules | backend/Controllers/ApplicationController.cs:697-753 | submitting a submitted or expired attempt is refused and changes nothing; a graded submit records the time and final score and marks the application submitted, with the score in [0, 100] when the code score is |
| AssessmentEngine.SubmittedIsFinal | backend/Controllers/ApplicationController.cs:697-753 | after a graded submit, saving and submitting again are refused, proctor events are ignored, and starting returns the attempt unchanged |
| AssessmentEngine.AttemptIndexSameKeys | backend/Controllers/ApplicationController.cs:323-324 | updates that keep application ids keep every lookup |
| AssessmentEngine.ResetStepRules | backend/Controllers/ApplicationController.cs:922-942 | a reset removes the application's attempt and sets it back to draft, touching nothing else |
| AssessmentEngine.AssessmentStore.constructor | backend/Controllers/ApplicationController.cs:308-414 | a store over applications with distinct ids starts with no attempts |
| AssessmentEngine.AssessmentStore.StartAssessment | backend/Controllers/ApplicationController.cs:308-414 | the in-place start moves the tables exactly as `StartStep` does, and keeps them valid |
| AssessmentEngine.AssessmentStore.CreateAttempt | backend/Controllers/ApplicationController.cs:345-413 | the in-place creation moves the tables exactly as `CreateStep` does |
| AssessmentEngine.AssessmentStore.SaveAssessment | backend/Controllers/ApplicationController.cs:420-437 | the in-place save is `SaveStep`, and keeps the store valid |
| AssessmentEngine.AssessmentStore.ProctorEvent | backend/Controllers/ApplicationController.cs:443-532 | the in-place event update is `ProctorEventStep`, and keeps the store valid |
| AssessmentEngine.AssessmentStore.Submit | backend/Controllers/ApplicationController.cs:697-753 | the in-place submit is `SubmitStep`, and keeps the store valid |
| AssessmentEngine.AssessmentStore.ResetAssessment | backend/Controllers/ApplicationController.cs:922-942 | the in-place reset is `ResetStep`, and keeps the store valid |
| Recommendation.NormalizeFixed | backend/Services/Auth/RecommendationService.cs:21-25 | a lower-case, stripped name that is not a synonym key is its own normal form |
| Recommendation.NormalizeIdempotent | backend/Services/Auth/RecommendationService.cs:14-25 | normal forms are lower-case and stripped, and normalising twice is normalising once |
| Recommendation.TargetFixed | backend/Services/Auth/RecommendationService.cs:16-18 | the synonym targets are fixed points |
| Recommendation.NormalizeSynonyms | backend/Services/Auth/RecommendationService.cs:14-25 | " JS " becomes "javascript", "ReactJS" becomes "react", and "node" becomes "node.js" |
| Recommendation.PaddedJs | backend/Services/Auth/RecommendationService.cs:23 | " JS " lower-cased and trimmed is "js" |
| Recommendation.LowerStripped | backend/Services/Auth/RecommendationService.cs:23 | a name whose lower case is already stripped strips to it |
| Recommendation.InputWeight | backend/Services/Auth/RecommendationService.cs:70 | an applicant weight ≤ 0 counts as 1, so every weight is positive |
| Recommendation.EntryOf | backend/Services/Auth/RecommendationService.cs:67-70 | each applicant skill gives its normalised name (lower-case, trimmed, a fixed point of `Normalize`) and a positive weight, its own weight when that is positive |
| Recommendation.Entries | backend/Services/Auth/RecommendationService.cs:65-70 | one entry per applicant skill, in order |
| Recommendation.MapOf | backend/Services/Auth/RecommendationService.cs:65-75 | no blank name is a key of the applicant map |
| Recommendation.MapOfMax | backend/Services/Auth/RecommendationService.cs:72-74 | each non-blank name maps to a weight at least as large as any of its entries, and that weight comes from one of them: the highest weight wins |
| Recommendation.MapOfSnoc | backend/Services/Auth/RecommendationService.cs:67-74 | one loop iteration skips a blank name and otherwise stores a greater weight |
| Recommendation.BuildApplicantMap | backend/Services/Auth/RecommendationService.cs:63-75 | the dictionary loop computes `ApplicantMap` |
| Recommendation.ApplicantMapPositive | backend/Services/Auth/RecommendationService.cs:70-74 | every applicant weight is positive |
| Recommendation.ReqWeight | backend/Services/Auth/RecommendationService.cs:28-39 | the requirement weight falls back to 1 without a Weight property and when ≤ 0, so it is positive |
| Recommendation.RequirementOf | backend/Services/Auth/RecommendationService.cs:87-110 | each opportunity skill gives a requirement with its normalised name (empty when it has none), a positive weight that is its own when positive, and mandatory exactly when the property says true |
| Recommendation.Requirements | backend/Services/Auth/RecommendationService.cs:81-104 | one requirement per opportunity skill, in order |
| Recommendation.NoReflectedPropertiesMeansUnitWeights | backend/Services/Auth/RecommendationService.cs:28-56 | without Weight and Mandatory properties nothing is mandatory and every weight is 1 |
| Recommendation.BlankMandatoryIsMissing | backend/Services/Auth/RecommendationService.cs:90-95 | a mandatory skill with a blank name is never in the applicant map, so the opportunity is excluded |
| Recommendation.FindMissingMandatory | backend/Services/Auth/RecommendationService.cs:84-96 | the loop with early exit computes `MissingMandatory` |
| Recommendation.TotalWeight | backend/Services/Auth/RecommendationService.cs:100-112 | the total weight is non-negative |
| Recommendation.Matched | backend/Services/Auth/RecommendationService.cs:114-118 | matched names are all in the applicant map |
| Recommendation.ContributionWithin | backend/Services/Auth/RecommendationService.cs:114-116 | `reqWeight * min(1, appWeight)` lies between 0 and the requirement's weight, and is 0 for a blank name |
| Recommendation.ScaleWithin | backend/Services/Auth/RecommendationService.cs:116 | scaling by a factor in (0, 1] stays within [0, a] |
| Recommendation.RatioWithin | backend/Services/Auth/RecommendationService.cs:123 | a part over a positive whole lies in [0, 1] |
| Recommendation.MatchedWithinTotal | backend/Services/Auth/RecommendationService.cs:100-119 | the matched weight lies between 0 and the total weight |
| Recommendation.WeighSkills | backend/Services/Auth/RecommendationService.cs:100-119 | the accumulator loop computes the total weight, the matched weight and the matched names |
| Recommendation.Evaluate | backend/Services/Auth/RecommendationService.cs:81-134 | an opportunity is rejected exactly when a mandatory skill is missing, the total weight is ≤ 0 or the score is below 0.6; an accepted one has its id and title, the ratio rounded to four places as its score, in [0.6, 1], and the matched skills with duplicates removed |
| Recommendation.Selected | backend/Services/Auth/RecommendationService.cs:79-135 | at most one result per opportunity, each with a score in [0.6, 1] and distinct matched skills |
| Recommendation.RecommendProperties | backend/Services/Auth/RecommendationService.cs:58-138 | the results are sorted by non-increasing score and are a permutation of the selected opportunities, each with a score in [0.6, 1] and distinct matched skills |
| Recommendation.RecommendOpportunities | backend/Services/Auth/RecommendationService.cs:58-138 | the imperative loop computes `Recommend` |
| Collections.SortDescBySortedPermutation | backend/Services/Auth/RecommendationService.cs:137 | the stable descending sort is sorted and a permutation |
| Collections.DistinctByNoDuplicates | backend/Services/Auth/RecommendationService.cs:132 | `Distinct` leaves no two equal keys |
| SkillPersistence.FindSkill | backend/Services/SkillServices/SkillService.cs:54-55 | the first skill whose name equals the given one ignoring case, or none |
| SkillPersistence.FindSkillExtend | backend/Services/SkillServices/SkillService.cs:54-58 | adding skills never changes a name that is already found |
| SkillPersistence.ResolvesExtend | backend/Services/SkillServices/SkillService.cs:54-67 | a name keeps resolving to its id as the table grows |
| SkillPersistence.ResolveSound | backend/Services/SkillServices/SkillService.cs:54-67 | a case-insensitive match returns the existing id and changes nothing; otherwise exactly one skill with the next id is added, so no case-insensitive duplicate appears |
| SkillPersistence.ResolveReuses | backend/Services/SkillServices/SkillService.cs:54-58 | resolving a name equal ignoring case to one just resolved reuses its id and changes nothing |
| SkillPersistence.GetOrCreateTrimmed | backend/Services/SkillServices/SkillService.cs:49-67 | a non-blank trimmed name is resolved |
| SkillPersistence.Cleaned | backend/Services/SkillServices/SkillService.cs:95-144 | the names the loops use are non-blank, at most one per input name |
| SkillPersistence.CleanedSnoc | backend/Services/SkillServices/SkillService.cs:97-99 | one more input name adds its trimmed form unless it is blank |
| SkillPersistence.ResolveAll | backend/Services/SkillServices/SkillService.cs:95-102 | one id per name |
| SkillPersistence.ResolveAllSnoc | backend/Services/SkillServices/SkillService.cs:95-102 | resolving one more name extends the ids by its id |
| SkillPersistence.ResolveAllValid | backend/Services/SkillServices/SkillService.cs:95-102 | resolving a sequence keeps the catalogue free of case-insensitive duplicates, and only grows it |
| SkillPersistence.ResolveAllSound | backend/Services/SkillServices/SkillService.cs:95-102 | every name resolves, in the final catalogue, to the id returned for it |
| SkillPersistence.StudentRows | backend/Services/SkillServices/SkillService.cs:105-113 | the new rows carry the student, the skill ids in order, source "Extracted", not verified, no verifier |
| SkillPersistence.OpportunityRows | backend/Services/SkillServices/SkillService.cs:148-152 | one link per skill id, in order |
| SkillPersistence.OpportunityRowsLinked | backend/Services/SkillServices/SkillService.cs:148-152 | every new link belongs to the opportunity |
| SkillPersistence.SaveStudentSkillsGuards | backend/Services/SkillServices/SkillService.cs:75-81 | a blank user id is an ArgumentException and a missing profile an InvalidOperationException, both before any table changes |
| SkillPersistence.SaveStudentSkillsRules | backend/Services/SkillServices/SkillService.cs:84-117 | rows other than this student's Extracted ones are unchanged; the student's Extracted rows correspond one to one, in order, to the trimmed non-blank names, duplicates included, each resolving its name, not verified and without verifier |
| SkillPersistence.SaveOpportunitySkillsRules | backend/Services/SkillServices/SkillService.cs:125-155 | id ≤ 0 is an ArgumentException that changes nothing; otherwise only this opportunity's links are replaced, one per trimmed non-blank name in order |
| SkillPersistence.SkillService.constructor | backend/Services/SkillServices/SkillService.cs:20-23 | the service starts with empty skill tables over the given profiles |
| SkillPersistence.SkillService.GetOrCreateSkillId | backend/Services/SkillServices/SkillService.cs:47-68 | the in-place lookup-or-insert is `GetOrCreate`, and changes nothing on error |
| SkillPersistence.SkillService.ResolveNames | backend/Services/SkillServices/SkillService.cs:95-155 | the insert loop resolves the cleaned names and touches only the catalogue |
| SkillPersistence.SkillService.SaveStudentSkills | backend/Services/SkillServices/SkillService.cs:73-118 | the in-place save is `SaveStudentSkillsStep`, and keeps the tables valid |
| SkillPersistence.SkillService.SaveOpportunitySkills | backend/Services/SkillServices/SkillService.cs:123-156 | the in-place save is `SaveOpportunitySkillsStep`, and keeps the tables valid |
| Opportunities.ClampPaging | backend/Controllers/OpportunitiesController.cs:54-56 | afterwards page ≥ 1 and 1 ≤ size ≤ 50; valid values are kept, page < 1 becomes 1, size < 1 becomes 10 and size > 50 becomes 50 |
| Opportunities.PageWindow | backend/Controllers/OpportunitiesController.cs:155-157 | the page holds the items from `(page - 1) * size` on, at most `size` of them, and is short only at the end |
| Opportunities.Window | backend/Controllers/OpportunitiesController.cs:155-157 | `Skip(n).Take(k)` is the run of at most `k` items from `n`, short only at the end |
| Opportunities.EveryItemOnItsPage | backend/Controllers/OpportunitiesController.cs:155-157 | item `i` is at position `i % size` on page `i / size + 1` |
| Opportunities.ParseTypeNameExact | backend/Controllers/OpportunitiesController.cs:81 | a type parses exactly when it equals the enum name ignoring case |
| Opportunities.ParseLevelNameExact | backend/Controllers/OpportunitiesController.cs:101 | a level name parses exactly when it equals the enum name ignoring case |
| Opportunities.NameTrimmed | backend/Controllers/OpportunitiesController.cs:101 | enum names are already trimmed |
| Opportunities.MapLevelRules | backend/Controllers/OpportunitiesController.cs:94-104 | "beginner" maps to Entry, "intermediate" to Junior and "senior" to Senior; anything else maps exactly to the enum value it names ignoring case |
| Opportunities.MapLevelOfName | backend/Controllers/OpportunitiesController.cs:94-104 | every enum name maps to its own level |
| Opportunities.ParametersRules | backend/Controllers/OpportunitiesController.cs:77-110 | a missing or blank parameter does not filter; otherwise a type filters by the enum it names ignoring case, and a level filters by its mapped value |
| Opportunities.Larger | backend/Controllers/OpportunitiesController.cs:138-142 | the larger of two optional bounds |
| Opportunities.Smaller | backend/Controllers/OpportunitiesController.cs:138-142 | the smaller of two optional bounds |
| Opportunities.PayOverlap | backend/Controllers/OpportunitiesController.cs:138-142 | for well-formed ranges, the two pay conditions hold exactly when the opportunity's pay range meets the requested one |
| Opportunities.TrimmedEntries | backend/Controllers/OpportunitiesController.cs:615-616 | kept entries are non-blank and trimmed |
| Opportunities.TrimmedEntriesSound | backend/Controllers/OpportunitiesController.cs:615-616 | every kept entry is the trimmed form of an input entry |
| Opportunities.TrimmedEntriesCovers | backend/Controllers/OpportunitiesController.cs:615-616 | every non-blank input entry is kept in trimmed form |
| Opportunities.WriteListNull | backend/Controllers/OpportunitiesController.cs:612-620 | null gives null, and so does a list with no non-blank entry; nothing else does |
| Opportunities.WriteListTrimmed | backend/Controllers/OpportunitiesController.cs:614-618 | the written list is trimmed, non-blank and has no two entries equal ignoring case |
| Opportunities.WriteListFirstOccurrences | backend/Controllers/OpportunitiesController.cs:617 | each written entry is the first trimmed entry with its key, in first-occurrence order |
| Opportunities.WriteListCovers | backend/Controllers/OpportunitiesController.cs:614-618 | every non-blank input entry is represented, ignoring case |
| Opportunities.AsEntries | backend/Controllers/OpportunitiesController.cs:605-608 | a stored list read back gives its entries |
| Opportunities.TrimmedEntriesOfTrimmed | backend/Controllers/OpportunitiesController.cs:615-616 | cleaning a clean list leaves it unchanged |
| Opportunities.TrimmedKept | backend/Controllers/OpportunitiesController.cs:615-616 | a clean entry is kept as it is |
| Opportunities.WriteListIdempotent | backend/Controllers/OpportunitiesController.cs:610-621 | writing a written list again gives the same list |
| Opportunities.SkillSetSound | backend/Controllers/OpportunitiesController.cs:277-296 | the skill set holds only non-blank names of the opportunity |
| Opportunities.SkillSetOnePerKey | backend/Controllers/OpportunitiesController.cs:280-296 | the ordinal-ignore-case hash set holds one name per key |
| Opportunities.SkillSetCovers | backend/Controllers/OpportunitiesController.cs:277-296 | every non-blank name is represented, ignoring case |
| Opportunities.SubsetSize | backend/Controllers/OpportunitiesController.cs:298-299 | a subset is no larger |
| Opportunities.SubsetOfSameSize | backend/Controllers/OpportunitiesController.cs:298-299 | a subset of the same size is the whole set |
| Opportunities.FractionWithin | backend/Controllers/OpportunitiesController.cs:301 | a part over a positive whole lies in [0, 1], is 0 exactly for an empty part and 1 exactly for the whole |
| Opportunities.Jaccard | backend/Controllers/OpportunitiesController.cs:298-301 | the Jaccard index lies in [0, 1], is 0 exactly for disjoint sets (and for an empty union), and 1 exactly for equal non-empty sets |
| Opportunities.Score | backend/Controllers/OpportunitiesController.cs:291-316 | the score lies in [0, 1.35]; it is positive exactly when the skills overlap or the level, work mode or non-blank location agree |
| Opportunities.IndexById | backend/Controllers/OpportunitiesController.cs:269-272 | the first opportunity with the id, or none |
| Opportunities.ScoreAll | backend/Controllers/OpportunitiesController.cs:320 | each candidate is paired with its score, in order |
| Opportunities.CandidateFacts | backend/Controllers/OpportunitiesController.cs:283-288 | candidates are other, open opportunities of the base's type |
| Opportunities.PositiveScored | backend/Controllers/OpportunitiesController.cs:320-321 | the kept pairs are candidates with positive scores |
| Opportunities.ScoredInPositive | backend/Controllers/OpportunitiesController.cs:320-321 | every positively scored candidate is kept |
| Opportunities.RankedMembers | backend/Controllers/OpportunitiesController.cs:283-322 | ranked entries are candidates with their positive scores |
| Opportunities.Similar | backend/Controllers/OpportunitiesController.cs:263-323 | an unknown id is NotFound; otherwise at most `clamp(take, 1, 12)` results |
| Opportunities.SimilarMembers | backend/Controllers/OpportunitiesController.cs:283-323 | every result is another open opportunity of the base's type, with its score, which is positive |
| Opportunities.SimilarSorted | backend/Controllers/OpportunitiesController.cs:322 | results are in non-increasing score order |
| Opportunities.SimilarTop | backend/Controllers/OpportunitiesController.cs:319-323 | a positively scored candidate left out means the result is full of scores at least as high |
| Opportunities.ActiveIndex | backend/Controllers/OpportunitiesController.cs:542-543 | the first non-withdrawn application of that user to that opportunity, or none |
| Opportunities.IndexOfKey | backend/Controllers/OpportunitiesController.cs:626-641 | with unique ids the lookup finds the row |
| Opportunities.CloseStepRules | backend/Controllers/OpportunitiesController.cs:624-636 | an unknown id is NotFound; an already closed opportunity is BadRequest; both change nothing; otherwise exactly that opportunity becomes closed at `now` |
| Opportunities.ReopenStepRules | backend/Controllers/OpportunitiesController.cs:639-649 | an unknown id is NotFound and changes nothing; otherwise exactly that opportunity is reopened with its closing time cleared, whatever its state |
| Opportunities.CloseThenReopen | backend/Controllers/OpportunitiesController.cs:624-649 | reopening after a successful close restores the board, and closing twice is refused |
| Opportunities.ReopenIdempotent | backend/Controllers/OpportunitiesController.cs:639-649 | reopening twice is reopening once |
| Opportunities.ApplyStepRules | backend/Controllers/OpportunitiesController.cs:532-560 | no user is Unauthorized and an unknown opportunity NotFound, both changing nothing; an existing non-withdrawn application is returned unchanged; otherwise exactly one draft application is appended and returned |
| Opportunities.ApplyIdempotent | backend/Controllers/OpportunitiesController.cs:542-546 | applying again returns the same reply and changes nothing |
| Opportunities.OpportunityBoard.constructor | backend/Controllers/OpportunitiesController.cs:624-649 | the board holds the given opportunities and applications |
| Opportunities.OpportunityBoard.Close | backend/Controllers/OpportunitiesController.cs:624-636 | the in-place close is `CloseStep`, and keeps the board valid |
| Opportunities.OpportunityBoard.Reopen | backend/Controllers/OpportunitiesController.cs:639-649 | the in-place reopen is `ReopenStep`, and keeps the board valid |
| Opportunities.OpportunityBoard.ApplyNow | backend/Controllers/OpportunitiesController.cs:532-560 | the in-place apply is `ApplyStep`, and keeps the board valid |
| Profiles.FileNamePart | backend/Controllers/ProfileController.cs:46 | the file name part of a path contains no separator |
| Profiles.ExtensionFrom | backend/Controllers/ProfileController.cs:46 | the text from the last dot of a file name is an extension |
| Profiles.GetExtension | backend/Controllers/ProfileController.cs:46 | `Path.GetExtension` gives an empty string or a dot followed by at least one non-dot, non-separator character |
| Profiles.SafeExt | backend/Controllers/ProfileController.cs:44-49 | the result is the extension when it has 1 to 12 characters and is empty exactly otherwise |
| Profiles.LastIndexOfAppend | backend/Controllers/ProfileController.cs:46 | a tail without the character does not move its last position |
| Profiles.LastDotOf | backend/Controllers/ProfileController.cs:46 | the last dot of `x + "." + word` is the one before `word` |
| Profiles.TailNoSlash | backend/Controllers/ProfileController.cs:46 | `"." + word` has no separator when `word` has none |
| Profiles.FileNameOf | backend/Controllers/ProfileController.cs:46 | the file name of `stem + "." + word` ends in `"." + word` |
| Profiles.SafeExtOfName | backend/Controllers/ProfileController.cs:44-49 | a name ending in a dot and a short word has that extension |
| Profiles.LowerOfExtensions | backend/Controllers/ProfileController.cs:56-68 | the allowed extensions are already lower case |
| Profiles.AllowedTypesRules | backend/Controllers/ProfileController.cs:51-69 | a resume is allowed exactly for the three PDF and Word MIME types or a .pdf/.doc/.docx extension (ignoring case); a proof exactly for "image/…" or PDF, or a .pdf/.png/.jpg/.jpeg extension |
| Profiles.NoExtensionMeansContentType | backend/Controllers/ProfileController.cs:51-69 | without a safe extension only the content type decides |
| Profiles.PdfWord | backend/Controllers/ProfileController.cs:56-65 | ".PDF" in any case lower-cases to ".pdf" |
| Profiles.PdfAcceptedForBoth | backend/Controllers/ProfileController.cs:51-69 | a file named `….pdf`, in any case, is accepted as resume and as proof whatever its content type |
| Profiles.UploadSizeRules | backend/Controllers/ProfileController.cs:329-337 | a missing or empty file is rejected, so is one over 10 MiB, exactly 10 MiB is not too large, and an allowed type within the limits is accepted |
| Profiles.StoredName | backend/Controllers/ProfileController.cs:93-94 | the stored name is the prefix, "_", the token, then the safe extension |
| Profiles.StudentProfile.constructor | backend/Controllers/ProfileController.cs:77-81 | a new profile has the user id, its creation time and no documents |
| Profiles.StudentProfile.UploadDocument | backend/Controllers/ProfileController.cs:329-353 | a rejected upload changes nothing; an accepted one sets the document's four fields to the stored name, original name, content type and time, and leaves the other document and the details unchanged |
| Profiles.StudentProfile.SetDocument | backend/Controllers/ProfileController.cs:350-353 | setting one document leaves the other and the details unchanged |
| Profiles.StudentProfile.DeleteDocument | backend/Controllers/ProfileController.cs:415-428 | deletion succeeds exactly when a document is present, and then clears its four fields and nothing else; otherwise nothing changes |
| Profiles.UploadThenDelete | backend/Controllers/ProfileController.cs:415-428 | an accepted upload followed by a delete leaves the document empty and the rest of the profile as it was |

## Left out

- The tokenizer, the token-classification model, the ESCO lookup and the document readers (pandoc, pdfplumber, file reads) are function parameters. Their own behaviour, and any exception they raise, is not modelled.
- The FastAPI endpoint, temporary files, model loading and the `print` logging of the extracted skills (ml/src/main.py:29-30) are I/O.
- DigitRun: `\d` is modelled as the ASCII digits 0-9, while Python's `re` also matches the other Unicode decimal digits.
- SkillsExtraction.ExtractSkills: requires a window size above 0; the code's default is 510, and with a size of 0 or less `range` would raise or yield nothing.
- Strings are sequences of characters. Case mapping covers ASCII letters only, which is where Python's `lower`, C#'s `ToLower`/`ToLowerInvariant` and `OrdinalIgnoreCase` agree. Whitespace is the ASCII set space, tab, LF, CR, VT and FF.
- Floating point (`double`) and `decimal` are real numbers, so binary representation error is not modelled. `Math.Round` is banker's rounding on those exact values.
- The recommender tests the threshold on the unrounded score (RecommendationService.cs:125), and the model does too. `Recommended.score` holds the score rounded to four places (:131), and the results are sorted by that rounded score (:137), as in the code.
- Emit: the span score is stated as the mean of the slots by the separate lemma `EmitScoreIsMean`, not by the function's own contract.
- 32-bit integer overflow is not modelled: `GetInt32` on large numbers, `(page - 1) * pageSize`, and the counters. `GetInt32` on a non-integral number, which throws, is not modelled either.
- JSON is a datatype with optional fields. A property that is absent or of the wrong kind is `None`. Parse errors and serialisation are not modelled. Answers are modelled as the numeric entries of the answers object only.
- The random generator is a function `pick` from loop index to a draw in `[0, i]`, so the seed itself (`SecureSeed`) is not modelled.
- `StartAssessment` reads the clock twice. The model uses one `now` for both the start and the expiry.
- Judge0 transport, the per-test loop of `GradeCodeQuestions`, and `RunCode` are I/O. The code score is a parameter of `Submit`, and only the verdict rule and `Norm` are modelled.
- The proctor event log's `Details` serialisation and the webcam snapshot upload are I/O.
- The reflection in `GetWeight`/`GetMandatory` is modelled as optional fields on the opportunity skill, where `None` means the property is absent. A conversion failure is not modelled separately; it means the same fallback.
- Null lists (`applicantSkills ?? new()`, `skills ??= new List<string>()`) are empty sequences.
- The recommender normalises an opportunity's skill names once (`Requirements(opp.skills)`), where the code calls `Normalize` again in each of its two loops (RecommendationService.cs:90, 106). `Normalize` is a function, so the values are the same.
- SkillService: EF Core change tracking, `SaveChangesAsync` and database unique constraints are not modelled. A student profile is represented by its user id, and `CreatedAt` is a `now` parameter.
- Opportunities: `GetAll`'s text, location, remote and skill filters, its sort orders and its total count are database queries and are not modelled. Only the helpers named above are.
- Opportunities: `Enum.TryParse` accepts numeric and comma-separated forms. Only enum names are modelled.
- Opportunities: the candidate pool of `GetSimilar` is taken in table order. The first 150 is `Take(150)` with no ordering.
- Opportunities: `Opportunity.IsClosed`/`ClosedAtUtc` are modelled as the fields the controller uses. backend/Models/Opportunity.cs does not declare them; they come from the AddCloseFields migration.
- Opportunities: `ReplaceSkills` is unused and is not modelled. `ReadList`'s JSON parsing is modelled as reading back the stored entries.
- Opportunities: `Intersect`/`Union` in `GetSimilar` use the default, case-sensitive comparer over the case-insensitive sets. The model applies them to the sets as built.
- Profiles: file streams, directories and the GUID are not modelled. The GUID token is a parameter. User and role checks are not modelled either, and `GetOrCreateStudentProfile` is the class constructor.
- Profiles: `Path.GetExtension` is modelled with '/' as the only directory separator. `StartsWith("image/")` is modelled as an ordinal comparison.
- Profiles: the download endpoints and the rest of the profile editing are not modelled.
- The frontend, migrations, DTOs, `MlSkillClientService`, `StudentSkillsController`, `RecommendationController`, `ApplicationsController` and the `Jobify/` project are not modelled.
