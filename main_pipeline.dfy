/**
 * The tail of the skill pipeline (`run_main_pipeline`): candidates the model is
 * confident about are kept as they are, the others are looked up in the ESCO
 * skill catalogue and replaced by its normalized name or dropped, and the names
 * are then deduplicated case-insensitively, first occurrence first.
 * The catalogue lookup is a parameter.
 */
module MainPipeline {
  import opened Wrappers
  import opened Text
  import opened Collections
  import opened SkillsPostprocessing
  import opened SkillsExtraction
  import opened InputToText

  /** The default confidence threshold. */
  const ConfThreshold: real := 0.3

  /** What one candidate contributes to the validated list. */
  function Validate(c: Candidate, threshold: real, lookup: string -> Option<string>): (r: seq<string>)
    ensures |r| <= 1
    ensures c.score >= threshold ==> r == [c.skill]
    ensures c.score < threshold ==> (r == [] <==> lookup(c.skill).None?)
    ensures c.score < threshold && lookup(c.skill).Some? ==> r == [lookup(c.skill).value]
  {
    if c.score >= threshold then [c.skill]
    else match lookup(c.skill)
      case Some(name) => [name]
      case None => []
  }

  /** The validated names of all candidates, in candidate order. */
  function Reconcile(cs: seq<Candidate>, threshold: real, lookup: string -> Option<string>): (r: seq<string>)
    ensures |r| <= |cs|
    decreases |cs|
  {
    if cs == [] then [] else Reconcile(cs[..|cs| - 1], threshold, lookup) + Validate(cs[|cs| - 1], threshold, lookup)
  }

  /** The validation loop of `run_main_pipeline`. */
  method ReconcileCandidates(extracted: seq<Candidate>, confThreshold: real, lookup: string -> Option<string>)
    returns (skills: seq<string>)
    ensures skills == Reconcile(extracted, confThreshold, lookup)
  {
    skills := [];
    for i := 0 to |extracted|
      invariant skills == Reconcile(extracted[..i], confThreshold, lookup)
    {
      assert extracted[..i + 1][..i] == extracted[..i];
      var skill := extracted[i];
      if skill.score >= confThreshold {
        skills := skills + [skill.skill];
      } else {
        var escoSkill := lookup(skill.skill);
        if escoSkill.Some? {
          skills := skills + [escoSkill.value];
        }
      }
    }
    assert extracted[..|extracted|] == extracted;
  }

  /** Validation works candidate by candidate, so it keeps candidate order across any split. */
  lemma {:induction false} ReconcileAppend(a: seq<Candidate>, b: seq<Candidate>, threshold: real, lookup: string -> Option<string>)
    ensures Reconcile(a + b, threshold, lookup) == Reconcile(a, threshold, lookup) + Reconcile(b, threshold, lookup)
    decreases |b|
  {
    if b == [] {
      assert a + b == a;
    } else {
      var b0, c := b[..|b| - 1], b[|b| - 1];
      assert b == b0 + [c];
      assert a + b == (a + b0) + [c];
      ReconcileSnoc(a + b0, c, threshold, lookup);
      ReconcileSnoc(b0, c, threshold, lookup);
      ReconcileAppend(a, b0, threshold, lookup);
      AppendAssoc(Reconcile(a, threshold, lookup), Reconcile(b0, threshold, lookup), Validate(c, threshold, lookup));
    }
  }

  lemma ReconcileSnoc(cs: seq<Candidate>, c: Candidate, threshold: real, lookup: string -> Option<string>)
    ensures Reconcile(cs + [c], threshold, lookup) == Reconcile(cs, threshold, lookup) + Validate(c, threshold, lookup)
  {
    assert (cs + [c])[..|cs|] == cs;
  }

  /** The phrases that are looked up: those of the candidates below the threshold. */
  function LookedUp(cs: seq<Candidate>, threshold: real): (r: set<string>)
  {
    set i | 0 <= i < |cs| && cs[i].score < threshold :: cs[i].skill
  }

  /**
   * Only candidates below the threshold consult the catalogue: two catalogues that
   * agree on those phrases give the same result.
   */
  lemma {:induction false} ReconcileOnlyLooksUpBelowThreshold(cs: seq<Candidate>, threshold: real,
                                                             lookup1: string -> Option<string>,
                                                             lookup2: string -> Option<string>)
    requires forall p :: p in LookedUp(cs, threshold) ==> lookup1(p) == lookup2(p)
    ensures Reconcile(cs, threshold, lookup1) == Reconcile(cs, threshold, lookup2)
    decreases |cs|
  {
    if cs != [] {
      var init := cs[..|cs| - 1];
      assert LookedUp(init, threshold) <= LookedUp(cs, threshold) by {
        forall p | p in LookedUp(init, threshold) ensures p in LookedUp(cs, threshold) {
          var i :| 0 <= i < |init| && init[i].score < threshold && init[i].skill == p;
          assert cs[i] == init[i];
        }
      }
      ReconcileOnlyLooksUpBelowThreshold(init, threshold, lookup1, lookup2);
      var last := cs[|cs| - 1];
      if last.score < threshold {
        assert last.skill in LookedUp(cs, threshold);
      }
    }
  }

  /** With every score at or above the threshold the phrases pass through unchanged. */
  lemma {:induction false} ReconcileAllConfident(cs: seq<Candidate>, threshold: real, lookup: string -> Option<string>)
    requires forall i :: 0 <= i < |cs| ==> cs[i].score >= threshold
    ensures Reconcile(cs, threshold, lookup) == seq(|cs|, i requires 0 <= i < |cs| => cs[i].skill)
    decreases |cs|
  {
    if cs != [] {
      var init := cs[..|cs| - 1];
      ReconcileAllConfident(init, threshold, lookup);
    }
  }

  /** Case-insensitive first-occurrence deduplication. */
  function Dedup(skills: seq<string>): seq<string>
  {
    DistinctBy(skills, Lower)
  }

  /** The deduplicating comprehension, with its `existing_skills` set. */
  method DedupSkills(skills: seq<string>) returns (result: seq<string>)
    ensures result == Dedup(skills)
  {
    var existingSkills: set<string> := {};
    result := [];
    for i := 0 to |skills|
      invariant result == DistinctBy(skills[..i], Lower)
      invariant existingSkills == KeysOf(result, Lower)
    {
      assert skills[..i + 1][..i] == skills[..i];
      var skill := skills[i];
      if Lower(skill) !in existingSkills {
        KeysOfSnoc(result, skill, Lower);
        existingSkills := existingSkills + {Lower(skill)};
        result := result + [skill];
      }
    }
    assert skills[..|skills|] == skills;
  }

  /**
   * The deduplicated list has no two names equal after lower-casing; every
   * lower-cased input name appears among the lower-cased outputs; each output is
   * the first input with its lower-cased form, in the order of those first
   * occurrences; and deduplicating again changes nothing.
   */
  lemma DedupProperties(skills: seq<string>)
    ensures NoDuplicateKeys(Dedup(skills), Lower)
    ensures KeysOf(Dedup(skills), Lower) == KeysOf(skills, Lower)
    ensures forall k :: 0 <= k < |Dedup(skills)| ==>
      Lower(Dedup(skills)[k]) in KeysOf(skills, Lower) &&
      Dedup(skills)[k] == skills[FirstIndex(skills, Lower, Lower(Dedup(skills)[k]))]
    ensures forall k, l :: 0 <= k < l < |Dedup(skills)| ==>
      Lower(Dedup(skills)[k]) in KeysOf(skills, Lower) && Lower(Dedup(skills)[l]) in KeysOf(skills, Lower) &&
      FirstIndex(skills, Lower, Lower(Dedup(skills)[k])) < FirstIndex(skills, Lower, Lower(Dedup(skills)[l]))
    ensures Dedup(Dedup(skills)) == Dedup(skills)
  {
    DistinctByNoDuplicates(skills, Lower);
    DistinctByFirstOccurrences(skills, Lower);
    DistinctByIdempotent(skills, Lower);
  }

  /** `["Python", "python", "PYTHON"]` keeps only `"Python"`. */
  lemma DedupPythonExample()
    ensures Dedup(["Python", "python", "PYTHON"]) == ["Python"]
  {
    var a, b, c := "Python", "python", "PYTHON";
    assert Lower(a) == "python" && Lower(b) == "python" && Lower(c) == "python";
    var xs := [a, b, c];
    assert xs[..2] == [a, b] && [a, b][..1] == [a] && [a][..0] == [];
    assert DistinctBy([a], Lower) == [a];
    assert KeysOf([a], Lower) == {"python"} by { assert [a][0] == a; }
    assert DistinctBy([a, b], Lower) == [a];
  }

  /** The collaborators of `run_main_pipeline` that are not part of this model. */
  datatype Services = Services(
    read: (FileKind, string) -> Result<string, string>,
    encode: string -> seq<int>,
    decode: seq<int> -> string,
    annotate: string -> seq<Token>,
    lookup: string -> Option<string>)

  /** The names the pipeline returns for a cleaned text. */
  function SkillsOfText(text: string, sv: Services, threshold: real): seq<string>
  {
    Dedup(Reconcile(Merge(Entities(Split(text, '\n'), sv.encode, sv.decode, sv.annotate, DefaultMaxNoSpecial)),
                    threshold, sv.lookup))
  }

  /** `run_main_pipeline`: text extraction, skill extraction, validation and deduplication. */
  method RunMainPipeline(filepath: string, sv: Services, confThreshold: real)
    returns (r: Result<seq<string>, ExtractError>)
    ensures r.Failure? <==> ExtractText(filepath, sv.read).Failure?
    ensures r.Failure? ==> r.error == ExtractText(filepath, sv.read).error
    ensures r.Success? ==> r.value == SkillsOfText(ExtractText(filepath, sv.read).value, sv, confThreshold)
    ensures r.Success? ==> NoDuplicateKeys(r.value, Lower)
  {
    var input := ExtractText(filepath, sv.read);
    if input.Failure? {
      return Failure(input.error);
    }
    var extractedSkills := ExtractSkills(input.value, sv.encode, sv.decode, sv.annotate, DefaultMaxNoSpecial);
    var skills := ReconcileCandidates(extractedSkills, confThreshold, sv.lookup);
    skills := DedupSkills(skills);
    DedupProperties(Reconcile(extractedSkills, confThreshold, sv.lookup));
    r := Success(skills);
  }
}
