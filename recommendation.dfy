/**
 * The weighted skill-match recommender: applicant skills are normalised into a
 * name-to-weight map, opportunities missing a mandatory skill are excluded, the
 * rest are scored by the weight of their matched skills over the weight of all
 * their skills, and those scoring at least 0.6 are returned best first.
 */
module Recommendation {
  import opened Wrappers
  import opened Text
  import opened Numeric
  import opened Collections

  const Threshold: real := 0.6

  /** `Normalize`: lower-case, trim, then one synonym lookup. */
  function Normalize(s: string): (r: string)
  {
    var t := Strip(Lower(s));
    if t == "js" then "javascript"
    else if t == "reactjs" then "react"
    else if t == "node" then "node.js"
    else t
  }

  /** A lower-case name without outer whitespace that is not a synonym key normalises to itself. */
  lemma NormalizeFixed(w: string)
    requires HasNoUpper(w) && (w == [] || (!IsSpace(w[0]) && !IsSpace(w[|w| - 1])))
    requires w != "js" && w != "reactjs" && w != "node"
    ensures Normalize(w) == w
  {
    LowerUnchanged(w);
    if w != [] {
      StripUnchanged(w);
    }
  }

  /** A normalised name is lower case with no outer whitespace, and normalising it again changes nothing. */
  lemma NormalizeIdempotent(s: string)
    ensures HasNoUpper(Normalize(s))
    ensures Normalize(s) == [] || (!IsSpace(Normalize(s)[0]) && !IsSpace(Normalize(s)[|Normalize(s)| - 1]))
    ensures Normalize(Normalize(s)) == Normalize(s)
  {
    var t := Strip(Lower(s));
    StripNoUpper(Lower(s));
    var n := Normalize(s);
    if t == "js" {
      assert n == "javascript";
      TargetFixed("javascript");
    } else if t == "reactjs" {
      assert n == "react";
      TargetFixed("react");
    } else if t == "node" {
      assert n == "node.js";
      TargetFixed("node.js");
    } else {
      assert n == t;
      NormalizeFixed(t);
    }
  }

  /** A synonym target is itself a normalised name. */
  lemma TargetFixed(w: string)
    requires w == "javascript" || w == "react" || w == "node.js"
    ensures HasNoUpper(w) && !IsSpace(w[0]) && !IsSpace(w[|w| - 1])
    ensures Normalize(w) == w
  {
    NormalizeFixed(w);
  }

  /** The synonyms are applied: `js`, `reactjs` and `node` in any case and with surrounding blanks. */
  lemma NormalizeSynonyms()
    ensures Normalize(" JS ") == "javascript"
    ensures Normalize("ReactJS") == "react"
    ensures Normalize("node") == "node.js"
  {
    PaddedJs();
    LowerStripped("ReactJS", "reactjs");
    LowerStripped("node", "node");
  }

  lemma PaddedJs()
    ensures Strip(Lower(" JS ")) == "js"
  {
    assert Lower(" JS ") == [' '] + "js" + [' '];
    StripPadded("js", ' ', ' ');
  }

  lemma LowerStripped(s: string, l: string)
    requires l != [] && !IsSpace(l[0]) && !IsSpace(l[|l| - 1]) && Lower(s) == l
    ensures Strip(Lower(s)) == l
  {
    StripUnchanged(l);
  }

  /** An applicant skill of the request. */
  datatype SkillInput = SkillInput(name: string, weight: real)

  /**
   * A skill link of an opportunity with the two properties the service looks up by
   * reflection: `None` when the property is missing, null or not convertible.
   */
  datatype OppSkill = OppSkill(skillName: Option<string>, weight: Option<real>, mandatory: Option<bool>)

  datatype Opportunity = Opportunity(id: int, title: string, skills: seq<OppSkill>)

  datatype Recommended = Recommended(opportunityId: int, title: string, score: real, matchedSkills: seq<string>)

  /** A non-positive applicant weight counts as 1. */
  function InputWeight(s: SkillInput): (w: real)
    ensures w > 0.0
  {
    if s.weight <= 0.0 then 1.0 else s.weight
  }

  /** An effective weight: the service replaces every non-positive weight by 1. */
  type Weight = w: real | w > 0.0 witness 1.0

  /** What the first loop reads of an applicant skill: its normalised name and effective weight. */
  datatype Entry = Entry(name: string, weight: Weight)

  function EntryOf(s: SkillInput): (e: Entry)
    ensures e.name == Normalize(s.name)
    ensures HasNoUpper(e.name) && (e.name == [] || (!IsSpace(e.name[0]) && !IsSpace(e.name[|e.name| - 1])))
    ensures Normalize(e.name) == e.name
    ensures e.weight > 0.0 && (s.weight > 0.0 ==> e.weight == s.weight)
  {
    var n := Normalize(s.name);
    NormalizeIdempotent(s.name);
    Entry(n, InputWeight(s))
  }

  function Entries(skills: seq<SkillInput>): (es: seq<Entry>)
    ensures |es| == |skills| && forall i :: 0 <= i < |skills| ==> es[i] == EntryOf(skills[i])
  {
    seq(|skills|, i requires 0 <= i < |skills| => EntryOf(skills[i]))
  }

  /** The applicant map after the first loop: blank names skipped, a duplicate name keeps its largest weight. */
  function MapOf(es: seq<Entry>): (m: map<string, real>)
    ensures forall k :: k in m ==> !IsBlank(k)
    decreases |es|
  {
    if es == [] then map[]
    else
      var m := MapOf(es[..|es| - 1]);
      var e := es[|es| - 1];
      if IsBlank(e.name) then m
      else if e.name !in m || m[e.name] < e.weight then m[e.name := e.weight]
      else m
  }

  function ApplicantMap(skills: seq<SkillInput>): map<string, real> { MapOf(Entries(skills)) }

  predicate PositiveWeights(m: map<string, real>) { forall k :: k in m ==> m[k] > 0.0 }

  /**
   * The map's keys are the non-blank names, and each key's weight is the largest
   * weight among the entries with that name.
   */
  lemma {:induction false} MapOfMax(es: seq<Entry>)
    ensures forall i :: 0 <= i < |es| && !IsBlank(es[i].name) ==>
      es[i].name in MapOf(es) && MapOf(es)[es[i].name] >= es[i].weight
    ensures forall k :: k in MapOf(es) ==>
      exists i :: 0 <= i < |es| && es[i].name == k && MapOf(es)[k] == es[i].weight
    decreases |es|
  {
    if es != [] {
      var init := es[..|es| - 1];
      MapOfMax(init);
      var m := MapOf(es);
      var m0 := MapOf(init);
      forall i | 0 <= i < |es| && !IsBlank(es[i].name)
        ensures es[i].name in m && m[es[i].name] >= es[i].weight
      {
        if i < |init| { assert es[i] == init[i]; }
      }
      forall k | k in m
        ensures exists i :: 0 <= i < |es| && es[i].name == k && m[k] == es[i].weight
      {
        if k in m0 && m[k] == m0[k] {
          var i :| 0 <= i < |init| && init[i].name == k && m0[k] == init[i].weight;
          assert es[i] == init[i];
        } else {
          assert es[|es| - 1].name == k;
        }
      }
    }
  }

  /** Every weight of the applicant map is positive. */
  lemma ApplicantMapPositive(skills: seq<SkillInput>)
    ensures PositiveWeights(ApplicantMap(skills))
  {
    var es := Entries(skills);
    MapOfMax(es);
    forall k | k in MapOf(es) ensures MapOf(es)[k] > 0.0 {
      var i :| 0 <= i < |es| && es[i].name == k && MapOf(es)[k] == es[i].weight;
    }
  }

  /** The weight of a requirement: 1 when the property is missing or not positive. */
  function ReqWeight(os: OppSkill): (w: real)
    ensures w > 0.0
  {
    var w := os.weight.GetOr(1.0);
    if w <= 0.0 then 1.0 else w
  }

  /** What the opportunity loops read of a skill link: normalised name, weight and whether it is mandatory. */
  datatype Requirement = Requirement(name: string, weight: Weight, mandatory: bool)

  function RequirementOf(os: OppSkill): (r: Requirement)
    ensures r.name == Normalize(os.skillName.GetOr(""))
    ensures Normalize(r.name) == r.name
    ensures r.weight > 0.0 && (os.weight.Some? && os.weight.value > 0.0 ==> r.weight == os.weight.value)
    ensures r.mandatory <==> os.mandatory == Some(true)
  {
    NormalizeIdempotent(os.skillName.GetOr(""));
    Requirement(Normalize(os.skillName.GetOr("")), ReqWeight(os), os.mandatory.GetOr(false))
  }

  function Requirements(skills: seq<OppSkill>): (rs: seq<Requirement>)
    ensures |rs| == |skills| && forall i :: 0 <= i < |skills| ==> rs[i] == RequirementOf(skills[i])
  {
    seq(|skills|, i requires 0 <= i < |skills| => RequirementOf(skills[i]))
  }

  /** A mandatory requirement whose name is not in the applicant map. */
  predicate MissingMandatory(rs: seq<Requirement>, m: map<string, real>) {
    exists i :: 0 <= i < |rs| && rs[i].mandatory && rs[i].name !in m
  }

  /** A mandatory requirement with a blank name can never be met. */
  lemma BlankMandatoryIsMissing(rs: seq<Requirement>, i: int, applicant: seq<SkillInput>)
    requires 0 <= i < |rs| && rs[i].mandatory && IsBlank(rs[i].name)
    ensures MissingMandatory(rs, ApplicantMap(applicant))
  {
  }

  function Min(a: real, b: real): real { if a <= b then a else b }

  /** Sum of the weights of the requirements with a non-blank name. */
  function TotalWeight(rs: seq<Requirement>): (t: real)
    ensures t >= 0.0
    decreases |rs|
  {
    if rs == [] then 0.0
    else
      var r := rs[|rs| - 1];
      TotalWeight(rs[..|rs| - 1]) + (if IsBlank(r.name) then 0.0 else r.weight)
  }

  /** A requirement's contribution: its weight times the applicant's weight capped at 1. */
  function Contribution(r: Requirement, m: map<string, real>): real
  {
    if !IsBlank(r.name) && r.name in m then r.weight * Min(1.0, m[r.name]) else 0.0
  }

  function MatchedWeight(rs: seq<Requirement>, m: map<string, real>): real
    decreases |rs|
  {
    if rs == [] then 0.0 else MatchedWeight(rs[..|rs| - 1], m) + Contribution(rs[|rs| - 1], m)
  }

  /** The matched names, in requirement order, duplicates included. */
  function Matched(rs: seq<Requirement>, m: map<string, real>): (r: seq<string>)
    ensures forall j :: 0 <= j < |r| ==> r[j] in m
    decreases |rs|
  {
    if rs == [] then []
    else
      var r := rs[|rs| - 1];
      Matched(rs[..|rs| - 1], m) + (if !IsBlank(r.name) && r.name in m then [r.name] else [])
  }

  lemma ScaleWithin(a: real, f: real)
    requires a > 0.0 && 0.0 < f <= 1.0
    ensures 0.0 <= a * f <= a
  {
  }

  lemma RatioWithin(x: real, t: real)
    requires 0.0 <= x <= t && t > 0.0
    ensures 0.0 <= x / t <= 1.0
  {
    assert x / t * t == x;
  }

  /** A requirement contributes between nothing and what it adds to the total weight. */
  lemma ContributionWithin(r: Requirement, m: map<string, real>)
    requires PositiveWeights(m)
    ensures 0.0 <= Contribution(r, m) <= (if IsBlank(r.name) then 0.0 else r.weight)
  {
    if !IsBlank(r.name) && r.name in m {
      ScaleWithin(r.weight, Min(1.0, m[r.name]));
    }
  }

  /** Each requirement contributes between nothing and its full weight. */
  lemma {:induction false} MatchedWithinTotal(rs: seq<Requirement>, m: map<string, real>)
    requires PositiveWeights(m)
    ensures 0.0 <= MatchedWeight(rs, m) <= TotalWeight(rs)
    decreases |rs|
  {
    if rs != [] {
      var r := rs[|rs| - 1];
      MatchedWithinTotal(rs[..|rs| - 1], m);
      ContributionWithin(r, m);
    }
  }

  /** The result for one opportunity, if it qualifies. */
  function Evaluate(opp: Opportunity, m: map<string, real>): (r: Option<Recommended>)
    requires PositiveWeights(m)
    ensures var rs := Requirements(opp.skills);
      r.None? <==>
        (MissingMandatory(rs, m) || TotalWeight(rs) <= 0.0 || MatchedWeight(rs, m) / TotalWeight(rs) < Threshold)
    ensures var rs := Requirements(opp.skills);
      r.Some? ==>
        r.value.opportunityId == opp.id && !MissingMandatory(rs, m) && TotalWeight(rs) > 0.0 &&
        Threshold <= r.value.score <= 1.0 && NoDuplicateKeys(r.value.matchedSkills, Identity)
    ensures var rs := Requirements(opp.skills);
      r.Some? ==>
        r.value.title == opp.title &&
        r.value.score == Round4(MatchedWeight(rs, m) / TotalWeight(rs)) &&
        r.value.matchedSkills == DistinctBy(Matched(rs, m), Identity)
  {
    var rs := Requirements(opp.skills);
    if MissingMandatory(rs, m) then None
    else
      var total := TotalWeight(rs);
      if total <= 0.0 then None
      else
        var score := MatchedWeight(rs, m) / total;
        if score >= Threshold then
          MatchedWithinTotal(rs, m);
          RatioWithin(MatchedWeight(rs, m), total);
          Round4Within(score);
          DistinctByNoDuplicates(Matched(rs, m), Identity);
          Some(Recommended(opp.id, opp.title, Round4(score), DistinctBy(Matched(rs, m), Identity)))
        else None
  }

  function Identity(s: string): string { s }

  /** The results list before sorting, in opportunity order. */
  function Selected(opps: seq<Opportunity>, m: map<string, real>): (r: seq<Recommended>)
    requires PositiveWeights(m)
    ensures |r| <= |opps|
    ensures forall j :: 0 <= j < |r| ==> Threshold <= r[j].score <= 1.0 && NoDuplicateKeys(r[j].matchedSkills, Identity)
    decreases |opps|
  {
    if opps == [] then []
    else
      var r := Selected(opps[..|opps| - 1], m);
      match Evaluate(opps[|opps| - 1], m)
      case None => r
      case Some(x) => r + [x]
  }

  function ScoreOf(r: Recommended): real { r.score }

  /** `Recommend`: the qualifying opportunities, best score first (stable for equal scores). */
  function Recommend(applicantSkills: seq<SkillInput>, opps: seq<Opportunity>): (r: seq<Recommended>)
  {
    ApplicantMapPositive(applicantSkills);
    SortDescBy(Selected(opps, ApplicantMap(applicantSkills)), ScoreOf)
  }

  /**
   * The recommendations are sorted by non-increasing score, are exactly the
   * qualifying opportunities, and every score lies in [0.6, 1] with no
   * duplicate matched skill.
   */
  lemma RecommendProperties(applicantSkills: seq<SkillInput>, opps: seq<Opportunity>)
    ensures PositiveWeights(ApplicantMap(applicantSkills))
    ensures SortedDescBy(Recommend(applicantSkills, opps), ScoreOf)
    ensures multiset(Recommend(applicantSkills, opps)) == multiset(Selected(opps, ApplicantMap(applicantSkills)))
    ensures forall j :: 0 <= j < |Recommend(applicantSkills, opps)| ==>
      Threshold <= Recommend(applicantSkills, opps)[j].score <= 1.0 &&
      NoDuplicateKeys(Recommend(applicantSkills, opps)[j].matchedSkills, Identity)
  {
    ApplicantMapPositive(applicantSkills);
    var sel := Selected(opps, ApplicantMap(applicantSkills));
    var r := Recommend(applicantSkills, opps);
    SortDescBySortedPermutation(sel, ScoreOf);
    forall j | 0 <= j < |r| ensures Threshold <= r[j].score <= 1.0 && NoDuplicateKeys(r[j].matchedSkills, Identity) {
      assert r[j] in multiset(sel);
    }
  }

  /**
   * With the current OpportunitySkill record, which has neither a weight nor a
   * mandatory property, no opportunity is excluded for a mandatory skill and every
   * requirement weighs 1.
   */
  lemma NoReflectedPropertiesMeansUnitWeights(skills: seq<OppSkill>, m: map<string, real>)
    requires forall i :: 0 <= i < |skills| ==> skills[i].weight.None? && skills[i].mandatory.None?
    ensures !MissingMandatory(Requirements(skills), m)
    ensures forall i :: 0 <= i < |skills| ==> Requirements(skills)[i].weight == 1.0
  {
  }

  // ---------------------------------------------------------------- the loops

  /** The first loop: the applicant map, over the normalised entries. */
  method BuildApplicantMap(skills: seq<SkillInput>) returns (m: map<string, real>)
    ensures m == ApplicantMap(skills)
  {
    var es := Entries(skills);
    m := map[];
    for n := 0 to |es|
      invariant m == MapOf(es[..n])
    {
      MapOfSnoc(es, n);
      var name := es[n].name;
      if IsBlank(name) {
        continue;
      }
      var w := es[n].weight;
      if name !in m || m[name] < w {
        m := m[name := w];
      }
    }
    assert es[..|es|] == es;
  }

  lemma MapOfSnoc(es: seq<Entry>, n: int)
    requires 0 <= n < |es|
    ensures var m, e := MapOf(es[..n]), es[n];
      MapOf(es[..n + 1]) ==
        if IsBlank(e.name) then m
        else if e.name !in m || m[e.name] < e.weight then m[e.name := e.weight]
        else m
  {
    assert es[..n + 1][..n] == es[..n];
  }

  /** The mandatory-skill loop, stopping at the first missing one. */
  method FindMissingMandatory(rs: seq<Requirement>, m: map<string, real>) returns (missing: bool)
    ensures missing == MissingMandatory(rs, m)
  {
    missing := false;
    var n := 0;
    while n < |rs|
      invariant 0 <= n <= |rs|
      invariant forall i :: 0 <= i < n ==> !(rs[i].mandatory && rs[i].name !in m)
    {
      if rs[n].mandatory && rs[n].name !in m {
        missing := true;
        return;
      }
      n := n + 1;
    }
  }

  /** The weighted-score loop with its two accumulators and the matched list. */
  method WeighSkills(rs: seq<Requirement>, m: map<string, real>) returns (totalWeight: real, matchedWeight: real, matched: seq<string>)
    ensures totalWeight == TotalWeight(rs) && matchedWeight == MatchedWeight(rs, m) && matched == Matched(rs, m)
  {
    totalWeight, matchedWeight, matched := 0.0, 0.0, [];
    for n := 0 to |rs|
      invariant totalWeight == TotalWeight(rs[..n])
      invariant matchedWeight == MatchedWeight(rs[..n], m)
      invariant matched == Matched(rs[..n], m)
    {
      assert rs[..n + 1][..n] == rs[..n];
      var skillName := rs[n].name;
      if IsBlank(skillName) {
        continue;
      }
      var reqWeight := rs[n].weight;
      totalWeight := totalWeight + reqWeight;
      if skillName in m {
        matchedWeight := matchedWeight + reqWeight * Min(1.0, m[skillName]);
        matched := matched + [skillName];
      }
    }
    assert rs[..|rs|] == rs;
  }

  method RecommendOpportunities(applicantSkills: seq<SkillInput>, opportunities: seq<Opportunity>)
    returns (results: seq<Recommended>)
    ensures results == Recommend(applicantSkills, opportunities)
  {
    var applicantMap := BuildApplicantMap(applicantSkills);
    ApplicantMapPositive(applicantSkills);
    var selected: seq<Recommended> := [];
    for n := 0 to |opportunities|
      invariant selected == Selected(opportunities[..n], applicantMap)
    {
      assert opportunities[..n + 1][..n] == opportunities[..n];
      var opp := opportunities[n];
      var requirements := Requirements(opp.skills);
      var missingMandatory := FindMissingMandatory(requirements, applicantMap);
      if missingMandatory {
        continue;
      }
      var totalWeight, matchedWeight, matched := WeighSkills(requirements, applicantMap);
      if totalWeight <= 0.0 {
        continue;
      }
      var score := matchedWeight / totalWeight;
      if score >= Threshold {
        selected := selected + [Recommended(opp.id, opp.title, Round4(score), DistinctBy(matched, Identity))];
      }
    }
    assert opportunities[..|opportunities|] == opportunities;
    results := SortDescBy(selected, ScoreOf);
  }
}
