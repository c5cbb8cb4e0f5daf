/**
 * Skill persistence (`SkillService`): extracted skill names are saved as rows of
 * the Skills catalogue and linked to a student (StudentSkills, source
 * "Extracted") or to an opportunity (OpportunitySkills). The catalogue never
 * holds two names that differ only in case: a name is looked up
 * case-insensitively and added only when missing.
 */
module SkillPersistence {
  import opened Wrappers
  import opened Text
  import opened Collections

  datatype Skill = Skill(id: int, name: string)

  datatype StudentSkill = StudentSkill(studentUserId: string, skillId: int, source: string,
                                       isVerified: bool, verifiedBy: Option<string>, createdAt: int)

  datatype OpportunitySkillLink = OpportunitySkillLink(opportunityId: int, skillId: int)

  /** The exceptions the service throws. */
  datatype Fault = ArgumentException | InvalidOperationException

  const ExtractedSource: string := "Extracted"

  /** The Skills table and the identity value the database assigns to the next row. */
  datatype Catalogue = Catalogue(skills: seq<Skill>, nextId: int)

  /** All the tables the service reads or writes; `profiles` holds the user ids of the StudentProfiles rows. */
  datatype Tables = Tables(catalogue: Catalogue, studentSkills: seq<StudentSkill>,
                           opportunitySkills: seq<OpportunitySkillLink>, profiles: seq<string>)

  predicate NoCaseDuplicates(skills: seq<Skill>) {
    forall i, j :: 0 <= i < j < |skills| ==> !EqualsIgnoreCase(skills[i].name, skills[j].name)
  }

  /** No two names equal ignoring case, and every id is below the next identity value (so ids are distinct). */
  predicate CatalogueValid(c: Catalogue) {
    NoCaseDuplicates(c.skills) &&
    (forall i :: 0 <= i < |c.skills| ==> c.skills[i].id < c.nextId) &&
    (forall i, j :: 0 <= i < j < |c.skills| ==> c.skills[i].id < c.skills[j].id)
  }

  /** The query `FirstOrDefault(s => s.Name.ToLower() == name.ToLower())`: the first match, or -1. */
  function FindSkill(skills: seq<Skill>, name: string): (k: int)
    ensures -1 <= k < |skills|
    ensures k >= 0 ==> EqualsIgnoreCase(skills[k].name, name)
    ensures k >= 0 ==> forall i :: 0 <= i < k ==> !EqualsIgnoreCase(skills[i].name, name)
    ensures k < 0 <==> forall i :: 0 <= i < |skills| ==> !EqualsIgnoreCase(skills[i].name, name)
    decreases |skills|
  {
    if skills == [] then -1
    else if EqualsIgnoreCase(skills[0].name, name) then 0
    else
      var k := FindSkill(skills[1..], name);
      if k < 0 then -1 else k + 1
  }

  /** A later lookup of `name` in `c` yields the skill `id`. */
  predicate Resolves(c: Catalogue, name: string, id: int) {
    var k := FindSkill(c.skills, name);
    k >= 0 && c.skills[k].id == id
  }

  /** The lookup of a trimmed, non-blank name: the existing id, or a new skill under the next id. */
  function Resolve(c: Catalogue, name: string): (r: (Catalogue, int))
  {
    var k := FindSkill(c.skills, name);
    if k >= 0 then (c, c.skills[k].id)
    else (Catalogue(c.skills + [Skill(c.nextId, name)], c.nextId + 1), c.nextId)
  }

  /** `GetOrCreateSkillIdAsync`. */
  function GetOrCreate(c: Catalogue, skillName: string): (r: Result<(Catalogue, int), Fault>)
  {
    var name := Strip(skillName);
    if IsBlank(name) then Failure(ArgumentException) else Success(Resolve(c, name))
  }

  /** Looking up in a longer catalogue finds the same first match. */
  lemma FindSkillExtend(skills: seq<Skill>, more: seq<Skill>, name: string)
    requires FindSkill(skills, name) >= 0
    ensures FindSkill(skills + more, name) == FindSkill(skills, name)
  {
    var k := FindSkill(skills, name);
    var all := skills + more;
    assert all[k] == skills[k];
    forall i | 0 <= i < k ensures !EqualsIgnoreCase(all[i].name, name) {
      assert all[i] == skills[i];
    }
  }

  /** A name that resolves in a catalogue resolves to the same id in any extension of it. */
  lemma ResolvesExtend(c: Catalogue, d: Catalogue, name: string, id: int)
    requires Resolves(c, name, id) && c.skills <= d.skills
    ensures Resolves(d, name, id)
  {
    var more := d.skills[|c.skills|..];
    assert d.skills == c.skills + more;
    FindSkillExtend(c.skills, more, name);
  }

  /**
   * An existing name (in any case) is reused and nothing is added; a missing one is
   * added exactly once under the next id. Either way the catalogue stays free of
   * case-insensitive duplicates and the name now resolves to the returned id.
   */
  lemma ResolveSound(c: Catalogue, name: string)
    requires CatalogueValid(c)
    ensures var r := Resolve(c, name);
      CatalogueValid(r.0) && Resolves(r.0, name, r.1) && c.skills <= r.0.skills && c.nextId <= r.0.nextId
    ensures var r := Resolve(c, name);
      FindSkill(c.skills, name) >= 0 ==> r.0 == c
    ensures var r := Resolve(c, name);
      FindSkill(c.skills, name) < 0 ==> r.0.skills == c.skills + [Skill(c.nextId, name)] && r.1 == c.nextId
  {
    var r := Resolve(c, name);
    if FindSkill(c.skills, name) < 0 {
      var s := r.0.skills;
      assert s[|c.skills|] == Skill(c.nextId, name);
      forall i, j | 0 <= i < j < |s| ensures !EqualsIgnoreCase(s[i].name, s[j].name) {
        if j == |c.skills| {
          assert s[i] == c.skills[i];
        } else {
          assert s[i] == c.skills[i] && s[j] == c.skills[j];
        }
      }
      forall i | 0 <= i < |c.skills| ensures !EqualsIgnoreCase(s[i].name, name) {
        assert s[i] == c.skills[i];
      }
    }
  }

  /** Asking again for the same name in another case returns the same id and changes nothing. */
  lemma ResolveReuses(c: Catalogue, name: string, other: string)
    requires CatalogueValid(c) && EqualsIgnoreCase(name, other)
    ensures Resolve(Resolve(c, name).0, other) == Resolve(c, name)
  {
    ResolveSound(c, name);
    var c1 := Resolve(c, name).0;
    var k := FindSkill(c1.skills, name);
    assert FindSkill(c1.skills, other) == k;
  }

  /** The names the save loops link: each trimmed, blanks skipped, in input order, duplicates kept. */
  function Cleaned(names: seq<string>): (r: seq<string>)
    ensures |r| <= |names|
    ensures forall k :: 0 <= k < |r| ==> !IsBlank(r[k])
    decreases |names|
  {
    if names == [] then []
    else
      var name := Strip(names[|names| - 1]);
      Cleaned(names[..|names| - 1]) + (if IsBlank(name) then [] else [name])
  }

  /** The catalogue after resolving `names` one after another, and the ids obtained. */
  function ResolveAll(c: Catalogue, names: seq<string>): (r: (Catalogue, seq<int>))
    ensures |r.1| == |names|
    decreases |names|
  {
    if names == [] then (c, [])
    else
      var prev := ResolveAll(c, names[..|names| - 1]);
      var step := Resolve(prev.0, names[|names| - 1]);
      (step.0, prev.1 + [step.1])
  }

  lemma ResolveAllSnoc(c: Catalogue, names: seq<string>, name: string)
    ensures var prev := ResolveAll(c, names);
      ResolveAll(c, names + [name]) == (Resolve(prev.0, name).0, prev.1 + [Resolve(prev.0, name).1])
  {
    assert (names + [name])[..|names|] == names;
  }

  /** The lookups keep the catalogue valid and only ever append to it. */
  lemma {:induction false} ResolveAllValid(c: Catalogue, names: seq<string>)
    requires CatalogueValid(c)
    ensures var r := ResolveAll(c, names);
      CatalogueValid(r.0) && c.skills <= r.0.skills
    decreases |names|
  {
    if names != [] {
      var init := names[..|names| - 1];
      ResolveAllValid(c, init);
      ResolveSound(ResolveAll(c, init).0, names[|names| - 1]);
    }
  }

  /** Each name resolves, in the final catalogue, to the id obtained for it. */
  lemma {:induction false} ResolveAllSound(c: Catalogue, names: seq<string>)
    requires CatalogueValid(c)
    ensures var r := ResolveAll(c, names);
      forall k :: 0 <= k < |names| ==> Resolves(r.0, names[k], r.1[k])
    decreases |names|
  {
    if names != [] {
      var n := |names| - 1;
      var init := names[..n];
      ResolveAllSound(c, init);
      ResolveAllValid(c, init);
      var prev := ResolveAll(c, init);
      var step := Resolve(prev.0, names[n]);
      ResolveSound(prev.0, names[n]);
      var r := ResolveAll(c, names);
      assert r == (step.0, prev.1 + [step.1]);
      forall k | 0 <= k < |names| ensures Resolves(r.0, names[k], r.1[k]) {
        if k < n {
          assert names[k] == init[k] && r.1[k] == prev.1[k];
          ResolvesExtend(prev.0, r.0, names[k], r.1[k]);
        }
      }
    }
  }

  /** The rows added for a student, one per id, unverified. */
  function StudentRows(userId: string, ids: seq<int>, now: int): (r: seq<StudentSkill>)
    ensures |r| == |ids|
    ensures forall k :: 0 <= k < |ids| ==>
      r[k] == StudentSkill(userId, ids[k], ExtractedSource, false, None, now)
  {
    seq(|ids|, k requires 0 <= k < |ids| => StudentSkill(userId, ids[k], ExtractedSource, false, None, now))
  }

  function OpportunityRows(opportunityId: int, ids: seq<int>): (r: seq<OpportunitySkillLink>)
    ensures |r| == |ids|
    ensures forall k :: 0 <= k < |ids| ==> r[k] == OpportunitySkillLink(opportunityId, ids[k])
  {
    seq(|ids|, k requires 0 <= k < |ids| => OpportunitySkillLink(opportunityId, ids[k]))
  }

  /** The rows `SaveStudentSkillsAsync` deletes: this student's extracted skills. */
  function IsExtractedOf(userId: string): StudentSkill -> bool {
    (row: StudentSkill) => row.studentUserId == userId && row.source == ExtractedSource
  }

  function LinkedTo(opportunityId: int): OpportunitySkillLink -> bool {
    (link: OpportunitySkillLink) => link.opportunityId == opportunityId
  }

  /** `StudentProfileExistsAsync`. */
  predicate ProfileExists(t: Tables, userId: string) {
    !IsBlank(userId) && userId in t.profiles
  }

  /** `SaveStudentSkillsAsync`: the new tables and the exception thrown, if any. */
  function SaveStudentSkillsStep(t: Tables, userId: string, names: seq<string>, now: int): (r: (Tables, Option<Fault>))
  {
    if IsBlank(userId) then (t, Some(ArgumentException))
    else if !ProfileExists(t, userId) then (t, Some(InvalidOperationException))
    else
      var kept := Filter(t.studentSkills, Not(IsExtractedOf(userId)));
      var res := ResolveAll(t.catalogue, Cleaned(names));
      (t.(catalogue := res.0, studentSkills := kept + StudentRows(userId, res.1, now)), None)
  }

  /** `SaveOpportunitySkillsAsync`. */
  function SaveOpportunitySkillsStep(t: Tables, opportunityId: int, names: seq<string>): (r: (Tables, Option<Fault>))
  {
    if opportunityId <= 0 then (t, Some(ArgumentException))
    else
      var kept := Filter(t.opportunitySkills, Not(LinkedTo(opportunityId)));
      var res := ResolveAll(t.catalogue, Cleaned(names));
      (t.(catalogue := res.0, opportunitySkills := kept + OpportunityRows(opportunityId, res.1)), None)
  }

  /**
   * The guards come first and change nothing: a blank user id is an argument error
   * and a user without a profile an invalid operation. Otherwise the save succeeds.
   */
  lemma SaveStudentSkillsGuards(t: Tables, userId: string, names: seq<string>, now: int)
    ensures var r := SaveStudentSkillsStep(t, userId, names, now);
      r.1 == (if IsBlank(userId) then Some(ArgumentException)
              else if userId !in t.profiles then Some(InvalidOperationException) else None)
    ensures var r := SaveStudentSkillsStep(t, userId, names, now);
      r.1.Some? ==> r.0 == t
  {
  }

  /**
   * A successful save leaves every row other than this student's extracted ones as it
   * was and in order, leaves the opportunity links alone, and replaces the student's
   * extracted rows by one unverified row per cleaned input name, in input order, each
   * pointing at the catalogue skill that name resolves to; the catalogue stays valid.
   */
  lemma SaveStudentSkillsRules(t: Tables, userId: string, names: seq<string>, now: int)
    requires CatalogueValid(t.catalogue)
    requires SaveStudentSkillsStep(t, userId, names, now).1.None?
    ensures var n := SaveStudentSkillsStep(t, userId, names, now).0;
      Filter(n.studentSkills, Not(IsExtractedOf(userId))) == Filter(t.studentSkills, Not(IsExtractedOf(userId))) &&
      n.opportunitySkills == t.opportunitySkills && n.profiles == t.profiles
    ensures var n := SaveStudentSkillsStep(t, userId, names, now).0;
      var rows := Filter(n.studentSkills, IsExtractedOf(userId));
      var cleaned := Cleaned(names);
      |rows| == |cleaned| && CatalogueValid(n.catalogue) && t.catalogue.skills <= n.catalogue.skills &&
      forall k :: 0 <= k < |rows| ==>
        rows[k].studentUserId == userId && rows[k].source == ExtractedSource &&
        !rows[k].isVerified && rows[k].verifiedBy.None? && rows[k].createdAt == now &&
        Resolves(n.catalogue, cleaned[k], rows[k].skillId)
  {
    var res := ResolveAll(t.catalogue, Cleaned(names));
    var added := StudentRows(userId, res.1, now);
    ResolveAllValid(t.catalogue, Cleaned(names));
    ResolveAllSound(t.catalogue, Cleaned(names));
    FilterReplaced(t.studentSkills, added, IsExtractedOf(userId));
  }

  /** Every added link belongs to the opportunity. */
  lemma OpportunityRowsLinked(opportunityId: int, ids: seq<int>)
    ensures forall k :: 0 <= k < |ids| ==> LinkedTo(opportunityId)(OpportunityRows(opportunityId, ids)[k])
  {
  }

  /** A failed opportunity save changes nothing; a successful one changes only that opportunity's links. */
  lemma SaveOpportunitySkillsRules(t: Tables, opportunityId: int, names: seq<string>)
    requires CatalogueValid(t.catalogue)
    ensures var r := SaveOpportunitySkillsStep(t, opportunityId, names);
      (r.1 == Some(ArgumentException) <==> opportunityId <= 0) && (r.1.Some? ==> r.0 == t)
    ensures var r := SaveOpportunitySkillsStep(t, opportunityId, names);
      r.1.None? ==>
        Filter(r.0.opportunitySkills, Not(LinkedTo(opportunityId))) == Filter(t.opportunitySkills, Not(LinkedTo(opportunityId))) &&
        r.0.studentSkills == t.studentSkills && CatalogueValid(r.0.catalogue)
    ensures var r := SaveOpportunitySkillsStep(t, opportunityId, names);
      var links := Filter(r.0.opportunitySkills, LinkedTo(opportunityId));
      var cleaned := Cleaned(names);
      r.1.None? ==>
        |links| == |cleaned| &&
        forall k :: 0 <= k < |links| ==> links[k].opportunityId == opportunityId && Resolves(r.0.catalogue, cleaned[k], links[k].skillId)
  {
    if opportunityId > 0 {
      var res := ResolveAll(t.catalogue, Cleaned(names));
      var added := OpportunityRows(opportunityId, res.1);
      ResolveAllValid(t.catalogue, Cleaned(names));
      ResolveAllSound(t.catalogue, Cleaned(names));
      OpportunityRowsLinked(opportunityId, res.1);
      FilterReplaced(t.opportunitySkills, added, LinkedTo(opportunityId));
    }
  }

  /** The service over the database context's tables. */
  class SkillService {
    var skills: seq<Skill>
    var nextSkillId: int
    var studentSkills: seq<StudentSkill>
    var opportunitySkills: seq<OpportunitySkillLink>
    var profiles: seq<string>

    function State(): Tables
      reads this
    {
      Tables(Catalogue(skills, nextSkillId), studentSkills, opportunitySkills, profiles)
    }

    ghost predicate Valid()
      reads this
    {
      CatalogueValid(State().catalogue)
    }

    constructor (profiles: seq<string>)
      ensures State() == Tables(Catalogue([], 1), [], [], profiles) && Valid()
    {
      skills := [];
      nextSkillId := 1;
      studentSkills := [];
      opportunitySkills := [];
      this.profiles := profiles;
    }

    /** `GetOrCreateSkillIdAsync`: the id, or the exception for a blank name. */
    method GetOrCreateSkillId(skillName: string) returns (r: Result<int, Fault>)
      modifies this
      ensures match GetOrCreate(old(State().catalogue), skillName)
        case Failure(e) => r == Failure(e) && State() == old(State())
        case Success(v) => r == Success(v.1) && State() == old(State()).(catalogue := v.0)
    {
      var name := Strip(skillName);
      if IsBlank(name) {
        return Failure(ArgumentException);
      }
      var k := FindSkill(skills, name);
      if k >= 0 {
        return Success(skills[k].id);
      }
      var skill := Skill(nextSkillId, name);
      skills := skills + [skill];
      nextSkillId := nextSkillId + 1;
      r := Success(skill.id);
    }

    /** The insert loop shared by both saves: resolves each cleaned name in turn. */
    method ResolveNames(names: seq<string>) returns (ids: seq<int>)
      modifies this
      ensures (State().catalogue, ids) == ResolveAll(old(State().catalogue), Cleaned(names))
      ensures studentSkills == old(studentSkills) && opportunitySkills == old(opportunitySkills) && profiles == old(profiles)
    {
      ghost var c0 := State().catalogue;
      ids := [];
      for n := 0 to |names|
        invariant State().catalogue == ResolveAll(c0, Cleaned(names[..n])).0
        invariant ids == ResolveAll(c0, Cleaned(names[..n])).1
        invariant studentSkills == old(studentSkills) && opportunitySkills == old(opportunitySkills) && profiles == old(profiles)
      {
        CleanedSnoc(names, n);
        var name := Strip(names[n]);
        if IsBlank(name) {
          continue;
        }
        GetOrCreateTrimmed(State().catalogue, names[n]);
        ResolveAllSnoc(c0, Cleaned(names[..n]), name);
        var r := GetOrCreateSkillId(name);
        match r
        case Success(id) => ids := ids + [id];
        case Failure(_) => assert false;
      }
      assert names[..|names|] == names;
    }

    /** `SaveStudentSkillsAsync`. */
    method SaveStudentSkills(studentUserId: string, names: seq<string>, now: int) returns (fault: Option<Fault>)
      requires Valid()
      modifies this
      ensures (State(), fault) == SaveStudentSkillsStep(old(State()), studentUserId, names, now)
      ensures Valid()
    {
      if IsBlank(studentUserId) {
        return Some(ArgumentException);
      }
      if studentUserId !in profiles {
        return Some(InvalidOperationException);
      }
      ResolveAllValid(State().catalogue, Cleaned(names));
      var kept := Filter(studentSkills, Not(IsExtractedOf(studentUserId)));
      studentSkills := kept;
      var ids := ResolveNames(names);
      studentSkills := kept + StudentRows(studentUserId, ids, now);
      fault := None;
    }

    /** `SaveOpportunitySkillsAsync`. */
    method SaveOpportunitySkills(opportunityId: int, names: seq<string>) returns (fault: Option<Fault>)
      requires Valid()
      modifies this
      ensures (State(), fault) == SaveOpportunitySkillsStep(old(State()), opportunityId, names)
      ensures Valid()
    {
      if opportunityId <= 0 {
        return Some(ArgumentException);
      }
      ResolveAllValid(State().catalogue, Cleaned(names));
      var kept := Filter(opportunitySkills, Not(LinkedTo(opportunityId)));
      opportunitySkills := kept;
      var ids := ResolveNames(names);
      opportunitySkills := kept + OpportunityRows(opportunityId, ids);
      fault := None;
    }
  }

  /** A trimmed non-blank name is its own trim, so the inner lookup never fails. */
  lemma GetOrCreateTrimmed(c: Catalogue, raw: string)
    requires !IsBlank(Strip(raw))
    ensures GetOrCreate(c, Strip(raw)) == Success(Resolve(c, Strip(raw)))
  {
    StripUnchanged(Strip(raw));
  }

  lemma CleanedSnoc(names: seq<string>, n: int)
    requires 0 <= n < |names|
    ensures IsBlank(Strip(names[n])) ==> Cleaned(names[..n + 1]) == Cleaned(names[..n])
    ensures !IsBlank(Strip(names[n])) ==> Cleaned(names[..n + 1]) == Cleaned(names[..n]) + [Strip(names[n])]
  {
    assert names[..n + 1][..n] == names[..n];
    assert Cleaned(names[..n]) + [] == Cleaned(names[..n]);
  }
}
