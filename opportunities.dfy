/**
 * The helpers of the opportunities controller: the paging clamps and the type
 * and level parameters of the public listing, its pay-range filter, the list
 * cleaning applied when a recruiter's list field is written, the similarity
 * score and selection of the "similar opportunities" endpoint, and the
 * endpoints that change rows: close, reopen and apply. Money is `real` (C#
 * `decimal`), the similarity score is `real` (C# `double`), and the clock is
 * the parameter `now`.
 */
module Opportunities {
  import opened Wrappers
  import opened Text
  import opened Collections
  import opened Numeric
  import AssessmentEngine

  datatype OpportunityType = Internship | Job | Scholarship | Workshop
  datatype ExperienceLevel = Intern | Entry | Junior | Senior
  datatype WorkMode = OnSite | Remote | Hybrid

  type ApplicationStatus = AssessmentEngine.ApplicationStatus

  /** The columns of an Opportunities row that these endpoints read or write; `skills` are the linked skill names. */
  datatype Opportunity = Opportunity(
    id: int,
    oppType: OpportunityType,
    level: ExperienceLevel,
    workMode: WorkMode,
    location: Option<string>,
    minPay: Option<real>,
    maxPay: Option<real>,
    isClosed: bool,
    closedAt: Option<int>,
    skills: seq<string>)

  datatype Application = Application(id: int, opportunityId: int, userId: string, status: ApplicationStatus, createdAt: int)

  // ------------------------------------------------------------------ paging

  const DefaultPageSize: int := 10
  const MaxPageSize: int := 50

  /** The three reassignments at the top of the listing: page at least 1, page size within 1..50, 10 when below 1. */
  method ClampPaging(page: int, pageSize: int) returns (p: int, size: int)
    ensures p >= 1 && 1 <= size <= MaxPageSize
    ensures page >= 1 ==> p == page
    ensures page < 1 ==> p == 1
    ensures 1 <= pageSize <= MaxPageSize ==> size == pageSize
    ensures pageSize < 1 ==> size == DefaultPageSize
    ensures pageSize > MaxPageSize ==> size == MaxPageSize
  {
    p, size := page, pageSize;
    if p < 1 {
      p := 1;
    }
    if size < 1 {
      size := DefaultPageSize;
    }
    if size > MaxPageSize {
      size := MaxPageSize;
    }
  }

  lemma ProductNonNegative(a: int, b: int)
    requires a >= 0 && b >= 0
    ensures a * b >= 0
  {
  }

  /** `Skip((page - 1) * pageSize).Take(pageSize)` over the filtered and ordered rows. */
  function PageWindow<T>(items: seq<T>, page: int, size: int): (r: seq<T>)
    requires page >= 1 && size >= 1
    ensures |r| <= size
    ensures forall k :: 0 <= k < |r| ==> (page - 1) * size + k < |items| && r[k] == items[(page - 1) * size + k]
    ensures |r| == size || (page - 1) * size + |r| >= |items|
  {
    ProductNonNegative(page - 1, size);
    Window(items, (page - 1) * size, size)
  }

  /** The `size` rows after the first `skip`: a full window, or all the rows up to the end. */
  function Window<T>(items: seq<T>, skip: nat, size: nat): (r: seq<T>)
    ensures |r| <= size
    ensures forall k :: 0 <= k < |r| ==> skip + k < |items| && r[k] == items[skip + k]
    ensures |r| == size || skip + |r| >= |items|
  {
    if skip >= |items| then [] else Take(items[skip..], size)
  }

  /** Every row lies on exactly the page its index names: index `i` is item `i % size` of page `i / size + 1`. */
  lemma EveryItemOnItsPage<T>(items: seq<T>, size: int, i: int)
    requires size >= 1 && 0 <= i < |items|
    ensures i % size < |PageWindow(items, i / size + 1, size)|
    ensures PageWindow(items, i / size + 1, size)[i % size] == items[i]
  {
    var p, k := i / size, i % size;
    var base := p * size;
    assert i == base + k && 0 <= k < size;
    assert (p + 1 - 1) * size == base;
    var w := PageWindow(items, p + 1, size);
    assert |w| == size || base + |w| >= |items|;
    assert k < |w|;
    assert w[k] == items[base + k];
  }

  // ------------------------------------------------------------------ type and level parameters

  datatype ListingError = InvalidType | InvalidLevel

  function TypeName(t: OpportunityType): string {
    match t
    case Internship => "Internship"
    case Job => "Job"
    case Scholarship => "Scholarship"
    case Workshop => "Workshop"
  }

  function LevelName(l: ExperienceLevel): string {
    match l
    case Intern => "Intern"
    case Entry => "Entry"
    case Junior => "Junior"
    case Senior => "Senior"
  }

  /** `Enum.TryParse<OpportunityType>(s, ignoreCase: true)` on the member names. */
  function ParseTypeName(s: string): Option<OpportunityType> {
    if EqualsIgnoreCase(s, TypeName(Internship)) then Some(Internship)
    else if EqualsIgnoreCase(s, TypeName(Job)) then Some(Job)
    else if EqualsIgnoreCase(s, TypeName(Scholarship)) then Some(Scholarship)
    else if EqualsIgnoreCase(s, TypeName(Workshop)) then Some(Workshop)
    else None
  }

  /** `Enum.TryParse<ExperienceLevel>(s, ignoreCase: true)` on the member names. */
  function ParseLevelName(s: string): Option<ExperienceLevel> {
    if EqualsIgnoreCase(s, LevelName(Intern)) then Some(Intern)
    else if EqualsIgnoreCase(s, LevelName(Entry)) then Some(Entry)
    else if EqualsIgnoreCase(s, LevelName(Junior)) then Some(Junior)
    else if EqualsIgnoreCase(s, LevelName(Senior)) then Some(Senior)
    else None
  }

  /** A type name is recognised exactly when it equals, ignoring case, the name of that member. */
  lemma ParseTypeNameExact(s: string, t: OpportunityType)
    ensures ParseTypeName(s) == Some(t) <==> EqualsIgnoreCase(s, TypeName(t))
  {
    // The four names have four different lengths, so at most one matches.
    assert |Lower(TypeName(Internship))| == 10 && |Lower(TypeName(Job))| == 3;
    assert |Lower(TypeName(Scholarship))| == 11 && |Lower(TypeName(Workshop))| == 8;
  }

  lemma ParseLevelNameExact(s: string, l: ExperienceLevel)
    ensures ParseLevelName(s) == Some(l) <==> EqualsIgnoreCase(s, LevelName(l))
  {
    // "Entry" is the only five-letter name; the other three differ in their first letter.
    assert |Lower(LevelName(Entry))| == 5;
    assert Lower(LevelName(Intern))[0] == 'i' && |Lower(LevelName(Intern))| == 6;
    assert Lower(LevelName(Junior))[0] == 'j' && |Lower(LevelName(Junior))| == 6;
    assert Lower(LevelName(Senior))[0] == 's' && |Lower(LevelName(Senior))| == 6;
  }

  /** The switch of the listing: three interface aliases, then the enum names. */
  function MapLevel(level: string): Option<ExperienceLevel> {
    var raw := Lower(Strip(level));
    if raw == "beginner" then Some(Entry)
    else if raw == "intermediate" then Some(Junior)
    else if raw == "senior" then Some(Senior)
    else ParseLevelName(Strip(level))
  }

  predicate IsLevelAlias(raw: string) { raw == "beginner" || raw == "intermediate" || raw == "senior" }

  lemma NameTrimmed(s: string)
    requires s != [] && 'A' <= s[0] <= 'Z' && 'a' <= s[|s| - 1] <= 'z'
    ensures Strip(s) == s
  {
    StripUnchanged(s);
  }

  /**
   * beginner, intermediate and senior (in any case, with surrounding spaces) map to
   * Entry, Junior and Senior; any other text maps to the level whose name it equals
   * ignoring case, or to nothing.
   */
  lemma MapLevelRules(level: string, l: ExperienceLevel)
    ensures Lower(Strip(level)) == "beginner" ==> MapLevel(level) == Some(Entry)
    ensures Lower(Strip(level)) == "intermediate" ==> MapLevel(level) == Some(Junior)
    ensures Lower(Strip(level)) == "senior" ==> MapLevel(level) == Some(Senior)
    ensures !IsLevelAlias(Lower(Strip(level))) ==>
      (MapLevel(level) == Some(l) <==> EqualsIgnoreCase(Strip(level), LevelName(l)))
  {
    ParseLevelNameExact(Strip(level), l);
  }

  /** Every level's own name, in its own spelling, maps to that level. */
  lemma MapLevelOfName(l: ExperienceLevel)
    ensures MapLevel(LevelName(l)) == Some(l)
  {
    var name := LevelName(l);
    NameTrimmed(name);
    ParseLevelNameExact(name, l);
    if l == Senior {
      assert Lower(name) == "senior";
    } else {
      assert Lower(name) != "senior" by { assert Lower(name)[0] != 's'; }
      assert |Lower(name)| < 8;
    }
  }

  /** The `type` query parameter: blank means no filter, otherwise a member name or an error. */
  function TypeParameter(oppType: Option<string>): Result<Option<OpportunityType>, ListingError> {
    if oppType.None? || IsBlank(oppType.value) then Success(None)
    else match ParseTypeName(Strip(oppType.value))
      case Some(t) => Success(Some(t))
      case None => Failure(InvalidType)
  }

  /** The `level` query parameter: blank means no filter, otherwise the mapped level or an error. */
  function LevelParameter(level: Option<string>): Result<Option<ExperienceLevel>, ListingError> {
    if level.None? || IsBlank(level.value) then Success(None)
    else match MapLevel(level.value)
      case Some(l) => Success(Some(l))
      case None => Failure(InvalidLevel)
  }

  /** A present, non-blank parameter is either an error or a filter on exactly the member it names. */
  lemma ParametersRules(oppType: Option<string>, level: Option<string>, t: OpportunityType, l: ExperienceLevel)
    ensures TypeParameter(oppType) == Success(None) <==> oppType.None? || IsBlank(oppType.value)
    ensures oppType.Some? && !IsBlank(oppType.value) ==>
      (TypeParameter(oppType) == Success(Some(t)) <==> EqualsIgnoreCase(Strip(oppType.value), TypeName(t)))
    ensures LevelParameter(level) == Success(None) <==> level.None? || IsBlank(level.value)
    ensures level.Some? && !IsBlank(level.value) ==>
      (LevelParameter(level) == Success(Some(l)) <==> MapLevel(level.value) == Some(l))
  {
    if oppType.Some? {
      ParseTypeNameExact(Strip(oppType.value), t);
    }
  }

  // ------------------------------------------------------------------ pay filter

  /** The two pay conditions: `MaxPay == null || MaxPay >= minPay` and `MinPay == null || MinPay <= maxPay`. */
  predicate PayMatches(o: Opportunity, minPay: Option<real>, maxPay: Option<real>) {
    (minPay.None? || o.maxPay.None? || o.maxPay.value >= minPay.value) &&
    (maxPay.None? || o.minPay.None? || o.minPay.value <= maxPay.value)
  }

  /** `x` lies between the bounds; an absent bound is unbounded. */
  predicate Within(x: real, lo: Option<real>, hi: Option<real>) {
    (lo.None? || lo.value <= x) && (hi.None? || x <= hi.value)
  }

  predicate WellFormed(lo: Option<real>, hi: Option<real>) {
    lo.Some? && hi.Some? ==> lo.value <= hi.value
  }

  function Larger(a: Option<real>, b: Option<real>): (r: Option<real>)
    ensures r.Some? <==> a.Some? || b.Some?
    ensures r.Some? ==> (a.Some? ==> a.value <= r.value) && (b.Some? ==> b.value <= r.value)
    ensures r.Some? ==> r == a || r == b
  {
    if a.None? then b else if b.None? then a else if a.value >= b.value then a else b
  }

  function Smaller(a: Option<real>, b: Option<real>): (r: Option<real>)
    ensures r.Some? <==> a.Some? || b.Some?
    ensures r.Some? ==> (a.Some? ==> r.value <= a.value) && (b.Some? ==> r.value <= b.value)
    ensures r.Some? ==> r == a || r == b
  {
    if a.None? then b else if b.None? then a else if a.value <= b.value then a else b
  }

  /**
   * The filter keeps exactly the opportunities whose pay range overlaps the
   * requested one, an absent bound on either side being open.
   */
  lemma PayOverlap(o: Opportunity, minPay: Option<real>, maxPay: Option<real>)
    requires WellFormed(o.minPay, o.maxPay) && WellFormed(minPay, maxPay)
    ensures PayMatches(o, minPay, maxPay) <==>
      exists x :: Within(x, o.minPay, o.maxPay) && Within(x, minPay, maxPay)
  {
    if PayMatches(o, minPay, maxPay) {
      var lo := Larger(o.minPay, minPay);
      var hi := Smaller(o.maxPay, maxPay);
      var x := if lo.Some? then lo.value else if hi.Some? then hi.value else 0.0;
      assert Within(x, o.minPay, o.maxPay) && Within(x, minPay, maxPay);
    }
  }

  // ------------------------------------------------------------------ writing a list field

  predicate IsTrimmedName(s: string) { s != [] && !IsSpace(s[0]) && !IsSpace(s[|s| - 1]) }

  /** `Where(x => !IsNullOrWhiteSpace(x)).Select(x => x.Trim())`; a null entry is `None`. */
  function TrimmedEntries(list: seq<Option<string>>): (r: seq<string>)
    ensures forall k :: 0 <= k < |r| ==> IsTrimmedName(r[k])
    decreases |list|
  {
    if list == [] then []
    else
      var x := list[|list| - 1];
      var r := TrimmedEntries(list[..|list| - 1]);
      if x.Some? && !IsBlank(x.value) then r + [Strip(x.value)] else r
  }

  /** `s` is the trimmed form of a non-null entry of `list`. */
  predicate FromEntry(list: seq<Option<string>>, s: string) {
    exists i :: 0 <= i < |list| && list[i].Some? && s == Strip(list[i].value)
  }

  /** Every kept entry is the trimmed form of a non-null entry of the list. */
  lemma {:induction false} TrimmedEntriesSound(list: seq<Option<string>>)
    ensures forall k :: 0 <= k < |TrimmedEntries(list)| ==> FromEntry(list, TrimmedEntries(list)[k])
    decreases |list|
  {
    if list != [] {
      var n := |list| - 1;
      var init := list[..n];
      TrimmedEntriesSound(init);
      var p := TrimmedEntries(init);
      var r := TrimmedEntries(list);
      forall k | 0 <= k < |r| ensures FromEntry(list, r[k]) {
        if k < |p| {
          assert FromEntry(init, p[k]) && r[k] == p[k];
          var i :| 0 <= i < |init| && init[i].Some? && p[k] == Strip(init[i].value);
          assert list[i] == init[i];
        } else {
          assert list[n].Some? && r[k] == Strip(list[n].value);
        }
      }
    }
  }

  /** Every non-null, non-blank entry is kept, trimmed. */
  lemma {:induction false} TrimmedEntriesCovers(list: seq<Option<string>>)
    ensures forall i :: 0 <= i < |list| && list[i].Some? && !IsBlank(list[i].value) ==>
      Strip(list[i].value) in TrimmedEntries(list)
    decreases |list|
  {
    if list != [] {
      var n := |list| - 1;
      var init := list[..n];
      TrimmedEntriesCovers(init);
      var p := TrimmedEntries(init);
      var r := TrimmedEntries(list);
      assert p <= r;
      forall i | 0 <= i < |list| && list[i].Some? && !IsBlank(list[i].value) ensures Strip(list[i].value) in r {
        if i < n {
          assert list[i] == init[i];
          assert Strip(init[i].value) in p;
        }
      }
    }
  }

  /** `WriteList`: the cleaned, case-insensitively distinct list that is serialised, or null. */
  function WriteList(list: Option<seq<Option<string>>>): Option<seq<string>> {
    if list.None? then None
    else
      var cleaned := DistinctBy(TrimmedEntries(list.value), Lower);
      if cleaned == [] then None else Some(cleaned)
  }

  /** Null gives null; otherwise the result is null exactly when every entry is null or blank. */
  lemma WriteListNull(list: Option<seq<Option<string>>>)
    ensures list.None? ==> WriteList(list).None?
    ensures list.Some? ==> (WriteList(list).None? <==>
      forall i :: 0 <= i < |list.value| ==> list.value[i].None? || IsBlank(list.value[i].value))
  {
    if list.Some? {
      var t := TrimmedEntries(list.value);
      DistinctByEmpty(t, Lower);
      TrimmedEntriesSound(list.value);
      TrimmedEntriesCovers(list.value);
      if t != [] {
        assert FromEntry(list.value, t[0]);
      }
    }
  }

  /** A written list is trimmed and free of case-insensitive duplicates. */
  lemma WriteListTrimmed(list: Option<seq<Option<string>>>)
    requires WriteList(list).Some?
    ensures forall k :: 0 <= k < |WriteList(list).value| ==> IsTrimmedName(WriteList(list).value[k])
    ensures NoDuplicateKeys(WriteList(list).value, Lower)
  {
    var t := TrimmedEntries(list.value);
    var r := DistinctBy(t, Lower);
    DistinctByFirstOccurrences(t, Lower);
    DistinctByNoDuplicates(t, Lower);
    forall k | 0 <= k < |r| ensures IsTrimmedName(r[k]) {
      var j := FirstIndex(t, Lower, Lower(r[k]));
    }
  }

  /** For each key the written list keeps the first trimmed entry with that key, in order of first occurrence. */
  lemma WriteListFirstOccurrences(list: Option<seq<Option<string>>>)
    requires WriteList(list).Some?
    ensures var r, t := WriteList(list).value, TrimmedEntries(list.value);
      (forall k :: 0 <= k < |r| ==> Lower(r[k]) in KeysOf(t, Lower) && r[k] == t[FirstIndex(t, Lower, Lower(r[k]))]) &&
      (forall k, l :: 0 <= k < l < |r| ==>
        (Lower(r[k]) in KeysOf(t, Lower) && Lower(r[l]) in KeysOf(t, Lower) &&
         FirstIndex(t, Lower, Lower(r[k])) < FirstIndex(t, Lower, Lower(r[l]))))
  {
    DistinctByFirstOccurrences(TrimmedEntries(list.value), Lower);
  }

  /** Every non-blank entry has its key in the written list. */
  lemma WriteListCovers(list: Option<seq<Option<string>>>)
    requires WriteList(list).Some?
    ensures forall i :: 0 <= i < |list.value| && list.value[i].Some? && !IsBlank(list.value[i].value) ==>
      Lower(Strip(list.value[i].value)) in KeysOf(WriteList(list).value, Lower)
  {
    var t := TrimmedEntries(list.value);
    DistinctByKeys(t, Lower);
    TrimmedEntriesCovers(list.value);
    forall i | 0 <= i < |list.value| && list.value[i].Some? && !IsBlank(list.value[i].value)
      ensures Lower(Strip(list.value[i].value)) in KeysOf(t, Lower)
    {
      var j :| 0 <= j < |t| && t[j] == Strip(list.value[i].value);
    }
  }

  /** The entries of a list with no null among them. */
  function AsEntries(xs: seq<string>): (r: seq<Option<string>>)
    ensures |r| == |xs| && forall k :: 0 <= k < |xs| ==> r[k] == Some(xs[k])
  {
    seq(|xs|, k requires 0 <= k < |xs| => Some(xs[k]))
  }

  lemma {:induction false} TrimmedEntriesOfTrimmed(xs: seq<string>)
    requires forall k :: 0 <= k < |xs| ==> IsTrimmedName(xs[k])
    ensures TrimmedEntries(AsEntries(xs)) == xs
    decreases |xs|
  {
    if xs != [] {
      var init := xs[..|xs| - 1];
      var x := xs[|xs| - 1];
      var e := AsEntries(xs);
      assert e[..|xs| - 1] == AsEntries(init);
      TrimmedEntriesOfTrimmed(init);
      TrimmedKept(x);
      assert xs == init + [x];
    }
  }

  lemma TrimmedKept(x: string)
    requires IsTrimmedName(x)
    ensures !IsBlank(x) && Strip(x) == x
  {
    StripUnchanged(x);
  }

  /** Writing a written list again writes the same list. */
  lemma WriteListIdempotent(list: Option<seq<Option<string>>>)
    requires WriteList(list).Some?
    ensures WriteList(Some(AsEntries(WriteList(list).value))) == WriteList(list)
  {
    WriteListTrimmed(list);
    var r := WriteList(list).value;
    TrimmedEntriesOfTrimmed(r);
    DistinctByOfDistinct(r, Lower);
  }

  // ------------------------------------------------------------------ similar opportunities

  const LevelBonus: real := 0.15
  const WorkModeBonus: real := 0.10
  const LocationBonus: real := 0.10
  const CandidatePoolSize: int := 150
  const MaxSimilar: int := 12

  predicate Named(s: string) { !IsBlank(s) }

  /**
   * `ToHashSet(StringComparer.OrdinalIgnoreCase)` of the non-blank skill names:
   * the first name of each case-insensitive key, as the set that LINQ's
   * `Intersect` and `Union` then compare with the default, case-sensitive comparer.
   */
  function SkillSet(names: seq<string>): set<string> {
    var d := DistinctBy(Filter(names, Named), Lower);
    set k | 0 <= k < |d| :: d[k]
  }

  /** The set holds non-blank names of the list. */
  lemma SkillSetSound(names: seq<string>)
    ensures forall s :: s in SkillSet(names) ==> s in names && !IsBlank(s)
  {
    var f := Filter(names, Named);
    var d := DistinctBy(f, Lower);
    FilterMembers(names, Named);
    DistinctByFirstOccurrences(f, Lower);
    forall s | s in SkillSet(names) ensures s in names && !IsBlank(s) {
      var k :| 0 <= k < |d| && d[k] == s;
      var j := FirstIndex(f, Lower, Lower(d[k]));
    }
  }

  /** No two names of the set are equal ignoring case. */
  lemma SkillSetOnePerKey(names: seq<string>)
    ensures forall s, u :: s in SkillSet(names) && u in SkillSet(names) && EqualsIgnoreCase(s, u) ==> s == u
  {
    var d := DistinctBy(Filter(names, Named), Lower);
    DistinctByNoDuplicates(Filter(names, Named), Lower);
    forall s, u | s in SkillSet(names) && u in SkillSet(names) && EqualsIgnoreCase(s, u) ensures s == u {
      var k :| 0 <= k < |d| && d[k] == s;
      var l :| 0 <= l < |d| && d[l] == u;
      SameKeySameIndex(d, Lower, k, l);
    }
  }

  /** Every non-blank name of the list is, ignoring case, a name of the set. */
  lemma SkillSetCovers(names: seq<string>)
    ensures forall n :: n in names && !IsBlank(n) ==> exists s :: s in SkillSet(names) && EqualsIgnoreCase(s, n)
  {
    var f := Filter(names, Named);
    var d := DistinctBy(f, Lower);
    FilterMembers(names, Named);
    DistinctByKeys(f, Lower);
    forall n | n in names && !IsBlank(n) ensures exists s :: s in SkillSet(names) && EqualsIgnoreCase(s, n) {
      var j :| 0 <= j < |f| && f[j] == n;
      assert Lower(f[j]) in KeysOf(f, Lower);
      var k :| 0 <= k < |d| && Lower(d[k]) == Lower(n);
      assert d[k] in SkillSet(names);
    }
  }

  lemma FractionWithin(i: real, u: real)
    requires 0.0 <= i <= u && u > 0.0
    ensures 0.0 <= i / u <= 1.0
    ensures i / u == 0.0 <==> i == 0.0
    ensures i / u == 1.0 <==> i == u
  {
    assert i / u * u == i;
  }

  lemma SubsetOfSameSize(s: set<string>, t: set<string>)
    requires s <= t && |s| == |t|
    ensures s == t
  {
    if s != t {
      var x :| x in t && x !in s;
      assert s <= t - {x};
      assert |t - {x}| == |t| - 1;
      SubsetSize(s, t - {x});
    }
  }

  lemma {:induction false} SubsetSize(s: set<string>, t: set<string>)
    requires s <= t
    ensures |s| <= |t|
    decreases |t|
  {
    if s != {} {
      var x :| x in s;
      SubsetSize(s - {x}, t - {x});
    }
  }

  lemma OverlapFacts(a: set<string>, b: set<string>)
    requires a + b != {}
    ensures 0.0 <= (|a * b| as real) / (|a + b| as real) <= 1.0
    ensures (|a * b| as real) / (|a + b| as real) == 0.0 <==> a * b == {}
    ensures (|a * b| as real) / (|a + b| as real) == 1.0 <==> a == b
  {
    var x :| x in a + b;
    SubsetSize({x}, a + b);
    FractionWithin(|a * b| as real, |a + b| as real);
    SubsetSize(a * b, a + b);
    if |a * b| == |a + b| {
      SubsetOfSameSize(a * b, a + b);
      assert a == a * b == b;
    }
    if a * b != {} {
      var y :| y in a * b;
      SubsetSize({y}, a * b);
    }
  }

  /** Intersection over union, 0 when both sets are empty. */
  function Jaccard(a: set<string>, b: set<string>): (j: real)
    ensures 0.0 <= j <= 1.0
    ensures j == 0.0 <==> a * b == {}
    ensures j == 1.0 <==> a == b && a != {}
  {
    if a + b == {} then 0.0
    else
      OverlapFacts(a, b);
      (|a * b| as real) / (|a + b| as real)
  }

  /** A non-blank location equal, ordinally, to the base opportunity's. */
  predicate SameLocation(o: Opportunity, base: Opportunity) {
    o.location.Some? && !IsBlank(o.location.value) && base.location == o.location
  }

  /** The local `Score` of the endpoint: skill overlap plus the three bonuses. */
  function Score(base: Opportunity, o: Opportunity): (s: real)
    ensures 0.0 <= s <= 1.0 + LevelBonus + WorkModeBonus + LocationBonus
    ensures s > 0.0 <==>
      SkillSet(o.skills) * SkillSet(base.skills) != {} || o.level == base.level ||
      o.workMode == base.workMode || SameLocation(o, base)
    ensures s >= 1.0 ==> (SkillSet(o.skills) == SkillSet(base.skills) || o.level == base.level ||
      o.workMode == base.workMode || SameLocation(o, base))
  {
    Jaccard(SkillSet(o.skills), SkillSet(base.skills)) +
    (if o.level == base.level then LevelBonus else 0.0) +
    (if o.workMode == base.workMode then WorkModeBonus else 0.0) +
    (if SameLocation(o, base) then LocationBonus else 0.0)
  }

  datatype Scored = Scored(opp: Opportunity, score: real)

  function ScoreOf(x: Scored): real { x.score }

  predicate Positive(x: Scored) { x.score > 0.0 }

  /** `FirstOrDefault(o => o.Id == id)`, as an index or -1. */
  function IndexById(opps: seq<Opportunity>, id: int): (i: int)
    ensures -1 <= i < |opps|
    ensures i >= 0 ==> opps[i].id == id && forall j :: 0 <= j < i ==> opps[j].id != id
    ensures i < 0 ==> forall j :: 0 <= j < |opps| ==> opps[j].id != id
    decreases |opps|
  {
    if opps == [] then -1
    else if opps[0].id == id then 0
    else var k := IndexById(opps[1..], id); if k < 0 then -1 else k + 1
  }

  function IsCandidate(id: int, t: OpportunityType): Opportunity -> bool {
    (o: Opportunity) => o.id != id && o.oppType == t && !o.isClosed
  }

  /** The pool: the first 150 other open opportunities of the same type, in table order. */
  function Candidates(opps: seq<Opportunity>, base: Opportunity): seq<Opportunity> {
    Take(Filter(opps, IsCandidate(base.id, base.oppType)), CandidatePoolSize)
  }

  function ScoreAll(base: Opportunity, cs: seq<Opportunity>): (r: seq<Scored>)
    ensures |r| == |cs| && forall k :: 0 <= k < |cs| ==> r[k] == Scored(cs[k], Score(base, cs[k]))
  {
    seq(|cs|, k requires 0 <= k < |cs| => Scored(cs[k], Score(base, cs[k])))
  }

  /** `GetSimilar`: `None` is NotFound; otherwise the positive scores, best first, at most `Clamp(take, 1, 12)`. */
  function Similar(opps: seq<Opportunity>, id: int, take: int): (r: Option<seq<Scored>>)
    ensures r.None? <==> forall j :: 0 <= j < |opps| ==> opps[j].id != id
    ensures r.Some? ==> |r.value| <= Clamp(take, 1, MaxSimilar)
  {
    var i := IndexById(opps, id);
    if i < 0 then None
    else
      var base := opps[i];
      Some(Take(Ranked(opps, base), Clamp(take, 1, MaxSimilar)))
  }

  /** The base opportunity and the ranking that the result is the head of. */
  function Ranked(opps: seq<Opportunity>, base: Opportunity): seq<Scored> {
    SortDescBy(Filter(ScoreAll(base, Candidates(opps, base)), Positive), ScoreOf)
  }

  /** Each entry is another open opportunity of the base's type, with its own positive score. */
  lemma SimilarMembers(opps: seq<Opportunity>, id: int, take: int)
    requires Similar(opps, id, take).Some?
    ensures var base, r := opps[IndexById(opps, id)], Similar(opps, id, take).value;
      forall k :: 0 <= k < |r| ==>
        r[k].opp in opps && r[k].opp.id != id && r[k].opp.oppType == base.oppType && !r[k].opp.isClosed &&
        r[k].score == Score(base, r[k].opp) && r[k].score > 0.0
  {
    var base := opps[IndexById(opps, id)];
    var ranked := Ranked(opps, base);
    var r := Similar(opps, id, take).value;
    RankedMembers(opps, base);
    forall k | 0 <= k < |r|
      ensures r[k].opp in opps && r[k].opp.id != id && r[k].opp.oppType == base.oppType && !r[k].opp.isClosed
      ensures r[k].score == Score(base, r[k].opp) && r[k].score > 0.0
    {
      assert r[k] == ranked[k];
    }
  }

  /** The ranking holds pool members with their own positive scores. */
  lemma RankedMembers(opps: seq<Opportunity>, base: Opportunity)
    ensures forall x :: x in Ranked(opps, base) ==>
      x.opp in opps && x.opp.id != base.id && x.opp.oppType == base.oppType && !x.opp.isClosed &&
      x.score == Score(base, x.opp) && x.score > 0.0
  {
    var cs := Candidates(opps, base);
    var positive := Filter(ScoreAll(base, cs), Positive);
    SortDescBySortedPermutation(positive, ScoreOf);
    PositiveScored(base, cs);
    CandidateFacts(opps, base);
    forall x | x in Ranked(opps, base) ensures x in positive {
      assert x in multiset(Ranked(opps, base));
    }
  }

  /** The positive entries of a scored pool are pool members with their own positive scores. */
  lemma PositiveScored(base: Opportunity, cs: seq<Opportunity>)
    ensures forall x :: x in Filter(ScoreAll(base, cs), Positive) ==>
      x.opp in cs && x.score == Score(base, x.opp) && x.score > 0.0
  {
    var all := ScoreAll(base, cs);
    var f := Filter(all, Positive);
    FilterMembers(all, Positive);
    forall x | x in f ensures x.opp in cs && x.score == Score(base, x.opp) && x.score > 0.0 {
      var i :| 0 <= i < |f| && f[i] == x;
      var j :| 0 <= j < |all| && all[j] == f[i];
    }
  }

  /** The pool holds other open opportunities of the base's type. */
  lemma CandidateFacts(opps: seq<Opportunity>, base: Opportunity)
    ensures forall o :: o in Candidates(opps, base) ==>
      o in opps && o.id != base.id && o.oppType == base.oppType && !o.isClosed
  {
    var f := Filter(opps, IsCandidate(base.id, base.oppType));
    FilterMembers(opps, IsCandidate(base.id, base.oppType));
    var cs := Candidates(opps, base);
    forall o | o in cs ensures o in opps && o.id != base.id && o.oppType == base.oppType && !o.isClosed {
      var i :| 0 <= i < |cs| && cs[i] == o;
      assert cs[i] == f[i];
    }
  }

  /** A pool member with a positive score is among the positive entries. */
  lemma ScoredInPositive(base: Opportunity, cs: seq<Opportunity>, c: Opportunity)
    requires c in cs && Score(base, c) > 0.0
    ensures Scored(c, Score(base, c)) in Filter(ScoreAll(base, cs), Positive)
  {
    var all := ScoreAll(base, cs);
    FilterMembers(all, Positive);
    var j :| 0 <= j < |cs| && cs[j] == c;
    assert all[j] == Scored(c, Score(base, c));
  }

  /** Best first. */
  lemma SimilarSorted(opps: seq<Opportunity>, id: int, take: int)
    requires Similar(opps, id, take).Some?
    ensures SortedDescBy(Similar(opps, id, take).value, ScoreOf)
  {
    var base := opps[IndexById(opps, id)];
    var ranked := Ranked(opps, base);
    var r := Similar(opps, id, take).value;
    SortDescBySortedPermutation(Filter(ScoreAll(base, Candidates(opps, base)), Positive), ScoreOf);
    forall k, l | 0 <= k < l < |r| ensures ScoreOf(r[k]) >= ScoreOf(r[l]) {
      assert r[k] == ranked[k] && r[l] == ranked[l];
    }
  }

  /**
   * A pool member with a positive score is left out only when the result is
   * full of entries scoring at least as much.
   */
  lemma SimilarTop(opps: seq<Opportunity>, id: int, take: int, c: Opportunity)
    requires Similar(opps, id, take).Some?
    requires var base := opps[IndexById(opps, id)]; c in Candidates(opps, base) && Score(base, c) > 0.0
    ensures var base, r := opps[IndexById(opps, id)], Similar(opps, id, take).value;
      Scored(c, Score(base, c)) in r ||
      (|r| == Clamp(take, 1, MaxSimilar) && forall k :: 0 <= k < |r| ==> r[k].score >= Score(base, c))
  {
    var base := opps[IndexById(opps, id)];
    var cs := Candidates(opps, base);
    var x := Scored(c, Score(base, c));
    var positive := Filter(ScoreAll(base, cs), Positive);
    ScoredInPositive(base, cs, c);
    assert Similar(opps, id, take).value == Take(SortDescBy(positive, ScoreOf), Clamp(take, 1, MaxSimilar));
    TakeOfSortedTop(Filter(ScoreAll(base, cs), Positive), ScoreOf, Clamp(take, 1, MaxSimilar), x);
  }

  // ------------------------------------------------------------------ close, reopen, apply

  /** The Opportunities and Applications tables, with the next application id the database would assign. */
  datatype Board = Board(opportunities: seq<Opportunity>, applications: seq<Application>, nextApplicationId: int)

  datatype Reply = Unauthorized | NotFound | BadRequest | NoContent | ApplicationReply(applicationId: int, status: ApplicationStatus)

  predicate IsActive(a: Application, opportunityId: int, userId: string) {
    a.opportunityId == opportunityId && a.userId == userId && a.status != AssessmentEngine.ApplicationStatus.Withdrawn
  }

  /** `FirstOrDefault(a => a.OpportunityId == id && a.UserId == userId && a.Status != Withdrawn)`, as an index or -1. */
  function ActiveIndex(apps: seq<Application>, opportunityId: int, userId: string): (i: int)
    ensures -1 <= i < |apps|
    ensures i >= 0 ==> IsActive(apps[i], opportunityId, userId)
    ensures i >= 0 ==> forall j :: 0 <= j < i ==> !IsActive(apps[j], opportunityId, userId)
    ensures i < 0 ==> forall j :: 0 <= j < |apps| ==> !IsActive(apps[j], opportunityId, userId)
    decreases |apps|
  {
    if apps == [] then -1
    else if IsActive(apps[0], opportunityId, userId) then 0
    else var k := ActiveIndex(apps[1..], opportunityId, userId); if k < 0 then -1 else k + 1
  }

  /**
   * Opportunity ids and application ids are keys, application ids lie below the
   * next one, an opportunity is closed exactly when it has a closing time, and a
   * user holds at most one application per opportunity that is not withdrawn.
   */
  predicate BoardValid(b: Board) {
    (forall k, l :: 0 <= k < l < |b.opportunities| ==> b.opportunities[k].id != b.opportunities[l].id) &&
    (forall k :: 0 <= k < |b.opportunities| ==> (b.opportunities[k].isClosed <==> b.opportunities[k].closedAt.Some?)) &&
    (forall k :: 0 <= k < |b.applications| ==> b.applications[k].id < b.nextApplicationId) &&
    (forall k, l :: 0 <= k < l < |b.applications| ==> b.applications[k].id != b.applications[l].id) &&
    (forall k, l :: 0 <= k < l < |b.applications| && IsActive(b.applications[k], b.applications[l].opportunityId, b.applications[l].userId) ==>
      b.applications[l].status == AssessmentEngine.ApplicationStatus.Withdrawn)
  }

  function CloseStep(b: Board, id: int, now: int): (Board, Reply) {
    var i := IndexById(b.opportunities, id);
    if i < 0 then (b, NotFound)
    else if b.opportunities[i].isClosed then (b, BadRequest)
    else (b.(opportunities := b.opportunities[i := b.opportunities[i].(isClosed := true, closedAt := Some(now))]), NoContent)
  }

  function ReopenStep(b: Board, id: int): (Board, Reply) {
    var i := IndexById(b.opportunities, id);
    if i < 0 then (b, NotFound)
    else (b.(opportunities := b.opportunities[i := b.opportunities[i].(isClosed := false, closedAt := None)]), NoContent)
  }

  function ApplyStep(b: Board, userId: string, id: int, now: int): (Board, Reply) {
    if userId == "" then (b, Unauthorized)
    else if IndexById(b.opportunities, id) < 0 then (b, NotFound)
    else
      var e := ActiveIndex(b.applications, id, userId);
      if e >= 0 then (b, ApplicationReply(b.applications[e].id, b.applications[e].status))
      else
        var app := Application(b.nextApplicationId, id, userId, AssessmentEngine.ApplicationStatus.Draft, now);
        (b.(applications := b.applications + [app], nextApplicationId := b.nextApplicationId + 1),
         ApplicationReply(app.id, app.status))
  }

  /** With keys for ids, the row found is the one row with that id. */
  lemma IndexOfKey(opps: seq<Opportunity>, k: int)
    requires forall p, q :: 0 <= p < q < |opps| ==> opps[p].id != opps[q].id
    requires 0 <= k < |opps|
    ensures IndexById(opps, opps[k].id) == k
  {
  }

  /**
   * Closing fails with NotFound when no row has the id and with BadRequest when
   * that row is already closed, changing nothing; otherwise it closes that row at
   * `now` and changes nothing else.
   */
  lemma CloseStepRules(b: Board, id: int, now: int)
    requires BoardValid(b)
    ensures CloseStep(b, id, now).1 == NotFound <==> forall k :: 0 <= k < |b.opportunities| ==> b.opportunities[k].id != id
    ensures forall k :: 0 <= k < |b.opportunities| && b.opportunities[k].id == id ==>
      (CloseStep(b, id, now).1 == BadRequest <==> b.opportunities[k].isClosed)
    ensures CloseStep(b, id, now).1 != NoContent ==> CloseStep(b, id, now).0 == b
    ensures CloseStep(b, id, now).1 == NoContent ==>
      var c := CloseStep(b, id, now).0;
      c.applications == b.applications && c.nextApplicationId == b.nextApplicationId &&
      |c.opportunities| == |b.opportunities| &&
      forall k :: 0 <= k < |b.opportunities| ==>
        c.opportunities[k] == if b.opportunities[k].id == id
          then b.opportunities[k].(isClosed := true, closedAt := Some(now))
          else b.opportunities[k]
    ensures BoardValid(CloseStep(b, id, now).0)
  {
    forall k | 0 <= k < |b.opportunities| && b.opportunities[k].id == id {
      IndexOfKey(b.opportunities, k);
    }
  }

  /** Reopening fails only with NotFound; otherwise it clears both closing fields of that row and changes nothing else. */
  lemma ReopenStepRules(b: Board, id: int)
    requires BoardValid(b)
    ensures ReopenStep(b, id).1 == NotFound <==> forall k :: 0 <= k < |b.opportunities| ==> b.opportunities[k].id != id
    ensures ReopenStep(b, id).1 != NoContent ==> ReopenStep(b, id).0 == b
    ensures ReopenStep(b, id).1 == NoContent ==>
      var c := ReopenStep(b, id).0;
      c.applications == b.applications && c.nextApplicationId == b.nextApplicationId &&
      |c.opportunities| == |b.opportunities| &&
      forall k :: 0 <= k < |b.opportunities| ==>
        c.opportunities[k] == if b.opportunities[k].id == id
          then b.opportunities[k].(isClosed := false, closedAt := None)
          else b.opportunities[k]
    ensures BoardValid(ReopenStep(b, id).0)
  {
    forall k | 0 <= k < |b.opportunities| && b.opportunities[k].id == id {
      IndexOfKey(b.opportunities, k);
    }
  }

  /** Reopening an opportunity just closed restores the tables; closing it twice fails the second time. */
  lemma CloseThenReopen(b: Board, id: int, now: int)
    requires BoardValid(b) && CloseStep(b, id, now).1 == NoContent
    ensures ReopenStep(CloseStep(b, id, now).0, id) == (b, NoContent)
    ensures CloseStep(CloseStep(b, id, now).0, id, now) == (CloseStep(b, id, now).0, BadRequest)
  {
    var i := IndexById(b.opportunities, id);
    var c := CloseStep(b, id, now).0;
    IndexOfKey(c.opportunities, i);
    assert c.opportunities[i := b.opportunities[i]] == b.opportunities;
  }

  /** Reopening twice is reopening once. */
  lemma ReopenIdempotent(b: Board, id: int)
    requires BoardValid(b)
    ensures ReopenStep(ReopenStep(b, id).0, id) == ReopenStep(b, id)
  {
    var i := IndexById(b.opportunities, id);
    if i >= 0 {
      ReopenStepRules(b, id);
      var c := ReopenStep(b, id).0;
      IndexOfKey(c.opportunities, i);
      assert c.opportunities[i := c.opportunities[i].(isClosed := false, closedAt := None)] == c.opportunities;
    }
  }

  /**
   * Applying needs a user and an existing opportunity; an application of that
   * user to it that is not withdrawn is returned unchanged; otherwise exactly one
   * Draft application with a fresh id is appended and returned.
   */
  lemma ApplyStepRules(b: Board, userId: string, id: int, now: int)
    requires BoardValid(b)
    ensures ApplyStep(b, userId, id, now).1 == Unauthorized <==> userId == ""
    ensures userId != "" ==> (ApplyStep(b, userId, id, now).1 == NotFound <==>
      forall k :: 0 <= k < |b.opportunities| ==> b.opportunities[k].id != id)
    ensures !ApplyStep(b, userId, id, now).1.ApplicationReply? ==> ApplyStep(b, userId, id, now).0 == b
    ensures ApplyStep(b, userId, id, now).1.ApplicationReply? ==>
      var (c, reply) := ApplyStep(b, userId, id, now);
      (exists k :: 0 <= k < |c.applications| && c.applications[k].id == reply.applicationId &&
        IsActive(c.applications[k], id, userId) && c.applications[k].status == reply.status) &&
      ((exists k :: 0 <= k < |b.applications| && IsActive(b.applications[k], id, userId)) ==> c == b) &&
      ((forall k :: 0 <= k < |b.applications| ==> !IsActive(b.applications[k], id, userId)) ==>
        c.opportunities == b.opportunities &&
        c.applications == b.applications + [Application(b.nextApplicationId, id, userId, AssessmentEngine.ApplicationStatus.Draft, now)] &&
        reply == ApplicationReply(b.nextApplicationId, AssessmentEngine.ApplicationStatus.Draft))
    ensures BoardValid(ApplyStep(b, userId, id, now).0)
  {
    var r := ApplyStep(b, userId, id, now);
    if r.1.ApplicationReply? {
      var e := ActiveIndex(b.applications, id, userId);
      if e >= 0 {
        assert b.applications[e].id == r.1.applicationId;
      } else {
        var c := r.0;
        var n := |b.applications|;
        assert c.applications[n].id == r.1.applicationId;
        assert forall k :: 0 <= k < n ==> c.applications[k] == b.applications[k];
      }
    }
  }

  /** Applying twice to the same opportunity returns the same application and adds nothing the second time. */
  lemma ApplyIdempotent(b: Board, userId: string, id: int, now: int, later: int)
    requires BoardValid(b)
    ensures var c := ApplyStep(b, userId, id, now).0;
      ApplyStep(c, userId, id, later) == (c, ApplyStep(b, userId, id, now).1)
  {
    var e := ActiveIndex(b.applications, id, userId);
    if userId != "" && IndexById(b.opportunities, id) >= 0 && e < 0 {
      var c := ApplyStep(b, userId, id, now).0;
      var n := |b.applications|;
      assert forall k :: 0 <= k < n ==> c.applications[k] == b.applications[k];
      assert ActiveIndex(c.applications, id, userId) == n by {
        assert IsActive(c.applications[n], id, userId);
      }
    } else if e >= 0 {
      assert ApplyStep(b, userId, id, now).0 == b;
    }
  }

  /** The two tables as an object whose endpoints update them in place. */
  class OpportunityBoard {
    var opportunities: seq<Opportunity>
    var applications: seq<Application>
    var nextApplicationId: int

    function State(): Board
      reads this
    {
      Board(opportunities, applications, nextApplicationId)
    }

    ghost predicate Valid()
      reads this
    {
      BoardValid(State())
    }

    constructor (opportunities: seq<Opportunity>, applications: seq<Application>, nextApplicationId: int)
      requires BoardValid(Board(opportunities, applications, nextApplicationId))
      ensures State() == Board(opportunities, applications, nextApplicationId) && Valid()
    {
      this.opportunities := opportunities;
      this.applications := applications;
      this.nextApplicationId := nextApplicationId;
    }

    /** `PATCH {id}/close`. */
    method Close(id: int, now: int) returns (reply: Reply)
      requires Valid()
      modifies this
      ensures (State(), reply) == CloseStep(old(State()), id, now)
      ensures Valid()
    {
      CloseStepRules(State(), id, now);
      var i := IndexById(opportunities, id);
      if i < 0 {
        return NotFound;
      }
      if opportunities[i].isClosed {
        return BadRequest;
      }
      opportunities := opportunities[i := opportunities[i].(isClosed := true, closedAt := Some(now))];
      reply := NoContent;
    }

    /** `PATCH {id}/reopen`. */
    method Reopen(id: int) returns (reply: Reply)
      requires Valid()
      modifies this
      ensures (State(), reply) == ReopenStep(old(State()), id)
      ensures Valid()
    {
      ReopenStepRules(State(), id);
      var i := IndexById(opportunities, id);
      if i < 0 {
        return NotFound;
      }
      opportunities := opportunities[i := opportunities[i].(isClosed := false, closedAt := None)];
      reply := NoContent;
    }

    /** `POST {id}/apply` for the signed-in user (`""` when there is none). */
    method ApplyNow(userId: string, id: int, now: int) returns (reply: Reply)
      requires Valid()
      modifies this
      ensures (State(), reply) == ApplyStep(old(State()), userId, id, now)
      ensures Valid()
    {
      ApplyStepRules(State(), userId, id, now);
      if userId == "" {
        return Unauthorized;
      }
      if IndexById(opportunities, id) < 0 {
        return NotFound;
      }
      var e := ActiveIndex(applications, id, userId);
      if e >= 0 {
        return ApplicationReply(applications[e].id, applications[e].status);
      }
      var app := Application(nextApplicationId, id, userId, AssessmentEngine.ApplicationStatus.Draft, now);
      applications := applications + [app];
      nextApplicationId := nextApplicationId + 1;
      reply := ApplicationReply(app.id, app.status);
    }
  }
}
