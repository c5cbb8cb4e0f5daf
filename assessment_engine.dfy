/**
 * The assessment endpoints of the applications controller as transitions of a
 * store holding the Applications, ApplicationAssessments and ProctorEvents
 * tables. Each endpoint is a pure step function, `XStep(store, ...)`, returning
 * the new store and the HTTP outcome; `AssessmentStore` is the same store as an
 * object whose methods update its tables in place and are proved to perform
 * exactly those steps. Time is a parameter (`now`, in seconds) and the seeded
 * random generator is `pick`, the value `rng.Next(i + 1)` draws at index `i`.
 */
module AssessmentEngine {
  import opened Wrappers
  import opened Text
  import opened Collections
  import opened Assessment

  datatype ApplicationStatus = Draft | InAssessment | Submitted | Withdrawn

  /** An application joined with its opportunity's assessment (`None` when blank). */
  datatype AppRow = AppRow(id: int, userId: string, status: ApplicationStatus, assessment: Option<AssessmentDoc>)

  /** A row of ApplicationAssessments; answers are the numeric ones. */
  datatype Attempt = Attempt(
    id: int,
    applicationId: int,
    answers: map<string, int>,
    score: Option<real>,
    startedAt: int,
    submittedAt: Option<int>,
    timeLimitSeconds: int,
    expiresAt: int,
    questionOrder: seq<string>,
    webcamConsent: bool,
    proctoring: Proctoring,
    mcqCount: int,
    challengeCount: int)

  datatype ProctorLogRow = ProctorLogRow(attemptId: int, eventType: string, createdAt: int)

  datatype Store = Store(applications: seq<AppRow>, attempts: seq<Attempt>, proctorLog: seq<ProctorLogRow>, nextAttemptId: int)

  datatype Refusal = ApplicationWithdrawn | NoAssessment | NoQuestions | AlreadySubmitted | TimeIsUp

  datatype Outcome =
    | Unauthorized
    | NotFound
    | BadRequest(reason: Refusal)
    | Started(attemptId: int, expiresAt: int)
    | AlreadySubmittedAttempt(attemptId: int, expiresAt: int)
    | NoContent
    | ProctorResponse(tooManyRequests: bool, proctoring: Proctoring, message: ProctorMessage)
    | Graded(finalScore: real, mcqScore: real, codeScore: real)
    | ResetDone

  /** `IsExpired`: strictly after the expiry instant. */
  predicate IsExpired(a: Attempt, now: int) { now > a.expiresAt }

  lemma ExpiryIsStrict(a: Attempt)
    ensures !IsExpired(a, a.expiresAt) && IsExpired(a, a.expiresAt + 1)
  {
  }

  // ------------------------------------------------------------------ lookups

  /** `FirstOrDefault(a => a.Id == applicationId && a.UserId == userId)`, as an index or -1. */
  function AppIndex(apps: seq<AppRow>, aid: int, userId: string): (i: int)
    ensures -1 <= i < |apps|
    ensures i >= 0 ==> apps[i].id == aid && apps[i].userId == userId
    ensures i < 0 ==> forall j :: 0 <= j < |apps| ==> !(apps[j].id == aid && apps[j].userId == userId)
    decreases |apps|
  {
    if apps == [] then -1
    else if apps[0].id == aid && apps[0].userId == userId then 0
    else var k := AppIndex(apps[1..], aid, userId); if k < 0 then -1 else k + 1
  }

  /** `FirstOrDefault(x => x.ApplicationId == applicationId)`, as an index or -1. */
  function AttemptIndex(ats: seq<Attempt>, aid: int): (k: int)
    ensures -1 <= k < |ats|
    ensures k >= 0 ==> ats[k].applicationId == aid
    ensures k < 0 ==> forall j :: 0 <= j < |ats| ==> ats[j].applicationId != aid
    decreases |ats|
  {
    if ats == [] then -1
    else if ats[0].applicationId == aid then 0
    else var k := AttemptIndex(ats[1..], aid); if k < 0 then -1 else k + 1
  }

  /** The attempt of an application owned by the user (the join on `x.Application.UserId`). */
  function OwnedAttemptIndex(s: Store, aid: int, userId: string): (k: int)
    ensures -1 <= k < |s.attempts|
  {
    if AppIndex(s.applications, aid, userId) < 0 then -1 else AttemptIndex(s.attempts, aid)
  }

  function ForApplication(aid: int): Attempt -> bool { (a: Attempt) => a.applicationId == aid }

  /** The attempts of one application, in table order. */
  function AttemptsFor(ats: seq<Attempt>, aid: int): seq<Attempt> { Filter(ats, ForApplication(aid)) }

  function RemoveAt<T>(xs: seq<T>, k: int): (r: seq<T>)
    requires 0 <= k < |xs|
    ensures |r| == |xs| - 1
  {
    xs[..k] + xs[k + 1..]
  }

  // ------------------------------------------------------------------ validity

  /** The fields copied at start and kept in step: proctoring, score exactly when submitted, expiry. */
  predicate AttemptValid(a: Attempt) {
    ProctoringValid(a.proctoring) &&
    (a.submittedAt.Some? <==> a.score.Some?) &&
    a.expiresAt == a.startedAt + a.timeLimitSeconds
  }

  predicate DistinctAppIds(apps: seq<AppRow>) {
    forall i, j :: 0 <= i < j < |apps| ==> apps[i].id != apps[j].id
  }

  /**
   * Application ids are keys; attempt ids are keys allocated below `nextAttemptId`;
   * an application has at most one attempt; every attempt is valid.
   */
  predicate StoreValid(s: Store) {
    s.nextAttemptId >= 1 &&
    DistinctAppIds(s.applications) &&
    (forall k :: 0 <= k < |s.attempts| ==> AttemptValid(s.attempts[k]) && 1 <= s.attempts[k].id < s.nextAttemptId) &&
    (forall k, l :: 0 <= k < l < |s.attempts| ==>
      s.attempts[k].id != s.attempts[l].id && s.attempts[k].applicationId != s.attempts[l].applicationId)
  }

  /**
   * `t` differs from `s` at most in the application `aid` (its status) and in the
   * attempts of that application; proctoring rows may be added.
   */
  ghost predicate OnlyTouches(s: Store, t: Store, aid: int) {
    |t.applications| == |s.applications| &&
    (forall j :: 0 <= j < |s.applications| ==>
      t.applications[j] == s.applications[j].(status := t.applications[j].status)) &&
    (forall j :: 0 <= j < |s.applications| && s.applications[j].id != aid ==> t.applications[j] == s.applications[j]) &&
    (forall other :: other != aid ==> AttemptsFor(t.attempts, other) == AttemptsFor(s.attempts, other)) &&
    |s.proctorLog| <= |t.proctorLog| && t.proctorLog[..|s.proctorLog|] == s.proctorLog
  }

  lemma ValidRemoveAt(s: Store, k: int)
    requires StoreValid(s) && 0 <= k < |s.attempts|
    ensures StoreValid(s.(attempts := RemoveAt(s.attempts, k)))
    ensures AttemptIndex(RemoveAt(s.attempts, k), s.attempts[k].applicationId) < 0
    ensures OnlyTouches(s, s.(attempts := RemoveAt(s.attempts, k)), s.attempts[k].applicationId)
  {
    var ats := s.attempts;
    var r := RemoveAt(ats, k);
    assert forall j :: 0 <= j < |r| ==> r[j] == (if j < k then ats[j] else ats[j + 1]);
    assert forall j :: 0 <= j < |r| ==> r[j].applicationId != ats[k].applicationId;
    forall p, q | 0 <= p < q < |r|
      ensures r[p].id != r[q].id && r[p].applicationId != r[q].applicationId
    {
      var p', q' := if p < k then p else p + 1, if q < k then q else q + 1;
      assert p' < q' && r[p] == ats[p'] && r[q] == ats[q'];
    }
    RemoveAtKeepsOthers(ats, k);
  }

  /** Removing one attempt leaves the attempts of every other application as they were. */
  lemma RemoveAtKeepsOthers(ats: seq<Attempt>, k: int)
    requires 0 <= k < |ats|
    ensures forall other :: other != ats[k].applicationId ==> AttemptsFor(RemoveAt(ats, k), other) == AttemptsFor(ats, other)
  {
    forall other | other != ats[k].applicationId ensures AttemptsFor(RemoveAt(ats, k), other) == AttemptsFor(ats, other) {
      FilterRemoveAt(ats, k, ForApplication(other));
    }
  }

  lemma ValidUpdateAttempt(s: Store, k: int, a: Attempt)
    requires StoreValid(s) && 0 <= k < |s.attempts|
    requires a.id == s.attempts[k].id && a.applicationId == s.attempts[k].applicationId && AttemptValid(a)
    ensures StoreValid(s.(attempts := s.attempts[k := a]))
    ensures OnlyTouches(s, s.(attempts := s.attempts[k := a]), a.applicationId)
  {
    forall other | other != a.applicationId ensures AttemptsFor(s.attempts[k := a], other) == AttemptsFor(s.attempts, other) {
      FilterUpdate(s.attempts, k, a, ForApplication(other));
    }
  }

  lemma ValidAppend(s: Store, a: Attempt)
    requires StoreValid(s) && a.id == s.nextAttemptId && AttemptValid(a)
    requires AttemptIndex(s.attempts, a.applicationId) < 0
    ensures StoreValid(s.(attempts := s.attempts + [a], nextAttemptId := s.nextAttemptId + 1))
    ensures OnlyTouches(s, s.(attempts := s.attempts + [a], nextAttemptId := s.nextAttemptId + 1), a.applicationId)
  {
    forall other | other != a.applicationId ensures AttemptsFor(s.attempts + [a], other) == AttemptsFor(s.attempts, other) {
      FilterSnocFails(s.attempts, a, ForApplication(other));
    }
  }

  /** A single attempt of an application is the whole of its attempts. */
  lemma SoleAttempt(ats: seq<Attempt>, k: int)
    requires 0 <= k < |ats|
    requires forall i, j :: 0 <= i < j < |ats| ==> ats[i].applicationId != ats[j].applicationId
    ensures AttemptsFor(ats, ats[k].applicationId) == [ats[k]]
  {
    var p := ForApplication(ats[k].applicationId);
    assert ats == ats[..k] + ([ats[k]] + ats[k + 1..]);
    FilterAppend(ats[..k], [ats[k]] + ats[k + 1..], p);
    FilterAppend([ats[k]], ats[k + 1..], p);
    FilterSingle(ats[k], p);
    NoneMatch(ats[..k], p);
    var tail := ats[k + 1..];
    assert forall j :: 0 <= j < |tail| ==> tail[j] == ats[k + 1 + j];
    NoneMatch(tail, p);
  }

  lemma {:induction false} NoneMatch(xs: seq<Attempt>, p: Attempt -> bool)
    requires forall j :: 0 <= j < |xs| ==> !p(xs[j])
    ensures Filter(xs, p) == []
    decreases |xs|
  {
    if xs != [] {
      assert forall j :: 0 <= j < |xs[1..]| ==> xs[1..][j] == xs[j + 1];
      NoneMatch(xs[1..], p);
    }
  }

  // ---------------------------------------------------------------- start

  /** The non-blank string ids of the questions, in document order. */
  function QuestionIds(qs: seq<Question>): (ids: seq<string>)
    ensures |ids| <= |qs|
    ensures forall k :: 0 <= k < |ids| ==> !IsBlank(ids[k])
    decreases |qs|
  {
    if qs == [] then []
    else
      var q := qs[|qs| - 1];
      QuestionIds(qs[..|qs| - 1]) + (if HasUsableId(q) then [q.id.value] else [])
  }

  /** Questions of type mcq (the default) and of type code, whatever their ids. */
  function McqCount(qs: seq<Question>): (n: nat)
    decreases |qs|
  {
    if qs == [] then 0 else McqCount(qs[..|qs| - 1]) + (if IsMcq(qs[|qs| - 1]) then 1 else 0)
  }

  function CodeCount(qs: seq<Question>): (n: nat)
    decreases |qs|
  {
    if qs == [] then 0 else CodeCount(qs[..|qs| - 1]) + (if !IsMcq(qs[|qs| - 1]) && IsCode(qs[|qs| - 1]) then 1 else 0)
  }

  /** Each question is counted at most once. */
  lemma {:induction false} CountsBound(qs: seq<Question>)
    ensures McqCount(qs) + CodeCount(qs) <= |qs|
    decreases |qs|
  {
    if qs != [] {
      CountsBound(qs[..|qs| - 1]);
    }
  }

  /** The generator draws at most `i` at index `i`. */
  ghost predicate RngFits(pick: nat -> nat) { forall i: nat :: pick(i) <= i }

  function Draws(pick: nat -> nat, n: nat): (d: seq<int>)
    requires RngFits(pick)
    ensures ValidDraws(d, n)
  {
    seq(n, i requires 0 <= i => pick(i))
  }

  /** The question order stored with a new attempt. */
  function StartOrder(ids: seq<string>, randomize: bool, pick: nat -> nat): (order: seq<string>)
    requires RngFits(pick)
  {
    if randomize && |ids| > 0 then FisherYates(ids, Draws(pick, |ids|), |ids| - 1) else ids
  }

  /** The attempt `StartAssessment` creates for an application whose assessment is `doc`. */
  function NewAttempt(id: int, aid: int, doc: AssessmentDoc, consent: bool, now: int, pick: nat -> nat): (a: Attempt)
    requires RngFits(pick)
    ensures AttemptValid(a)
  {
    var qs := doc.questions.GetOr([]);
    var tl := doc.timeLimitSeconds.GetOr(DefaultTimeLimitSeconds);
    Attempt(id, aid, map[], None, now, None, tl, now + tl,
            StartOrder(QuestionIds(qs), doc.randomize.GetOr(true), pick), consent, FreshProctoring,
            McqCount(qs), CodeCount(qs))
  }

  /** `StartAssessment`. */
  function StartStep(s: Store, userId: string, aid: int, consent: bool, now: int, pick: nat -> nat): (r: (Store, Outcome))
    requires RngFits(pick)
  {
    if userId == "" then (s, Unauthorized)
    else
      var ai := AppIndex(s.applications, aid, userId);
      if ai < 0 then (s, NotFound)
      else
        var app := s.applications[ai];
        if app.status == Withdrawn then (s, BadRequest(ApplicationWithdrawn))
        else if app.assessment.None? then (s, BadRequest(NoAssessment))
        else
          var k := AttemptIndex(s.attempts, app.id);
          if k >= 0 && s.attempts[k].submittedAt.Some? then
            (s, AlreadySubmittedAttempt(s.attempts[k].id, s.attempts[k].expiresAt))
          else if k >= 0 && !IsExpired(s.attempts[k], now) then ResumeStep(s, ai, k, consent)
          else CreateStep(if k >= 0 then s.(attempts := RemoveAt(s.attempts, k)) else s, ai, consent, now, pick)
  }

  /** A live attempt is resumed: the application is in assessment again and the consent is updated. */
  function ResumeStep(s: Store, ai: int, k: int, consent: bool): (r: (Store, Outcome))
    requires 0 <= ai < |s.applications| && 0 <= k < |s.attempts|
  {
    (s.(applications := s.applications[ai := s.applications[ai].(status := InAssessment)],
        attempts := s.attempts[k := s.attempts[k].(webcamConsent := consent)]),
     Started(s.attempts[k].id, s.attempts[k].expiresAt))
  }

  /** With no attempt left for the application: refuse an assessment without usable ids, or add a new attempt. */
  function CreateStep(s: Store, ai: int, consent: bool, now: int, pick: nat -> nat): (r: (Store, Outcome))
    requires 0 <= ai < |s.applications| && s.applications[ai].assessment.Some? && RngFits(pick)
  {
    var app := s.applications[ai];
    var doc := app.assessment.value;
    if QuestionIds(doc.questions.GetOr([])) == [] then (s, BadRequest(NoQuestions))
    else
      var a := NewAttempt(s.nextAttemptId, app.id, doc, consent, now, pick);
      (s.(applications := s.applications[ai := app.(status := InAssessment)],
          attempts := s.attempts + [a], nextAttemptId := s.nextAttemptId + 1),
       Started(a.id, a.expiresAt))
  }

  lemma ResumeStepSound(s: Store, ai: int, k: int, consent: bool)
    requires StoreValid(s) && 0 <= ai < |s.applications| && 0 <= k < |s.attempts|
    requires s.attempts[k].applicationId == s.applications[ai].id
    ensures StoreValid(ResumeStep(s, ai, k, consent).0)
    ensures OnlyTouches(s, ResumeStep(s, ai, k, consent).0, s.applications[ai].id)
  {
    var a := s.attempts[k].(webcamConsent := consent);
    var s1 := s.(attempts := s.attempts[k := a]);
    ValidUpdateAttempt(s, k, a);
    ValidUpdateStatus(s1, ResumeStep(s, ai, k, consent).0, ai, InAssessment);
    OnlyTouchesTrans(s, s1, ResumeStep(s, ai, k, consent).0, s.applications[ai].id);
  }

  lemma CreateStepSound(s: Store, ai: int, consent: bool, now: int, pick: nat -> nat)
    requires StoreValid(s) && 0 <= ai < |s.applications| && s.applications[ai].assessment.Some? && RngFits(pick)
    requires AttemptIndex(s.attempts, s.applications[ai].id) < 0
    ensures StoreValid(CreateStep(s, ai, consent, now, pick).0)
    ensures OnlyTouches(s, CreateStep(s, ai, consent, now, pick).0, s.applications[ai].id)
  {
    var app := s.applications[ai];
    var doc := app.assessment.value;
    var r := CreateStep(s, ai, consent, now, pick).0;
    if QuestionIds(doc.questions.GetOr([])) != [] {
      var a := NewAttempt(s.nextAttemptId, app.id, doc, consent, now, pick);
      var s2 := s.(attempts := s.attempts + [a], nextAttemptId := s.nextAttemptId + 1);
      ValidAppend(s, a);
      ValidUpdateStatus(s2, r, ai, InAssessment);
      OnlyTouchesTrans(s, s2, r, app.id);
    }
  }

  lemma {:induction false} ValidUpdateStatus(s: Store, t: Store, ai: int, st: ApplicationStatus)
    requires StoreValid(s) && 0 <= ai < |s.applications|
    requires t == s.(applications := s.applications[ai := s.applications[ai].(status := st)])
    ensures StoreValid(t) && OnlyTouches(s, t, s.applications[ai].id)
  {
    assert forall j :: 0 <= j < |s.applications| ==> t.applications[j].id == s.applications[j].id;
  }

  lemma OnlyTouchesTrans(s: Store, t: Store, u: Store, aid: int)
    requires OnlyTouches(s, t, aid) && OnlyTouches(t, u, aid)
    ensures OnlyTouches(s, u, aid)
  {
    assert u.proctorLog[..|s.proctorLog|] == u.proctorLog[..|t.proctorLog|][..|s.proctorLog|];
  }

  /** Starting keeps the store valid and touches only the application and its attempts. */
  lemma StartStepSound(s: Store, userId: string, aid: int, consent: bool, now: int, pick: nat -> nat)
    requires StoreValid(s) && RngFits(pick)
    ensures StoreValid(StartStep(s, userId, aid, consent, now, pick).0)
    ensures OnlyTouches(s, StartStep(s, userId, aid, consent, now, pick).0, aid)
  {
    var r := StartStep(s, userId, aid, consent, now, pick).0;
    if r != s {
      var ai := AppIndex(s.applications, aid, userId);
      var k := AttemptIndex(s.attempts, aid);
      if k >= 0 && !IsExpired(s.attempts[k], now) {
        ResumeStepSound(s, ai, k, consent);
      } else if k >= 0 {
        var s1 := s.(attempts := RemoveAt(s.attempts, k));
        ValidRemoveAt(s, k);
        CreateStepSound(s1, ai, consent, now, pick);
        OnlyTouchesTrans(s, s1, r, aid);
      } else {
        CreateStepSound(s, ai, consent, now, pick);
      }
    }
  }

  /**
   * After a `Started` answer the application is in assessment and holds exactly one
   * attempt: the reported one, not submitted, with the reported expiry.
   */
  lemma StartedIsLive(s: Store, userId: string, aid: int, consent: bool, now: int, pick: nat -> nat)
    requires StoreValid(s) && RngFits(pick)
    requires StartStep(s, userId, aid, consent, now, pick).1.Started?
    ensures var (t, out) := StartStep(s, userId, aid, consent, now, pick);
      var ai := AppIndex(t.applications, aid, userId);
      ai >= 0 && t.applications[ai].status == InAssessment &&
      |AttemptsFor(t.attempts, aid)| == 1 &&
      var a := AttemptsFor(t.attempts, aid)[0];
      a.id == out.attemptId && a.expiresAt == out.expiresAt && a.submittedAt.None?
  {
    var (t, out) := StartStep(s, userId, aid, consent, now, pick);
    StartStepSound(s, userId, aid, consent, now, pick);
    var ai := AppIndex(s.applications, aid, userId);
    var k0 := AttemptIndex(s.attempts, aid);
    if k0 >= 0 && !IsExpired(s.attempts[k0], now) {
      assert (t, out) == ResumeStep(s, ai, k0, consent);
      ResumeIsLive(s, ai, k0, consent);
    } else {
      var s1 := if k0 >= 0 then s.(attempts := RemoveAt(s.attempts, k0)) else s;
      if k0 >= 0 {
        ValidRemoveAt(s, k0);
      }
      assert (t, out) == CreateStep(s1, ai, consent, now, pick);
      CreateIsLive(s1, ai, consent, now, pick);
    }
    assert t.applications[ai].id == aid && t.applications[ai].userId == userId;
    AppIndexUnique(t.applications, ai, aid, userId);
  }

  lemma ResumeIsLive(s: Store, ai: int, k: int, consent: bool)
    requires StoreValid(s) && 0 <= ai < |s.applications| && 0 <= k < |s.attempts|
    requires s.attempts[k].applicationId == s.applications[ai].id && s.attempts[k].submittedAt.None?
    ensures var (t, out) := ResumeStep(s, ai, k, consent);
      t.applications[ai].status == InAssessment && out.Started? &&
      AttemptsFor(t.attempts, s.applications[ai].id) == [t.attempts[k]] &&
      t.attempts[k].id == out.attemptId && t.attempts[k].expiresAt == out.expiresAt && t.attempts[k].submittedAt.None?
  {
    ResumeStepSound(s, ai, k, consent);
    SoleAttempt(ResumeStep(s, ai, k, consent).0.attempts, k);
  }

  lemma CreateIsLive(s: Store, ai: int, consent: bool, now: int, pick: nat -> nat)
    requires StoreValid(s) && 0 <= ai < |s.applications| && s.applications[ai].assessment.Some? && RngFits(pick)
    requires AttemptIndex(s.attempts, s.applications[ai].id) < 0
    requires CreateStep(s, ai, consent, now, pick).1.Started?
    ensures var (t, out) := CreateStep(s, ai, consent, now, pick);
      var n := |t.attempts| - 1;
      n >= 0 && t.applications[ai].status == InAssessment &&
      AttemptsFor(t.attempts, s.applications[ai].id) == [t.attempts[n]] &&
      t.attempts[n].id == out.attemptId && t.attempts[n].expiresAt == out.expiresAt && t.attempts[n].submittedAt.None?
  {
    CreateStepSound(s, ai, consent, now, pick);
    var t := CreateStep(s, ai, consent, now, pick).0;
    SoleAttempt(t.attempts, |t.attempts| - 1);
  }

  lemma AppIndexUnique(apps: seq<AppRow>, i: int, aid: int, userId: string)
    requires DistinctAppIds(apps) && 0 <= i < |apps| && apps[i].id == aid && apps[i].userId == userId
    ensures AppIndex(apps, aid, userId) == i
  {
  }

  /**
   * A refused start and a start on a submitted attempt change nothing; the only
   * change without `Started` is the removal of an expired attempt before an
   * assessment with no usable question ids is refused.
   */
  predicate ChangesOnlyWhenStarted(s: Store, aid: int, now: int, t: Store, out: Outcome) {
    ((out.Unauthorized? || out.NotFound? || out.AlreadySubmittedAttempt? ||
      out == BadRequest(ApplicationWithdrawn) || out == BadRequest(NoAssessment)) ==> t == s) &&
    (t != s ==> out.Started? || out == BadRequest(NoQuestions)) &&
    (out == BadRequest(NoQuestions) && t != s ==>
      t.applications == s.applications &&
      var k := AttemptIndex(s.attempts, aid); k >= 0 && IsExpired(s.attempts[k], now) && t.attempts == RemoveAt(s.attempts, k))
  }

  lemma StartChangesOnlyWhenStarted(s: Store, userId: string, aid: int, consent: bool, now: int, pick: nat -> nat)
    requires RngFits(pick)
    ensures var (t, out) := StartStep(s, userId, aid, consent, now, pick);
      ChangesOnlyWhenStarted(s, aid, now, t, out)
  {
    var ai := AppIndex(s.applications, aid, userId);
    if userId != "" && ai >= 0 {
      var app := s.applications[ai];
      var k := AttemptIndex(s.attempts, aid);
      if app.status != Withdrawn && app.assessment.Some? && !(k >= 0 && s.attempts[k].submittedAt.Some?) {
        if k >= 0 && !IsExpired(s.attempts[k], now) {
          assert StartStep(s, userId, aid, consent, now, pick) == ResumeStep(s, ai, k, consent);
        } else {
          var s1 := if k >= 0 then s.(attempts := RemoveAt(s.attempts, k)) else s;
          assert StartStep(s, userId, aid, consent, now, pick) == CreateStep(s1, ai, consent, now, pick);
          CreateStepOutcome(s1, ai, consent, now, pick);
        }
      }
    }
  }

  /** Creation either starts or refuses a document without usable ids, leaving the store as it was given. */
  lemma CreateStepOutcome(s: Store, ai: int, consent: bool, now: int, pick: nat -> nat)
    requires 0 <= ai < |s.applications| && s.applications[ai].assessment.Some? && RngFits(pick)
    ensures var (t, out) := CreateStep(s, ai, consent, now, pick);
      out.Started? || (out == BadRequest(NoQuestions) && t == s)
  {
  }

  /**
   * With no attempt, or an expired one, a start on an assessment with usable ids
   * appends a fresh attempt: empty answers, no proctoring events, the ids in
   * document order or shuffled, and expiry at start plus the time limit.
   */
  lemma StartCreatesFreshAttempt(s: Store, userId: string, aid: int, consent: bool, now: int, pick: nat -> nat)
    requires RngFits(pick) && userId != ""
    requires AppIndex(s.applications, aid, userId) >= 0
    requires var app := s.applications[AppIndex(s.applications, aid, userId)];
      app.status != Withdrawn && app.assessment.Some? && QuestionIds(app.assessment.value.questions.GetOr([])) != []
    requires var k := AttemptIndex(s.attempts, aid); k < 0 || (s.attempts[k].submittedAt.None? && IsExpired(s.attempts[k], now))
    ensures var (t, out) := StartStep(s, userId, aid, consent, now, pick);
      var doc := s.applications[AppIndex(s.applications, aid, userId)].assessment.value;
      var ids := QuestionIds(doc.questions.GetOr([]));
      var a := t.attempts[|t.attempts| - 1];
      |t.attempts| > 0 && out == Started(a.id, a.expiresAt) && a.id == s.nextAttemptId &&
      a.applicationId == aid && a.answers == map[] && a.proctoring == FreshProctoring && a.submittedAt.None? &&
      a.startedAt == now && a.expiresAt == now + doc.timeLimitSeconds.GetOr(DefaultTimeLimitSeconds) &&
      multiset(a.questionOrder) == multiset(ids) &&
      (doc.randomize == Some(false) ==> a.questionOrder == ids)
  {
    var ai := AppIndex(s.applications, aid, userId);
    var k := AttemptIndex(s.attempts, aid);
    var s1 := if k >= 0 then s.(attempts := RemoveAt(s.attempts, k)) else s;
    assert StartStep(s, userId, aid, consent, now, pick) == CreateStep(s1, ai, consent, now, pick);
    CreateStepFresh(s1, ai, consent, now, pick);
  }

  lemma CreateStepFresh(s: Store, ai: int, consent: bool, now: int, pick: nat -> nat)
    requires 0 <= ai < |s.applications| && s.applications[ai].assessment.Some? && RngFits(pick)
    requires QuestionIds(s.applications[ai].assessment.value.questions.GetOr([])) != []
    ensures var (t, out) := CreateStep(s, ai, consent, now, pick);
      var doc := s.applications[ai].assessment.value;
      var ids := QuestionIds(doc.questions.GetOr([]));
      var a := t.attempts[|t.attempts| - 1];
      |t.attempts| > 0 && out == Started(a.id, a.expiresAt) && a.id == s.nextAttemptId &&
      a.applicationId == s.applications[ai].id && a.answers == map[] && a.proctoring == FreshProctoring && a.submittedAt.None? &&
      a.startedAt == now && a.expiresAt == now + doc.timeLimitSeconds.GetOr(DefaultTimeLimitSeconds) &&
      multiset(a.questionOrder) == multiset(ids) &&
      (doc.randomize == Some(false) ==> a.questionOrder == ids)
  {
    var app := s.applications[ai];
    var doc := app.assessment.value;
    var ids := QuestionIds(doc.questions.GetOr([]));
    var a := NewAttempt(s.nextAttemptId, app.id, doc, consent, now, pick);
    StartOrderPermutes(ids, doc.randomize.GetOr(true), pick);
    assert CreateStep(s, ai, consent, now, pick) ==
      (s.(applications := s.applications[ai := app.(status := InAssessment)],
          attempts := s.attempts + [a], nextAttemptId := s.nextAttemptId + 1),
       Started(a.id, a.expiresAt));
  }

  /** The stored order is the ids themselves, or a shuffle of them. */
  lemma StartOrderPermutes(ids: seq<string>, randomize: bool, pick: nat -> nat)
    requires RngFits(pick)
    ensures multiset(StartOrder(ids, randomize, pick)) == multiset(ids)
    ensures !randomize ==> StartOrder(ids, randomize, pick) == ids
  {
    if randomize && |ids| > 0 {
      FisherYatesPermutes(ids, Draws(pick, |ids|), |ids| - 1);
    }
  }
  // ---------------------------------------------------------------- save

  /** `SaveAssessment`: replaces the answers of a live attempt. */
  function SaveStep(s: Store, userId: string, aid: int, answers: Option<map<string, int>>, now: int): (r: (Store, Outcome))
  {
    if userId == "" then (s, Unauthorized)
    else
      var k := OwnedAttemptIndex(s, aid, userId);
      if k < 0 then (s, NotFound)
      else if s.attempts[k].submittedAt.Some? then (s, BadRequest(AlreadySubmitted))
      else if IsExpired(s.attempts[k], now) then (s, BadRequest(TimeIsUp))
      else (s.(attempts := s.attempts[k := s.attempts[k].(answers := answers.GetOr(map[]))]), NoContent)
  }

  /** Saving is refused once the attempt is submitted or expired, and then changes nothing; otherwise only the answers change. */
  lemma SaveStepRules(s: Store, userId: string, aid: int, answers: Option<map<string, int>>, now: int)
    requires StoreValid(s)
    ensures var (t, out) := SaveStep(s, userId, aid, answers, now);
      StoreValid(t) && OnlyTouches(s, t, aid) &&
      var k := OwnedAttemptIndex(s, aid, userId);
      (userId != "" && k >= 0 && (s.attempts[k].submittedAt.Some? || IsExpired(s.attempts[k], now)) ==>
        t == s && out.BadRequest?) &&
      (out == NoContent ==> t.attempts == s.attempts[k := s.attempts[k].(answers := answers.GetOr(map[]))])
  {
    var k := OwnedAttemptIndex(s, aid, userId);
    if userId != "" && k >= 0 && s.attempts[k].submittedAt.None? && !IsExpired(s.attempts[k], now) {
      ValidUpdateAttempt(s, k, s.attempts[k].(answers := answers.GetOr(map[])));
    }
  }

  // ---------------------------------------------------------------- proctoring

  /** `ProctorEvent`: logs the trimmed event type and applies the counter and flag rules. */
  function ProctorEventStep(s: Store, userId: string, aid: int, eventType: Option<string>, now: int): (r: (Store, Outcome))
  {
    if userId == "" then (s, Unauthorized)
    else
      var k := OwnedAttemptIndex(s, aid, userId);
      if k < 0 then (s, NotFound)
      else if s.attempts[k].submittedAt.Some? then (s, NoContent)
      else
        var a := s.attempts[k];
        var (p, message) := ProctorStep(a.proctoring, Classify(eventType));
        (s.(attempts := s.attempts[k := a.(proctoring := p)],
            proctorLog := s.proctorLog + [ProctorLogRow(a.id, Strip(eventType.GetOr("")), now)]),
         ProctorResponse(p.flagged, p, message))
  }

  /**
   * A submitted attempt is left untouched. Otherwise the event is logged once, at
   * most one counter of the attempt grows by one, and the answer is 429 exactly
   * when the attempt is flagged afterwards.
   */
  lemma ProctorEventStepRules(s: Store, userId: string, aid: int, eventType: Option<string>, now: int)
    requires StoreValid(s)
    ensures var (t, out) := ProctorEventStep(s, userId, aid, eventType, now);
      StoreValid(t) && OnlyTouches(s, t, aid) &&
      var k := OwnedAttemptIndex(s, aid, userId);
      (userId != "" && k >= 0 && s.attempts[k].submittedAt.Some? ==> t == s && out == NoContent) &&
      (out.ProctorResponse? ==>
        |t.proctorLog| == |s.proctorLog| + 1 && |t.attempts| == |s.attempts| &&
        var (a, b) := (s.attempts[k].proctoring, t.attempts[k].proctoring);
        (b.tabSwitchCount - a.tabSwitchCount) + (b.copyPasteCount - a.copyPasteCount) +
        (b.suspiciousCount - a.suspiciousCount) <= 1 &&
        a.tabSwitchCount <= b.tabSwitchCount && a.copyPasteCount <= b.copyPasteCount && a.suspiciousCount <= b.suspiciousCount &&
        (a.flagged ==> b.flagged && b.flagReason == a.flagReason) &&
        (out.tooManyRequests <==> b.flagged))
  {
    var k := OwnedAttemptIndex(s, aid, userId);
    if userId != "" && k >= 0 && s.attempts[k].submittedAt.None? {
      var a := s.attempts[k];
      var c := Classify(eventType);
      var p := ProctorStep(a.proctoring, c).0;
      ProctorStepValid(a.proctoring, c);
      ProctorStepCounts(a.proctoring, c);
      var s1 := s.(attempts := s.attempts[k := a.(proctoring := p)]);
      ValidUpdateAttempt(s, k, a.(proctoring := p));
      var t := ProctorEventStep(s, userId, aid, eventType, now).0;
      assert t.proctorLog[..|s.proctorLog|] == s.proctorLog;
    }
  }

  // ---------------------------------------------------------------- submit

  /** `Submit`, with the code score of the hidden tests given. */
  function SubmitStep(s: Store, userId: string, aid: int, now: int, codeScore: real): (r: (Store, Outcome))
  {
    if userId == "" then (s, Unauthorized)
    else
      var k := OwnedAttemptIndex(s, aid, userId);
      if k < 0 then (s, NotFound)
      else if s.attempts[k].submittedAt.Some? then (s, BadRequest(AlreadySubmitted))
      else if IsExpired(s.attempts[k], now) then (s, BadRequest(TimeIsUp))
      else
        var ai := AppIndex(s.applications, aid, userId);
        var app := s.applications[ai];
        if app.assessment.None? then (s, BadRequest(NoAssessment))
        else
          var doc := app.assessment.value;
          var mcq := McqScore(doc, s.attempts[k].answers);
          var final := FinalScore(mcq, codeScore, HasQuestionType(doc, "mcq"), HasQuestionType(doc, "code"));
          (s.(applications := s.applications[ai := app.(status := Submitted)],
              attempts := s.attempts[k := s.attempts[k].(score := Some(final), submittedAt := Some(now))]),
           Graded(final, mcq, codeScore))
  }

  /** Submitting keeps the store valid, is refused late, and a code score in range gives a final score in range. */
  lemma SubmitStepRules(s: Store, userId: string, aid: int, now: int, codeScore: real)
    requires StoreValid(s)
    ensures var (t, out) := SubmitStep(s, userId, aid, now, codeScore);
      StoreValid(t) && OnlyTouches(s, t, aid) &&
      var k := OwnedAttemptIndex(s, aid, userId);
      (userId != "" && k >= 0 && (s.attempts[k].submittedAt.Some? || IsExpired(s.attempts[k], now)) ==>
        t == s && out.BadRequest?) &&
      (out.Graded? ==>
        t.attempts[k].submittedAt == Some(now) && t.attempts[k].score == Some(out.finalScore) &&
        t.applications[AppIndex(s.applications, aid, userId)].status == Submitted &&
        (0.0 <= codeScore <= 100.0 ==> 0.0 <= out.finalScore <= 100.0))
  {
    var k := OwnedAttemptIndex(s, aid, userId);
    var ai := AppIndex(s.applications, aid, userId);
    if userId != "" && k >= 0 && s.attempts[k].submittedAt.None? && !IsExpired(s.attempts[k], now)
       && s.applications[ai].assessment.Some? {
      var app := s.applications[ai];
      var doc := app.assessment.value;
      var mcq := McqScore(doc, s.attempts[k].answers);
      var final := FinalScore(mcq, codeScore, HasQuestionType(doc, "mcq"), HasQuestionType(doc, "code"));
      var a := s.attempts[k].(score := Some(final), submittedAt := Some(now));
      var s1 := s.(attempts := s.attempts[k := a]);
      ValidUpdateAttempt(s, k, a);
      ValidUpdateStatus(s1, SubmitStep(s, userId, aid, now, codeScore).0, ai, Submitted);
      OnlyTouchesTrans(s, s1, SubmitStep(s, userId, aid, now, codeScore).0, aid);
      if 0.0 <= codeScore <= 100.0 {
        FinalScoreWithin(mcq, codeScore, HasQuestionType(doc, "mcq"), HasQuestionType(doc, "code"));
      }
    }
  }

  /**
   * A submission is final: afterwards saving and submitting are refused, proctoring
   * events are ignored and starting reports the submitted attempt, all without change.
   */
  lemma SubmittedIsFinal(s: Store, userId: string, aid: int, now: int, codeScore: real,
                         later: int, answers: Option<map<string, int>>, eventType: Option<string>, consent: bool, pick: nat -> nat)
    requires StoreValid(s) && RngFits(pick)
    requires SubmitStep(s, userId, aid, now, codeScore).1.Graded?
    ensures var t := SubmitStep(s, userId, aid, now, codeScore).0;
      SaveStep(t, userId, aid, answers, later) == (t, BadRequest(AlreadySubmitted)) &&
      SubmitStep(t, userId, aid, later, codeScore) == (t, BadRequest(AlreadySubmitted)) &&
      ProctorEventStep(t, userId, aid, eventType, later) == (t, NoContent) &&
      StartStep(t, userId, aid, consent, later, pick).0 == t
  {
    var t := SubmitStep(s, userId, aid, now, codeScore).0;
    var k := OwnedAttemptIndex(s, aid, userId);
    var ai := AppIndex(s.applications, aid, userId);
    AppIndexUnique(t.applications, ai, aid, userId);
    AttemptIndexSameKeys(s.attempts, t.attempts, aid);
    assert OwnedAttemptIndex(t, aid, userId) == k;
  }

  /** Updating attempts in place without changing their applications keeps every first-index lookup. */
  lemma {:induction false} AttemptIndexSameKeys(a: seq<Attempt>, b: seq<Attempt>, aid: int)
    requires |a| == |b| && forall j :: 0 <= j < |a| ==> a[j].applicationId == b[j].applicationId
    ensures AttemptIndex(a, aid) == AttemptIndex(b, aid)
    decreases |a|
  {
    if a != [] {
      AttemptIndexSameKeys(a[1..], b[1..], aid);
    }
  }

  // ---------------------------------------------------------------- reset

  /** `ResetAssessment`: deletes the application's attempt, if any, and sets the application back to Draft. */
  function ResetStep(s: Store, userId: string, aid: int): (r: (Store, Outcome))
  {
    if userId == "" then (s, Unauthorized)
    else
      var ai := AppIndex(s.applications, aid, userId);
      if ai < 0 then (s, NotFound)
      else
        var k := AttemptIndex(s.attempts, aid);
        var ats := if k >= 0 then RemoveAt(s.attempts, k) else s.attempts;
        (s.(applications := s.applications[ai := s.applications[ai].(status := Draft)], attempts := ats), ResetDone)
  }

  /** After a reset the application is a draft with no attempt, even a submitted one. */
  lemma ResetStepRules(s: Store, userId: string, aid: int)
    requires StoreValid(s)
    ensures var (t, out) := ResetStep(s, userId, aid);
      StoreValid(t) && OnlyTouches(s, t, aid) &&
      (out == ResetDone ==>
        AttemptsFor(t.attempts, aid) == [] &&
        t.applications[AppIndex(s.applications, aid, userId)].status == Draft)
  {
    var (t, out) := ResetStep(s, userId, aid);
    if out == ResetDone {
      var ai := AppIndex(s.applications, aid, userId);
      var k := AttemptIndex(s.attempts, aid);
      var s1 := if k >= 0 then s.(attempts := RemoveAt(s.attempts, k)) else s;
      if k >= 0 { ValidRemoveAt(s, k); }
      ValidUpdateStatus(s1, t, ai, Draft);
      if k >= 0 { OnlyTouchesTrans(s, s1, t, aid); }
      assert AttemptIndex(t.attempts, aid) < 0;
      NoneMatch(t.attempts, ForApplication(aid));
    }
  }

  // ---------------------------------------------------------------- the store object

  class AssessmentStore {
    var applications: seq<AppRow>
    var attempts: seq<Attempt>
    var proctorLog: seq<ProctorLogRow>
    var nextAttemptId: int

    function State(): Store
      reads this
    {
      Store(applications, attempts, proctorLog, nextAttemptId)
    }

    ghost predicate Valid()
      reads this
    {
      StoreValid(State())
    }

    constructor (applications: seq<AppRow>)
      requires DistinctAppIds(applications)
      ensures State() == Store(applications, [], [], 1) && Valid()
    {
      this.applications := applications;
      attempts := [];
      proctorLog := [];
      nextAttemptId := 1;
    }

    /** The loop of `StartAssessment` over the questions: usable ids and the two type counters. */
    static method CollectQuestions(qs: seq<Question>) returns (ids: seq<string>, mcqCount: int, challengeCount: int)
      ensures ids == QuestionIds(qs) && mcqCount == McqCount(qs) && challengeCount == CodeCount(qs)
    {
      ids, mcqCount, challengeCount := [], 0, 0;
      for n := 0 to |qs|
        invariant ids == QuestionIds(qs[..n]) && mcqCount == McqCount(qs[..n]) && challengeCount == CodeCount(qs[..n])
      {
        assert qs[..n + 1][..n] == qs[..n];
        var q := qs[n];
        if HasUsableId(q) {
          ids := ids + [q.id.value];
        }
        if IsMcq(q) {
          mcqCount := mcqCount + 1;
        } else if IsCode(q) {
          challengeCount := challengeCount + 1;
        }
      }
      assert qs[..|qs|] == qs;
    }

    method StartAssessment(userId: string, applicationId: int, webcamConsent: bool, now: int, pick: nat -> nat)
      returns (out: Outcome)
      requires Valid() && RngFits(pick)
      modifies this
      ensures (State(), out) == StartStep(old(State()), userId, applicationId, webcamConsent, now, pick)
      ensures Valid()
    {
      StartStepSound(State(), userId, applicationId, webcamConsent, now, pick);
      if userId == "" {
        return Unauthorized;
      }
      var ai := AppIndex(applications, applicationId, userId);
      if ai < 0 {
        return NotFound;
      }
      var app := applications[ai];
      if app.status == Withdrawn {
        return BadRequest(ApplicationWithdrawn);
      }
      if app.assessment.None? {
        return BadRequest(NoAssessment);
      }
      var k := AttemptIndex(attempts, app.id);
      if k >= 0 {
        var existing := attempts[k];
        if existing.submittedAt.Some? {
          return AlreadySubmittedAttempt(existing.id, existing.expiresAt);
        }
        if IsExpired(existing, now) {
          attempts := RemoveAt(attempts, k);
        } else {
          applications := applications[ai := app.(status := InAssessment)];
          attempts := attempts[k := existing.(webcamConsent := webcamConsent)];
          return Started(existing.id, existing.expiresAt);
        }
      }
      out := CreateAttempt(ai, webcamConsent, now, pick);
    }

    /** The second half of `StartAssessment`: a new attempt with the question order, shuffled when asked for. */
    method CreateAttempt(ai: int, webcamConsent: bool, now: int, pick: nat -> nat) returns (out: Outcome)
      requires 0 <= ai < |applications| && applications[ai].assessment.Some? && RngFits(pick)
      modifies this
      ensures (State(), out) == CreateStep(old(State()), ai, webcamConsent, now, pick)
    {
      var app := applications[ai];
      var doc := app.assessment.value;
      var timeLimitSeconds := doc.timeLimitSeconds.GetOr(DefaultTimeLimitSeconds);
      var randomize := doc.randomize.GetOr(true);
      var questionIds, mcqCount, challengeCount := CollectQuestions(doc.questions.GetOr([]));
      if |questionIds| == 0 {
        return BadRequest(NoQuestions);
      }
      var order := questionIds;
      if randomize {
        var items := new string[|questionIds|](i requires 0 <= i < |questionIds| => questionIds[i]);
        assert items[..] == questionIds;
        Shuffle(items, Draws(pick, items.Length));
        order := items[..];
      }
      assert order == StartOrder(questionIds, randomize, pick);
      applications := applications[ai := app.(status := InAssessment)];
      var attempt := Attempt(nextAttemptId, app.id, map[], None, now, None, timeLimitSeconds, now + timeLimitSeconds,
                             order, webcamConsent, FreshProctoring, mcqCount, challengeCount);
      attempts := attempts + [attempt];
      nextAttemptId := nextAttemptId + 1;
      out := Started(attempt.id, attempt.expiresAt);
    }

    method SaveAssessment(userId: string, applicationId: int, answers: Option<map<string, int>>, now: int)
      returns (out: Outcome)
      requires Valid()
      modifies this
      ensures (State(), out) == SaveStep(old(State()), userId, applicationId, answers, now)
      ensures Valid()
    {
      SaveStepRules(State(), userId, applicationId, answers, now);
      if userId == "" {
        return Unauthorized;
      }
      var k := OwnedAttemptIndex(State(), applicationId, userId);
      if k < 0 {
        return NotFound;
      }
      var attempt := attempts[k];
      if attempt.submittedAt.Some? {
        return BadRequest(AlreadySubmitted);
      }
      if IsExpired(attempt, now) {
        return BadRequest(TimeIsUp);
      }
      attempts := attempts[k := attempt.(answers := answers.GetOr(map[]))];
      out := NoContent;
    }

    method ProctorEvent(userId: string, applicationId: int, eventType: Option<string>, now: int)
      returns (out: Outcome)
      requires Valid()
      modifies this
      ensures (State(), out) == ProctorEventStep(old(State()), userId, applicationId, eventType, now)
      ensures Valid()
    {
      ProctorEventStepRules(State(), userId, applicationId, eventType, now);
      if userId == "" {
        return Unauthorized;
      }
      var k := OwnedAttemptIndex(State(), applicationId, userId);
      if k < 0 {
        return NotFound;
      }
      var attempt := attempts[k];
      if attempt.submittedAt.Some? {
        return NoContent;
      }
      proctorLog := proctorLog + [ProctorLogRow(attempt.id, Strip(eventType.GetOr("")), now)];
      var p, message := ProctorStep(attempt.proctoring, Classify(eventType)).0, ProctorStep(attempt.proctoring, Classify(eventType)).1;
      attempts := attempts[k := attempt.(proctoring := p)];
      out := ProctorResponse(p.flagged, p, message);
    }

    method Submit(userId: string, applicationId: int, now: int, codeScore: real) returns (out: Outcome)
      requires Valid()
      modifies this
      ensures (State(), out) == SubmitStep(old(State()), userId, applicationId, now, codeScore)
      ensures Valid()
    {
      SubmitStepRules(State(), userId, applicationId, now, codeScore);
      if userId == "" {
        return Unauthorized;
      }
      var k := OwnedAttemptIndex(State(), applicationId, userId);
      if k < 0 {
        return NotFound;
      }
      var attempt := attempts[k];
      if attempt.submittedAt.Some? {
        return BadRequest(AlreadySubmitted);
      }
      if IsExpired(attempt, now) {
        return BadRequest(TimeIsUp);
      }
      var ai := AppIndex(applications, applicationId, userId);
      var app := applications[ai];
      if app.assessment.None? {
        return BadRequest(NoAssessment);
      }
      var doc := app.assessment.value;
      var mcqScore := ComputeMcqScore(doc, attempt.answers);
      var hasMcq := HasQuestionType(doc, "mcq");
      var hasCode := HasQuestionType(doc, "code");
      var finalScore := FinalScore(mcqScore, codeScore, hasMcq, hasCode);
      attempts := attempts[k := attempt.(score := Some(finalScore), submittedAt := Some(now))];
      applications := applications[ai := app.(status := Submitted)];
      out := Graded(finalScore, mcqScore, codeScore);
    }

    method ResetAssessment(userId: string, applicationId: int) returns (out: Outcome)
      requires Valid()
      modifies this
      ensures (State(), out) == ResetStep(old(State()), userId, applicationId)
      ensures Valid()
    {
      ResetStepRules(State(), userId, applicationId);
      if userId == "" {
        return Unauthorized;
      }
      var ai := AppIndex(applications, applicationId, userId);
      if ai < 0 {
        return NotFound;
      }
      var k := AttemptIndex(attempts, applicationId);
      if k >= 0 {
        attempts := RemoveAt(attempts, k);
      }
      applications := applications[ai := applications[ai].(status := Draft)];
      out := ResetDone;
    }
  }
}
