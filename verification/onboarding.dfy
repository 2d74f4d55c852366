/**
  The onboarding assessment: questions fetched per language, one answer per
  question index, an index that advances after each answer, and a submit
  that is refused until every question is answered. The fetch and the
  analysis are external calls; their outcomes are parameters.
 */
module Onboarding {
  import opened Types
  import opened App

  datatype Form = Form(
    questions: seq<Question>,
    answers: map<nat, string>,
    index: nat,
    loading: bool,
    submitting: bool,
    error: Option<string>)

  /** The page before its first fetch completes. */
  const Initial: Form := Form([], map[], 0, true, false, None)

  /** The index stays within the questions, and answers exist only for real questions. */
  ghost predicate Valid(o: Form) {
    && (|o.questions| == 0 ==> o.index == 0)
    && (|o.questions| > 0 ==> o.index < |o.questions|)
    && forall k :: k in o.answers ==> k < |o.questions|
  }

  /**
    A fetch of the questions (on mount and on every language change): the
    answers and the index are reset; on success the fetched questions
    replace the old ones, on failure the error is shown and the old
    questions stay.
   */
  function LoadQuestions(o: Form, fetched: Option<seq<Question>>, errorText: string): (r: Form)
    ensures r.answers == map[] && r.index == 0 && !r.loading && r.submitting == o.submitting
    ensures fetched.Some? ==> r.questions == fetched.value && r.error.None?
    ensures fetched.None? ==> r.questions == o.questions && r.error == Some(errorText)
  {
    var started := o.(loading := true, error := None, answers := map[], index := 0);
    match fetched
    case Some(qs) => started.(questions := qs, loading := false)
    case None => started.(error := Some(errorText), loading := false)
  }

  /** The options of the current question are on screen. */
  predicate OptionsShown(o: Form) {
    !o.loading && o.error.None? && !o.submitting && |o.questions| > 0 && o.index < |o.questions|
  }

  /**
    Picking an option: it becomes the answer for the current index,
    overwriting an earlier one, and the index moves on unless it is on the
    last question. Nothing happens while the options are not shown.
   */
  function Answer(o: Form, option: string): (r: Form)
    ensures !OptionsShown(o) ==> r == o
    ensures OptionsShown(o) ==>
      && o.index in r.answers && r.answers[o.index] == option
      && r.answers.Keys == o.answers.Keys + {o.index}
      && (forall k :: k in o.answers && k != o.index ==> r.answers[k] == o.answers[k])
      && r.index == (if o.index < |o.questions| - 1 then o.index + 1 else o.index)
      && r.questions == o.questions
  {
    if !OptionsShown(o) then o
    else
      var next := if o.index < |o.questions| - 1 then o.index + 1 else o.index;
      o.(answers := o.answers[o.index := option], index := next)
  }

  /** Fetching and answering keep the page valid. */
  lemma LoadKeepsValid(o: Form, fetched: Option<seq<Question>>, errorText: string)
    requires Valid(o)
    ensures Valid(LoadQuestions(o, fetched, errorText))
  {
  }

  lemma AnswerKeepsValid(o: Form, option: string)
    requires Valid(o)
    ensures Valid(Answer(o, option))
  {
  }

  /** The submit check: as many answered indices as questions. */
  predicate AllCounted(o: Form) {
    |o.answers.Keys| == |o.questions|
  }

  /**
    The submit button is on screen. A fetch and a submit each settle within
    one transition, so `loading` and `submitting` are never left true
    between transitions after the first fetch.
   */
  predicate SubmitShown(o: Form) {
    !o.loading && o.error.None? && !o.submitting && |o.questions| > 0 && AllCounted(o)
  }

  function Below(n: nat): (r: set<nat>)
    ensures forall k: nat :: k in r <==> k < n
    ensures |r| == n
  {
    if n == 0 then {} else
      var r := Below(n - 1) + {n - 1};
      assert n - 1 !in Below(n - 1);
      r
  }

  /** A subset with as many elements as the whole is the whole. */
  lemma SubsetOfSameSize(a: set<nat>, b: set<nat>)
    requires a <= b && |a| == |b|
    ensures a == b
  {
    assert |b - a| == |b| - |a|;
  }

  /** Because answers only go to real question indices, the count check means every question is answered. */
  lemma CountedMeansAnswered(o: Form)
    requires Valid(o) && AllCounted(o)
    ensures forall k :: 0 <= k < |o.questions| ==> k in o.answers
  {
    var keys := o.answers.Keys;
    var all := Below(|o.questions|);
    assert keys <= all;
    SubsetOfSameSize(keys, all);
  }

  /** Answering the last question when all earlier ones are answered passes the count check and shows the submit button. */
  lemma AnsweringInTurnCompletes(o: Form, option: string)
    requires Valid(o) && OptionsShown(o) && o.index == |o.questions| - 1
    requires forall k :: 0 <= k < o.index ==> k in o.answers
    ensures AllCounted(Answer(o, option))
    ensures SubmitShown(Answer(o, option))
  {
    var r := Answer(o, option);
    assert r.answers.Keys == Below(|o.questions|);
  }

  /**
    Submitting: refused (with an alert) unless the counts match; otherwise
    the analysis runs, a result creates the user through the state container
    exactly once, a failure shows the error and creates nobody. Either way
    the page stops submitting.
   */
  function Submit(o: Form, s: State, analysis: Option<AssessmentResult>, now: nat, errorText: string): (r: (Form, State))
    ensures !AllCounted(o) ==> r == (o, s)
    ensures AllCounted(o) && analysis.Some? ==>
      && r.1 == Step(s, CompleteAssessmentCall(analysis.value, now))
      && r.0 == o.(error := None, submitting := false)
    ensures AllCounted(o) && analysis.None? ==>
      && r.1 == s
      && r.0 == o.(error := Some(errorText), submitting := false)
  {
    if |o.answers.Keys| != |o.questions| then (o, s)
    else
      var busy := o.(submitting := true, error := None);
      match analysis
      case Some(result) => (busy.(submitting := false), Step(s, CompleteAssessmentCall(result, now)))
      case None => (busy.(error := Some(errorText), submitting := false), s)
  }

  /** A successful submit adds exactly one user, the new current user, carrying the result. */
  lemma SubmitCreatesOneUser(o: Form, s: State, result: AssessmentResult, now: nat, errorText: string)
    requires AllCounted(o) && UniqueIds(s.allUsers)
    requires forall u :: u in s.allUsers ==> u.id != UserIdAt(now)
    ensures var s' := Submit(o, s, Some(result), now, errorText).1;
      && |s'.allUsers| == |s.allUsers| + 1
      && s'.allUsers[..|s.allUsers|] == s.allUsers
      && s'.user == Some(s'.allUsers[|s.allUsers|])
      && s'.user.value.assessmentResult == Some(result)
  {
    CompleteAssessmentStaysCurrent(s, result, now);
    var s' := Step(s, CompleteAssessmentCall(result, now));
    assert s'.allUsers == s.allUsers + [s'.user.value];
  }
}
