/**
 * `viewQuestion`: count a view on the question and record at most one `view`
 * interaction per (user, question).
 */
module InteractionActions {
  import opened Common
  import opened Store

  /** The interaction `viewQuestion` creates. */
  function ViewOf(user: UserId, questionId: QuestionId): (x: Interaction)
    ensures IsViewOf(x, user, questionId)
  {
    Interaction(user, View, Some(questionId), None, [])
  }

  /**
   * The store after `viewQuestion`: the question's `views` goes up by one (a
   * missing question matches nothing); a signed-in user who has no `view`
   * interaction on the question yet gets one.
   */
  function ViewedQuestion(s: State, questionId: QuestionId, userId: Option<UserId>): (r: State)
    ensures r.questions.Keys == s.questions.Keys
    ensures r.answers == s.answers && r.tags == s.tags && r.reputation == s.reputation && r.nextId == s.nextId
  {
    var questions := if questionId in s.questions
                     then s.questions[questionId := s.questions[questionId].(views := s.questions[questionId].views + 1)]
                     else s.questions;
    var interactions := if userId.Some? && !HasViewed(s.interactions, userId.value, questionId)
                        then s.interactions + [ViewOf(userId.value, questionId)]
                        else s.interactions;
    s.(questions := questions, interactions := interactions)
  }

  /**
   * Every call adds exactly one view to the question and none to any other;
   * without a user nothing is recorded; a user who has viewed already gets
   * nothing new; otherwise one record is appended, after which the user has
   * viewed the question. Nothing else changes.
   */
  lemma ViewedQuestionEffect(s: State, questionId: QuestionId, userId: Option<UserId>)
    ensures var r := ViewedQuestion(s, questionId, userId);
      && r.questions.Keys == s.questions.Keys
      && (forall q :: q in s.questions ==>
            r.questions[q] == s.questions[q].(views := s.questions[q].views + (if q == questionId then 1 else 0)))
      && (userId.None? ==> r.interactions == s.interactions)
      && (userId.Some? && HasViewed(s.interactions, userId.value, questionId) ==> r.interactions == s.interactions)
      && (userId.Some? ==> HasViewed(r.interactions, userId.value, questionId))
      && |s.interactions| <= |r.interactions| <= |s.interactions| + 1
      && r.interactions[..|s.interactions|] == s.interactions
      && r.answers == s.answers && r.tags == s.tags && r.reputation == s.reputation && r.nextId == s.nextId
  {
    var r := ViewedQuestion(s, questionId, userId);
    if userId.Some? && !HasViewed(s.interactions, userId.value, questionId) {
      assert r.interactions[|s.interactions|] == ViewOf(userId.value, questionId);
    }
  }

  /** Viewing keeps the store invariant, leaves the user exactly one view, and keeps every ballot well formed. */
  lemma ViewedQuestionKeepsInvariants(s: State, questionId: QuestionId, userId: Option<UserId>)
    requires ValidState(s)
    ensures var r := ViewedQuestion(s, questionId, userId);
      && ValidState(r)
      && (userId.Some? ==> ViewCount(r.interactions, userId.value, questionId) == 1)
      && (BallotsWellFormed(s.questions, s.answers) ==> BallotsWellFormed(r.questions, r.answers))
  {
    var r := ViewedQuestion(s, questionId, userId);
    assert IdsIssued(r.questions, r.answers, r.nextId);
    if userId.Some? {
      var user := userId.value;
      ViewCountPositive(s.interactions, user, questionId);
      if !HasViewed(s.interactions, user, questionId) {
        AppendViewAtMostOneView(s.interactions, ViewOf(user, questionId), user, questionId);
      }
    }
  }

  /** A second view by the same user counts as a view but records nothing more. */
  lemma ViewTwiceRecordsOnce(s: State, questionId: QuestionId, userId: Option<UserId>)
    ensures var once := ViewedQuestion(s, questionId, userId);
      var twice := ViewedQuestion(once, questionId, userId);
      && twice.interactions == once.interactions
      && (questionId in s.questions ==> twice.questions[questionId].views == s.questions[questionId].views + 2)
  {
    ViewedQuestionEffect(s, questionId, userId);
    ViewedQuestionEffect(ViewedQuestion(s, questionId, userId), questionId, userId);
  }

  /** `viewQuestion`, with the store invariant kept. */
  method ViewQuestion(db: Database, questionId: QuestionId, userId: Option<UserId>)
    requires db.Valid()
    modifies db
    ensures db.Valid()
    ensures db.Contents() == ViewedQuestion(old(db.Contents()), questionId, userId)
    ensures userId.Some? ==> ViewCount(db.interactions, userId.value, questionId) == 1
    ensures old(db.VotesWellFormed()) ==> db.VotesWellFormed()
  {
    ViewedQuestionKeepsInvariants(db.Contents(), questionId, userId);
    if questionId in db.questions {
      var q := db.questions[questionId];
      db.questions := db.questions[questionId := q.(views := q.views + 1)];
    }

    if userId.Some? {
      var user := userId.value;
      if HasViewed(db.interactions, user, questionId) {
        return;
      }
      db.interactions := db.interactions + [ViewOf(user, questionId)];
    }
  }
}
