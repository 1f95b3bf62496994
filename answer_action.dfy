/**
 * The answer server actions: `createAnswer`, the `getAnswers` sort mapping,
 * the two answer votes (no reputation change) and `deleteAnswer`.
 */
module AnswerActions {
  import opened Common
  import opened ListOps
  import opened Votes
  import opened Store

  // ---------------------------------------------------------------- createAnswer

  /**
   * The store after `createAnswer` with the next free id: the answer is stored
   * with an empty ballot and its id is pushed onto the question's `answers`.
   * If the question does not exist the update matches nothing and the answer
   * is stored anyway.
   */
  function CreatedAnswer(s: State, content: string, author: UserId, question: QuestionId): (r: State)
    ensures r.answers.Keys == s.answers.Keys + {s.nextId}
    ensures forall a :: a in s.answers && a != s.nextId ==> r.answers[a] == s.answers[a]
    ensures r.answers[s.nextId] == Answer(author, question, content, Ballot([], []))
    ensures r.questions.Keys == s.questions.Keys
    ensures question in s.questions ==>
      r.questions[question] == s.questions[question].(answers := s.questions[question].answers + [s.nextId])
    ensures forall q :: q in s.questions && q != question ==> r.questions[q] == s.questions[q]
    ensures r.tags == s.tags && r.interactions == s.interactions && r.reputation == s.reputation
    ensures r.nextId == s.nextId + 1
  {
    var answerId := s.nextId;
    s.(answers := s.answers[answerId := Answer(author, question, content, Ballot([], []))],
       questions := if question in s.questions
                    then s.questions[question := s.questions[question].(answers := Push(s.questions[question].answers, answerId))]
                    else s.questions,
       nextId := answerId + 1)
  }

  /** Creating an answer keeps the store invariant, uses a fresh id and keeps every ballot well formed. */
  lemma CreatedAnswerKeepsInvariants(s: State, content: string, author: UserId, question: QuestionId)
    requires ValidState(s)
    ensures var r := CreatedAnswer(s, content, author, question);
      && ValidState(r)
      && s.nextId !in s.answers && r.answers.Keys == s.answers.Keys + {s.nextId}
      && r.questions.Keys == s.questions.Keys
      && (BallotsWellFormed(s.questions, s.answers) ==> BallotsWellFormed(r.questions, r.answers))
  {
    var r := CreatedAnswer(s, content, author, question);
    assert IdsIssued(r.questions, r.answers, r.nextId);
  }

  /** `createAnswer`: one fresh id, one stored answer, one `$push` onto the question. */
  method CreateAnswer(db: Database, content: string, author: UserId, question: QuestionId)
    requires db.Valid()
    modifies db
    ensures db.Valid()
    ensures db.Contents() == CreatedAnswer(old(db.Contents()), content, author, question)
    ensures old(db.VotesWellFormed()) ==> db.VotesWellFormed()
  {
    CreatedAnswerKeepsInvariants(db.Contents(), content, author, question);
    var answerId := db.NewObjectId();
    db.answers := db.answers[answerId := Answer(author, question, content, Ballot([], []))];
    if question in db.questions {
      var q := db.questions[question];
      db.questions := db.questions[question := q.(answers := Push(q.answers, answerId))];
    }
  }

  // ---------------------------------------------------------------- getAnswers

  datatype SortKey = ByUpvotes | ByCreatedAt
  datatype Direction = Ascending | Descending   // 1 and -1
  datatype SortOptions = Unsorted | SortBy(key: SortKey, direction: Direction)

  /** The `sortBy` values `getAnswers` recognises. */
  predicate KnownSort(sortBy: string) {
    sortBy == "highestUpvotes" || sortBy == "lowestUpvotes" || sortBy == "recent" || sortBy == "old"
  }

  /** The `switch (sortBy)` of `getAnswers`; a missing `sortBy` falls to the default. */
  function AnswerSortOptions(sortBy: Option<string>): (r: SortOptions)
    ensures r.Unsorted? <==> sortBy.None? || !KnownSort(sortBy.value)
    ensures r.SortBy? ==> (r.key == ByUpvotes <==> sortBy.value == "highestUpvotes" || sortBy.value == "lowestUpvotes")
    ensures r.SortBy? ==> (r.direction == Descending <==> sortBy.value == "highestUpvotes" || sortBy.value == "recent")
  {
    if sortBy == Some("highestUpvotes") then SortBy(ByUpvotes, Descending)
    else if sortBy == Some("lowestUpvotes") then SortBy(ByUpvotes, Ascending)
    else if sortBy == Some("recent") then SortBy(ByCreatedAt, Descending)
    else if sortBy == Some("old") then SortBy(ByCreatedAt, Ascending)
    else Unsorted
  }

  function Reverse(d: Direction): Direction {
    if d == Ascending then Descending else Ascending
  }

  /**
   * The mapping sorts exactly for the four known values, gives each a
   * different order, and pairs them as opposite directions on one key.
   */
  lemma AnswerSortOptionsTable(sortBy: Option<string>, other: Option<string>)
    ensures AnswerSortOptions(sortBy).Unsorted? <==> sortBy.None? || !KnownSort(sortBy.value)
    ensures AnswerSortOptions(sortBy) == AnswerSortOptions(other) && AnswerSortOptions(sortBy).SortBy? ==> sortBy == other
    ensures AnswerSortOptions(Some("lowestUpvotes")).direction == Reverse(AnswerSortOptions(Some("highestUpvotes")).direction)
    ensures AnswerSortOptions(Some("old")).direction == Reverse(AnswerSortOptions(Some("recent")).direction)
  {
  }

  // ---------------------------------------------------------------- votes

  /** `upVoteAnswer`: the question table on an answer, with no reputation change. */
  method UpVoteAnswer(db: Database, answerId: AnswerId, userId: UserId, hasUpVoted: bool, hasDownVoted: bool)
    returns (outcome: Outcome)
    requires db.Valid()
    modifies db
    ensures db.Valid()
    ensures answerId !in old(db.answers) ==>
      outcome == Thrown("Answer not found") && db.Contents() == old(db.Contents())
    ensures answerId in old(db.answers) ==>
      var a := old(db.answers[answerId]);
      && outcome == Done
      && db.Contents() == old(db.Contents()).(
           answers := old(db.answers)[answerId := a.(votes := ApplyQuery(a.votes, UpVoteQuery(hasUpVoted, hasDownVoted), userId))])
    ensures old(db.VotesWellFormed()) && answerId in old(db.answers)
            && FlagsMatch(old(db.answers[answerId].votes), userId, hasUpVoted, hasDownVoted)
            ==> db.VotesWellFormed()
  {
    var updateQuery := UpVoteQuery(hasUpVoted, hasDownVoted);
    if answerId !in db.answers {
      return Thrown("Answer not found");
    }
    var answer := db.answers[answerId];
    ReplaceItemKeepsInvariants(db.Contents(), db.Contents().(answers := db.answers[answerId := answer.(votes := ApplyQuery(answer.votes, updateQuery, userId))]));
    db.answers := db.answers[answerId := answer.(votes := ApplyQuery(answer.votes, updateQuery, userId))];
    if FlagsMatch(answer.votes, userId, hasUpVoted, hasDownVoted) && old(db.VotesWellFormed()) {
      UpVoteEffect(answer.votes, userId, hasUpVoted, hasDownVoted);
    }
    outcome := Done;
  }

  /**
   * `downVoteAnswer`: the mirror image. A missing answer throws with the
   * message "Question not found", as the action is written.
   */
  method DownVoteAnswer(db: Database, answerId: AnswerId, userId: UserId, hasUpVoted: bool, hasDownVoted: bool)
    returns (outcome: Outcome)
    requires db.Valid()
    modifies db
    ensures db.Valid()
    ensures answerId !in old(db.answers) ==>
      outcome == Thrown("Question not found") && db.Contents() == old(db.Contents())
    ensures answerId in old(db.answers) ==>
      var a := old(db.answers[answerId]);
      && outcome == Done
      && db.Contents() == old(db.Contents()).(
           answers := old(db.answers)[answerId := a.(votes := ApplyQuery(a.votes, DownVoteQuery(hasUpVoted, hasDownVoted), userId))])
    ensures old(db.VotesWellFormed()) && answerId in old(db.answers)
            && FlagsMatch(old(db.answers[answerId].votes), userId, hasUpVoted, hasDownVoted)
            ==> db.VotesWellFormed()
  {
    var updateQuery := DownVoteQuery(hasUpVoted, hasDownVoted);
    if answerId !in db.answers {
      return Thrown("Question not found");
    }
    var answer := db.answers[answerId];
    ReplaceItemKeepsInvariants(db.Contents(), db.Contents().(answers := db.answers[answerId := answer.(votes := ApplyQuery(answer.votes, updateQuery, userId))]));
    db.answers := db.answers[answerId := answer.(votes := ApplyQuery(answer.votes, updateQuery, userId))];
    if FlagsMatch(answer.votes, userId, hasUpVoted, hasDownVoted) && old(db.VotesWellFormed()) {
      DownVoteEffect(answer.votes, userId, hasUpVoted, hasDownVoted);
    }
    outcome := Done;
  }

  // ---------------------------------------------------------------- deleteAnswer

  /**
   * The store after `deleteAnswer`: the answer is removed, its id is pulled
   * from its question's `answers`, and the interactions about it are deleted.
   * A missing answer throws inside the action, but the catch swallows it:
   * nothing changes.
   */
  function DeletedAnswer(s: State, answerId: AnswerId): (r: State)
    ensures answerId !in s.answers ==> r == s
    ensures answerId in s.answers ==> r.answers == s.answers - {answerId}
    ensures answerId in s.answers ==>
      var q := s.answers[answerId].question;
      r.questions == if q in s.questions
                     then s.questions[q := s.questions[q].(answers := Pull(s.questions[q].answers, answerId))]
                     else s.questions
    ensures forall x :: x in r.interactions <==> x in s.interactions && (answerId !in s.answers || x.answer != Some(answerId))
    ensures r.tags == s.tags && r.reputation == s.reputation && r.nextId == s.nextId
  {
    if answerId !in s.answers then s
    else
      var question := s.answers[answerId].question;
      s.(answers := s.answers - {answerId},
         questions := if question in s.questions
                      then s.questions[question := s.questions[question].(answers := Pull(s.questions[question].answers, answerId))]
                      else s.questions,
         interactions := DeleteMany(s.interactions, AboutAnswer(answerId)))
  }

  /** Deleting an answer keeps the store invariant and every remaining ballot well formed. */
  lemma DeletedAnswerKeepsInvariants(s: State, answerId: AnswerId)
    requires ValidState(s)
    ensures var r := DeletedAnswer(s, answerId);
      && ValidState(r)
      && (BallotsWellFormed(s.questions, s.answers) ==> BallotsWellFormed(r.questions, r.answers))
  {
    var r := DeletedAnswer(s, answerId);
    DeleteManyAtMostOneView(s.interactions, AboutAnswer(answerId));
    forall q, a | q in r.questions && a in r.questions[q].answers
      ensures a < r.nextId
    {
      assert a in s.questions[q].answers;
    }
    forall i | 0 <= i < |r.interactions| && r.interactions[i].answer.Some?
      ensures r.interactions[i].answer.value < r.nextId
    {
      assert r.interactions[i] in s.interactions;
    }
  }

  /** Under the store invariant the next free id is listed by no question. */
  lemma FreshIdUnlisted(s: State, question: QuestionId)
    requires ValidState(s)
    ensures question in s.questions ==> s.nextId !in s.questions[question].answers
  {
  }

  /** Under the store invariant no interaction is about the next free id. */
  lemma FreshIdUnmentioned(s: State)
    requires ValidState(s)
    ensures forall i :: 0 <= i < |s.interactions| ==> !AboutAnswer(s.nextId)(s.interactions[i])
  {
  }

  /** The answer stored by `createAnswer` is the one `deleteAnswer` removes. */
  lemma UndoCreateAnswers(s: State, content: string, author: UserId, question: QuestionId)
    requires s.nextId !in s.answers
    ensures DeletedAnswer(CreatedAnswer(s, content, author, question), s.nextId).answers == s.answers
  {
  }

  /** The id `createAnswer` pushes onto the question is the one `deleteAnswer` pulls. */
  lemma UndoCreateQuestions(s: State, content: string, author: UserId, question: QuestionId)
    requires question in s.questions ==> s.nextId !in s.questions[question].answers
    ensures DeletedAnswer(CreatedAnswer(s, content, author, question), s.nextId).questions == s.questions
  {
    if question in s.questions {
      PullPush(s.questions[question].answers, s.nextId);
      PullAbsent(s.questions[question].answers, s.nextId);
    }
  }

  /** When no interaction is about the fresh id, `deleteAnswer` deletes none. */
  lemma UndoCreateInteractions(s: State, content: string, author: UserId, question: QuestionId)
    requires forall i :: 0 <= i < |s.interactions| ==> !AboutAnswer(s.nextId)(s.interactions[i])
    ensures DeletedAnswer(CreatedAnswer(s, content, author, question), s.nextId).interactions == s.interactions
  {
    DeleteManyNoMatch(s.interactions, AboutAnswer(s.nextId));
  }

  /**
   * Deleting a just-created answer gives back the store it was created in,
   * except that the id counter has moved on.
   */
  lemma DeleteAnswerUndoesCreate(s: State, content: string, author: UserId, question: QuestionId)
    requires ValidState(s)
    ensures DeletedAnswer(CreatedAnswer(s, content, author, question), s.nextId) == s.(nextId := s.nextId + 1)
  {
    assert s.nextId !in s.answers;
    UndoCreateAnswers(s, content, author, question);
    FreshIdUnlisted(s, question);
    UndoCreateQuestions(s, content, author, question);
    FreshIdUnmentioned(s);
    UndoCreateInteractions(s, content, author, question);
  }

  /** `deleteAnswer`, with the store invariant kept. */
  method DeleteAnswer(db: Database, answerId: AnswerId)
    requires db.Valid()
    modifies db
    ensures db.Valid()
    ensures db.Contents() == DeletedAnswer(old(db.Contents()), answerId)
    ensures old(db.VotesWellFormed()) ==> db.VotesWellFormed()
  {
    if answerId !in db.answers {
      return;
    }
    DeletedAnswerKeepsInvariants(db.Contents(), answerId);
    var answer := db.answers[answerId];
    db.answers := db.answers - {answerId};
    if answer.question in db.questions {
      var q := db.questions[answer.question];
      db.questions := db.questions[answer.question := q.(answers := Pull(q.answers, answerId))];
    }
    db.interactions := DeleteMany(db.interactions, AboutAnswer(answerId));
  }
}
