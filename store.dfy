/**
 * The document store the server actions work against: the questions, answers,
 * tags and interactions collections, the users' reputation fields, and the
 * ObjectId generator. Fields are updated in place by the action modules.
 */
module Store {
  import opened Common
  import opened Votes
  import opened Reputation

  datatype Question = Question(
    title: string,
    content: string,
    tags: seq<TagId>,
    views: nat,
    votes: Ballot,
    author: UserId,
    answers: seq<AnswerId>)

  datatype Answer = Answer(author: UserId, question: QuestionId, content: string, votes: Ballot)

  datatype Tag = Tag(name: string, questions: seq<QuestionId>)

  /** The `action` values the modelled actions record. */
  datatype InteractionAction = AskQuestion | View

  datatype Interaction = Interaction(
    user: UserId,
    action: InteractionAction,
    question: Option<QuestionId>,
    answer: Option<AnswerId>,
    tags: seq<TagId>)

  /** ASCII lower-casing, the case folding the tag lookup applies. */
  function LowerChar(c: char): char {
    if 'A' <= c <= 'Z' then (c as int + 32) as char else c
  }

  function Fold(s: string): (r: string)
    ensures |r| == |s|
  {
    seq(|s|, i requires 0 <= i < |s| => LowerChar(s[i]))
  }

  /** Two tag names the anchored case-insensitive lookup treats as the same tag. */
  predicate SameName(a: string, b: string) {
    Fold(a) == Fold(b)
  }

  /** No two stored tags have names that differ only in case. */
  ghost predicate TagNamesDistinct(tags: seq<Tag>) {
    forall i, j :: 0 <= i < j < |tags| ==> !SameName(tags[i].name, tags[j].name)
  }

  /** `x` is the `view` interaction of `user` on `question`. */
  predicate IsViewOf(x: Interaction, user: UserId, question: QuestionId) {
    x.action == View && x.user == user && x.question == Some(question)
  }

  /** How many `view` interactions of `user` on `question` are stored. */
  function ViewCount(s: seq<Interaction>, user: UserId, question: QuestionId): (n: nat)
    ensures n <= |s|
  {
    if s == [] then 0
    else ViewCount(s[..|s| - 1], user, question) + (if IsViewOf(s[|s| - 1], user, question) then 1 else 0)
  }

  /**
   * `InteractionModel.findOne({ user, action: "view", question })` finds a
   * document: exactly when the user has a positive view count on the question.
   */
  predicate HasViewed(s: seq<Interaction>, user: UserId, question: QuestionId): (b: bool)
    ensures b <==> ViewCount(s, user, question) > 0
  {
    ViewCountPositive(s, user, question);
    exists i :: 0 <= i < |s| && IsViewOf(s[i], user, question)
  }

  /** At most one `view` interaction per (user, question). */
  ghost predicate AtMostOneView(s: seq<Interaction>) {
    forall user, question :: ViewCount(s, user, question) <= 1
  }

  /**
   * `deleteMany(filter)` on the interactions collection: every record the
   * filter matches goes, every other record stays with all its copies.
   */
  function DeleteMany(s: seq<Interaction>, matches: Interaction -> bool): (r: seq<Interaction>)
    ensures forall x :: x in r <==> x in s && !matches(x)
    ensures forall x :: multiset(r)[x] == if matches(x) then 0 else multiset(s)[x]
    ensures |r| <= |s|
  {
    if s == [] then []
    else
      var rest := DeleteMany(s[..|s| - 1], matches);
      assert s == s[..|s| - 1] + [s[|s| - 1]];
      assert multiset(s) == multiset(s[..|s| - 1]) + multiset{s[|s| - 1]};
      if matches(s[|s| - 1]) then rest else rest + [s[|s| - 1]]
  }

  /** `r` is `s` with some records left out, the rest in their original order. */
  ghost predicate SubsequenceOf(r: seq<Interaction>, s: seq<Interaction>)
    decreases |s|
  {
    if r == [] then true
    else if s == [] then false
    else (r[|r| - 1] == s[|s| - 1] && SubsequenceOf(r[..|r| - 1], s[..|s| - 1])) || SubsequenceOf(r, s[..|s| - 1])
  }

  /** `deleteMany` keeps the surviving records in their stored order. */
  lemma {:induction false} DeleteManyKeepsOrder(s: seq<Interaction>, matches: Interaction -> bool)
    ensures SubsequenceOf(DeleteMany(s, matches), s)
    decreases |s|
  {
    if s != [] {
      var init := s[..|s| - 1];
      var rest := DeleteMany(init, matches);
      DeleteManyKeepsOrder(init, matches);
      if !matches(s[|s| - 1]) {
        assert (rest + [s[|s| - 1]])[..|rest|] == rest;
      }
    }
  }

  /** The filter `{ question: questionId }`. */
  function AboutQuestion(questionId: QuestionId): Interaction -> bool {
    (x: Interaction) => x.question == Some(questionId)
  }

  /** The filter `{ answer: answerId }`. */
  function AboutAnswer(answerId: AnswerId): Interaction -> bool {
    (x: Interaction) => x.answer == Some(answerId)
  }

  /** The stored view count is positive exactly when some stored record is a view of the user on the question. */
  lemma {:induction false} ViewCountPositive(s: seq<Interaction>, user: UserId, question: QuestionId)
    ensures ViewCount(s, user, question) > 0 <==> exists i :: 0 <= i < |s| && IsViewOf(s[i], user, question)
  {
    if s != [] {
      var init := s[..|s| - 1];
      ViewCountPositive(init, user, question);
      if exists i :: 0 <= i < |init| && IsViewOf(init[i], user, question) {
        var i :| 0 <= i < |init| && IsViewOf(init[i], user, question);
        assert s[i] == init[i];
      }
      if (exists i :: 0 <= i < |s| && IsViewOf(s[i], user, question)) && !IsViewOf(s[|s| - 1], user, question) {
        var i :| 0 <= i < |s| && IsViewOf(s[i], user, question);
        assert init[i] == s[i];
      }
    }
  }

  /** Appending one interaction adds one to its own (user, question) view count, if it is a view. */
  lemma ViewCountAppend(s: seq<Interaction>, x: Interaction, user: UserId, question: QuestionId)
    ensures ViewCount(s + [x], user, question)
            == ViewCount(s, user, question) + (if IsViewOf(x, user, question) then 1 else 0)
  {
    assert (s + [x])[..|s|] == s;
  }

  /** Deleting interactions never raises a view count. */
  lemma {:induction false} DeleteManyViewCount(s: seq<Interaction>, matches: Interaction -> bool, user: UserId, question: QuestionId)
    ensures ViewCount(DeleteMany(s, matches), user, question) <= ViewCount(s, user, question)
  {
    if s != [] {
      var init := s[..|s| - 1];
      DeleteManyViewCount(init, matches, user, question);
      if !matches(s[|s| - 1]) {
        ViewCountAppend(DeleteMany(init, matches), s[|s| - 1], user, question);
      }
    }
  }

  /** Deleting interactions keeps at most one view per (user, question). */
  lemma DeleteManyAtMostOneView(s: seq<Interaction>, matches: Interaction -> bool)
    requires AtMostOneView(s)
    ensures AtMostOneView(DeleteMany(s, matches))
  {
    forall user, question
      ensures ViewCount(DeleteMany(s, matches), user, question) <= 1
    {
      DeleteManyViewCount(s, matches, user, question);
    }
  }

  /** A filter that matches nothing deletes nothing. */
  lemma {:induction false} DeleteManyNoMatch(s: seq<Interaction>, matches: Interaction -> bool)
    requires forall i :: 0 <= i < |s| ==> !matches(s[i])
    ensures DeleteMany(s, matches) == s
  {
    if s != [] {
      DeleteManyNoMatch(s[..|s| - 1], matches);
      assert s == s[..|s| - 1] + [s[|s| - 1]];
    }
  }

  /** Running the same `deleteMany` twice deletes nothing more. */
  lemma DeleteManyIdempotent(s: seq<Interaction>, matches: Interaction -> bool)
    ensures DeleteMany(DeleteMany(s, matches), matches) == DeleteMany(s, matches)
  {
    var r := DeleteMany(s, matches);
    assert forall i :: 0 <= i < |r| ==> r[i] in r;
    DeleteManyNoMatch(r, matches);
  }

  /** Recording an interaction that is not a view keeps at most one view per (user, question). */
  lemma AppendOtherAtMostOneView(s: seq<Interaction>, x: Interaction)
    requires AtMostOneView(s) && x.action != View
    ensures AtMostOneView(s + [x])
  {
    forall user, question
      ensures ViewCount(s + [x], user, question) <= 1
    {
      ViewCountAppend(s, x, user, question);
    }
  }

  /**
   * Recording a view for a pair that has none keeps at most one view per
   * (user, question) and leaves that pair with exactly one.
   */
  lemma AppendViewAtMostOneView(s: seq<Interaction>, x: Interaction, user: UserId, question: QuestionId)
    requires AtMostOneView(s) && IsViewOf(x, user, question) && !HasViewed(s, user, question)
    ensures AtMostOneView(s + [x])
    ensures ViewCount(s + [x], user, question) == 1
  {
    ViewCountPositive(s, user, question);
    forall u, q
      ensures ViewCount(s + [x], u, q) <= 1
    {
      ViewCountAppend(s, x, u, q);
      if IsViewOf(x, u, q) {
        assert u == user && q == question;
      }
    }
    ViewCountAppend(s, x, user, question);
  }

  /** The contents of the whole store at one moment. */
  datatype State = State(
    questions: map<QuestionId, Question>,
    answers: map<AnswerId, Answer>,
    tags: seq<Tag>,
    interactions: seq<Interaction>,
    reputation: Reputations,
    nextId: nat)

  /** Every ObjectId in use is below the generator's next value. */
  ghost predicate IdsIssued(questions: map<QuestionId, Question>, answers: map<AnswerId, Answer>, nextId: nat) {
    && (forall q :: q in questions ==> q < nextId)
    && (forall a :: a in answers ==> a < nextId)
  }

  /**
   * Every answer id a question lists, and every answer an interaction is
   * about, was handed out by the generator: ObjectIds are never made up.
   */
  ghost predicate RefsIssued(questions: map<QuestionId, Question>, interactions: seq<Interaction>, nextId: nat) {
    && (forall q, a :: q in questions && a in questions[q].answers ==> a < nextId)
    && (forall i :: 0 <= i < |interactions| && interactions[i].answer.Some? ==> interactions[i].answer.value < nextId)
  }

  /** The invariant every action keeps. */
  ghost predicate ValidState(s: State) {
    && IdsIssued(s.questions, s.answers, s.nextId)
    && RefsIssued(s.questions, s.interactions, s.nextId)
    && TagNamesDistinct(s.tags)
    && AtMostOneView(s.interactions)
  }

  /** Every stored vote list is duplicate-free and no user is in both lists of an item. */
  ghost predicate BallotsWellFormed(questions: map<QuestionId, Question>, answers: map<AnswerId, Answer>) {
    && (forall q :: q in questions ==> WellFormed(questions[q].votes))
    && (forall a :: a in answers ==> WellFormed(answers[a].votes))
  }

  /** Replacing stored questions or answers without adding or removing ids keeps the invariant. */
  lemma ReplaceItemKeepsInvariants(s: State, t: State)
    requires ValidState(s)
    requires t.tags == s.tags && t.interactions == s.interactions && t.nextId == s.nextId
    requires t.questions.Keys == s.questions.Keys && t.answers.Keys == s.answers.Keys
    requires forall q :: q in t.questions ==> t.questions[q].answers == s.questions[q].answers
    ensures ValidState(t)
  {
  }

  class Database {
    var questions: map<QuestionId, Question>
    var answers: map<AnswerId, Answer>
    /** Tags in insertion order; a tag's id is its position. */
    var tags: seq<Tag>
    var interactions: seq<Interaction>
    var reputation: Reputations
    /** Every ObjectId handed out so far is below this. */
    var nextId: nat

    /** The store's current contents as a value. */
    function Contents(): State
      reads this
    {
      State(questions, answers, tags, interactions, reputation, nextId)
    }

    ghost predicate Valid()
      reads this
    {
      ValidState(Contents())
    }

    ghost predicate VotesWellFormed()
      reads this
    {
      BallotsWellFormed(questions, answers)
    }

    /** An empty store over the given users. */
    constructor (users: Reputations)
      ensures Valid() && VotesWellFormed()
      ensures Contents() == State(map[], map[], [], [], users, 0)
    {
      questions, answers, tags, interactions := map[], map[], [], [];
      reputation := users;
      nextId := 0;
    }

    /** A fresh ObjectId for a new question or answer document. */
    method NewObjectId() returns (id: nat)
      requires Valid()
      modifies this`nextId
      ensures Valid()
      ensures id == old(nextId) && nextId == id + 1
      ensures id !in questions && id !in answers
    {
      id := nextId;
      nextId := nextId + 1;
    }
  }
}
