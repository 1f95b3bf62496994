/**
 * The question server actions: page arithmetic of `getQuestions`,
 * `createQuestion` with its tag upsert loop, the two question votes with
 * their reputation deltas, and the `deleteQuestion` cascade.
 */
module QuestionActions {
  import opened Common
  import opened ListOps
  import opened Votes
  import opened Reputation
  import opened Store

  // ---------------------------------------------------------------- getQuestions

  /** `page` and `pageSize` after their defaults (1 and 10) are applied. */
  datatype Paging = Paging(page: int, pageSize: int)

  function ResolvePaging(page: Option<int>, pageSize: Option<int>): Paging {
    Paging(if page.Some? then page.value else 1, if pageSize.Some? then pageSize.value else 10)
  }

  /**
   * Number of questions before the requested page: the page ends right after
   * the first `page * pageSize` questions, and from page 1 on nothing negative
   * is skipped.
   */
  function SkipAmount(p: Paging): (skip: int)
    ensures skip + p.pageSize == p.page * p.pageSize
    ensures p.page >= 1 && p.pageSize >= 0 ==> skip >= 0
    ensures p.page == 1 ==> skip == 0
  {
    (p.page - 1) * p.pageSize
  }

  /**
   * Whether the page list shows a "next" link: never when the questions
   * skipped and returned already cover every match.
   */
  function IsNext(totalQuestions: nat, skipAmount: int, returned: nat): (b: bool)
    ensures skipAmount + returned >= totalQuestions ==> !b
    ensures skipAmount >= 0 && b ==> returned < totalQuestions
  {
    totalQuestions > skipAmount + returned
  }

  /** How many of `total` matching questions `.skip(skip).limit(pageSize)` returns. */
  function PageLength(total: nat, skip: nat, pageSize: nat): (n: nat)
    ensures n <= pageSize
    ensures n == 0 || skip + n <= total
    ensures n < pageSize ==> skip + n >= total
  {
    if skip >= total then 0 else if total - skip < pageSize then total - skip else pageSize
  }

  /** Consecutive pages are consecutive slices of the result list. */
  lemma PagesTile(page: int, pageSize: int)
    ensures SkipAmount(Paging(page + 1, pageSize)) == SkipAmount(Paging(page, pageSize)) + pageSize
  {
  }

  /**
   * With a page of at least 1 and a positive page size, `isNext` holds exactly
   * when the following page is not empty, that is when more than
   * `page * pageSize` questions match.
   */
  lemma IsNextIffNextPageNonEmpty(total: nat, p: Paging)
    requires p.page >= 1 && p.pageSize >= 1
    ensures SkipAmount(p) >= 0
    ensures var skip := SkipAmount(p);
      var next := SkipAmount(Paging(p.page + 1, p.pageSize));
      && (IsNext(total, skip, PageLength(total, skip, p.pageSize)) <==> PageLength(total, next, p.pageSize) > 0)
      && (IsNext(total, skip, PageLength(total, skip, p.pageSize)) <==> total > p.page * p.pageSize)
  {
    assert SkipAmount(p) == p.page * p.pageSize - p.pageSize;
    assert p.page * p.pageSize >= p.pageSize by {
      assert (p.page - 1) * p.pageSize >= 0;
    }
    PagesTile(p.page, p.pageSize);
  }

  /**
   * With neither parameter given, the first ten questions are shown and a
   * "next" link appears exactly when more than ten match.
   */
  lemma DefaultPagingShowsFirstTen(total: nat)
    ensures var p := ResolvePaging(None, None);
      && SkipAmount(p) == 0
      && PageLength(total, SkipAmount(p), p.pageSize) == (if total < 10 then total else 10)
      && (IsNext(total, SkipAmount(p), PageLength(total, SkipAmount(p), p.pageSize)) <==> total > 10)
  {
    IsNextIffNextPageNonEmpty(total, ResolvePaging(None, None));
  }

  /**
   * The default replaces only a missing `page`: a given page below 1 is kept,
   * so with a positive page size the skip amount is negative, and page 0
   * skips back by exactly one page.
   */
  lemma GivenLowPageSkipsBackwards(page: int, pageSize: int)
    requires page < 1 && pageSize >= 1
    ensures SkipAmount(ResolvePaging(Some(page), Some(pageSize))) < 0
    ensures SkipAmount(ResolvePaging(Some(0), Some(pageSize))) == -pageSize
    ensures SkipAmount(ResolvePaging(Some(page), None)) <= -10
  {
    assert (page - 1) * pageSize <= -pageSize by {
      assert (page - 1) * pageSize == -pageSize + page * pageSize;
      assert page * pageSize <= 0;
    }
  }

  // ---------------------------------------------------------------- tags

  /** The result of one `findOneAndUpdate(..., { upsert: true, new: true })` on the tags. */
  datatype TagUpsert = TagUpsert(tags: seq<Tag>, id: TagId)

  /** The result of the whole tag loop: the tags and the ids pushed onto `tagDocuments`. */
  datatype Upserted = Upserted(tags: seq<Tag>, ids: seq<TagId>)

  /** The first tag, in insertion order, whose name matches `name` from position `from` on. */
  function FindTagFrom(tags: seq<Tag>, name: string, from: nat): (r: Option<TagId>)
    requires from <= |tags|
    ensures r.Some? ==> from <= r.value < |tags| && SameName(tags[r.value].name, name)
    ensures r.Some? ==> forall j :: from <= j < r.value ==> !SameName(tags[j].name, name)
    ensures r.None? ==> forall j :: from <= j < |tags| ==> !SameName(tags[j].name, name)
    decreases |tags| - from
  {
    if from == |tags| then None
    else if SameName(tags[from].name, name) then Some(from)
    else FindTagFrom(tags, name, from + 1)
  }

  /** `{ name: { $regex: ^name$, "i" } }`: the first tag with a case-insensitively equal name. */
  function FindTag(tags: seq<Tag>, name: string): Option<TagId> {
    FindTagFrom(tags, name, 0)
  }

  /**
   * Push `questionId` onto the matching tag, or insert a new tag named `name`
   * holding only `questionId`; return the tag's id. A new tag is created exactly
   * when no stored name matches, so the names stay distinct up to case.
   */
  function UpsertTag(tags: seq<Tag>, name: string, questionId: QuestionId): (r: TagUpsert)
    ensures r.id < |r.tags| && SameName(r.tags[r.id].name, name)
    ensures r.id < |tags| <==> exists j :: 0 <= j < |tags| && SameName(tags[j].name, name)
    ensures r.id < |tags| ==> forall j :: 0 <= j < r.id ==> !SameName(tags[j].name, name)
    ensures r.id < |tags| ==> |r.tags| == |tags| && r.tags[r.id].questions == tags[r.id].questions + [questionId]
    ensures r.id >= |tags| ==> r.tags == tags + [Tag(name, [questionId])]
    ensures forall i :: 0 <= i < |tags| ==> r.tags[i].name == tags[i].name
    ensures forall i :: 0 <= i < |tags| && i != r.id ==> r.tags[i] == tags[i]
    ensures TagNamesDistinct(tags) ==> TagNamesDistinct(r.tags)
  {
    match FindTag(tags, name)
    case Some(i) => TagUpsert(tags[i := tags[i].(questions := tags[i].questions + [questionId])], i)
    case None => TagUpsert(tags + [Tag(name, [questionId])], |tags|)
  }

  /** The `for (const tag of tags)` loop of `createQuestion`, as a function of the names handled so far. */
  function UpsertTags(tags: seq<Tag>, names: seq<string>, questionId: QuestionId): (r: Upserted)
    ensures |r.ids| == |names| && |tags| <= |r.tags| <= |tags| + |names|
    decreases |names|
  {
    if names == [] then Upserted(tags, [])
    else
      var before := UpsertTags(tags, names[..|names| - 1], questionId);
      var last := UpsertTag(before.tags, names[|names| - 1], questionId);
      Upserted(last.tags, before.ids + [last.id])
  }

  /** Tags stored before the loop keep their names and only gain entries. */
  lemma {:induction false} UpsertTagsGrows(tags: seq<Tag>, names: seq<string>, questionId: QuestionId)
    ensures var r := UpsertTags(tags, names, questionId);
      forall i :: 0 <= i < |tags| ==> r.tags[i].name == tags[i].name && tags[i].questions <= r.tags[i].questions
    decreases |names|
  {
    if names != [] {
      var before := UpsertTags(tags, names[..|names| - 1], questionId);
      UpsertTagsGrows(tags, names[..|names| - 1], questionId);
      var last := UpsertTag(before.tags, names[|names| - 1], questionId);
      forall i | 0 <= i < |tags|
        ensures last.tags[i].name == tags[i].name && tags[i].questions <= last.tags[i].questions
      {
        assert before.tags[i].questions <= last.tags[i].questions;
      }
    }
  }

  /** One upsert keeps an earlier hit: the tag keeps its name and still lists the question. */
  lemma UpsertTagKeepsHit(tags: seq<Tag>, name: string, questionId: QuestionId, id: TagId)
    requires id < |tags| && questionId in tags[id].questions
    ensures var r := UpsertTag(tags, name, questionId);
      id < |r.tags| && r.tags[id].name == tags[id].name && questionId in r.tags[id].questions
  {
    var r := UpsertTag(tags, name, questionId);
    if id == r.id {
      assert r.tags[id].questions == tags[id].questions + [questionId];
    } else {
      assert r.tags[id] == tags[id];
    }
  }

  /** Each of `names` has an id in `r` of a tag whose name matches it and which lists the question. */
  ghost predicate AllHit(r: Upserted, names: seq<string>, questionId: QuestionId)
    requires |r.ids| == |names|
  {
    forall k :: 0 <= k < |names| ==>
      r.ids[k] < |r.tags| && SameName(r.tags[r.ids[k]].name, names[k]) && questionId in r.tags[r.ids[k]].questions
  }

  /** Every name gets the id of a tag whose name matches it and which lists the question. */
  lemma {:induction false} UpsertTagsHits(tags: seq<Tag>, names: seq<string>, questionId: QuestionId)
    ensures AllHit(UpsertTags(tags, names, questionId), names, questionId)
    decreases |names|
  {
    if names != [] {
      var init := names[..|names| - 1];
      var before := UpsertTags(tags, init, questionId);
      var last := UpsertTag(before.tags, names[|names| - 1], questionId);
      UpsertTagsHits(tags, init, questionId);
      var ids := before.ids + [last.id];
      assert UpsertTags(tags, names, questionId) == Upserted(last.tags, ids);
      forall k | 0 <= k < |names|
        ensures ids[k] < |last.tags| && SameName(last.tags[ids[k]].name, names[k])
        ensures questionId in last.tags[ids[k]].questions
      {
        if k < |init| {
          assert ids[k] == before.ids[k] && names[k] == init[k];
          UpsertTagKeepsHit(before.tags, names[|names| - 1], questionId, before.ids[k]);
        } else {
          assert ids[k] == last.id;
        }
      }
    }
  }

  /** A tag no name hit was stored before the loop and is untouched. */
  lemma {:induction false} UpsertTagsUntouched(tags: seq<Tag>, names: seq<string>, questionId: QuestionId)
    ensures var r := UpsertTags(tags, names, questionId);
      forall i :: 0 <= i < |r.tags| && i !in r.ids ==> i < |tags| && r.tags[i] == tags[i]
    decreases |names|
  {
    if names != [] {
      var before := UpsertTags(tags, names[..|names| - 1], questionId);
      UpsertTagsUntouched(tags, names[..|names| - 1], questionId);
      assert forall j :: 0 <= j < |before.tags| && j !in before.ids ==> j < |tags| && before.tags[j] == tags[j];
      var last := UpsertTag(before.tags, names[|names| - 1], questionId);
      forall i | 0 <= i < |last.tags| && i !in before.ids + [last.id]
        ensures i < |tags| && last.tags[i] == tags[i]
      {
        assert i != last.id && i < |before.tags| && i !in before.ids;
        assert i < |tags| && before.tags[i] == tags[i];
        assert last.tags[i] == before.tags[i];
      }
    }
  }

  /** The loop never creates two tags whose names differ only in case. */
  lemma {:induction false} UpsertTagsDistinct(tags: seq<Tag>, names: seq<string>, questionId: QuestionId)
    requires TagNamesDistinct(tags)
    ensures TagNamesDistinct(UpsertTags(tags, names, questionId).tags)
    decreases |names|
  {
    if names != [] {
      UpsertTagsDistinct(tags, names[..|names| - 1], questionId);
    }
  }

  // ---------------------------------------------------------------- createQuestion

  /** The document `QuestionModel.create({ title, content, author })` stores. */
  function NewQuestion(title: string, content: string, author: UserId): Question {
    Question(title, content, [], 0, Ballot([], []), author, [])
  }

  /**
   * The `for (const tag of tags)` loop: one `findOneAndUpdate` upsert per name,
   * collecting the tag ids in `tagDocuments`. Only the tags collection changes.
   */
  method UpsertTagLoop(db: Database, tagNames: seq<string>, questionId: QuestionId) returns (tagDocuments: seq<TagId>)
    modifies db`tags
    ensures Upserted(db.tags, tagDocuments) == UpsertTags(old(db.tags), tagNames, questionId)
  {
    tagDocuments := [];
    var i := 0;
    while i < |tagNames|
      invariant 0 <= i <= |tagNames|
      invariant Upserted(db.tags, tagDocuments) == UpsertTags(old(db.tags), tagNames[..i], questionId)
    {
      assert tagNames[..i + 1][..i] == tagNames[..i];
      var upsert := UpsertTag(db.tags, tagNames[i], questionId);
      db.tags := upsert.tags;
      tagDocuments := tagDocuments + [upsert.id];
      i := i + 1;
    }
    assert tagNames[..i] == tagNames;
  }

  /**
   * The store after `createQuestion` with the next free id: the question
   * lists the ids of its upserted tags, an `ask_question` interaction is
   * recorded and the author gets +5.
   */
  function CreatedQuestion(s: State, title: string, content: string, tagNames: seq<string>, author: UserId): (r: State)
    ensures r.questions.Keys == s.questions.Keys + {s.nextId}
    ensures forall q :: q in s.questions && q != s.nextId ==> r.questions[q] == s.questions[q]
    ensures var q := r.questions[s.nextId];
      && q.title == title && q.content == content && q.author == author
      && q.views == 0 && q.votes == Ballot([], []) && q.answers == [] && |q.tags| == |tagNames|
    ensures |r.interactions| == |s.interactions| + 1 && r.interactions[..|s.interactions|] == s.interactions
    ensures r.interactions[|s.interactions|].user == author && r.interactions[|s.interactions|].question == Some(s.nextId)
    ensures r.reputation.Keys == s.reputation.Keys
    ensures author in s.reputation ==> r.reputation[author] == s.reputation[author] + 5
    ensures r.answers == s.answers && r.nextId == s.nextId + 1
  {
    var questionId := s.nextId;
    var up := UpsertTags(s.tags, tagNames, questionId);
    s.(questions := s.questions[questionId := NewQuestion(title, content, author).(tags := up.ids)],
       tags := up.tags,
       interactions := s.interactions + [Interaction(author, AskQuestion, Some(questionId), None, up.ids)],
       reputation := Inc(s.reputation, author, 5),
       nextId := questionId + 1)
  }

  /** Creating a question keeps the store invariant and adds a question with an empty ballot under a fresh id. */
  lemma CreatedQuestionKeepsInvariants(s: State, title: string, content: string, tagNames: seq<string>, author: UserId)
    requires ValidState(s)
    ensures var r := CreatedQuestion(s, title, content, tagNames, author);
      && ValidState(r)
      && s.nextId !in s.questions && r.questions.Keys == s.questions.Keys + {s.nextId}
      && (BallotsWellFormed(s.questions, s.answers) ==> BallotsWellFormed(r.questions, r.answers))
  {
    var r := CreatedQuestion(s, title, content, tagNames, author);
    UpsertTagsDistinct(s.tags, tagNames, s.nextId);
    AppendOtherAtMostOneView(s.interactions, r.interactions[|s.interactions|]);
    assert r.interactions == s.interactions + [r.interactions[|s.interactions|]];
    assert IdsIssued(r.questions, r.answers, r.nextId);
  }

  /** Tags and question link both ways: each name's tag matches the name and lists the new question. */
  lemma CreatedQuestionLinksTags(s: State, title: string, content: string, tagNames: seq<string>, author: UserId)
    ensures var r := CreatedQuestion(s, title, content, tagNames, author);
      var tagIds := r.questions[s.nextId].tags;
      && |tagIds| == |tagNames|
      && forall k :: 0 <= k < |tagNames| ==>
           tagIds[k] < |r.tags| && SameName(r.tags[tagIds[k]].name, tagNames[k]) && s.nextId in r.tags[tagIds[k]].questions
  {
    UpsertTagsHits(s.tags, tagNames, s.nextId);
  }

  /**
   * Create the question, upsert each tag and push the question onto it, push
   * the tag ids onto the question, record an `ask_question` interaction, and
   * give the author +5. Every failure is swallowed by the action's catch.
   */
  method CreateQuestion(db: Database, title: string, content: string, tagNames: seq<string>, author: UserId)
    requires db.Valid()
    modifies db
    ensures db.Valid()
    ensures db.Contents() == CreatedQuestion(old(db.Contents()), title, content, tagNames, author)
    ensures old(db.VotesWellFormed()) ==> db.VotesWellFormed()
  {
    ghost var after := CreatedQuestion(db.Contents(), title, content, tagNames, author);
    CreatedQuestionKeepsInvariants(db.Contents(), title, content, tagNames, author);
    var questionId := db.NewObjectId();
    var question := NewQuestion(title, content, author);
    var tagDocuments := UpsertTagLoop(db, tagNames, questionId);
    assert question.tags + tagDocuments == tagDocuments;
    db.questions := db.questions[questionId := question.(tags := question.tags + tagDocuments)];
    db.interactions := db.interactions + [Interaction(author, AskQuestion, Some(questionId), None, tagDocuments)];
    db.reputation := Inc(db.reputation, author, 5);
    assert db.Contents() == after;
  }

  // ---------------------------------------------------------------- votes

  /**
   * The store after a vote on a stored question: the question's ballot takes
   * the update, then the voter's and the author's reputations move by `deltas`.
   */
  function VotedQuestion(s: State, questionId: QuestionId, userId: UserId, query: UpdateQuery, deltas: Deltas): (r: State)
    requires questionId in s.questions
    ensures r.questions.Keys == s.questions.Keys && r.reputation.Keys == s.reputation.Keys
    ensures forall q :: q in s.questions && q != questionId ==> r.questions[q] == s.questions[q]
    ensures r.questions[questionId] == s.questions[questionId].(votes := r.questions[questionId].votes)
    ensures forall v :: v in s.reputation && v != userId && v != s.questions[questionId].author ==>
      r.reputation[v] == s.reputation[v]
    ensures r.answers == s.answers && r.tags == s.tags && r.interactions == s.interactions && r.nextId == s.nextId
  {
    var q := s.questions[questionId];
    ApplyDeltasEffect(s.reputation, userId, q.author, deltas);
    s.(questions := s.questions[questionId := q.(votes := ApplyQuery(q.votes, query, userId))],
       reputation := ApplyDeltas(s.reputation, userId, q.author, deltas))
  }

  /** A vote keeps the store invariant, and keeps every ballot well formed when the new one is. */
  lemma VotedQuestionKeepsInvariants(s: State, questionId: QuestionId, userId: UserId, query: UpdateQuery, deltas: Deltas)
    requires ValidState(s) && questionId in s.questions
    ensures ValidState(VotedQuestion(s, questionId, userId, query, deltas))
    ensures BallotsWellFormed(s.questions, s.answers)
            && WellFormed(ApplyQuery(s.questions[questionId].votes, query, userId)) ==>
      var r := VotedQuestion(s, questionId, userId, query, deltas); BallotsWellFormed(r.questions, r.answers)
  {
    ReplaceItemKeepsInvariants(s, VotedQuestion(s, questionId, userId, query, deltas));
  }

  /**
   * `upVoteQuestion`: apply the chosen update to the question; a missing
   * question throws before any reputation changes; otherwise the voter gets
   * -1/+1 and the author -10/+10.
   */
  method UpVoteQuestion(db: Database, questionId: QuestionId, userId: UserId, hasUpVoted: bool, hasDownVoted: bool)
    returns (outcome: Outcome)
    requires db.Valid()
    modifies db
    ensures db.Valid()
    ensures questionId !in old(db.questions) ==>
      outcome == Thrown("Question not found") && db.Contents() == old(db.Contents())
    ensures questionId in old(db.questions) ==>
      && outcome == Done
      && db.Contents() == VotedQuestion(old(db.Contents()), questionId, userId,
                                        UpVoteQuery(hasUpVoted, hasDownVoted), UpVoteQuestionDeltas(hasUpVoted))
    ensures old(db.VotesWellFormed()) && questionId in old(db.questions)
            && FlagsMatch(old(db.questions[questionId].votes), userId, hasUpVoted, hasDownVoted)
            ==> db.VotesWellFormed()
  {
    var updateQuery := UpVoteQuery(hasUpVoted, hasDownVoted);
    if questionId !in db.questions {
      return Thrown("Question not found");
    }
    var deltas := UpVoteQuestionDeltas(hasUpVoted);
    ghost var after := VotedQuestion(db.Contents(), questionId, userId, updateQuery, deltas);
    VotedQuestionKeepsInvariants(db.Contents(), questionId, userId, updateQuery, deltas);
    var question := db.questions[questionId];
    if FlagsMatch(question.votes, userId, hasUpVoted, hasDownVoted) && db.VotesWellFormed() {
      UpVoteEffect(question.votes, userId, hasUpVoted, hasDownVoted);
    }
    db.questions := db.questions[questionId := question.(votes := ApplyQuery(question.votes, updateQuery, userId))];
    db.reputation := Inc(db.reputation, userId, deltas.voter);
    db.reputation := Inc(db.reputation, question.author, deltas.author);
    assert db.Contents() == after;
    outcome := Done;
  }

  /**
   * `downVoteQuestion`: the mirror image; the voter gets -2/+2 and the author
   * -10/+10, so a new downvote credits the author.
   */
  method DownVoteQuestion(db: Database, questionId: QuestionId, userId: UserId, hasUpVoted: bool, hasDownVoted: bool)
    returns (outcome: Outcome)
    requires db.Valid()
    modifies db
    ensures db.Valid()
    ensures questionId !in old(db.questions) ==>
      outcome == Thrown("Question not found") && db.Contents() == old(db.Contents())
    ensures questionId in old(db.questions) ==>
      && outcome == Done
      && db.Contents() == VotedQuestion(old(db.Contents()), questionId, userId,
                                        DownVoteQuery(hasUpVoted, hasDownVoted), DownVoteQuestionDeltas(hasDownVoted))
    ensures old(db.VotesWellFormed()) && questionId in old(db.questions)
            && FlagsMatch(old(db.questions[questionId].votes), userId, hasUpVoted, hasDownVoted)
            ==> db.VotesWellFormed()
  {
    var updateQuery := DownVoteQuery(hasUpVoted, hasDownVoted);
    if questionId !in db.questions {
      return Thrown("Question not found");
    }
    var deltas := DownVoteQuestionDeltas(hasDownVoted);
    ghost var after := VotedQuestion(db.Contents(), questionId, userId, updateQuery, deltas);
    VotedQuestionKeepsInvariants(db.Contents(), questionId, userId, updateQuery, deltas);
    var question := db.questions[questionId];
    if FlagsMatch(question.votes, userId, hasUpVoted, hasDownVoted) && db.VotesWellFormed() {
      DownVoteEffect(question.votes, userId, hasUpVoted, hasDownVoted);
    }
    db.questions := db.questions[questionId := question.(votes := ApplyQuery(question.votes, updateQuery, userId))];
    db.reputation := Inc(db.reputation, userId, deltas.voter);
    db.reputation := Inc(db.reputation, question.author, deltas.author);
    assert db.Contents() == after;
    outcome := Done;
  }

  // ---------------------------------------------------------------- deleteQuestion

  /** `AnswerModel.deleteMany({ question })`: every answer to the question goes, the rest stay as they were. */
  function DropAnswersTo(answers: map<AnswerId, Answer>, questionId: QuestionId): (r: map<AnswerId, Answer>)
    ensures forall a :: a in r <==> a in answers && answers[a].question != questionId
    ensures forall a :: a in r ==> r[a] == answers[a]
  {
    map a | a in answers && answers[a].question != questionId :: answers[a]
  }

  /** `TagModel.updateMany({ questions: questionId }, { $pull: { questions: questionId } })`. */
  function PullFromTags(tags: seq<Tag>, questionId: QuestionId): (r: seq<Tag>)
    ensures |r| == |tags|
    ensures forall i :: 0 <= i < |r| ==> r[i].name == tags[i].name && questionId !in r[i].questions
    ensures forall i :: 0 <= i < |r| ==>
      forall y :: y != questionId ==> multiset(r[i].questions)[y] == multiset(tags[i].questions)[y]
    ensures TagNamesDistinct(tags) ==> TagNamesDistinct(r)
  {
    seq(|tags|, i requires 0 <= i < |tags| => tags[i].(questions := Pull(tags[i].questions, questionId)))
  }

  /** The store after `deleteQuestion`; reputation and the id counter are untouched. */
  function DeletedQuestion(s: State, questionId: QuestionId): (r: State)
    ensures questionId !in r.questions && r.questions.Keys == s.questions.Keys - {questionId}
    ensures forall a :: a in r.answers ==> r.answers[a].question != questionId
    ensures forall x :: x in r.interactions ==> x.question != Some(questionId)
    ensures r.reputation == s.reputation && r.nextId == s.nextId
  {
    s.(questions := s.questions - {questionId},
       answers := DropAnswersTo(s.answers, questionId),
       interactions := DeleteMany(s.interactions, AboutQuestion(questionId)),
       tags := PullFromTags(s.tags, questionId))
  }

  /** Deleting a question keeps the store invariant and the well-formedness of every ballot left. */
  lemma DeletedQuestionKeepsInvariants(s: State, questionId: QuestionId)
    requires ValidState(s)
    ensures ValidState(DeletedQuestion(s, questionId))
    ensures BallotsWellFormed(s.questions, s.answers) ==>
      var r := DeletedQuestion(s, questionId); BallotsWellFormed(r.questions, r.answers)
  {
    var r := DeletedQuestion(s, questionId);
    DeleteManyAtMostOneView(s.interactions, AboutQuestion(questionId));
    assert IdsIssued(r.questions, r.answers, r.nextId);
    forall i | 0 <= i < |r.interactions| && r.interactions[i].answer.Some?
      ensures r.interactions[i].answer.value < r.nextId
    {
      assert r.interactions[i] in s.interactions;
    }
    assert RefsIssued(r.questions, r.interactions, r.nextId);
    assert TagNamesDistinct(r.tags);
  }

  /** Pulling the question from every tag a second time changes nothing. */
  lemma PullFromTagsIdempotent(tags: seq<Tag>, questionId: QuestionId)
    ensures PullFromTags(PullFromTags(tags, questionId), questionId) == PullFromTags(tags, questionId)
  {
    var r := PullFromTags(tags, questionId);
    forall i | 0 <= i < |r|
      ensures PullFromTags(r, questionId)[i] == r[i]
    {
      PullAbsent(r[i].questions, questionId);
    }
  }

  /** Deleting the same question twice is the same as deleting it once. */
  lemma DeletedQuestionIdempotent(s: State, questionId: QuestionId)
    ensures DeletedQuestion(DeletedQuestion(s, questionId), questionId) == DeletedQuestion(s, questionId)
  {
    var r := DeletedQuestion(s, questionId);
    DeleteManyIdempotent(s.interactions, AboutQuestion(questionId));
    PullFromTagsIdempotent(s.tags, questionId);
    assert DropAnswersTo(r.answers, questionId) == r.answers;
  }

  /**
   * `deleteQuestion`: delete the question, every answer to it, every interaction
   * about it, and pull its id from every tag. Deleting a missing id changes
   * only what refers to it.
   */
  method DeleteQuestion(db: Database, questionId: QuestionId)
    requires db.Valid()
    modifies db
    ensures db.Valid()
    ensures db.Contents() == DeletedQuestion(old(db.Contents()), questionId)
    ensures old(db.VotesWellFormed()) ==> db.VotesWellFormed()
  {
    ghost var after := DeletedQuestion(db.Contents(), questionId);
    DeletedQuestionKeepsInvariants(db.Contents(), questionId);
    db.questions := db.questions - {questionId};
    db.answers := DropAnswersTo(db.answers, questionId);
    db.interactions := DeleteMany(db.interactions, AboutQuestion(questionId));
    db.tags := PullFromTags(db.tags, questionId);
    assert db.Contents() == after;
  }
}
