# Votes, reputation and the question/answer store of a Q&A site

This project models the server actions behind a Stack-Overflow-style site in
Dafny. Questions and answers carry `upvotes`/`downvotes` lists of user ids, and
users carry an integer `reputation`. The actions update these in a document
store. The model covers:

- **Voting.** Each vote action picks one of three MongoDB update shapes from two
  flags the caller supplies (`hasUpVoted`, `hasDownVoted`) and applies it to one
  document:
  - `$pull` alone;
  - `$pull` on one list plus `$push` on the other;
  - `$addToSet`.
  Question votes then `$inc` the voter's and the author's reputation. Answer
  votes change no reputation.
- **Creating a question.** Each tag name is upserted, with a case-insensitive
  exact-name match. The question id is pushed onto each tag, and the tag ids are
  pushed onto the question. An `ask_question` interaction is recorded and the
  author gets +5.
- **The `deleteQuestion` cascade.**
- **Creating and deleting answers.**
- **`viewQuestion`.** The question gets one more view, and at most one `view`
  interaction is kept per user and question.
- **Two small pure pieces:** the page arithmetic of `getQuestions` and the
  `sortBy` mapping of `getAnswers`.

Layout, one module per file:

- `common.dfy`: ids, `Option`, and `Outcome`. An `Outcome` is either a normal
  return or a thrown `Error` with its message.
- `list_ops.dfy`: `$pull`, `$push` and `$addToSet` on a list of ids, and how
  they interact.
- `votes.dfy`: the flag → update-query tables, and the effect of a query on a
  document's two vote lists.
- `reputation.dfy`: `$inc` on the users' reputations and the fixed deltas of
  the two question votes.
- `store.dfy`: the records, the interaction log, `deleteMany`, and the store
  invariant. It also holds the class `Database`: one object with one field per
  collection, which the action methods update in place.
- `question_action.dfy`, `answer_action.dfy`, `interaction_action.dfy`: the
  actions. Each state-changing action is a module-level method that takes the
  `Database` object `db` and declares `modifies db`. Its `ensures` ties the new
  store to a function of the old store (`VotedQuestion`,
  `CreatedQuestion`, `DeletedQuestion`, `CreatedAnswer`, `DeletedAnswer`,
  `ViewedQuestion`). Lemmas then prove the invariants and properties of those
  functions.

Modelling decisions:

- **Object ids.** One counter hands out the ids of new questions and answers, so
  ids are fresh and never reused. Tags are never deleted by these actions, so a
  tag's id is its position in the tags collection. "The first tag that matches"
  is the one with the lowest position.
- **Tag matching.** The tag regex `^name$` with flag `i` is modelled as equality
  after ASCII lower-casing.
- **Missing user.** `$inc` on a user that does not exist does nothing, because
  `findByIdAndUpdate` does not upsert.
- **Missing question, where the code follows the update.** The code is followed,
  not the intent:
  - `createAnswer` on a missing question still stores the answer;
  - `viewQuestion` on a missing question still records the view interaction.
- **Reputation rules, as the code has them.**
  - an upvote on a question moves the voter by ±1 and the author by ±10, and a
    downvote moves the voter by ±2 and the author by ±10; the comments above the
    voter's increments (lib/actions/question.action.ts:190 and :238) speak of the
    author's reputation, but the increment goes to `userId`, the voter;
  - a new downvote credits the author +10, as a new upvote does;
  - answer votes change no reputation;
  - `createAnswer` gives no reputation (the code has only a TODO there).
- **Stale flags.** The caller's flags are trusted. With truthful flags, every
  vote keeps a ballot well formed: no duplicates, and no user in both lists.
  The flip branch uses `$push`, so stale flags can create a duplicate entry;
  `Votes.StaleFlipDuplicates` shows one.

## Model

| member | source | states |
|---|---|---|
| ListOps.Pull | lib/actions/question.action.ts:170 | `$pull` removes every occurrence of the id. Other ids keep their count, and the length drops by the id's count. |
| ListOps.Push | lib/actions/question.action.ts:174 | `$push` appends the id even when it is present: its count goes up by one and nothing else changes. |
| ListOps.AddToSet | lib/actions/question.action.ts:177 | `$addToSet` leaves the id in the list exactly once when the list had no duplicates. Other ids are unchanged. |
| ListOps.PullPush | lib/actions/question.action.ts:172-175 | Pulling an id after pushing it gives the same list as pulling it before the push. |
| ListOps.PullIdempotent | lib/actions/question.action.ts:170 | A second `$pull` of the same id changes nothing. |
| ListOps.AddToSetIdempotent | lib/actions/question.action.ts:177 | A second `$addToSet` of the same id changes nothing. |
| ListOps.PullNoDup | lib/actions/question.action.ts:170 | `$pull` keeps a duplicate-free list duplicate-free. |
| Votes.ApplyQuery | lib/actions/question.action.ts:167-184 | Whatever update shape is chosen, every other user's entries in both lists stay as they were, in order. |
| Votes.UpVoteQuery | lib/actions/question.action.ts:169-178 | `hasUpVoted` is checked first: it alone gives a `$pull` from `upvotes`. Otherwise `hasDownVoted` gives the flip from `downvotes` to `upvotes`, and no flag gives `$addToSet` on `upvotes`. |
| Votes.DownVoteQuery | lib/actions/question.action.ts:216-226 | The same table for a downvote, with `hasDownVoted` checked first and `downvotes` as the target. |
| Votes.VoteQueriesMirror | lib/actions/question.action.ts:216-226 | The downvote table is the upvote table with the flags and the lists swapped. So `hasDownVoted` is checked first, and it wins when both flags are set. |
| Votes.UpVoteEffect | lib/actions/question.action.ts:169-178 | With truthful flags on a well-formed ballot, the user ends in `upvotes` exactly when they had not upvoted, and never in `downvotes`. The ballot stays well formed and the counts move by one. |
| Votes.DownVoteEffect | lib/actions/question.action.ts:216-226 | The mirror of `UpVoteEffect` for a downvote. |
| Votes.FreshVoteIdempotent | lib/actions/question.action.ts:177 | A fresh vote (both flags false) sent twice leaves the lists as after the first. |
| Votes.UpVoteToggleRestores | lib/actions/question.action.ts:169-177 | Upvoting from neutral and then toggling the upvote off restores the ballot exactly. |
| Votes.DownVoteToggleRestores | lib/actions/question.action.ts:216-225 | Downvoting from neutral and then toggling the downvote off restores the ballot exactly. |
| Votes.FlipThenToggleIsNeutral | lib/actions/question.action.ts:169-175 | Flipping a downvote to an upvote and then toggling the upvote off leaves the user in neither list. |
| Votes.StaleFlipDuplicates | lib/actions/question.action.ts:171-175 | With stale flags the flip branch's `$push` puts the user into `upvotes` twice, and the ballot is no longer well formed. |
| Reputation.Inc | lib/actions/question.action.ts:191-193 | `$inc` adds the delta to a stored user and to no one else. A missing user is not created. |
| Reputation.UpVoteQuestionDeltas | lib/actions/question.action.ts:190-198 | Voter and author move the same way, the author ten times as far. Both go down exactly when an upvote is revoked, and the voter moves by 1. |
| Reputation.DownVoteQuestionDeltas | lib/actions/question.action.ts:238-245 | Voter and author move the same way, the author five times as far. Both go down exactly when a downvote is revoked, and the voter moves by 2. |
| Reputation.ApplyDeltas | lib/actions/question.action.ts:190-198 | The two `$inc` calls create and remove no user record and change nobody but the voter and the author. |
| Reputation.ApplyDeltasEffect | lib/actions/question.action.ts:190-198 | The two increments change only the voter and the author. A self-vote adds both deltas to the one record. |
| Reputation.RevokeRestores | lib/actions/question.action.ts:191-198 | Applying the opposite deltas after a vote restores every reputation. |
| Reputation.UpVoteToggleNetsZero | lib/actions/question.action.ts:191-198 | An upvote toggled on and then off nets zero for every user. |
| Reputation.DownVoteToggleNetsZero | lib/actions/question.action.ts:239-245 | A downvote toggled on and then off nets zero for every user. |
| Reputation.SelfVoteNets | lib/actions/question.action.ts:191-198 | A self-upvote moves the one record by ±11, and a self-downvote by ±12. |
| Reputation.DownVoteCreditsAuthor | lib/actions/question.action.ts:243-245 | A new downvote gives the author +10, the same as a new upvote. |
| Reputation.FlipAccumulates | lib/actions/question.action.ts:191-245 | A downvote flipped to an upvote revokes nothing: voter +3, author +20. |
| Reputation.NoClamp | lib/actions/question.action.ts:190-245 | There is no floor. Revoking either vote drives an author with less than 10 below zero. A voter with less than 1 (upvote) or 2 (downvote) also goes below zero. |
| Store.ViewCountPositive | lib/actions/interaction.action.ts:20-26 | The `findOne` lookup finds a view exactly when the user's view count on the question is positive. |
| Store.HasViewed | lib/actions/interaction.action.ts:20-26 | The `findOne` for an existing view succeeds exactly when the user has a positive view count on the question. |
| Store.AppendViewAtMostOneView | lib/actions/interaction.action.ts:29-33 | Recording a view for a user with none keeps at most one view per user and question. That user then has exactly one. |
| Store.DeleteMany | lib/actions/question.action.ts:262 | `deleteMany` keeps exactly the interactions the filter misses, each as often as before, and deletes every one it matches. |
| Store.DeleteManyKeepsOrder | lib/actions/question.action.ts:262 | What `deleteMany` keeps is a subsequence of the log: the survivors stay in their order. |
| Store.DeleteManyAtMostOneView | lib/actions/question.action.ts:262 | Deleting interactions keeps at most one view per user and question. |
| Store.DeleteManyIdempotent | lib/actions/question.action.ts:262 | The same `deleteMany` a second time deletes nothing more. |
| Store.Database.NewObjectId | lib/actions/question.action.ts:96-100 | A created document gets an id no stored question or answer has. |
| QuestionActions.SkipAmount | lib/actions/question.action.ts:32 | The requested page ends right after the first page·pageSize questions. Page 1 skips nothing, and later pages never skip a negative number. |
| QuestionActions.IsNext | lib/actions/question.action.ts:74 | There is no "next" link when the skipped and returned questions cover every match. `IsNextIffNextPageNonEmpty` proves the converse. |
| QuestionActions.DefaultPagingShowsFirstTen | lib/actions/question.action.ts:28-74 | With neither parameter given, nothing is skipped, at most ten questions come back, and `isNext` holds exactly when more than ten match. |
| QuestionActions.GivenLowPageSkipsBackwards | lib/actions/question.action.ts:28-32 | The default applies only to a missing `page`, so a given page below 1 is kept and gives a negative skip amount; page 0 skips back by one page. |
| QuestionActions.PageLength | lib/actions/question.action.ts:67-68 | `.skip().limit()` returns at most `pageSize` questions, all inside the total. It returns fewer only at the end. |
| QuestionActions.PagesTile | lib/actions/question.action.ts:32 | The skip amount of page n+1 is the skip of page n plus one page. |
| QuestionActions.IsNextIffNextPageNonEmpty | lib/actions/question.action.ts:74 | For page ≥ 1 and pageSize ≥ 1, `isNext` holds exactly when the next page is not empty, that is when more than page·pageSize questions match. |
| QuestionActions.FindTagFrom | lib/actions/question.action.ts:109 | The match is the first tag whose name equals the given one up to case. "None" means no tag matches. |
| QuestionActions.UpsertTag | lib/actions/question.action.ts:108-112 | A tag is created exactly when no name matches; otherwise the question id is pushed onto the first match, and no earlier tag matches. Other tags are untouched, and case-insensitive name distinctness is kept. |
| QuestionActions.UpsertTagKeepsHit | lib/actions/question.action.ts:108-112 | A later upsert keeps an earlier tag's name and its entry for the question. |
| QuestionActions.UpsertTags | lib/actions/question.action.ts:106-115 | The loop collects one tag id per name, and adds at most one tag per name. |
| QuestionActions.UpsertTagsGrows | lib/actions/question.action.ts:106-115 | Over the tag loop, tags that existed before keep their names and only gain entries. |
| QuestionActions.UpsertTagsHits | lib/actions/question.action.ts:106-115 | The k-th collected id is a tag whose name matches the k-th name and which lists the question. |
| QuestionActions.UpsertTagsUntouched | lib/actions/question.action.ts:106-115 | A tag no name hit existed before the loop and is unchanged. |
| QuestionActions.UpsertTagsDistinct | lib/actions/question.action.ts:108-111 | The loop never creates two tags whose names differ only in case. |
| QuestionActions.UpsertTagLoop | lib/actions/question.action.ts:102-115 | The `for` loop's tags and `tagDocuments` are those of the tag-loop function. Only the tags change. |
| QuestionActions.CreatedQuestion | lib/actions/question.action.ts:96-131 | One question is added under the fresh id, with the given title, content and author, no views, votes or answers, and one tag id per name. Old questions and the answers are unchanged. One interaction by the author about it is appended, and the author gets +5. |
| QuestionActions.CreatedQuestionKeepsInvariants | lib/actions/question.action.ts:96-131 | Creating a question keeps the store invariant and every ballot well formed. It adds exactly one question, under a fresh id. |
| QuestionActions.CreatedQuestionLinksTags | lib/actions/question.action.ts:106-120 | The new question lists one tag id per name. Each of those tags matches its name and lists the question. |
| QuestionActions.CreateQuestion | lib/actions/question.action.ts:96-131 | The action leaves the store described by `CreatedQuestion`, and the invariant holds. |
| QuestionActions.VotedQuestion | lib/actions/question.action.ts:180-198 | A vote changes only the question's ballot and the voter's and author's reputations. No question or user appears or disappears. |
| QuestionActions.VotedQuestionKeepsInvariants | lib/actions/question.action.ts:180-198 | A vote keeps the store invariant, and keeps every ballot well formed when the new one is. |
| QuestionActions.UpVoteQuestion | lib/actions/question.action.ts:161-206 | A missing question throws "Question not found" with nothing changed, so no reputation moves. Otherwise the store becomes `VotedQuestion` with the upvote query and the ±1/±10 deltas, and ballots stay well formed under truthful flags. |
| QuestionActions.DownVoteQuestion | lib/actions/question.action.ts:208-253 | The same contract with the downvote query and the ±2/±10 deltas. |
| QuestionActions.DropAnswersTo | lib/actions/question.action.ts:261 | Exactly the answers to other questions remain, unchanged. |
| QuestionActions.PullFromTags | lib/actions/question.action.ts:263-266 | Every tag keeps its name and loses the question id, and every other id keeps its count. Name distinctness is kept. |
| QuestionActions.DeletedQuestion | lib/actions/question.action.ts:260-266 | After the cascade no question, answer or interaction refers to the question. Reputation and ids are untouched. |
| QuestionActions.DeletedQuestionKeepsInvariants | lib/actions/question.action.ts:260-266 | The cascade keeps the store invariant and the well-formedness of the remaining ballots. |
| QuestionActions.PullFromTagsIdempotent | lib/actions/question.action.ts:263-266 | Pulling the question from every tag a second time changes nothing. |
| QuestionActions.DeletedQuestionIdempotent | lib/actions/question.action.ts:260-266 | Deleting a question twice is the same as deleting it once. |
| QuestionActions.DeleteQuestion | lib/actions/question.action.ts:254-272 | The action leaves the store described by `DeletedQuestion`, and the invariant holds. |
| AnswerActions.CreatedAnswerKeepsInvariants | lib/actions/answer.action.ts:22-27 | Creating an answer keeps the store invariant and every ballot well formed. It adds one answer under a fresh id and no question. |
| AnswerActions.CreatedAnswer | lib/actions/answer.action.ts:16-36 | The answer is stored under the fresh id with an empty ballot. When the question exists the id is appended to its `answers` and nothing else on it changes; no other question changes. Tags, interactions and reputation are untouched: the code gives no reputation here. |
| AnswerActions.CreateAnswer | lib/actions/answer.action.ts:16-36 | The action leaves the store described by `CreatedAnswer`: one stored answer, and one `$push` onto its question if that exists. |
| AnswerActions.AnswerSortOptions | lib/actions/answer.action.ts:47-63 | Exactly the four known `sortBy` values sort. The two upvote values sort on upvotes, and `highestUpvotes` and `recent` sort descending. |
| AnswerActions.AnswerSortOptionsTable | lib/actions/answer.action.ts:47-63 | Exactly the four known `sortBy` values sort. They give four different orders, in opposite pairs on one key. |
| AnswerActions.UpVoteAnswer | lib/actions/answer.action.ts:76-111 | A missing answer throws "Answer not found" with nothing changed. Otherwise only the answer's ballot changes, by the upvote table; no reputation moves. |
| AnswerActions.DownVoteAnswer | lib/actions/answer.action.ts:113-149 | As `UpVoteAnswer` with the downvote table. A missing answer throws "Question not found", as written. |
| AnswerActions.DeletedAnswer | lib/actions/answer.action.ts:157-168 | A missing answer changes nothing. Otherwise exactly that answer is removed and its id is `$pull`ed from its question's `answers`. Exactly the interactions about it are deleted. Tags, reputation and ids are untouched. |
| AnswerActions.DeletedAnswerKeepsInvariants | lib/actions/answer.action.ts:157-168 | Deleting an answer keeps the store invariant and the remaining ballots well formed. |
| AnswerActions.DeleteAnswerUndoesCreate | lib/actions/answer.action.ts:16-174 | In any store that satisfies the invariant, deleting a just-created answer restores the store, apart from the id counter. |
| AnswerActions.DeleteAnswer | lib/actions/answer.action.ts:151-174 | The action leaves the store described by `DeletedAnswer`. A missing answer is a silent no-op, because the catch swallows the error. |
| InteractionActions.ViewOf | lib/actions/interaction.action.ts:29-33 | The created record is a `view` by the user on the question. |
| InteractionActions.ViewedQuestion | lib/actions/interaction.action.ts:16-33 | Viewing changes no answer, tag, reputation or id, and adds or removes no question. |
| InteractionActions.ViewedQuestionEffect | lib/actions/interaction.action.ts:16-33 | The question gets exactly one more view and no other question changes. Without a user nothing is recorded. A user who viewed already gets nothing new; otherwise one record is appended. |
| InteractionActions.ViewedQuestionKeepsInvariants | lib/actions/interaction.action.ts:19-33 | After the call the user has exactly one view on the question. At most one view per user and question is kept. |
| InteractionActions.ViewTwiceRecordsOnce | lib/actions/interaction.action.ts:19-33 | A second view by the same user adds a view but no record. |
| InteractionActions.ViewQuestion | lib/actions/interaction.action.ts:9-39 | The action leaves the store described by `ViewedQuestion`, with the user's view count on the question exactly 1. |

## Left out

- `revalidatePath`, `console.log` and `connectToDatabase` (lib/mongoose.ts) are framework and I/O plumbing; they have no effect on the store.
- Database failures and the `catch` paths they would take are not modelled. Every store call succeeds, so the swallowing `catch` of `createQuestion` and `deleteQuestion` never fires in the model.
- Intermediate states are not modelled. The actions issue several independent writes with no transaction, so a failure between them leaves a partial update; the model applies each action as a whole.
- Concurrency is not modelled: the model is strictly sequential. Same-user vote races and the race between `findOne` and `create` in `viewQuestion` are not covered.
- Query execution is not modelled: `populate`, `sort`, the `getQuestions` search regex and `filter` switch, and `getQuestionById`, `editQuestion` and `getHotQuestions`. Of `getQuestions` only the skip and `isNext` arithmetic is modelled, with `.skip().limit()` as `PageLength`. A `pageSize` of 0, which MongoDB reads as "no limit", is not given that meaning.
- `page` and `pageSize` are JavaScript numbers; the model takes them as integers. Fractions, `NaN` and rounding are not modelled.
- A `page` below 1 gives a negative `skipAmount`, which MongoDB rejects with an error. The model does not model that error. This is why `IsNextIffNextPageNonEmpty` requires `page >= 1`: with a negative skip, `.skip()` has no meaning to compare `isNext` with. `GivenLowPageSkipsBackwards` shows that such a page is kept and reaches the skip.
- Regular-expression metacharacters in tag names and Unicode case folding are not modelled. The tag match is ASCII case-insensitive equality of the whole name. What is lost:
  - A name that is not a valid pattern, such as `c++`, makes `new RegExp` at lib/actions/question.action.ts:109 throw inside the tag loop. The empty `catch` at :135 swallows it. The question stays stored with no tags, no `ask_question` interaction and no +5, and the tags already handled keep the pushed question id. The model has no such partial outcome: `CreatedQuestion` always completes.
  - A name with metacharacters that is a valid pattern, such as `c.js`, can match a stored tag with a different name (`cxjs`). The model matches equal names only.
- `createdAt` and `Date.now` defaults are wall-clock values; the `getAnswers` mapping only names the sort key.
- Interactions about the answers of a deleted question are not removed. The cascade deletes interactions by `question` only, and the model does the same.
- `lib/actions/tag.actions.ts`, `lib/actions/user.action.ts`, `lib/validations.ts`, the UI components and the schema files are not part of this model; the schemas give only the record shapes.
