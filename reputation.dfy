/**
 * Reputation bookkeeping: the users collection seen as a map from user id to
 * the `reputation` field, `$inc` on one user record, and the fixed deltas that
 * question votes apply to the voter and to the question's author.
 */
module Reputation {
  import opened Common

  /** The `reputation` field of every stored user. */
  type Reputations = map<UserId, int>

  /** What a question vote adds to the voter's and to the author's reputation. */
  datatype Deltas = Deltas(voter: int, author: int)

  /**
   * `UserModel.findByIdAndUpdate(user, { $inc: { reputation: d } })`: no upsert,
   * so a user that is not stored gets no record; there is no clamp.
   */
  function Inc(rep: Reputations, user: UserId, d: int): (r: Reputations)
    ensures r.Keys == rep.Keys
    ensures user in rep ==> r[user] == rep[user] + d
    ensures forall v :: v in rep && v != user ==> r[v] == rep[v]
  {
    if user in rep then rep[user := rep[user] + d] else rep
  }

  /**
   * Deltas of `upVoteQuestion`: voter and author move the same way, the
   * author ten times as far, down exactly when an upvote is revoked.
   */
  function UpVoteQuestionDeltas(hasUpVoted: bool): (d: Deltas)
    ensures d.author == 10 * d.voter
    ensures d.voter < 0 <==> hasUpVoted
    ensures d.voter == 1 || d.voter == -1
  {
    if hasUpVoted then Deltas(-1, -10) else Deltas(1, 10)
  }

  /**
   * Deltas of `downVoteQuestion`: voter and author move the same way, the
   * author five times as far, down exactly when a downvote is revoked; a new
   * downvote credits both.
   */
  function DownVoteQuestionDeltas(hasDownVoted: bool): (d: Deltas)
    ensures d.author == 5 * d.voter
    ensures d.voter < 0 <==> hasDownVoted
    ensures d.voter == 2 || d.voter == -2
  {
    if hasDownVoted then Deltas(-2, -10) else Deltas(2, 10)
  }

  /**
   * The two increments a question vote issues, voter first, then author: no
   * user record appears or disappears and nobody else changes.
   */
  function ApplyDeltas(rep: Reputations, voter: UserId, author: UserId, d: Deltas): (r: Reputations)
    ensures r.Keys == rep.Keys
    ensures forall v :: v in rep && v != voter && v != author ==> r[v] == rep[v]
  {
    Inc(Inc(rep, voter, d.voter), author, d.author)
  }

  /**
   * What the two increments add up to: no user record appears or disappears,
   * only the voter and the author change, and a self-vote adds both deltas to
   * the one record.
   */
  lemma ApplyDeltasEffect(rep: Reputations, voter: UserId, author: UserId, d: Deltas)
    ensures var r := ApplyDeltas(rep, voter, author, d);
      && r.Keys == rep.Keys
      && (forall v :: v in rep && v != voter && v != author ==> r[v] == rep[v])
      && (voter == author && voter in rep ==> r[voter] == rep[voter] + d.voter + d.author)
      && (voter != author && voter in rep ==> r[voter] == rep[voter] + d.voter)
      && (voter != author && author in rep ==> r[author] == rep[author] + d.author)
  {
  }

  /** Revoking the deltas of an earlier vote of the same kind restores every reputation. */
  lemma {:induction false} RevokeRestores(rep: Reputations, voter: UserId, author: UserId, on: Deltas, off: Deltas)
    requires off.voter == -on.voter && off.author == -on.author
    ensures ApplyDeltas(ApplyDeltas(rep, voter, author, on), voter, author, off) == rep
  {
    var r := ApplyDeltas(ApplyDeltas(rep, voter, author, on), voter, author, off);
    ApplyDeltasEffect(rep, voter, author, on);
    ApplyDeltasEffect(ApplyDeltas(rep, voter, author, on), voter, author, off);
    assert forall v :: v in r ==> r[v] == rep[v];
  }

  /** An upvote toggled on and then off nets zero for everyone. */
  lemma UpVoteToggleNetsZero(rep: Reputations, voter: UserId, author: UserId)
    ensures ApplyDeltas(ApplyDeltas(rep, voter, author, UpVoteQuestionDeltas(false)),
                        voter, author, UpVoteQuestionDeltas(true)) == rep
  {
    RevokeRestores(rep, voter, author, UpVoteQuestionDeltas(false), UpVoteQuestionDeltas(true));
  }

  /** A downvote toggled on and then off nets zero for everyone. */
  lemma DownVoteToggleNetsZero(rep: Reputations, voter: UserId, author: UserId)
    ensures ApplyDeltas(ApplyDeltas(rep, voter, author, DownVoteQuestionDeltas(false)),
                        voter, author, DownVoteQuestionDeltas(true)) == rep
  {
    RevokeRestores(rep, voter, author, DownVoteQuestionDeltas(false), DownVoteQuestionDeltas(true));
  }

  /** A self-upvote moves the one record by 11, a self-downvote by 12 (both signs). */
  lemma SelfVoteNets(rep: Reputations, user: UserId, hasUpVoted: bool, hasDownVoted: bool)
    requires user in rep
    ensures ApplyDeltas(rep, user, user, UpVoteQuestionDeltas(hasUpVoted))[user]
            == rep[user] + (if hasUpVoted then -11 else 11)
    ensures ApplyDeltas(rep, user, user, DownVoteQuestionDeltas(hasDownVoted))[user]
            == rep[user] + (if hasDownVoted then -12 else 12)
  {
    ApplyDeltasEffect(rep, user, user, UpVoteQuestionDeltas(hasUpVoted));
    ApplyDeltasEffect(rep, user, user, DownVoteQuestionDeltas(hasDownVoted));
  }

  /** A new downvote credits the author +10, exactly as a new upvote does. */
  lemma DownVoteCreditsAuthor(rep: Reputations, voter: UserId, author: UserId)
    requires voter != author && author in rep
    ensures ApplyDeltas(rep, voter, author, DownVoteQuestionDeltas(false))[author] == rep[author] + 10
    ensures ApplyDeltas(rep, voter, author, DownVoteQuestionDeltas(false))[author]
            == ApplyDeltas(rep, voter, author, UpVoteQuestionDeltas(false))[author]
  {
    ApplyDeltasEffect(rep, voter, author, DownVoteQuestionDeltas(false));
    ApplyDeltasEffect(rep, voter, author, UpVoteQuestionDeltas(false));
  }

  /**
   * A downvote followed by flipping it to an upvote revokes nothing: the voter
   * nets +3 and the author +20.
   */
  lemma FlipAccumulates(rep: Reputations, voter: UserId, author: UserId)
    requires voter != author && voter in rep && author in rep
    ensures var down := ApplyDeltas(rep, voter, author, DownVoteQuestionDeltas(false));
      var flipped := ApplyDeltas(down, voter, author, UpVoteQuestionDeltas(false));
      flipped[voter] == rep[voter] + 3 && flipped[author] == rep[author] + 20
  {
    var down := ApplyDeltas(rep, voter, author, DownVoteQuestionDeltas(false));
    ApplyDeltasEffect(rep, voter, author, DownVoteQuestionDeltas(false));
    ApplyDeltasEffect(down, voter, author, UpVoteQuestionDeltas(false));
  }

  /**
   * There is no floor: revoking a vote on the question of an author with less
   * than 10 reputation drives the author below zero, and a voter with less
   * than 1 (upvote) or 2 (downvote) goes below zero as well.
   */
  lemma NoClamp(rep: Reputations, voter: UserId, author: UserId)
    requires voter != author && author in rep && rep[author] < 10
    ensures ApplyDeltas(rep, voter, author, UpVoteQuestionDeltas(true))[author] < 0
    ensures ApplyDeltas(rep, voter, author, DownVoteQuestionDeltas(true))[author] < 0
    ensures voter in rep && rep[voter] < 1 ==> ApplyDeltas(rep, voter, author, UpVoteQuestionDeltas(true))[voter] < 0
    ensures voter in rep && rep[voter] < 2 ==> ApplyDeltas(rep, voter, author, DownVoteQuestionDeltas(true))[voter] < 0
  {
    ApplyDeltasEffect(rep, voter, author, UpVoteQuestionDeltas(true));
    ApplyDeltasEffect(rep, voter, author, DownVoteQuestionDeltas(true));
  }
}
