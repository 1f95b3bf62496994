/**
 * The vote-toggle rules shared by questions and answers: which update query a
 * vote sends from the two caller-supplied flags, and what that query does to
 * the item's `upvotes`/`downvotes` lists.
 */
module Votes {
  import opened Common
  import opened ListOps

  /** One of the two id lists of a question or an answer. */
  datatype VoteList = Upvotes | Downvotes {
    function Opposite(): VoteList {
      if Upvotes? then Downvotes else Upvotes
    }
  }

  /** The three shapes of update document a vote action sends. */
  datatype UpdateQuery =
    | PullOnly(from: VoteList)                   // { $pull: { from: userId } }
    | PullAndPush(from: VoteList, to: VoteList)  // { $pull: { from: userId }, $push: { to: userId } }
    | AddToSetOnly(to: VoteList)                 // { $addToSet: { to: userId } }

  /** The same query with the roles of the two lists swapped. */
  function Mirror(q: UpdateQuery): UpdateQuery {
    match q
    case PullOnly(f) => PullOnly(f.Opposite())
    case PullAndPush(f, t) => PullAndPush(f.Opposite(), t.Opposite())
    case AddToSetOnly(t) => AddToSetOnly(t.Opposite())
  }

  /** The vote lists of one question or answer document. */
  datatype Ballot = Ballot(upvotes: seq<UserId>, downvotes: seq<UserId>) {
    function List(l: VoteList): seq<UserId> {
      if l.Upvotes? then upvotes else downvotes
    }
    function With(l: VoteList, s: seq<UserId>): Ballot {
      if l.Upvotes? then this.(upvotes := s) else this.(downvotes := s)
    }
  }

  /** The flags describe the user's actual membership. */
  predicate FlagsMatch(b: Ballot, user: UserId, hasUpVoted: bool, hasDownVoted: bool) {
    hasUpVoted == (user in b.upvotes) && hasDownVoted == (user in b.downvotes)
  }

  /** Both lists are duplicate-free and no user is in both. */
  ghost predicate WellFormed(b: Ballot) {
    && NoDup(b.upvotes)
    && NoDup(b.downvotes)
    && forall x :: x in b.upvotes ==> x !in b.downvotes
  }

  /** The query `upVoteQuestion` and `upVoteAnswer` choose: `hasUpVoted` is checked first. */
  function UpVoteQuery(hasUpVoted: bool, hasDownVoted: bool): (q: UpdateQuery)
    ensures q.PullOnly? <==> hasUpVoted
    ensures q.PullAndPush? <==> !hasUpVoted && hasDownVoted
    ensures q.PullOnly? ==> q.from == Upvotes
    ensures q.PullAndPush? ==> q.from == Downvotes && q.to == Upvotes
    ensures q.AddToSetOnly? ==> q.to == Upvotes
  {
    if hasUpVoted then PullOnly(Upvotes)
    else if hasDownVoted then PullAndPush(Downvotes, Upvotes)
    else AddToSetOnly(Upvotes)
  }

  /** The query `downVoteQuestion` and `downVoteAnswer` choose: `hasDownVoted` is checked first. */
  function DownVoteQuery(hasUpVoted: bool, hasDownVoted: bool): (q: UpdateQuery)
    ensures q.PullOnly? <==> hasDownVoted
    ensures q.PullAndPush? <==> !hasDownVoted && hasUpVoted
    ensures q.PullOnly? ==> q.from == Downvotes
    ensures q.PullAndPush? ==> q.from == Upvotes && q.to == Downvotes
    ensures q.AddToSetOnly? ==> q.to == Downvotes
  {
    if hasDownVoted then PullOnly(Downvotes)
    else if hasUpVoted then PullAndPush(Upvotes, Downvotes)
    else AddToSetOnly(Downvotes)
  }

  /**
   * The effect of `findByIdAndUpdate(id, q)` on the document's lists, for the
   * voting user. Whatever the query, every other user's entries stay as they
   * were, in the same order: removing `user` from either list before and after
   * gives the same list.
   */
  function ApplyQuery(b: Ballot, q: UpdateQuery, user: UserId): (r: Ballot)
    ensures Pull(r.upvotes, user) == Pull(b.upvotes, user)
    ensures Pull(r.downvotes, user) == Pull(b.downvotes, user)
  {
    match q
    case PullOnly(f) =>
      PullIdempotent(b.List(f), user);
      b.With(f, Pull(b.List(f), user))
    case PullAndPush(f, t) =>
      var pulled := b.With(f, Pull(b.List(f), user));
      PullIdempotent(b.List(f), user);
      PullPush(pulled.List(t), user);
      pulled.With(t, Push(pulled.List(t), user))
    case AddToSetOnly(t) =>
      PullAddToSet(b.List(t), user);
      b.With(t, AddToSet(b.List(t), user))
  }

  /** The two vote directions are mirror images of each other, flags swapped. */
  lemma VoteQueriesMirror(hasUpVoted: bool, hasDownVoted: bool)
    ensures DownVoteQuery(hasUpVoted, hasDownVoted) == Mirror(UpVoteQuery(hasDownVoted, hasUpVoted))
    ensures UpVoteQuery(hasUpVoted, hasDownVoted) == Mirror(DownVoteQuery(hasDownVoted, hasUpVoted))
  {
  }

  /**
   * An upvote with truthful flags on a well-formed ballot: the user ends up in
   * `upvotes` exactly when they had not upvoted before, never in `downvotes`,
   * the ballot stays well-formed and the counts move by one.
   */
  lemma UpVoteEffect(b: Ballot, user: UserId, hasUpVoted: bool, hasDownVoted: bool)
    requires WellFormed(b) && FlagsMatch(b, user, hasUpVoted, hasDownVoted)
    ensures var r := ApplyQuery(b, UpVoteQuery(hasUpVoted, hasDownVoted), user);
      && WellFormed(r)
      && (user in r.upvotes <==> !hasUpVoted)
      && user !in r.downvotes
      && |r.upvotes| == |b.upvotes| + (if hasUpVoted then -1 else 1)
      && |r.downvotes| == |b.downvotes| - (if hasDownVoted then 1 else 0)
  {
    if hasUpVoted {
      PullNoDup(b.upvotes, user);
    } else if hasDownVoted {
      PullNoDup(b.downvotes, user);
      PushNoDup(b.upvotes, user);
    }
  }

  /** The mirror image of `UpVoteEffect` for a downvote. */
  lemma DownVoteEffect(b: Ballot, user: UserId, hasUpVoted: bool, hasDownVoted: bool)
    requires WellFormed(b) && FlagsMatch(b, user, hasUpVoted, hasDownVoted)
    ensures var r := ApplyQuery(b, DownVoteQuery(hasUpVoted, hasDownVoted), user);
      && WellFormed(r)
      && (user in r.downvotes <==> !hasDownVoted)
      && user !in r.upvotes
      && |r.downvotes| == |b.downvotes| + (if hasDownVoted then -1 else 1)
      && |r.upvotes| == |b.upvotes| - (if hasUpVoted then 1 else 0)
  {
    var r := ApplyQuery(b, DownVoteQuery(hasUpVoted, hasDownVoted), user);
    if hasDownVoted {
      PullNoDup(b.downvotes, user);
    } else if hasUpVoted {
      PullNoDup(b.upvotes, user);
      PushNoDup(b.downvotes, user);
    }
  }

  /** A fresh vote (both flags false) uses `$addToSet`, so sending it again changes nothing. */
  lemma FreshVoteIdempotent(b: Ballot, user: UserId, l: VoteList)
    ensures var once := ApplyQuery(b, AddToSetOnly(l), user);
      ApplyQuery(once, AddToSetOnly(l), user) == once
  {
    AddToSetIdempotent(b.List(l), user);
  }

  /** Upvoting from neutral and then upvoting again with truthful flags restores the ballot. */
  lemma UpVoteToggleRestores(b: Ballot, user: UserId)
    requires user !in b.upvotes && user !in b.downvotes
    ensures var on := ApplyQuery(b, UpVoteQuery(false, false), user);
      ApplyQuery(on, UpVoteQuery(true, false), user) == b
  {
    PullPush(b.upvotes, user);
    PullAbsent(b.upvotes, user);
  }

  /** Downvoting from neutral and then downvoting again with truthful flags restores the ballot. */
  lemma DownVoteToggleRestores(b: Ballot, user: UserId)
    requires user !in b.upvotes && user !in b.downvotes
    ensures var on := ApplyQuery(b, DownVoteQuery(false, false), user);
      ApplyQuery(on, DownVoteQuery(false, true), user) == b
  {
    PullPush(b.downvotes, user);
    PullAbsent(b.downvotes, user);
  }

  /**
   * Flipping a downvote into an upvote and then toggling the upvote off leaves
   * the user in neither list: the downvote is not restored.
   */
  lemma FlipThenToggleIsNeutral(b: Ballot, user: UserId)
    requires WellFormed(b) && user in b.downvotes
    ensures var flipped := ApplyQuery(b, UpVoteQuery(false, true), user);
      var off := ApplyQuery(flipped, UpVoteQuery(true, false), user);
      off == Ballot(b.upvotes, Pull(b.downvotes, user))
  {
    PullPush(b.upvotes, user);
    PullAbsent(b.upvotes, user);
  }

  /**
   * The flip branch uses `$push`, not `$addToSet`: when the flags are stale
   * (the user is already in `upvotes` but the caller says only `hasDownVoted`)
   * the user ends up in `upvotes` twice.
   */
  lemma StaleFlipDuplicates(user: UserId)
    ensures ApplyQuery(Ballot([user], []), UpVoteQuery(false, true), user) == Ballot([user, user], [])
    ensures !WellFormed(ApplyQuery(Ballot([user], []), UpVoteQuery(false, true), user))
  {
    var r := ApplyQuery(Ballot([user], []), UpVoteQuery(false, true), user);
    assert multiset(r.upvotes)[user] == 2;
  }
}
