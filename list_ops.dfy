/**
 * The three MongoDB array update operators the vote actions use, on an id list
 * stored as a sequence: `$pull` removes every occurrence, `$push` appends
 * unconditionally, `$addToSet` appends only when the value is absent.
 */
module ListOps {

  /** Every list the actions update holds ObjectIds. */
  type Id = nat

  /** No value occurs twice. */
  ghost predicate NoDup(s: seq<Id>) {
    forall x :: multiset(s)[x] <= 1
  }

  /**
   * `$pull: { field: x }`: every occurrence of `x` goes and every other value
   * keeps its number of occurrences (`PullConcat` shows it acts piece by
   * piece, which keeps the rest in order).
   */
  function Pull(s: seq<Id>, x: Id): (r: seq<Id>)
    ensures forall y :: y in r <==> y in s && y != x
    ensures forall y :: y != x ==> multiset(r)[y] == multiset(s)[y]
    ensures |r| == |s| - multiset(s)[x]
  {
    if s == [] then []
    else
      assert s == [s[0]] + s[1..];
      var rest := Pull(s[1..], x);
      if s[0] == x then rest else [s[0]] + rest
  }

  /** `$push: { field: x }`. */
  function Push(s: seq<Id>, x: Id): (r: seq<Id>)
    ensures forall y :: y in r <==> y in s || y == x
    ensures multiset(r) == multiset(s) + multiset{x}
    ensures |r| == |s| + 1 && r[|s|] == x
  {
    s + [x]
  }

  /** `$addToSet: { field: x }`. */
  function AddToSet(s: seq<Id>, x: Id): (r: seq<Id>)
    ensures forall y :: y in r <==> y in s || y == x
    ensures multiset(r)[x] == if x in s then multiset(s)[x] else 1
    ensures forall y :: y != x ==> multiset(r)[y] == multiset(s)[y]
    ensures NoDup(s) ==> NoDup(r)
  {
    if x in s then s else s + [x]
  }

  /** Pulling a value that is absent changes nothing. */
  lemma {:induction false} PullAbsent(s: seq<Id>, x: Id)
    requires x !in s
    ensures Pull(s, x) == s
  {
    if s != [] {
      PullAbsent(s[1..], x);
    }
  }

  /** Pulling distributes over concatenation. */
  lemma {:induction false} PullConcat(s: seq<Id>, t: seq<Id>, x: Id)
    ensures Pull(s + t, x) == Pull(s, x) + Pull(t, x)
  {
    if s == [] {
      assert s + t == t;
    } else {
      assert (s + t)[1..] == s[1..] + t;
      PullConcat(s[1..], t, x);
    }
  }

  /** Pulling twice is pulling once. */
  lemma PullIdempotent(s: seq<Id>, x: Id)
    ensures Pull(Pull(s, x), x) == Pull(s, x)
  {
    PullAbsent(Pull(s, x), x);
  }

  /** Pushing a value and then pulling it is the same as pulling it alone. */
  lemma PullPush(s: seq<Id>, x: Id)
    ensures Pull(Push(s, x), x) == Pull(s, x)
  {
    PullConcat(s, [x], x);
    assert Pull([x], x) == [];
  }

  /** Adding a value to the set and then pulling it is the same as pulling it alone. */
  lemma PullAddToSet(s: seq<Id>, x: Id)
    ensures Pull(AddToSet(s, x), x) == Pull(s, x)
  {
    if x !in s {
      PullPush(s, x);
    }
  }

  /** `$addToSet` is idempotent. */
  lemma AddToSetIdempotent(s: seq<Id>, x: Id)
    ensures AddToSet(AddToSet(s, x), x) == AddToSet(s, x)
  {
  }

  /** `$pull` keeps a list duplicate-free. */
  lemma PullNoDup(s: seq<Id>, x: Id)
    requires NoDup(s)
    ensures NoDup(Pull(s, x))
  {
    assert x !in Pull(s, x);
  }

  /** `$push` of an absent value keeps a list duplicate-free. */
  lemma PushNoDup(s: seq<Id>, x: Id)
    requires NoDup(s) && x !in s
    ensures NoDup(Push(s, x))
  {
  }
}
