/** A global String that one task overwrites and another polls, acts on and clears, with no
lock and no queue.  One assignment of a String is taken to be atomic.

`posts` is the history of everything assigned by the poster and what became of it. */
module Mailbox {

  datatype Fate = Pending | Delivered | Lost
  datatype Post = Post(text: string, fate: Fate)

  datatype Box = Box(value: string, posts: seq<Post>)
  {
    /** The poster overwrites the box. */
    function Put(text: string): Box { Box(text, Settled(posts) + [Post(text, Pending)]) }

    /** The poller acts on the current value. */
    function Take(): Box
    {
      if posts == [] then this else this.(posts := posts[|posts| - 1 := posts[|posts| - 1].(fate := Delivered)])
    }

    /** The poller clears the box. */
    function Clear(): Box { Box("", Settled(posts)) }

    /** The newest post is still waiting and is what the box holds. */
    predicate Waiting() { posts != [] && posts[|posts| - 1] == Post(value, Pending) }

    /** Only the newest post can still be waiting. */
    ghost predicate Valid()
    {
      && (forall i :: 0 <= i < |posts| - 1 ==> posts[i].fate != Pending)
      && (posts != [] && posts[|posts| - 1].fate == Pending ==> posts[|posts| - 1].text == value)
    }
  }

  /** A post that is still pending when the box is overwritten or cleared is lost. */
  function Settled(posts: seq<Post>): seq<Post>
  {
    if posts != [] && posts[|posts| - 1].fate == Pending
    then posts[|posts| - 1 := posts[|posts| - 1].(fate := Lost)]
    else posts
  }

  function Texts(posts: seq<Post>): seq<string>
  {
    if posts == [] then [] else Texts(posts[..|posts| - 1]) + [posts[|posts| - 1].text]
  }

  function DeliveredTexts(posts: seq<Post>): seq<string>
  {
    if posts == [] then []
    else
      var p := posts[|posts| - 1];
      DeliveredTexts(posts[..|posts| - 1]) + if p.fate == Delivered then [p.text] else []
  }

  /** xs is obtained from ys by dropping elements. */
  ghost predicate Subsequence(xs: seq<string>, ys: seq<string>)
  {
    || xs == []
    || (ys != [] && Subsequence(xs, ys[..|ys| - 1]))
    || (ys != [] && xs[|xs| - 1] == ys[|ys| - 1] && Subsequence(xs[..|xs| - 1], ys[..|ys| - 1]))
  }

  lemma {:induction false} DeliveredInOrder(posts: seq<Post>)
    ensures Subsequence(DeliveredTexts(posts), Texts(posts))
  {
    if posts != [] {
      DeliveredInOrder(posts[..|posts| - 1]);
      var p := posts[|posts| - 1];
      var xs, ys := DeliveredTexts(posts), Texts(posts);
      assert ys[..|ys| - 1] == Texts(posts[..|posts| - 1]);
      if p.fate == Delivered {
        assert xs[..|xs| - 1] == DeliveredTexts(posts[..|posts| - 1]);
      } else {
        assert xs == DeliveredTexts(posts[..|posts| - 1]);
      }
    }
  }

  lemma SettledDelivers(posts: seq<Post>)
    ensures DeliveredTexts(Settled(posts)) == DeliveredTexts(posts) && |Settled(posts)| == |posts|
  {
    if posts != [] {
      assert Settled(posts)[..|posts| - 1] == posts[..|posts| - 1];
    }
  }

  lemma PutKeeps(b: Box, text: string)
    requires b.Valid()
    ensures b.Put(text).Valid() && b.Put(text).Waiting()
    ensures DeliveredTexts(b.Put(text).posts) == DeliveredTexts(b.posts)
    ensures |b.Put(text).posts| == |b.posts| + 1
    ensures forall i :: 0 <= i < |b.posts| ==>
              b.Put(text).posts[i] == if b.posts[i].fate == Pending then b.posts[i].(fate := Lost) else b.posts[i]
  {
    SettledDelivers(b.posts);
    assert b.Put(text).posts[..|b.posts|] == Settled(b.posts);
  }

  lemma TakeDelivers(b: Box)
    requires b.Valid() && b.Waiting()
    ensures b.Take().Valid() && b.Take().value == b.value
    ensures DeliveredTexts(b.Take().posts) == DeliveredTexts(b.posts) + [b.value]
    ensures b.Take().posts == b.posts[..|b.posts| - 1] + [Post(b.value, Delivered)]
  {
    assert b.Take().posts[..|b.posts| - 1] == b.posts[..|b.posts| - 1];
  }

  lemma ClearKeeps(b: Box)
    requires b.Valid()
    ensures b.Clear().Valid()
    ensures DeliveredTexts(b.Clear().posts) == DeliveredTexts(b.posts)
    ensures |b.Clear().posts| == |b.posts|
    ensures forall i :: 0 <= i < |b.posts| ==>
              b.Clear().posts[i] == if b.posts[i].fate == Pending then b.posts[i].(fate := Lost) else b.posts[i]
  {
    SettledDelivers(b.posts);
  }

  const EMPTY_BOX := Box("", [])
}
