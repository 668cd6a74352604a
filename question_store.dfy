/** The keyed insert both question databases perform: each post is stored
    under the hash of its question text, so a later post with the same
    question replaces an earlier one and no stored question is removed. */
module QuestionStore {
  import opened PostParsing

  type QuestionId = string

  function KeyOf(p: Post, hash: string -> QuestionId): QuestionId
  {
    hash(p.question)
  }

  /** The keys of a list of posts. */
  function KeysOf(posts: seq<Post>, hash: string -> QuestionId): (ks: set<QuestionId>)
    ensures forall i :: 0 <= i < |posts| ==> KeyOf(posts[i], hash) in ks
  {
    if posts == [] then {} else KeysOf(posts[..|posts| - 1], hash) + {KeyOf(posts[|posts| - 1], hash)}
  }

  /** The questions map after the posts have been stored one after another:
      the old keys and the posts' keys, the old entries under keys no post
      has. */
  function Store(questions: map<QuestionId, Post>, posts: seq<Post>, hash: string -> QuestionId): (r: map<QuestionId, Post>)
    ensures r.Keys == questions.Keys + KeysOf(posts, hash)
    ensures forall id :: id in questions && id !in KeysOf(posts, hash) ==> r[id] == questions[id]
  {
    if posts == [] then questions
    else
      var last := posts[|posts| - 1];
      Store(questions, posts[..|posts| - 1], hash)[KeyOf(last, hash) := last]
  }

  /** Storing one more post overwrites the entry under its key. */
  lemma StoreStep(questions: map<QuestionId, Post>, posts: seq<Post>, post: Post, hash: string -> QuestionId)
    ensures Store(questions, posts + [post], hash) == Store(questions, posts, hash)[KeyOf(post, hash) := post]
  {
    assert (posts + [post])[..|posts|] == posts;
  }

  /** Last one wins: the stored post for a key is the last post with that key. */
  lemma {:induction false} StoreLastWins(questions: map<QuestionId, Post>, posts: seq<Post>, hash: string -> QuestionId, i: nat)
    requires i < |posts|
    requires forall j :: i < j < |posts| ==> KeyOf(posts[j], hash) != KeyOf(posts[i], hash)
    ensures Store(questions, posts, hash)[KeyOf(posts[i], hash)] == posts[i]
  {
    if i < |posts| - 1 {
      StoreLastWins(questions, posts[..|posts| - 1], hash, i);
    }
  }

  /** The index of the last post whose key is `id`. */
  function LastIndexOf(posts: seq<Post>, hash: string -> QuestionId, id: QuestionId): (i: nat)
    requires id in KeysOf(posts, hash)
    ensures i < |posts| && KeyOf(posts[i], hash) == id
    ensures forall j :: i < j < |posts| ==> KeyOf(posts[j], hash) != id
  {
    if KeyOf(posts[|posts| - 1], hash) == id then |posts| - 1
    else LastIndexOf(posts[..|posts| - 1], hash, id)
  }

  /** Every stored entry is an old entry or one of the posts. */
  lemma StoreFrom(questions: map<QuestionId, Post>, posts: seq<Post>, hash: string -> QuestionId, id: QuestionId)
    requires id in Store(questions, posts, hash)
    ensures id in KeysOf(posts, hash) ==> Store(questions, posts, hash)[id] == posts[LastIndexOf(posts, hash, id)]
    ensures id !in KeysOf(posts, hash) ==> Store(questions, posts, hash)[id] == questions[id]
  {
    if id in KeysOf(posts, hash) {
      StoreLastWins(questions, posts, hash, LastIndexOf(posts, hash, id));
    }
  }

  /** Storing posts whose keys are pairwise distinct into an empty map yields
      one entry per post. */
  lemma {:induction false} StoreCount(posts: seq<Post>, hash: string -> QuestionId)
    requires forall i, j :: 0 <= i < j < |posts| ==> KeyOf(posts[i], hash) != KeyOf(posts[j], hash)
    ensures |Store(map[], posts, hash)| == |posts|
  {
    if posts != [] {
      var init := posts[..|posts| - 1];
      StoreCount(init, hash);
      var id := KeyOf(posts[|posts| - 1], hash);
      if id in KeysOf(init, hash) {
        var j := LastIndexOf(init, hash, id);
        assert false;
      }
    }
  }

  /** Every entry is stored under the hash of its own question. */
  ghost predicate Keyed(questions: map<QuestionId, Post>, hash: string -> QuestionId)
  {
    forall id :: id in questions ==> KeyOf(questions[id], hash) == id
  }

  /** Storing posts keeps every entry under the hash of its own question. */
  lemma StoreKeyed(questions: map<QuestionId, Post>, posts: seq<Post>, hash: string -> QuestionId)
    requires Keyed(questions, hash)
    ensures Keyed(Store(questions, posts, hash), hash)
  {
    forall id | id in Store(questions, posts, hash)
      ensures KeyOf(Store(questions, posts, hash)[id], hash) == id
    {
      StoreFrom(questions, posts, hash, id);
    }
  }

  /** Storing the same posts a second time changes nothing. */
  lemma StoreIdempotent(questions: map<QuestionId, Post>, posts: seq<Post>, hash: string -> QuestionId)
    ensures Store(Store(questions, posts, hash), posts, hash) == Store(questions, posts, hash)
  {
    var once := Store(questions, posts, hash);
    var twice := Store(once, posts, hash);
    forall id | id in twice ensures twice[id] == once[id] {
      StoreFrom(questions, posts, hash, id);
      StoreFrom(once, posts, hash, id);
    }
  }
}
