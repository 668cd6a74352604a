/** Turning a channel message into a question record. The same per-message
    rules appear in `parse_posts` of the channel poller and in
    `parse_channel_posts` of the older bot's question database: lines are
    split on "\n" and stripped; the first line, lower-cased, is the question;
    the second line, split on "/", gives the answers (each stripped and
    lower-cased); the remaining lines are the examples (stripped). A message
    with fewer than two lines is skipped. */
module PostParsing {
  import opened Runtime
  import opened Text

  datatype Post = Post(question: string, answers: seq<string>, examples: seq<string>)

  /** The record built from the lines of a message; `None` when there are
      fewer than two. */
  function PostOfLines(raw: seq<string>): Option<Post>
  {
    var lines := StripAll(raw);
    if |lines| < 2 then None
    else Some(Post(Lower(lines[0]), StripLowerAll(Split(lines[1], '/')), StripAll(lines[2..])))
  }

  /** `None` means the message is ignored with a warning. */
  function ParsePost(message: string): (r: Option<Post>)
    ensures r.None? <==> '\n' !in message
    ensures r.Some? ==> Count(message, '\n') >= 1
    ensures r.Some? ==> |r.value.answers| == Count(Split(message, '\n')[1], '/') + 1
    ensures r.Some? ==> |r.value.examples| == Count(message, '\n') - 1
    ensures r.Some? ==> '\n' !in r.value.question
    ensures r.Some? ==> forall i :: 0 <= i < |r.value.question| ==> !('A' <= r.value.question[i] <= 'Z')
  {
    var raw := Split(message, '\n');
    CountZero(message, '\n');
    if |raw| >= 2 then
      StripCount(raw[1], '/');
      StripWithin(raw[0], '\n');
      LowerKeeps(Strip(raw[0]), '\n');
      PostOfLines(raw)
    else
      PostOfLines(raw)
  }

  /** A message written as a question line, an answers line and example lines
      parses back into those lines, normalised: the question stripped and
      lower-cased, the answers split on "/", stripped and lower-cased, the
      examples stripped. */
  lemma ParseComposedPost(question: string, answers: string, examples: seq<string>)
    requires '\n' !in question && '\n' !in answers
    requires forall i :: 0 <= i < |examples| ==> '\n' !in examples[i]
    ensures ParsePost(Join([question, answers] + examples, '\n'))
         == Some(Post(Lower(Strip(question)), StripLowerAll(Split(Strip(answers), '/')), StripAll(examples)))
  {
    var lines := [question, answers] + examples;
    forall i | 0 <= i < |lines| ensures '\n' !in lines[i] {
      if i >= 2 { assert lines[i] == examples[i - 2]; }
    }
    var m := Join(lines, '\n');
    SplitJoin(lines, '\n');
    PostOfComposedLines(question, answers, examples);
    assert ParsePost(m) == PostOfLines(Split(m, '\n'));
  }

  lemma PostOfComposedLines(question: string, answers: string, examples: seq<string>)
    ensures PostOfLines([question, answers] + examples)
         == Some(Post(Lower(Strip(question)), StripLowerAll(Split(Strip(answers), '/')), StripAll(examples)))
  {
    StripAllAppend([question, answers], examples);
    assert StripAll([question, answers]) == [Strip(question), Strip(answers)];
    var stripped := StripAll([question, answers] + examples);
    assert stripped[2..] == StripAll(examples);
    StripAllIdempotent(examples);
  }

  /** The records of all messages that are not skipped, in message order. */
  function ParsedPosts(messages: seq<string>): (r: seq<Post>)
    ensures |r| <= |messages|
  {
    if messages == [] then []
    else
      var init := ParsedPosts(messages[..|messages| - 1]);
      match ParsePost(messages[|messages| - 1])
      case None => init
      case Some(p) => init + [p]
  }

  /** One more message adds its record, if it has one. */
  lemma ParsedPostsStep(messages: seq<string>, i: nat)
    requires i < |messages|
    ensures ParsedPosts(messages[..i + 1]) == ParsedPosts(messages[..i]) + match ParsePost(messages[i])
      case None => []
      case Some(p) => [p]
  {
    assert messages[..i + 1][..i] == messages[..i];
  }

  /** Parsing a concatenation parses each part on its own, so the kept
      records stay in the order of their messages. */
  lemma {:induction false} ParsedPostsAppend(a: seq<string>, b: seq<string>)
    ensures ParsedPosts(a + b) == ParsedPosts(a) + ParsedPosts(b)
    decreases |b|
  {
    if b == [] {
      assert a + b == a;
    } else {
      var b' := b[..|b| - 1];
      assert (a + b)[..|a + b| - 1] == a + b';
      assert (a + b)[|a + b| - 1] == b[|b| - 1];
      ParsedPostsAppend(a, b');
    }
  }

  /** A single message gives its record, or nothing if it is skipped. */
  lemma ParsedPostsSingle(message: string)
    ensures ParsedPosts([message]) == if '\n' in message then [ParsePost(message).value] else []
  {
    assert [message][..0] == [];
  }

  /** A message is dropped exactly when it has fewer than two lines: if every
      message has a line break, nothing is dropped and the i-th record is
      the i-th message's. */
  lemma {:induction false} ParsedPostsKeepsAll(messages: seq<string>)
    requires forall i :: 0 <= i < |messages| ==> '\n' in messages[i]
    ensures |ParsedPosts(messages)| == |messages|
    ensures forall i :: 0 <= i < |messages| ==> ParsedPosts(messages)[i] == ParsePost(messages[i]).value
  {
    if messages != [] {
      var init := messages[..|messages| - 1];
      var last := messages[|messages| - 1];
      ParsedPostsKeepsAll(init);
      assert ParsePost(last).Some?;
      var parsed := ParsedPosts(init) + [ParsePost(last).value];
      assert ParsedPosts(messages) == parsed;
      forall i | 0 <= i < |messages| ensures parsed[i] == ParsePost(messages[i]).value {
        if i < |init| {
          assert init[i] == messages[i];
        }
      }
    }
  }

  /** Every record comes from one of the messages. */
  lemma {:induction false} ParsedPostsFrom(messages: seq<string>, p: Post)
    requires p in ParsedPosts(messages)
    ensures exists m :: m in messages && ParsePost(m) == Some(p)
  {
    var init := messages[..|messages| - 1];
    var last := messages[|messages| - 1];
    if p in ParsedPosts(init) {
      ParsedPostsFrom(init, p);
      var m :| m in init && ParsePost(m) == Some(p);
      assert m in messages;
    } else {
      assert ParsePost(last) == Some(p);
    }
  }
}
