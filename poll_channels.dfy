/** The channel poller's pure helpers: turning the polled messages into
    question records, and splitting the listen address into host and port. */
module PollChannels {
  import opened Runtime
  import opened Text
  import opened PostParsing

  /** Builds the records message by message, skipping the messages with
      fewer than two lines. */
  method ParsePosts(messages: seq<string>) returns (data: seq<Post>)
    ensures data == ParsedPosts(messages)
  {
    data := [];
    for i := 0 to |messages|
      invariant data == ParsedPosts(messages[..i])
    {
      ParsedPostsStep(messages, i);
      match ParsePost(messages[i])
      case None =>
        assert ParsedPosts(messages[..i + 1]) == data;
      case Some(post) =>
        data := data + [post];
    }
    assert messages[..|messages|] == messages;
  }

  /** `host[:port]` split on ":". No address gives neither part; an address
      without ":" is a host alone; one ":" separates host and port; more
      than one raises `ValueError`. */
  function ParseListenAddress(address: Option<string>): (r: Outcome<(Option<string>, Option<string>)>)
    ensures address.None? ==> r == Returned((None, None))
    ensures address.Some? && Count(address.value, ':') == 0 ==> r == Returned((Some(address.value), None))
    ensures address.Some? && Count(address.value, ':') == 1 ==>
      && r.Returned? && r.value.0.Some? && r.value.1.Some?
      && r.value.0.value + ":" + r.value.1.value == address.value
      && ':' !in r.value.0.value && ':' !in r.value.1.value
    ensures address.Some? && Count(address.value, ':') >= 2 ==> r == Raised(ValueError)
  {
    match address
    case None => Returned((None, None))
    case Some(a) =>
      var items := Split(a, ':');
      if |items| == 1 then
        JoinSplit(a, ':');
        Returned((Some(items[0]), None))
      else if |items| == 2 then
        JoinSplit(a, ':');
        assert Join(items, ':') == items[0] + [':'] + Join(items[1..], ':');
        Returned((Some(items[0]), Some(items[1])))
      else Raised(ValueError)
  }

  /** An address written as host and port, neither holding ":", gives back
      that host and port. */
  lemma ListenAddressRoundTrip(host: string, port: string)
    requires ':' !in host && ':' !in port
    ensures ParseListenAddress(Some(host + ":" + port)) == Returned((Some(host), Some(port)))
  {
    SplitJoin([host, port], ':');
    assert Join([host, port], ':') == host + ":" + port;
  }
}
