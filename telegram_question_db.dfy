/** The first bot's question database: for every channel the questions
    parsed from its messages, keyed by the hash of their text. */
module TelegramQuestionDb {
  import opened Runtime
  import opened PostParsing
  import opened QuestionStore

  type ChannelId = string

  /** Parsing one more message stores its record, if it has one. */
  lemma StoreParsedStep(questions: map<QuestionId, Post>, messages: seq<string>, i: nat, hash: string -> QuestionId)
    requires i < |messages|
    ensures ParsePost(messages[i]).None? ==>
      Store(questions, ParsedPosts(messages[..i + 1]), hash) == Store(questions, ParsedPosts(messages[..i]), hash)
    ensures ParsePost(messages[i]).Some? ==>
      var post := ParsePost(messages[i]).value;
      Store(questions, ParsedPosts(messages[..i + 1]), hash)
        == Store(questions, ParsedPosts(messages[..i]), hash)[KeyOf(post, hash) := post]
  {
    var done := ParsedPosts(messages[..i]);
    ParsedPostsStep(messages, i);
    match ParsePost(messages[i])
    case None =>
      assert ParsedPosts(messages[..i + 1]) == done;
    case Some(post) =>
      assert ParsedPosts(messages[..i + 1]) == done + [post];
      StoreStep(questions, done, post, hash);
  }

  class QuestionDatabase {
    var questionDb: map<ChannelId, map<QuestionId, Post>>
    /** The question-text digest used as question id (SHA-1 as hex). */
    const hash: string -> QuestionId

    /** Stored questions sit under the hash of their own text. */
    ghost predicate Valid()
      reads this
    {
      forall c :: c in questionDb ==> Keyed(questionDb[c], hash)
    }

    constructor (hash: string -> QuestionId)
      ensures Valid() && questionDb == map[] && this.hash == hash
    {
      questionDb := map[];
      this.hash := hash;
    }

    /** Adds `channel` with no questions; false and no change if known. */
    method CreateChannel(channel: ChannelId) returns (created: bool)
      requires Valid()
      modifies this
      ensures Valid()
      ensures created <==> channel !in old(questionDb)
      ensures created ==> questionDb == old(questionDb)[channel := map[]]
      ensures !created ==> questionDb == old(questionDb)
    {
      if channel in questionDb {
        return false;
      }
      questionDb := questionDb[channel := map[]];
      return true;
    }

    /** Removes `channel` and its questions; false and no change if unknown. */
    method RemoveChannel(channel: ChannelId) returns (removed: bool)
      requires Valid()
      modifies this
      ensures Valid()
      ensures removed <==> channel in old(questionDb)
      ensures questionDb == old(questionDb) - {channel}
    {
      if channel in questionDb {
        questionDb := questionDb - {channel};
        return true;
      }
      return false;
    }

    /** Parses every message and stores each record under the hash of its
        question; messages with fewer than two lines are skipped. An unknown
        channel answers false with no change. */
    method ParseChannelPosts(channel: ChannelId, messages: seq<string>) returns (ok: bool)
      requires Valid()
      modifies this
      ensures Valid()
      ensures ok <==> channel in old(questionDb)
      ensures !ok ==> questionDb == old(questionDb)
      ensures ok ==> questionDb == old(questionDb)[channel := Store(old(questionDb)[channel], ParsedPosts(messages), hash)]
    {
      if channel !in questionDb {
        return false;
      }
      ghost var questions := questionDb[channel];
      assert messages[..0] == [];
      for i := 0 to |messages|
        invariant questionDb == old(questionDb)[channel := Store(questions, ParsedPosts(messages[..i]), hash)]
      {
        StoreParsedStep(questions, messages, i, hash);
        match ParsePost(messages[i])
        case None =>
        case Some(post) =>
          questionDb := questionDb[channel := questionDb[channel][KeyOf(post, hash) := post]];
      }
      assert messages[..|messages|] == messages;
      StoreKeyed(questions, ParsedPosts(messages), hash);
      return true;
    }

    /** The ids of the channel's questions, each once; `KeyError` for an
        unknown channel. */
    method GetQuestionIds(channel: ChannelId) returns (r: Outcome<seq<QuestionId>>)
      ensures channel !in questionDb ==> r == Raised(KeyError)
      ensures channel in questionDb ==>
        && r.Returned? && Distinct(r.value)
        && |r.value| == |questionDb[channel]|
        && forall id :: id in r.value <==> GetQuestionById(channel, id).Returned?
    {
      if channel !in questionDb {
        return Raised(KeyError);
      }
      var ids := KeysList(questionDb[channel]);
      return Returned(ids);
    }

    /** The question stored under `id`; `KeyError` for an unknown channel or
        id. What is found sits under the hash of its own text. */
    function GetQuestionById(channel: ChannelId, id: QuestionId): (r: Outcome<Post>)
      reads this
      ensures r.Returned? <==> channel in questionDb && id in questionDb[channel]
      ensures r.Returned? ==> r.value == questionDb[channel][id]
      ensures r.Raised? ==> r.error == KeyError
      ensures Valid() && r.Returned? ==> KeyOf(r.value, hash) == id
    {
      if channel !in questionDb then Raised(KeyError)
      else if id !in questionDb[channel] then Raised(KeyError)
      else Returned(questionDb[channel][id])
    }
  }

  /** Parsing messages whose questions hash apart into a new channel stores
      one question per message, and lists the id of each message's record. */
  method ParseKeepsEveryMessage(hash: string -> QuestionId, channel: ChannelId, messages: seq<string>)
    returns (ids: Outcome<seq<QuestionId>>)
    requires forall i :: 0 <= i < |messages| ==> '\n' in messages[i]
    requires forall i, j :: 0 <= i < j < |ParsedPosts(messages)| ==>
      KeyOf(ParsedPosts(messages)[i], hash) != KeyOf(ParsedPosts(messages)[j], hash)
    ensures ids.Returned? && |ids.value| == |messages|
    ensures forall i :: 0 <= i < |messages| ==> KeyOf(ParsePost(messages[i]).value, hash) in ids.value
  {
    var db := new QuestionDatabase(hash);
    var _ := db.CreateChannel(channel);
    var _ := db.ParseChannelPosts(channel, messages);
    StoreCount(ParsedPosts(messages), hash);
    ParsedPostsKeepsAll(messages);
    ids := db.GetQuestionIds(channel);
    forall i | 0 <= i < |messages| ensures KeyOf(ParsePost(messages[i]).value, hash) in ids.value {
      var post := ParsedPosts(messages)[i];
      assert KeyOf(post, hash) in KeysOf(ParsedPosts(messages), hash);
      assert db.GetQuestionById(channel, KeyOf(post, hash)).Returned?;
    }
  }
}
