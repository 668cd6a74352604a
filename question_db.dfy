/** The bot's question database: for every channel a record holding, under
    the key "questions", the channel's questions keyed by the hash of their
    text, and under any other key a metadata value. The questions key and the
    metadata keys share one namespace. */
module QuestionDb {
  import opened Runtime
  import opened PostParsing
  import opened QuestionStore

  type ChannelId = string

  /** The record key under which a channel's questions are kept. */
  const QuestionsKey: string := "questions"

  /** A value in a channel's record: the questions map or a metadata value. */
  datatype Entry = Questions(questions: map<QuestionId, Post>) | Value(value: string)

  type Record = map<string, Entry>

  class QuestionDatabase {
    var questionDb: map<ChannelId, Record>
    /** The question-text digest used as question id (SHA-1 as hex). */
    const hash: string -> QuestionId

    /** Every channel has a questions entry, and stored questions sit under
        the hash of their own text. */
    ghost predicate Valid()
      reads this
    {
      forall c :: c in questionDb ==>
        && QuestionsKey in questionDb[c]
        && (questionDb[c][QuestionsKey].Questions? ==> Keyed(questionDb[c][QuestionsKey].questions, hash))
    }

    constructor (hash: string -> QuestionId)
      ensures Valid() && questionDb == map[] && this.hash == hash
    {
      questionDb := map[];
      this.hash := hash;
    }

    /** Adds `channel` with no questions; false and no change if known. */
    method CreateChannel(channel: ChannelId) returns (created: bool)
      requires Valid()
      modifies this
      ensures Valid()
      ensures created <==> channel !in old(questionDb)
      ensures created ==> questionDb == old(questionDb)[channel := map[QuestionsKey := Questions(map[])]]
      ensures !created ==> questionDb == old(questionDb)
    {
      if channel in questionDb {
        return false;
      }
      questionDb := questionDb[channel := map[QuestionsKey := Questions(map[])]];
      return true;
    }

    /** Removes `channel` with its questions and metadata; false and no
        change if unknown. */
    method RemoveChannel(channel: ChannelId) returns (removed: bool)
      requires Valid()
      modifies this
      ensures Valid()
      ensures removed <==> channel in old(questionDb)
      ensures questionDb == old(questionDb) - {channel}
    {
      if channel in questionDb {
        questionDb := questionDb - {channel};
        return true;
      }
      return false;
    }

    /** Stores every post under the hash of its question, a later post
        replacing an earlier one with the same question. An unknown channel
        answers false with no change. When a metadata value has replaced the
        questions map, storing the first post raises `TypeError`. */
    method UpdateChannelPosts(channel: ChannelId, posts: seq<Post>) returns (r: Outcome<bool>)
      requires Valid()
      modifies this
      ensures Valid()
      ensures channel !in old(questionDb) ==> r == Returned(false) && questionDb == old(questionDb)
      ensures channel in old(questionDb) && posts == [] ==> r == Returned(true) && questionDb == old(questionDb)
      ensures channel in old(questionDb) && posts != [] && old(questionDb)[channel][QuestionsKey].Value? ==>
        r == Raised(TypeError) && questionDb == old(questionDb)
      ensures channel in old(questionDb) && old(questionDb)[channel][QuestionsKey].Questions? ==>
        && r == Returned(true)
        && questionDb == old(questionDb)[channel := old(questionDb)[channel][QuestionsKey :=
             Questions(Store(old(questionDb)[channel][QuestionsKey].questions, posts, hash))]]
      ensures r == Returned(true) ==> forall i :: 0 <= i < |posts| && (forall j :: i < j < |posts| ==> KeyOf(posts[j], hash) != KeyOf(posts[i], hash)) ==>
        GetQuestionById(channel, KeyOf(posts[i], hash)) == Returned(posts[i])
    {
      if channel !in questionDb {
        return Returned(false);
      }
      var record := questionDb[channel];
      if posts == [] {
        assert record[QuestionsKey := record[QuestionsKey]] == record;
        return Returned(true);
      }
      if questionDb[channel][QuestionsKey].Value? {
        return Raised(TypeError);
      }
      ghost var questions := record[QuestionsKey].questions;
      assert record[QuestionsKey := Questions(questions)] == record;
      assert posts[..0] == [];
      for i := 0 to |posts|
        invariant questionDb == old(questionDb)[channel := old(questionDb)[channel][QuestionsKey := Questions(Store(questions, posts[..i], hash))]]
      {
        assert posts[..i + 1][..i] == posts[..i];
        var stored := questionDb[channel][QuestionsKey].questions;
        questionDb := questionDb[channel := record[QuestionsKey := Questions(stored[KeyOf(posts[i], hash) := posts[i]])]];
      }
      assert posts[..|posts|] == posts;
      StoreKeyed(questions, posts, hash);
      forall i | 0 <= i < |posts| && (forall j :: i < j < |posts| ==> KeyOf(posts[j], hash) != KeyOf(posts[i], hash))
        ensures Store(questions, posts, hash)[KeyOf(posts[i], hash)] == posts[i]
      {
        StoreLastWins(questions, posts, hash, i);
      }
      return Returned(true);
    }

    /** The ids of the channel's questions, each once. An unknown channel
        raises `KeyError`; a metadata value in place of the questions map
        raises `AttributeError`. */
    method GetQuestionIds(channel: ChannelId) returns (r: Outcome<seq<QuestionId>>)
      requires Valid()
      ensures channel !in questionDb ==> r == Raised(KeyError)
      ensures channel in questionDb && questionDb[channel][QuestionsKey].Value? ==> r == Raised(AttributeError)
      ensures channel in questionDb && questionDb[channel][QuestionsKey].Questions? ==>
        && r.Returned? && Distinct(r.value)
        && |r.value| == |questionDb[channel][QuestionsKey].questions|
        && forall id :: id in r.value <==> GetQuestionById(channel, id).Returned?
    {
      if channel !in questionDb {
        return Raised(KeyError);
      }
      match questionDb[channel][QuestionsKey]
      case Value(_) =>
        return Raised(AttributeError);
      case Questions(questions) =>
        var ids := KeysList(questions);
        return Returned(ids);
    }

    /** The question stored under `id`. An unknown channel or id raises
        `KeyError`; a metadata value in place of the questions map raises
        `TypeError`. What is found sits under the hash of its own text. */
    function GetQuestionById(channel: ChannelId, id: QuestionId): (r: Outcome<Post>)
      reads this
      ensures r.Returned? <==> (
        && channel in questionDb && QuestionsKey in questionDb[channel]
        && questionDb[channel][QuestionsKey].Questions? && id in questionDb[channel][QuestionsKey].questions)
      ensures r.Returned? ==> r.value == questionDb[channel][QuestionsKey].questions[id]
      ensures Valid() && r.Returned? ==> KeyOf(r.value, hash) == id
      ensures Valid() && r.Raised? ==> r.error == (if channel in questionDb && questionDb[channel][QuestionsKey].Value? then TypeError else KeyError)
    {
      if channel !in questionDb || QuestionsKey !in questionDb[channel] then Raised(KeyError)
      else match questionDb[channel][QuestionsKey]
        case Value(_) => Raised(TypeError)
        case Questions(questions) =>
          if id in questions then Returned(questions[id]) else Raised(KeyError)
    }

    /** Sets a metadata value of a known channel; `KeyError` and no change
        for an unknown one. The key "questions" replaces the questions map. */
    method SetChannelMetadata(channel: ChannelId, key: string, value: string) returns (r: Outcome<()>)
      requires Valid()
      modifies this
      ensures Valid()
      ensures channel !in old(questionDb) ==> r == Raised(KeyError) && questionDb == old(questionDb)
      ensures channel in old(questionDb) ==>
        && r == Returned(())
        && questionDb == old(questionDb)[channel := old(questionDb)[channel][key := Value(value)]]
        && GetChannelMetadata(channel, key) == Returned(Some(Value(value)))
    {
      if channel !in questionDb {
        return Raised(KeyError);
      }
      questionDb := questionDb[channel := questionDb[channel][key := Value(value)]];
      return Returned(());
    }

    /** The entry of a known channel under `key`, `None` if there is none;
        `KeyError` for an unknown channel. */
    function GetChannelMetadata(channel: ChannelId, key: string): (r: Outcome<Option<Entry>>)
      reads this
      ensures r.Raised? <==> channel !in questionDb
      ensures r.Raised? ==> r.error == KeyError
      ensures r.Returned? ==> (r.value.Some? <==> key in questionDb[channel])
      ensures r.Returned? && r.value.Some? ==> r.value.value == questionDb[channel][key]
    {
      if channel !in questionDb then Raised(KeyError)
      else if key in questionDb[channel] then Returned(Some(questionDb[channel][key]))
      else Returned(None)
    }

    /** Every known channel, each once. */
    method ListAllChannels() returns (channels: seq<ChannelId>)
      ensures Distinct(channels) && |channels| == |questionDb|
      ensures forall c :: c in channels <==> c in questionDb
    {
      channels := KeysList(questionDb);
    }
  }

  /** A new channel updated with posts whose questions hash apart lists one
      id per post, and each post is found under its id. */
  method UpdateKeepsEveryQuestion(hash: string -> QuestionId, channel: ChannelId, posts: seq<Post>)
    returns (ids: Outcome<seq<QuestionId>>)
    requires forall i, j :: 0 <= i < j < |posts| ==> KeyOf(posts[i], hash) != KeyOf(posts[j], hash)
    ensures ids.Returned? && |ids.value| == |posts|
    ensures forall i :: 0 <= i < |posts| ==> KeyOf(posts[i], hash) in ids.value
  {
    var db := new QuestionDatabase(hash);
    var _ := db.CreateChannel(channel);
    var _ := db.UpdateChannelPosts(channel, posts);
    StoreCount(posts, hash);
    ids := db.GetQuestionIds(channel);
    forall i | 0 <= i < |posts| ensures KeyOf(posts[i], hash) in ids.value {
      assert db.GetQuestionById(channel, KeyOf(posts[i], hash)) == Returned(posts[i]);
    }
  }
}
