/** The first bot's progress database: for every user a map from channel id
    to that channel's progress queue. Unlike the later version it keeps no
    current channel and does not create users on demand. */
module LegacyProgressDb {
  import opened Runtime
  import LegacyProgressQueueLibrary

  type UserId = string
  type ChannelId = string
  type Queue = LegacyProgressQueueLibrary.ProgressQueueRandom

  class ProgressDatabase {
    var progressDb: map<UserId, map<ChannelId, Queue>>

    constructor ()
      ensures progressDb == map[]
    {
      progressDb := map[];
    }

    /** Adds `user` with no channel; false and no change if known. */
    method CreateUser(user: UserId) returns (created: bool)
      modifies this
      ensures created <==> user !in old(progressDb)
      ensures created ==> progressDb == old(progressDb)[user := map[]]
      ensures !created ==> progressDb == old(progressDb)
    {
      if user in progressDb {
        return false;
      }
      progressDb := progressDb[user := map[]];
      return true;
    }

    /** Removes `user` and all their queues; false and no change if unknown. */
    method DeleteUser(user: UserId) returns (deleted: bool)
      modifies this
      ensures deleted <==> user in old(progressDb)
      ensures progressDb == old(progressDb) - {user}
      ensures forall channel :: GetChannelProgress(user, channel) == None
    {
      if user in progressDb {
        progressDb := progressDb - {user};
        return true;
      }
      return false;
    }

    /** Gives a known user a fresh empty queue for `channel`. It refuses, with
        no change, when the user is unknown or already has that channel. */
    method CreateChannelProgress(user: UserId, channel: ChannelId) returns (created: bool)
      modifies this
      ensures created <==> user in old(progressDb) && channel !in old(progressDb)[user]
      ensures !created ==> progressDb == old(progressDb)
      ensures created ==> (
        && user in progressDb && channel in progressDb[user] && fresh(progressDb[user][channel])
        && progressDb[user][channel].questions == []
        && progressDb == old(progressDb)[user := old(progressDb)[user][channel := progressDb[user][channel]]])
      ensures created ==> GetChannelProgress(user, channel).Some?
    {
      if user !in progressDb {
        return false;
      }
      if channel in progressDb[user] {
        return false;
      }
      var queue := new LegacyProgressQueueLibrary.ProgressQueueRandom();
      progressDb := progressDb[user := progressDb[user][channel := queue]];
      return true;
    }

    /** Removes the queue of `user` for `channel`; false and no change when
        either is missing. */
    method DeleteChannelProgress(user: UserId, channel: ChannelId) returns (deleted: bool)
      modifies this
      ensures deleted <==> user in old(progressDb) && channel in old(progressDb)[user]
      ensures deleted ==> progressDb == old(progressDb)[user := old(progressDb)[user] - {channel}]
      ensures !deleted ==> progressDb == old(progressDb)
      ensures GetChannelProgress(user, channel) == None
    {
      if user !in progressDb {
        return false;
      }
      if channel !in progressDb[user] {
        return false;
      }
      progressDb := progressDb[user := progressDb[user] - {channel}];
      return true;
    }

    /** The queue of `user` for `channel`, or `None` when either is missing. */
    function GetChannelProgress(user: UserId, channel: ChannelId): (r: Option<Queue>)
      reads this
      ensures r.Some? <==> user in progressDb && channel in progressDb[user]
      ensures r.Some? ==> r.value == progressDb[user][channel]
    {
      if user !in progressDb then None
      else if channel !in progressDb[user] then None
      else Some(progressDb[user][channel])
    }
  }
}
