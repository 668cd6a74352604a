/** The bot's progress database: for every user a record that maps the key
    "current_channel_id" to the channel the user studies (or nothing), and
    every channel id the user has joined to that channel's progress queue.
    The current-channel key and the channel ids share one namespace. */
module ProgressDb {
  import opened Runtime
  import opened ProgressQueueLibrary

  type UserId = string
  type ChannelId = string

  /** The record key under which a user's current channel is kept. */
  const CurChannelKey: string := "current_channel_id"

  /** A value in a user's record: nothing, a channel id, or a progress queue. */
  datatype Slot = Nil | Channel(id: ChannelId) | Queue(queue: ProgressQueueRandom)

  type Record = map<string, Slot>

  /** A record value in an export: the current channel (or nothing), or a
      queue's progress map. */
  datatype Saved = SavedChannel(channel: Option<ChannelId>) | SavedProgress(progress: map<QuestionId, int>)

  type Snapshot = map<UserId, map<string, Saved>>

  /** A status code and a value, as the lookups return them. */
  datatype Reply = Reply(status: int, value: Slot)

  /** Every key other than the current-channel key holds a queue. */
  ghost predicate ValidRecord(record: Record)
  {
    forall k :: k in record && k != CurChannelKey ==> record[k].Queue?
  }

  function QueuesOf(record: Record): set<ProgressQueueRandom>
  {
    set k | k in record && record[k].Queue? :: record[k].queue
  }

  /** What the export writes for one record entry. A queue under the
      current-channel key is written as an empty map: the queue class extends
      `dict` without ever storing items in it. */
  function SavedOf(key: string, slot: Slot): Saved
    requires key != CurChannelKey ==> slot.Queue?
    reads if slot.Queue? then {slot.queue} else {}
  {
    if key == CurChannelKey then
      match slot
      case Nil => SavedChannel(None)
      case Channel(c) => SavedChannel(Some(c))
      case Queue(_) => SavedProgress(map[])
    else SavedProgress(slot.queue.progress)
  }

  function RecordSnapshot(record: Record): map<string, Saved>
    requires ValidRecord(record)
    reads QueuesOf(record)
  {
    map k | k in record :: SavedOf(k, record[k])
  }

  /** The shape the export has when no queue sits under the current-channel
      key, and the shape the import relies on. */
  ghost predicate WellFormed(snapshot: Snapshot)
  {
    forall u, k :: u in snapshot && k in snapshot[u] ==> (k == CurChannelKey <==> snapshot[u][k].SavedChannel?)
  }

  /** The slot the import stores for a saved current channel. */
  function SlotOf(saved: Saved): Slot
    requires saved.SavedChannel?
  {
    match saved.channel
    case None => Nil
    case Some(c) => Channel(c)
  }

  /** `record` is what the import builds from `saved`: same keys, the current
      channel as saved, and for every other key a queue holding the saved
      progress map and no current question. */
  ghost predicate Restored(record: Record, saved: map<string, Saved>)
    reads QueuesOf(record)
  {
    && record.Keys == saved.Keys
    && (CurChannelKey in record ==>
         saved[CurChannelKey].SavedChannel? && record[CurChannelKey] == SlotOf(saved[CurChannelKey]))
    && forall k :: k in record && k != CurChannelKey ==>
         && record[k].Queue? && saved[k].SavedProgress?
         && record[k].queue.progress == saved[k].progress
         && record[k].queue.currentQuestionId == None
  }

  class ProgressDatabase {
    var progressDb: map<UserId, Record>

    ghost predicate Valid()
      reads this
    {
      forall u :: u in progressDb ==> ValidRecord(progressDb[u])
    }

    function Queues(): set<ProgressQueueRandom>
      reads this
    {
      set u, q | u in progressDb && q in QueuesOf(progressDb[u]) :: q
    }

    /** The export, before it is written as JSON. */
    function Snapshot(): Snapshot
      requires Valid()
      reads this, Queues()
    {
      map u | u in progressDb :: RecordSnapshot(progressDb[u])
    }

    constructor ()
      ensures Valid() && progressDb == map[]
    {
      progressDb := map[];
    }

    /** Adds `user` with no current channel; false and no change if known. */
    method CreateUser(user: UserId) returns (created: bool)
      requires Valid()
      modifies this
      ensures Valid()
      ensures created <==> user !in old(progressDb)
      ensures created ==> progressDb == old(progressDb)[user := map[CurChannelKey := Nil]]
      ensures !created ==> progressDb == old(progressDb)
      ensures created ==> GetCurrentChannelOfUser(user) == Returned(Reply(0, Nil))
    {
      if user in progressDb {
        return false;
      }
      progressDb := progressDb[user := map[CurChannelKey := Nil]];
      return true;
    }

    /** Removes `user` and all their progress; false and no change if unknown. */
    method DeleteUser(user: UserId) returns (deleted: bool)
      requires Valid()
      modifies this
      ensures Valid()
      ensures deleted <==> user in old(progressDb)
      ensures progressDb == old(progressDb) - {user}
      ensures GetCurrentChannelOfUser(user) == Returned(Reply(-1, Nil))
      ensures forall channel :: GetChannelProgress(user, channel) == Reply(1, Nil)
    {
      if user in progressDb {
        progressDb := progressDb - {user};
        return true;
      }
      return false;
    }

    /** Creates the user if needed, then gives them a fresh empty queue for
        `channel` unless the record already has that key. */
    method CreateChannelProgress(user: UserId, channel: ChannelId) returns (created: bool)
      requires Valid()
      modifies this
      ensures Valid()
      ensures created ==> (
        && user in progressDb && channel in progressDb[user] && progressDb[user][channel].Queue?
        && fresh(progressDb[user][channel].queue)
        && progressDb[user][channel].queue.progress == map[]
        && progressDb[user][channel].queue.currentQuestionId == None)
      ensures var record := if user in old(progressDb) then old(progressDb)[user] else map[CurChannelKey := Nil];
        && (created <==> channel !in record)
        && (!created ==> progressDb == old(progressDb)[user := record])
        && (created ==> progressDb == old(progressDb)[user := record[channel := progressDb[user][channel]]])
      ensures GetChannelProgress(user, channel).status == 0
    {
      var _ := CreateUser(user);
      if channel in progressDb[user] {
        return false;
      }
      var queue := new ProgressQueueRandom();
      progressDb := progressDb[user := progressDb[user][channel := Queue(queue)]];
      return true;
    }

    /** Removes the `channel` entry of `user`. It answers true when it did,
        and false with no change when the user or the entry is missing. */
    method DeleteChannelProgress(user: UserId, channel: ChannelId) returns (deleted: bool)
      requires Valid()
      modifies this
      ensures Valid()
      ensures deleted <==> user in old(progressDb) && channel in old(progressDb)[user]
      ensures deleted ==> progressDb == old(progressDb)[user := old(progressDb)[user] - {channel}]
      ensures !deleted ==> progressDb == old(progressDb)
      ensures GetChannelProgress(user, channel) == Reply(if user in progressDb then 2 else 1, Nil)
    {
      if user !in progressDb {
        return false;
      }
      if channel !in progressDb[user] {
        return false;
      }
      progressDb := progressDb[user := progressDb[user] - {channel}];
      return true;
    }

    /** Status 0 and the current-channel slot of a known user, status -1 for
        an unknown one; `KeyError` if the slot has been deleted. */
    function GetCurrentChannelOfUser(user: UserId): (r: Outcome<Reply>)
      reads this
      ensures r.Returned? ==> (r.value.status == 0 <==> user in progressDb)
      ensures r.Returned? && r.value.status != 0 ==> r.value == Reply(-1, Nil)
      ensures r.Raised? <==> user in progressDb && CurChannelKey !in progressDb[user]
      ensures r.Returned? && r.value.status == 0 ==> r.value.value == progressDb[user][CurChannelKey]
      ensures r.Raised? ==> r.error == KeyError
    {
      if user !in progressDb then Returned(Reply(-1, Nil))
      else if CurChannelKey in progressDb[user] then Returned(Reply(0, progressDb[user][CurChannelKey]))
      else Raised(KeyError)
    }

    /** Records `channel` as the current channel of a known user. */
    method SetCurrentChannelOfUser(user: UserId, channel: ChannelId) returns (ok: bool)
      requires Valid()
      modifies this
      ensures Valid()
      ensures ok <==> user in old(progressDb)
      ensures ok ==> progressDb == old(progressDb)[user := old(progressDb)[user][CurChannelKey := Channel(channel)]]
      ensures !ok ==> progressDb == old(progressDb)
      ensures ok ==> GetCurrentChannelOfUser(user) == Returned(Reply(0, Channel(channel)))
      ensures !ok ==> GetCurrentChannelOfUser(user) == Returned(Reply(-1, Nil))
    {
      if user in progressDb {
        progressDb := progressDb[user := progressDb[user][CurChannelKey := Channel(channel)]];
        return true;
      }
      return false;
    }

    /** Status 1 for an unknown user, 2 for an unknown key, otherwise 0 and
        what the record holds under `channel`. */
    function GetChannelProgress(user: UserId, channel: ChannelId): (r: Reply)
      reads this
      ensures r.status == 0 <==> user in progressDb && channel in progressDb[user]
      ensures r.status == 0 ==> r.value == progressDb[user][channel]
      ensures r.status != 0 ==> r.value == Nil && (r.status == 1 <==> user !in progressDb)
      ensures Valid() && r.status == 0 && channel != CurChannelKey ==> r.value.Queue?
    {
      if user !in progressDb then Reply(1, Nil)
      else if channel !in progressDb[user] then Reply(2, Nil)
      else Reply(0, progressDb[user][channel])
    }

    /** Builds the export user by user and key by key. It is well formed
        exactly when no queue sits under a current-channel key. */
    method Export() returns (snapshot: Snapshot)
      requires Valid()
      ensures snapshot == Snapshot()
      ensures WellFormed(snapshot) <==>
        forall u :: u in progressDb && CurChannelKey in progressDb[u] ==> !progressDb[u][CurChannelKey].Queue?
    {
      snapshot := map[];
      var users := progressDb.Keys;
      while users != {}
        invariant users <= progressDb.Keys
        invariant snapshot.Keys == progressDb.Keys - users
        invariant forall u :: u in snapshot ==> snapshot[u] == RecordSnapshot(progressDb[u])
        decreases |users|
      {
        var u :| u in users;
        var saved := ExportRecord(progressDb[u]);
        snapshot := snapshot[u := saved];
        users := users - {u};
      }
      ExportShape(snapshot);
    }

    lemma ExportShape(snapshot: Snapshot)
      requires Valid() && snapshot == Snapshot()
      ensures WellFormed(snapshot) <==>
        forall u :: u in progressDb && CurChannelKey in progressDb[u] ==> !progressDb[u][CurChannelKey].Queue?
    {
      if WellFormed(snapshot) {
        forall u | u in progressDb && CurChannelKey in progressDb[u]
          ensures !progressDb[u][CurChannelKey].Queue?
        {
          assert snapshot[u][CurChannelKey].SavedChannel?;
        }
      }
    }

    /** Replaces the record of every user in `snapshot` with one restored
        from it; other users are kept. */
    method Import(snapshot: Snapshot) returns (ok: bool)
      requires Valid() && WellFormed(snapshot)
      modifies this
      ensures ok && Valid()
      ensures progressDb.Keys == old(progressDb).Keys + snapshot.Keys
      ensures forall u :: u in old(progressDb) && u !in snapshot ==> progressDb[u] == old(progressDb)[u]
      ensures forall u :: u in snapshot ==> Restored(progressDb[u], snapshot[u])
      ensures forall u, k :: u in snapshot && k in snapshot[u] && k != CurChannelKey ==>
        u in progressDb && k in progressDb[u] && progressDb[u][k].Queue? && fresh(progressDb[u][k].queue)
    {
      var restored := RestoreAll(snapshot);
      progressDb := progressDb + restored;
      forall u | u in snapshot ensures Restored(progressDb[u], snapshot[u]) {
        assert progressDb[u] == restored[u];
      }
      return true;
    }
  }

  /** A restored record exports as the map it was restored from. */
  lemma RestoredSnapshot(record: Record, saved: map<string, Saved>)
    requires forall k :: k in saved ==> (k == CurChannelKey <==> saved[k].SavedChannel?)
    requires ValidRecord(record) && Restored(record, saved)
    ensures RecordSnapshot(record) == saved
  {
    forall k | k in record ensures SavedOf(k, record[k]) == saved[k] {
      if k == CurChannelKey {
        match saved[k].channel
        case None =>
        case Some(c) =>
      }
    }
  }

  /** Importing a well-formed export into an empty database gives a
      database whose export is that payload. */
  method ImportCopy(snapshot: Snapshot) returns (copy: ProgressDatabase)
    requires WellFormed(snapshot)
    ensures fresh(copy)
    ensures copy.Valid() && copy.progressDb.Keys == snapshot.Keys && copy.Snapshot() == snapshot
  {
    copy := new ProgressDatabase();
    var _ := copy.Import(snapshot);
    forall u | u in copy.progressDb ensures RecordSnapshot(copy.progressDb[u]) == snapshot[u] {
      RestoredSnapshot(copy.progressDb[u], snapshot[u]);
    }
  }

  /** Exporting a database and importing the export into an empty one gives
      a database with the same export, provided no queue sits under a
      current-channel key. */
  method ExportImport(db: ProgressDatabase) returns (snapshot: Snapshot, copy: ProgressDatabase)
    requires db.Valid()
    requires forall u :: u in db.progressDb && CurChannelKey in db.progressDb[u] ==> !db.progressDb[u][CurChannelKey].Queue?
    ensures snapshot == db.Snapshot()
    ensures copy.Valid() && copy.Snapshot() == snapshot
  {
    snapshot := db.Export();
    ghost var queues := db.Queues();
    copy := ImportCopy(snapshot);
    assert db.Queues() == queues;
  }

  /** One user's record in the export, key by key: the current channel as
      is, every queue as its progress map. */
  method ExportRecord(record: Record) returns (saved: map<string, Saved>)
    requires ValidRecord(record)
    ensures saved == RecordSnapshot(record)
  {
    saved := map[];
    var keys := record.Keys;
    while keys != {}
      invariant keys <= record.Keys
      invariant saved.Keys == record.Keys - keys
      invariant forall k :: k in saved ==> saved[k] == SavedOf(k, record[k])
      decreases |keys|
    {
      var k :| k in keys;
      if k == CurChannelKey {
        saved := saved[k := SavedOf(k, record[k])];
      } else {
        saved := saved[k := SavedProgress(record[k].queue.GetProgress())];
      }
      keys := keys - {k};
    }
  }

  /** A new queue of the configured class holding a saved progress map. */
  method RestoreQueue(progress: map<QuestionId, int>) returns (queue: ProgressQueueRandom)
    ensures fresh(queue)
    ensures queue.progress == progress && queue.currentQuestionId == None
  {
    queue := new ProgressQueueRandom();
    queue.SetProgress(progress);
  }

  /** The records the import builds, one per user of `snapshot`. */
  method RestoreAll(snapshot: Snapshot) returns (restored: map<UserId, Record>)
    requires WellFormed(snapshot)
    ensures restored.Keys == snapshot.Keys
    ensures forall u :: u in restored ==> ValidRecord(restored[u]) && Restored(restored[u], snapshot[u])
    ensures forall u, k :: u in restored && k in restored[u] && k != CurChannelKey ==> restored[u][k].Queue? && fresh(restored[u][k].queue)
  {
    restored := map[];
    var users := snapshot.Keys;
    while users != {}
      invariant users <= snapshot.Keys
      invariant restored.Keys == snapshot.Keys - users
      invariant forall u :: u in restored ==> ValidRecord(restored[u]) && Restored(restored[u], snapshot[u])
      invariant forall u, k :: u in restored && k in restored[u] && k != CurChannelKey ==> restored[u][k].Queue? && fresh(restored[u][k].queue)
      decreases |users|
    {
      var u :| u in users;
      var record := RestoreRecord(snapshot[u]);
      restored := restored[u := record];
      users := users - {u};
    }
  }

  /** One user's record rebuilt from its export, key by key: the saved
      current channel as is, and a fresh queue for every progress map. */
  method RestoreRecord(saved: map<string, Saved>) returns (record: Record)
    requires forall k :: k in saved ==> (k == CurChannelKey <==> saved[k].SavedChannel?)
    ensures ValidRecord(record) && Restored(record, saved)
    ensures forall k :: k in record && k != CurChannelKey ==> fresh(record[k].queue)
  {
    record := map[];
    var keys := saved.Keys;
    while keys != {}
      invariant keys <= saved.Keys
      invariant record.Keys == saved.Keys - keys
      invariant ValidRecord(record)
      invariant CurChannelKey in record ==> record[CurChannelKey] == SlotOf(saved[CurChannelKey])
      invariant forall k :: k in record && k != CurChannelKey ==>
        && fresh(record[k].queue) && record[k].queue.progress == saved[k].progress
        && record[k].queue.currentQuestionId == None
      decreases |keys|
    {
      var k :| k in keys;
      if k == CurChannelKey {
        record := record[k := SlotOf(saved[k])];
      } else {
        var queue := RestoreQueue(saved[k].progress);
        record := record[k := Queue(queue)];
      }
      keys := keys - {k};
    }
  }
}
