# listen_and_repeat_bot: progress and question stores, post parsers, callback routing

This project models, in Dafny, the data-keeping core of a Telegram bot. The bot drills a user on phrases taken from channel posts. The model covers these parts:

- **Progress queues.** One queue per (user, channel) keeps a map from question id to a progress value and the question last asked. The bot's version (`ProgressQueueLibrary`) adds ids with progress 0 and picks any known id as the next question. The first bot's version (`LegacyProgressQueueLibrary`) holds a plain list.
- **Progress databases.**
  - The bot's version (`ProgressDb`) maps each user to a record. The record maps the key `"current_channel_id"` to the user's current channel, and each joined channel id to its queue. It can export itself as a JSON-ready map and rebuild itself from one.
  - The first bot's version (`LegacyProgressDb`) maps users to channels to queues.
- **Question databases.** Each channel's questions are kept under the hash of the question text, so a later post with the same question replaces the earlier one. The bot's version (`QuestionDb`) receives parsed posts and keeps the questions map next to per-channel metadata in one record. The first bot's version (`TelegramQuestionDb`) parses raw messages itself.
- **Post parsing.** A message is split into lines and each line stripped. The first line, lower-cased, is the question. The second line, split on `/` with each piece stripped and lower-cased, gives the answers. The remaining lines are the examples. Messages with fewer than two lines are skipped (`PostParsing`, `PollChannels.ParsePosts`). The bot's default parser (`Parsers.ParserDefault`) splits the same way and strips each answer. It leaves the question and the examples as they are and lower-cases nothing.
- **Listen address.** The poller splits its listen address `host[:port]` (`PollChannels.ParseListenAddress`).
- **Registries.** Two registries hold functions:
  - parsers, keyed by function name (`Parsers`);
  - callback handlers, keyed by number (`CallbackHandler`). Callback data `"<id>,<arg>,..."` is routed to the handler it names.

How Python is represented:

- Exceptions are values: `Outcome<T>` is `Returned(value)` or `Raised(error)`, for the `KeyError`, `IndexError`, `ValueError`, `TypeError` and `AttributeError` that the code raises.
- `str.split`, `sep.join` and `str.strip()` are written out on `seq<char>` in `Text`. `Strip` uses exactly the characters `str.isspace()` accepts.
- Objects whose dictionaries the code updates in place are classes with `modifies` clauses. Each method's `ensures` states the whole new state and what the method returns.
- SHA-1 is a parameter: `hash: string -> QuestionId`, given to the question databases when they are built.

The user id and the channel id are strings, as the bot passes them.

Two behaviours of the code are worth knowing:

- **Shared record keys in the progress database.** The current-channel key and channel ids live in the same record. `create_channel_progress(u, "current_channel_id")` therefore answers false. After `delete_channel_progress(u, "current_channel_id")` the same call stores a queue under the current-channel key. The export then writes that queue as `{}`, because the queue class extends `dict` without storing items in it. `ProgressDb.ProgressDatabase.Export` states exactly when its result has the shape `Import` reads back.
- **Shared record keys in the question database.** Setting the metadata key `"questions"` replaces a channel's questions map. After that:
  - updating the channel with posts raises `TypeError`;
  - listing its ids raises `AttributeError`;
  - looking up a question raises `TypeError`.

Two facts about the queues:

- `next_question` on an empty queue raises `IndexError`, because `random.choice` does.
- Both `ProgressQueueRandom` classes pick uniformly among the known ids. Neither overrides `reset`.

## Model

| member | source | states |
|---|---|---|
| `Runtime.KeysList` | listen_and_repeat_bot/bot_handler/question_db.py:103-104 | `list(d.keys())`: every key of the map exactly once, as many entries as keys |
| `Text.Split` | listen_and_repeat_bot/poll_channels/main.py:26 | `s.split(sep)` has one more piece than `s` has separators, and no piece holds a separator |
| `Text.JoinSplit` | listen_and_repeat_bot/poll_channels/main.py:101 | joining the pieces of a split with the separator gives back the string |
| `Text.SplitJoin` | listen_and_repeat_bot/poll_channels/main.py:101 | splitting a join of separator-free pieces gives back the pieces |
| `Text.Join` | listen_and_repeat_bot/poll_channels/main.py:101 | `sep.join(parts)` starts with the first piece, and separator-free pieces give exactly one separator fewer than there are pieces |
| `Text.Strip` | listen_and_repeat_bot/poll_channels/main.py:26 | `strip()` never lengthens a string; its exact shape is stated by `StripShape` |
| `Text.StripShape` | listen_and_repeat_bot/poll_channels/main.py:26 | `strip()` keeps a middle slice that neither starts nor ends with whitespace and cuts only whitespace |
| `Text.StripCount` | listen_and_repeat_bot/poll_channels/main.py:26 | stripping keeps every non-whitespace character, so the count of `/` in a line is unchanged |
| `Text.StripIdempotent` | listen_and_repeat_bot/poll_channels/main.py:37-39 | stripping an already stripped line changes nothing, as happens to the examples |
| `Text.SplitStrip` | listen_and_repeat_bot/poll_channels/main.py:26-36 | splitting a stripped line on `/` and stripping each piece gives the same answers as splitting the raw line and stripping each piece |
| `Text.Lower` | listen_and_repeat_bot/poll_channels/main.py:33 | `lower()` keeps the length, maps each letter to lower case and leaves no upper-case ASCII letter |
| `PostParsing.ParsePost` | listen_and_repeat_bot/poll_channels/main.py:26-45 | a message is skipped iff it has no line break; otherwise it has one answer more than its second line has `/`, one example per line after the second, and a one-line lower-case question |
| `PostParsing.ParseComposedPost` | listen_and_repeat_bot/poll_channels/main.py:26-45 | a message written as question line, answers line and example lines parses back into those lines: question stripped and lower-cased, answers split on `/`, stripped and lower-cased, examples stripped |
| `PostParsing.ParsedPosts` | listen_and_repeat_bot/poll_channels/main.py:23-46 | the records of the messages that are not skipped, in message order; never more records than messages |
| `PostParsing.ParsedPostsAppend` | listen_and_repeat_bot/poll_channels/main.py:23-46 | parsing a concatenation of message lists concatenates the results, so records keep message order |
| `PostParsing.ParsedPostsSingle` | listen_and_repeat_bot/poll_channels/main.py:28-31 | a single message gives its record exactly when it has a line break, and nothing otherwise |
| `PostParsing.ParsedPostsKeepsAll` | listen_and_repeat_bot/poll_channels/main.py:28-31 | when every message has a line break, no message is dropped and the i-th record is the i-th message's |
| `PostParsing.ParsedPostsFrom` | listen_and_repeat_bot/poll_channels/main.py:41-45 | every record comes from one of the messages |
| `PollChannels.ParsePosts` | listen_and_repeat_bot/poll_channels/main.py:23-46 | the loop builds exactly the records of the non-skipped messages, in order |
| `PollChannels.ParseListenAddress` | listen_and_repeat_bot/poll_channels/main.py:98-107 | no address gives neither part; without `:` the whole address is the host; with one `:` host and port are the text around it; with more it raises `ValueError` |
| `PollChannels.ListenAddressRoundTrip` | listen_and_repeat_bot/poll_channels/main.py:98-107 | an address `host:port` of colon-free parts parses back into that host and port |
| `QuestionStore.Store` | listen_and_repeat_bot/bot_handler/question_db.py:82-98 | storing posts keeps every old key, adds each post's key, and leaves the entries under other keys as they were |
| `QuestionStore.StoreLastWins` | listen_and_repeat_bot/bot_handler/question_db.py:87-98 | the entry under a key is the last post with that key |
| `QuestionStore.StoreFrom` | listen_and_repeat_bot/bot_handler/question_db.py:82-98 | every stored entry is an old entry or the last post with its key |
| `QuestionStore.StoreCount` | listen_and_repeat_bot/bot_handler/tests/test_question_db.py:17-31 | posts whose questions hash apart, stored into an empty channel, give one entry per post |
| `QuestionStore.StoreKeyed` | listen_and_repeat_bot/bot_handler/question_db.py:87-98 | storing keeps every entry under the hash of its own question |
| `QuestionStore.StoreIdempotent` | listen_and_repeat_bot/bot_handler/question_db.py:82-98 | storing the same posts twice is storing them once |
| `QuestionDb.QuestionDatabase.constructor` | listen_and_repeat_bot/bot_handler/question_db.py:28-30 | a new database has no channel |
| `QuestionDb.QuestionDatabase.CreateChannel` | listen_and_repeat_bot/bot_handler/question_db.py:33-46 | true iff the channel was unknown, which then gets an empty questions map; otherwise nothing changes |
| `QuestionDb.QuestionDatabase.RemoveChannel` | listen_and_repeat_bot/bot_handler/question_db.py:49-61 | true iff the channel was known; afterwards it is gone and every other channel is kept |
| `QuestionDb.QuestionDatabase.UpdateChannelPosts` | listen_and_repeat_bot/bot_handler/question_db.py:64-100 | unknown channel: false, no change; questions replaced by metadata and posts given: `TypeError`, no change; otherwise true with the questions map stored through; each post that no later post overrides is found under its id |
| `QuestionDb.QuestionDatabase.GetQuestionIds` | listen_and_repeat_bot/bot_handler/question_db.py:103-104 | `KeyError` for an unknown channel, `AttributeError` when metadata replaced the questions; otherwise each id once, exactly the ids a lookup finds |
| `QuestionDb.QuestionDatabase.GetQuestionById` | listen_and_repeat_bot/bot_handler/question_db.py:107-108 | found iff channel and id are known and the questions map is in place; `TypeError` or `KeyError` otherwise; what is found is the entry stored under the id, and the id is the hash of its question |
| `QuestionDb.QuestionDatabase.SetChannelMetadata` | listen_and_repeat_bot/bot_handler/question_db.py:111-112 | `KeyError` and no change for an unknown channel; otherwise only that key changes and reading it back gives the value |
| `QuestionDb.QuestionDatabase.GetChannelMetadata` | listen_and_repeat_bot/bot_handler/question_db.py:115-119 | `KeyError` iff the channel is unknown; `None` iff the key is absent; otherwise the stored entry |
| `QuestionDb.QuestionDatabase.ListAllChannels` | listen_and_repeat_bot/bot_handler/question_db.py:122-123 | every known channel exactly once |
| `QuestionDb.UpdateKeepsEveryQuestion` | listen_and_repeat_bot/bot_handler/tests/test_question_db.py:17-31 | a new channel updated with posts whose questions differ lists as many ids as posts, and each post's id |
| `TelegramQuestionDb.QuestionDatabase.constructor` | listen_and_repeat_bot/telegram_bot_module/question_db.py:19-21 | a new database has no channel |
| `TelegramQuestionDb.QuestionDatabase.CreateChannel` | listen_and_repeat_bot/telegram_bot_module/question_db.py:24-35 | true iff the channel was unknown, which then has no questions; otherwise nothing changes |
| `TelegramQuestionDb.QuestionDatabase.RemoveChannel` | listen_and_repeat_bot/telegram_bot_module/question_db.py:38-50 | true iff the channel was known; afterwards it is gone and every other channel is kept |
| `TelegramQuestionDb.QuestionDatabase.ParseChannelPosts` | listen_and_repeat_bot/telegram_bot_module/question_db.py:53-105 | unknown channel: false, no change; otherwise true and the channel's questions are the old ones with the parsed records of the messages stored through, keyed by hash |
| `TelegramQuestionDb.QuestionDatabase.GetQuestionIds` | listen_and_repeat_bot/telegram_bot_module/question_db.py:108-109 | `KeyError` for an unknown channel; otherwise each id once, exactly the ids a lookup finds |
| `TelegramQuestionDb.QuestionDatabase.GetQuestionById` | listen_and_repeat_bot/telegram_bot_module/question_db.py:112-113 | found iff channel and id are known, `KeyError` otherwise; what is found is the entry stored under the id, and the id is the hash of its question |
| `TelegramQuestionDb.ParseKeepsEveryMessage` | listen_and_repeat_bot/telegram_bot_module/question_db.py:53-105 | messages that all have a line break and whose questions hash apart give a new channel one question per message, and the listed ids include the hash of each message's question |
| `ProgressQueueLibrary.WithQuestions` | listen_and_repeat_bot/bot_handler/progress_queue_library.py:55-58 | every given id becomes known, known ids keep their progress, new ids start at 0 |
| `ProgressQueueLibrary.WithQuestionsIdempotent` | listen_and_repeat_bot/bot_handler/progress_queue_library.py:55-58 | making the same ids known twice is making them known once |
| `ProgressQueueLibrary.ProgressQueueRandom.constructor` | listen_and_repeat_bot/bot_handler/progress_queue_library.py:18-21 | a new queue knows no question and has none current |
| `ProgressQueueLibrary.ProgressQueueRandom.SetProgress` | listen_and_repeat_bot/bot_handler/progress_queue_library.py:44-45 | the progress map becomes the given one; the current question is untouched |
| `ProgressQueueLibrary.ProgressQueueRandom.GetProgress` | listen_and_repeat_bot/bot_handler/progress_queue_library.py:41-42 | the queue's own progress map, as `SetProgress` and `UpdateQuestions` leave it |
| `ProgressQueueLibrary.ProgressQueueRandom.UpdateQuestions` | listen_and_repeat_bot/bot_handler/progress_queue_library.py:55-58 | the loop adds the new ids with progress 0 and keeps the rest; the current question is untouched |
| `ProgressQueueLibrary.ProgressQueueRandom.NextQuestion` | listen_and_repeat_bot/bot_handler/progress_queue_library.py:60-66 | no known id: `IndexError`, nothing changes; otherwise a known id, which becomes the current question, and progress is unchanged |
| `ProgressQueueLibrary.ProgressQueueRandom.CurrentQuestion` | listen_and_repeat_bot/bot_handler/progress_queue_library.py:65-66 | the question `NextQuestion` last picked, `None` before the first pick |
| `LegacyProgressQueueLibrary.ProgressQueueRandom.constructor` | listen_and_repeat_bot/progress_queue_library.py:27-28 | a new queue holds no question |
| `LegacyProgressQueueLibrary.ProgressQueueRandom.UpdateQuestions` | listen_and_repeat_bot/progress_queue_library.py:31-32 | the list becomes the given one |
| `LegacyProgressQueueLibrary.ProgressQueueRandom.NextQuestion` | listen_and_repeat_bot/progress_queue_library.py:35-36 | an empty list raises `IndexError`; otherwise a member of the list |
| `ProgressDb.ProgressDatabase.constructor` | listen_and_repeat_bot/bot_handler/progress_db.py:20-24 | a new database has no user |
| `ProgressDb.ProgressDatabase.CreateUser` | listen_and_repeat_bot/bot_handler/progress_db.py:27-41 | true iff the user was unknown, who then has no current channel; otherwise nothing changes |
| `ProgressDb.ProgressDatabase.DeleteUser` | listen_and_repeat_bot/bot_handler/progress_db.py:44-56 | true iff the user was known; afterwards lookups treat the user as unknown |
| `ProgressDb.ProgressDatabase.CreateChannelProgress` | listen_and_repeat_bot/bot_handler/progress_db.py:59-73 | creates the user if needed; true iff the record lacked the key, which then holds a fresh empty queue; nothing else changes; the lookup finds the key |
| `ProgressDb.ProgressDatabase.DeleteChannelProgress` | listen_and_repeat_bot/bot_handler/progress_db.py:76-91 | true iff user and key existed; only that key is removed; the lookup then answers 2, or 1 for an unknown user |
| `ProgressDb.ProgressDatabase.GetCurrentChannelOfUser` | listen_and_repeat_bot/bot_handler/progress_db.py:94-106 | `(0, slot)` for a known user, `(-1, None)` for an unknown one, `KeyError` iff the current-channel key was deleted |
| `ProgressDb.ProgressDatabase.SetCurrentChannelOfUser` | listen_and_repeat_bot/bot_handler/progress_db.py:109-120 | true iff the user is known, whose current channel then reads back as given; otherwise nothing changes |
| `ProgressDb.ProgressDatabase.GetChannelProgress` | listen_and_repeat_bot/bot_handler/progress_db.py:123-137 | `(1, None)` for an unknown user, `(2, None)` for an unknown key, otherwise `(0, value)`, a queue for every channel key |
| `ProgressDb.ProgressDatabase.Export` | listen_and_repeat_bot/bot_handler/progress_db.py:140-157 | the loops build the export of every record: current channel as is, every queue as its progress map; it has the importable shape iff no queue sits under a current-channel key |
| `ProgressDb.ExportRecord` | listen_and_repeat_bot/bot_handler/progress_db.py:146-152 | the inner loop writes one record's export: the current channel as is, every queue as its progress map |
| `ProgressDb.ProgressDatabase.ExportShape` | listen_and_repeat_bot/bot_handler/progress_db.py:148-154 | the export has the importable shape iff no queue sits under a current-channel key |
| `ProgressDb.ProgressDatabase.Import` | listen_and_repeat_bot/bot_handler/progress_db.py:160-177 | every user of the payload gets a record rebuilt from it, with a fresh queue holding each saved progress map; other users are kept; it answers true |
| `ProgressDb.RestoreAll` | listen_and_repeat_bot/bot_handler/progress_db.py:165-175 | one rebuilt record per user of the payload |
| `ProgressDb.RestoreRecord` | listen_and_repeat_bot/bot_handler/progress_db.py:166-175 | the record has the saved keys, the saved current channel and a fresh queue per saved progress map, with no current question |
| `ProgressDb.RestoreQueue` | listen_and_repeat_bot/bot_handler/progress_db.py:172-173 | a new queue holding the saved progress map and no current question |
| `ProgressDb.RestoredSnapshot` | listen_and_repeat_bot/bot_handler/progress_db.py:140-177 | a rebuilt record exports as the map it was rebuilt from |
| `ProgressDb.ImportCopy` | listen_and_repeat_bot/bot_handler/progress_db.py:140-177 | importing a well-formed export into a new database gives a database with the same users whose export is that payload |
| `ProgressDb.ExportImport` | listen_and_repeat_bot/bot_handler/progress_db.py:140-177 | exporting a database and importing the export into a new one gives a database with the same export |
| `LegacyProgressDb.ProgressDatabase.constructor` | listen_and_repeat_bot/progress_db.py:15-18 | a new database has no user |
| `LegacyProgressDb.ProgressDatabase.CreateUser` | listen_and_repeat_bot/progress_db.py:21-32 | true iff the user was unknown, who then has no channel; otherwise nothing changes |
| `LegacyProgressDb.ProgressDatabase.DeleteUser` | listen_and_repeat_bot/progress_db.py:35-46 | true iff the user was known; afterwards no lookup finds a queue of that user |
| `LegacyProgressDb.ProgressDatabase.CreateChannelProgress` | listen_and_repeat_bot/progress_db.py:49-60 | true iff the user is known and lacks the channel, which then holds a fresh empty queue; otherwise nothing changes |
| `LegacyProgressDb.ProgressDatabase.DeleteChannelProgress` | listen_and_repeat_bot/progress_db.py:63-71 | true iff user and channel existed; only that channel is removed; the lookup then finds nothing |
| `LegacyProgressDb.ProgressDatabase.GetChannelProgress` | listen_and_repeat_bot/progress_db.py:74-82 | the queue iff user and channel are known, `None` otherwise |
| `Parsers.Parsers.constructor` | listen_and_repeat_bot/bot_handler/parsers.py:2-3 | a new registry is empty |
| `Parsers.Parsers.Register` | listen_and_repeat_bot/bot_handler/parsers.py:5-6 | the function is stored under its own name, replacing any earlier one; the size grows iff the name was new |
| `Parsers.Parsers.Run` | listen_and_repeat_bot/bot_handler/parsers.py:8-9 | the function registered under the name (which bears that name), `KeyError` iff there is none |
| `Parsers.Parsers.Len` | listen_and_repeat_bot/bot_handler/parsers.py:11-12 | the number of registered names; zero exactly when no name can be run |
| `Parsers.InitParsers` | listen_and_repeat_bot/bot_handler/parsers.py:14-18 | after the module sets up, exactly `parser_default` is registered |
| `Parsers.ParserDefault` | listen_and_repeat_bot/bot_handler/parsers.py:19-27 | `IndexError` iff the message has no line break; otherwise the answers are the second line split on `/` with each piece stripped, and the question line, the raw second line and the example lines join back into the message |
| `Parsers.ParsersAgree` | listen_and_repeat_bot/bot_handler/parsers.py:19-27 | the default parser and the poller's parser accept the same messages; the poller's question, answers and examples are the default ones normalised: the question stripped and lower-cased, each answer lower-cased, the examples stripped |
| `CallbackHandler.ParseInt` | listen_and_repeat_bot/bot_handler/event_handlers/callback_handler.py:24 | `int(s)`: after stripping, an optional sign followed by at least one digit and digits only; unsigned or `+` text reads as its decimal value, `-` text as its negation; anything else raises `ValueError` |
| `CallbackHandler.Digits` | listen_and_repeat_bot/bot_handler/event_handlers/callback_handler.py:24 | the decimal digits of a number read back as that number |
| `CallbackHandler.ParseFormatInt` | listen_and_repeat_bot/bot_handler/event_handlers/callback_handler.py:24 | `int(str(n)) == n` |
| `CallbackHandler.CallbackRouting.constructor` | listen_and_repeat_bot/bot_handler/event_handlers/callback_handler.py:18-19 | a new router is empty |
| `CallbackHandler.CallbackRouting.Register` | listen_and_repeat_bot/bot_handler/event_handlers/callback_handler.py:31-34 | the handler is stored under its id, replacing any earlier one, and routing the id finds it; the size grows iff the id was new |
| `CallbackHandler.CallbackRouting.Route` | listen_and_repeat_bot/bot_handler/event_handlers/callback_handler.py:28-29 | the handler under the id, `KeyError` iff there is none |
| `CallbackHandler.CallbackRouting.Len` | listen_and_repeat_bot/bot_handler/event_handlers/callback_handler.py:36-37 | the number of registered ids; zero exactly when no id routes |
| `CallbackHandler.CallbackRouting.Handle` | listen_and_repeat_bot/bot_handler/event_handlers/callback_handler.py:21-26 | `ValueError` iff the first field is not a number, `KeyError` iff no handler has that number; otherwise the handler registered under that number, with the fields after the first as its arguments: comma-free, as many as the data has commas, and joining back with the first field into the data |
| `CallbackHandler.CallbackRouting.HandleCallbackData` | listen_and_repeat_bot/bot_handler/event_handlers/callback_handler.py:21-26 | data built as `"<id>,<arg>,..."` from a registered id and comma-free arguments routes to that handler with exactly those arguments |

## Left out

- Logging is not modelled. Nothing the model states depends on it.
- JSON text is not modelled:
  - The progress export is the map handed to `json.dumps`, and the import starts from the map `json.loads` returns.
  - The question databases' `export_to_json` is a bare `json.dumps` of the database.
- The `import_from_json` of both question databases and the `export_to_json`/`import_from_json` of the first bot's progress database are empty stubs and are not modelled.
- `ProgressDb.ProgressDatabase.Import`: requires the payload to have the shape an export has. A current-channel entry must be a channel id or `None`, and every other entry a progress map. The code accepts any decoded JSON, but it would store a non-map as a queue's progress.
- `ProgressDb.ProgressDatabase.Export`: when a queue sits under the current-channel key, the result states what the export holds but not that it imports. The code writes `{}` there, which the import would store as the current channel.
- SHA-1 is the parameter `hash`. The `except` branch around it, which skips a post whose question cannot be encoded, is not modelled. Dafny strings hold Unicode scalar values, which always encode as UTF-8.
- Post dictionaries are `Post` records. A post missing a field (`KeyError` at question_db.py:83-85), extra fields copied by `{**post}`, and non-string questions are not represented. Metadata values are strings.
- `ProgressQueueLibrary.ProgressQueueRandom.NextQuestion` and `LegacyProgressQueueLibrary.ProgressQueueRandom.NextQuestion`: state only that the result is some known id. `random.choice` is uniform, and that distribution is not modelled.
- `get_progress` returns the queue's live dictionary, so a caller can change the queue through it. The model returns the map as a value and does not capture that aliasing.
- The `queue_class` argument of both progress databases is fixed to the matching `ProgressQueueRandom` class.
- The `ProgressQueue` base classes are folded into `ProgressQueueRandom`: their `get_progress` and `set_progress` are the queue's `GetProgress` and `SetProgress`. Their other methods only `raise NotImplemented`. That includes `reset`, which neither `ProgressQueueRandom` overrides and which is not modelled; calling it raises `TypeError`, because `NotImplemented` is not an exception.
- Dictionary insertion order is not modelled. `KeysList` and the lists built from keys promise each key exactly once, in some order.
- `lower()` is modelled for ASCII letters only. Other Unicode letters keep their case.
- `int()` is modelled for ASCII digits with an optional sign and surrounding whitespace. `_` digit separators and non-ASCII digits are not accepted.
- `CallbackHandler.CallbackRouting.Handle` returns the handler and its arguments. It does not model calling the handler with `update` and `context`, or `callback_query.answer()`, which the code sends before reading the id.
- Decorated names are not modelled. `register` returns `None`, so after decoration the module-level names `parser_default` and each routed handler are bound to `None`.
- The rest of `poll_channels/main.py` is not part of this model: the HTTP routes, the polling loop, the config file reading and the Telegram client.
