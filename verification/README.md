# A verified model of the in-memory store

This project models a small Redis-compatible server: an expiring keyspace with
about sixty commands, an append-only log with crash recovery, RESP2 framing,
the data structures behind lists and sorted sets, the glob matcher of `KEYS`,
per-connection transactions and subscriptions, a publish/subscribe registry and
snapshots. It proves what these parts promise each other over whole runs.

Run `dafny verify dfyconfig.toml` in this directory to check everything.

## How the model is built

Code of the source that changes state step by step is a class or a method here,
with the same branches and loops: `Databases.Database` (the shared store),
`Request.Reader` (the buffered socket or log file), `Ranges.RList`,
`SortedSet.RSortedSet`, `PubSubRegistry.PubSub`, `Sessions.Session`, the glob
matcher, the encoders and the replay loop. Each method is proved against a
function on values, and the theorems are about those functions.

* `ByteStrings`, `Resp`, `Request`: decimal text, the encoders, the decoder.
  A byte is written as the `char` with that code.
* `Ranges`, `SortedSet`, `Glob`: the algorithms. A sorted set is a map and a
  strictly sorted sequence; scores are `NegInf`, `Fin(real)` or `PosInf`.
* `Commands`: the command datatype and its parser. `CommandGrammar` says the other
  way round which requests mean which command.
* `Keyspace`: what every command means on a keyspace that has no expired keys.
* `Databases`: the store as the source keeps it, expired entries included. Every
  method is proved to act on the *live* entries as `Keyspace` says, so that
  what has expired but has not been removed cannot be observed.
* `Dispatch`: running one request and logging it; replaying a log.
* `StoreInvariant`, `Recovery`, `LogLimits`, `PassingDeadlines`, `Expiry`,
  `Snapshots`, `Counters`: whole runs. `Restarts`: a killed server and its
  successor, on the database itself.
* `Sessions`, `Transactions`, `SystemRuns`, `RegistryRuns`: connections, alone and
  together, request by request and lock by lock.
* `GlobComposition`: which patterns compose.

The definitions are related in their turn to what a client sends and gets.
The modules named `...Laws`, with `ClientView`, `CommandErrors` and `ScoreOrder`, do
not state anything through the functions they are about: requests are token lists
with literal names, replies are what the independent reader `Resp.Decode` makes of
the bytes, patterns are literal bytes, scores are compared as real numbers and
members byte by byte.

* `TextLaws`, `Utf8Laws`: numerals, letters, white space, frames, text.
* `ClientView`: a request with its keyspace before and after and its decoded reply.
  `StringLaws`, `ListLaws`, `SetLaws`, `SortedSetLaws`, `HashLaws` and `KeyLaws` say
  for every command what these are, from the entry stored at the key;
  `DeadlineLaws` says what every request leaves alone, `CommandErrors` what a request
  that is no command is answered with and which requests are logged.
* `ScoreOrder`, `GlobLaws`, `SessionLaws`: the order of sorted sets, patterns, and
  the two modes of a connection.

What a command takes from outside is an explicit value (`Keyspace.Env`): the
clock, the last instant the clock can represent, the order in which hash tables
are iterated, the counters that `INFO` prints and the outcome of writing a
snapshot file. Hash order is an arbitrary enumeration and may differ from
request to request; this is also what `SPOP` picks by.

## Main results

* **Recovery.** `Recovery.ExactRecovery`: cut the log of any run without
  deadlines at any byte; replaying what is left ends in exactly the keyspace the
  run had after as many logged writes as can be read from the cut, which are all
  its complete entries if and only if each is within the limits of the decoder.
  `LogLimits.WholeRecovery`: the whole log is replayed, and rebuilds the keyspace,
  if and only if every request that was logged was within those limits.
  `Restarts.KillAndRestart` says the same of two databases.
  `LogLimits.RecoveryIff`: a run with deadlines recovers from a crash at any byte,
  up to the instants of the deadlines, if and only if each of its requests is blind
  to what has expired (`Recovery.Blind`).
* **Expiry.** `Expiry.LazyRefinesEager`: over every interleaving of requests,
  half-finished reads, evictions and sweeps, replies and live keys are those of
  a server that drops keys at their deadlines. `Expiry.TwoPhaseReads`: so they are
  when commands that read one key do it in two phases.
* **Framing.** `Request.RequestRoundTrip` and `Request.TornRequest` for
  requests; `Resp.DecodeEncode`, `Transactions.DispatchFraming` and
  `Transactions.ExecFraming` for replies.
* **Failure atomicity.** `Dispatch.FailureAtomic` with
  `StoreInvariant.UnloggedUnchanged`.
* **Requests.** `CommandGrammar.ParseIff`: a request is parsed as a command if and
  only if its name, in any case of letters, and its arguments mean that command.
  `ClientView.Performs` with the laws of every command: what each request does to the
  keyspace, and the value its reply decodes to.
* **Deadlines.** `DeadlineLaws.RequestFrame`: no request but `SET`, `MSET`, `GETSET`,
  `EXPIRE`, `PERSIST` and `RENAME` changes a deadline or gives a new key one, and none
  but `FLUSHALL` touches a key it does not spell out. `DeadlineLaws.WritesKeepExpiry`:
  over any run of such requests a key expires when the `SET` before them said.
* **Sessions.** `SystemRuns.RunKeepsInv`, `SystemRuns.MailboxIsHistory`,
  `RegistryRuns.ListedWhenComplete`, `RegistryRuns.MailboxIsReceived`,
  `Transactions.TransactionEquivalence`, `Transactions.QueueIsWhatWasQueued`;
  `SessionLaws.OthersAreRefused` and `SessionLaws.PingIsAnswered`.
* **Algorithms.** `Glob.GlobMatch` against a declarative meaning of patterns, and
  `GlobComposition.ComposesIff`;
  `SortedSet.RunAgrees`, `SortedSet.RankIffRange` and
  `SortedSet.RangeByScoreContiguous`, `ScoreOrder.OrderAscends`; `Ranges.SliceCut`.
  `GlobLaws` determines what every pattern matches, byte by byte.
* **Conservation.** `Counters.CounterConservation`, `Snapshots.SnapshotRoundTrip`,
  `Snapshots.LifeKeepsOk`.

## Where a promise holds only under a condition

* A token list survives encoding and decoding if and only if it is within the
  two size limits of the decoder and is valid UTF-8
  (`Request.RequestRoundTrip`). Everything the decoder accepts is UTF-8
  (`Request.DecodedIsText`), and what it accepts in array form is within the
  limits (`Request.DecodedReencodes`); an inline line is bounded by neither
  (`Request.OversizedInline`).
* Recovery of a whole log fails for a server that has logged such an inline line:
  the replay refuses the entry and loses it and all after it.
  `LogLimits.OversizedRunLost` is a run of two requests that loses both;
  `LogLimits.ReadableIffWithinLimits` says that nothing else goes wrong.
* When a deadline passes, recovery may fail or not.
  `PassingDeadlines.PassingDeadlineDiverges` is a run of two requests whose replay
  keeps a value that had expired; in `PassingDeadlines.PassingDeadlineOverwritten`
  the second request overwrites the key and the replay is exact. What decides is
  whether a request and its log entry do the same although different keys have
  expired for them, request by request (`Recovery.RecoversIff`). Where nothing has
  expired, this comes down to whether both clocks can represent the deadline set
  (`Recovery.CalmIsBlind`); for a request that logs nothing, to whether anything
  has expired (`Recovery.UnloggedBlind`).
* The empty request is the exception to prefix-freeness: `*0` and `*0` with a
  carriage return are read as requests, `*` is not (`Request.EmptyRequestPrefix`).
* `LRANGE 0 k` followed by `LRANGE k+1 -1` is the whole list for every `k` but
  -1, where both ranges are the whole list (`Ranges.SliceCut`).
* Appending to a pattern appends to its tokens, whatever is appended, if and only
  if the pattern has no dangling escape and no open class
  (`GlobComposition.ClosedIffTokensAppend`). On byte strings it composes in meaning
  if and only if it is closed in that sense or beyond hope: one of its tokens
  matches no byte, or it ends in an open negated class that already excludes all
  bytes (`GlobComposition.ComposesIff`). A lone backslash is neither
  (`GlobComposition.EscapeMiscomposes`).
* A nested `MULTI` is answered with an error but, as in the code, neither queued
  nor counted against the transaction (`Transactions.QueueIsWhatWasQueued`).
* A restart from a snapshot may shorten a lifetime by less than a second, and so
  loses keys that have less than a second left; a lifetime that the new clock
  cannot represent becomes none (`Snapshots.SnapshotRoundTrip`).

## Model

| member | source | states |
|---|---|---|
| ByteStrings.PrintParse | src/database/db.rs:391-396 | printing then parsing an integer gives it back over the whole width, signed and unsigned |
| ByteStrings.DigitsPrefix | src/server/mod.rs:274-277 | a numeral that loses digits is still a positive numeral and no larger |
| Resp.EncodeArray | src/resp.rs:50-56 | the loop produces the specified array of bulk strings |
| Resp.EncodeNullableArray | src/resp.rs:61-70 | absent items keep their place as nulls in one RESP array |
| Resp.DecodeEncode | src/resp.rs:10-70 | every well-formed value is exactly one frame for an independent RESP2 reader, which returns the value and the bytes after it |
| Resp.EncodeInjective | src/resp.rs:10-70 | a stream begins with at most one well-formed value, and what follows it is determined too |
| Resp.ArrayIsEncoding | src/resp.rs:50-56 | the encoder of logs and messages writes an array of bulk strings in RESP2's sense |
| Request.Reader.ReadBulkString | src/server/mod.rs:285-308 | consumes what the declarative decoder consumes, or fails with it |
| Request.Reader.ReadMultibulk | src/server/mod.rs:265-282 | reads the announced number of bulk strings, in order, or fails |
| Request.Reader.ReadOne | src/server/mod.rs:247-261 | one request, end of stream or an error, and the exact position after it |
| Request.BulkRoundTrip | src/server/mod.rs:285-308 | a bulk string reads back, CRLF in its payload included, exactly when it is within the limit and UTF-8 |
| Request.RequestRoundTrip | src/server/mod.rs:247-308 | decoding an encoded token list returns exactly the list and the bytes after it, if and only if the list is within the limits |
| Request.DecodedReencodes | src/server/mod.rs:247-308 | whatever is accepted in array form is within the limits, so its log entry reads back |
| Request.TornBulk | src/server/mod.rs:285-308 | no proper prefix of a bulk string reads as a bulk string |
| Request.TornRequest | src/server/mod.rs:247-308 | every proper non-empty prefix of a non-empty request is refused |
| Request.EmptyRequestPrefix | src/server/mod.rs:247-282 | of the prefixes of the empty request, `*` is refused and the two longer ones read as it |
| Request.DecodedIsText | src/server/mod.rs:247-308 | every token accepted is UTF-8, inline words included, so a request reads back exactly when it is within the two limits |
| Request.OversizedInline | src/server/mod.rs:247-273 | an inline line with too many words is accepted, and its encoding is refused |
| Ranges.NoOverflow | src/database/data_structure.rs:17-45 | no intermediate value of the index arithmetic leaves i64 |
| Ranges.SliceSelects | src/database/data_structure.rs:77-88 | a range selects exactly the positions between its normalised, clamped ends |
| Ranges.SliceOfIndex | src/database/data_structure.rs:77-94 | lrange(i, i) is the element lindex(i) finds, or empty |
| Ranges.SliceCut | src/database/data_structure.rs:77-88 | cutting at k and joining gives the list back if and only if k is not -1 or the list is empty |
| Ranges.RList.LPop | src/database/data_structure.rs:67-69 | removes and returns the first element |
| Ranges.RList.RPop | src/database/data_structure.rs:71-73 | removes and returns the last element |
| Ranges.RList.LSet | src/database/data_structure.rs:98-106 | replaces one element exactly when the index is in range |
| Ranges.PushAllFront | src/database/db.rs:500-507 | repeated lpush leaves the values reversed in front |
| SortedSet.InsertSorted | src/database/data_structure.rs:263-283 | inserting an absent entry keeps the index strictly sorted and adds exactly it |
| SortedSet.RSortedSet.ZAdd | src/database/data_structure.rs:263-283 | both indexes change together and a changed score moves the entry; reports whether the member is new |
| SortedSet.RSortedSet.ZRem | src/database/data_structure.rs:286-296 | removes the member from both indexes |
| SortedSet.RunAgrees | src/database/data_structure.rs:250-296 | after any sequence of zadd and zrem the order is strictly sorted and holds exactly the pairs of the map |
| SortedSet.ScoresDetermine | src/database/data_structure.rs:250-253 | the map determines the order, whatever the history |
| SortedSet.CardIsOrderLength | src/database/data_structure.rs:317-319 | zcard is the length of the order |
| ScoreOrder.OrderAscends | src/database/data_structure.rs:232-238 | lower positions have lower real scores, minus infinity first and plus infinity last, and equal scores come in dictionary order of the bytes |
| ScoreOrder.BytesLessIff | src/database/data_structure.rs:232-238 | dictionary order: at the first difference the byte is smaller, or the first string ends there |
| ScoreOrder.FiniteRange | src/database/data_structure.rs:345-370 | a finite score is in a finite range exactly when it lies between the ends or on one that is included |
| ScoreOrder.InfiniteScores | src/database/data_structure.rs:345-370 | an infinite score is in a range exactly when the range reaches that infinity and includes it |
| ScoreOrder.InfiniteEnds | src/database/data_structure.rs:345-370 | an infinite end excludes no finite score on its own side and every one on the other |
| ScoreOrder.SumOfScores | src/database/db.rs:782-797 | finite scores add as reals, an infinity absorbs, and opposite infinities have no sum |
| SortedSet.RankIffRange | src/database/data_structure.rs:300-325 | zrank(m) is r if and only if zrange(r, r) is [m] |
| SortedSet.RangeByScoreContiguous | src/database/data_structure.rs:345-370 | zrange_by_score is one contiguous run of ranks holding exactly the members in bounds |
| Glob.MatchClass | src/database/db.rs:191-213 | a class admits a byte exactly as its parsed members say, and ends where the parse ends, unterminated classes included |
| Glob.GlobMatch | src/database/db.rs:118-186 | sound and complete: true exactly when the text can be cut into parts that the pattern's tokens denote |
| Glob.MatchStar | src/database/db.rs:121-141 | the recursion under a star tries every suffix |
| Glob.GlobAppend | src/database/db.rs:118-213 | a closed pattern followed by any other matches exactly the concatenations |
| GlobComposition.ClosedIffTokensAppend | src/database/db.rs:118-213 | appending to a pattern appends to its tokens exactly when the pattern is closed |
| GlobComposition.ComposesIffDead | src/database/db.rs:118-213 | a pattern composes with every byte pattern on every byte text exactly when it is closed or no continuation of it matches anything |
| GlobComposition.HopelessIsDead | src/database/db.rs:149-213 | a pattern with a token that matches no byte, or an open class no completion of which does, matches nothing however it is continued |
| GlobComposition.HopefulIsAlive | src/database/db.rs:149-213 | every other open pattern has a continuation that matches a text of bytes |
| GlobComposition.ComposesIff | src/database/db.rs:118-213 | a byte pattern composes with all others on all byte texts exactly when it is closed or beyond hope in that sense, which can be read off the pattern |
| GlobComposition.OpenMiscomposes | src/database/db.rs:161-213 | an open pattern that can still match has a continuation of bytes and a text of bytes at which it miscomposes |
| GlobComposition.EscapeMiscomposes | src/database/db.rs:161-175 | a lone backslash followed by a matches a, which no split explains |
| GlobLaws.EmptyMatches | src/database/db.rs:118-186 | an empty pattern matches the empty text alone |
| GlobLaws.QuestionMark | src/database/db.rs:142-148 | a question mark takes any one byte |
| GlobLaws.Star | src/database/db.rs:121-141 | a star takes any prefix: some suffix matches the rest of the pattern |
| GlobLaws.PlainByte | src/database/db.rs:176-183 | a byte without a meaning of its own takes itself |
| GlobLaws.Escape | src/database/db.rs:161-175 | a backslash makes the byte after it take itself, and takes itself at the end |
| GlobLaws.ClosedClass | src/database/db.rs:191-213 | a class spelled out of bytes, escaped bytes and ranges takes one of them, and after a caret or exclamation mark one byte that is none of them |
| GlobLaws.OpenClass | src/database/db.rs:191-213 | without its closing bracket it does so at the end of the pattern |
| GlobLaws.RangeClass | src/database/db.rs:191-213 | a range takes the bytes between its ends in either order, and after a mark all others |
| Glob.QuoteMatchesOnly | src/database/db.rs:161-175 | a string with every byte escaped matches itself and nothing else |
| Commands.ParseNamed | src/command/mod.rs:266-574 | accepted commands that create collections have at least one element to put in |
| CommandGrammar.ParseIff | src/command/mod.rs:266-574 | a request parses as a command exactly when its name in any case and its arguments mean it: positions, option words, numbers, score bounds and the order of pairs |
| CommandGrammar.ByItsName | src/command/mod.rs:269-574 | each of the 62 names requests its command |
| CommandGrammar.OnlyItsName | src/command/mod.rs:269-574 | and no other text does |
| CommandErrors.ErrorExplains | src/command/mod.rs:243-260 | the text of a parse error names the unknown command, the command whose arguments are wrong in number, or the argument that is not a number |
| CommandErrors.RefusalSays | src/command/mod.rs:243-260 | a request that is no command is answered with that text in one line, line breaks turned into spaces, and does nothing |
| CommandErrors.LoggedByName | src/command/mod.rs:579-640 | outside SPOP, a request is logged as it came exactly when its name is one of the 27 listed and the reply is no error |
| ClientView.Performs | src/command/mod.rs:651-834 | however a command is requested, it leaves the keyspace the command specifies, and its reply decodes to the value specified and nothing more |
| TextLaws.Places | src/resp.rs:32-34 | numerals are decimal: each place counts tenfold |
| TextLaws.TheDigits | src/resp.rs:32-34 | the ten digits have the values 0 to 9 |
| TextLaws.Signs | src/command/mod.rs:881-889 | minus negates, plus is allowed, unsigned numbers take no minus, and the widths are those of i64 and u64 |
| TextLaws.OnlyNumbers | src/command/mod.rs:881-889 | nothing but digits with an optional sign is a number |
| TextLaws.LetterCase | src/command/mod.rs:266-270 | upper and lower case follow the order of the alphabet |
| TextLaws.OnlyLetters | src/command/mod.rs:266-270 | nothing but the ASCII letters has case |
| TextLaws.TheSpaces | src/server/mod.rs:256-259 | white space is tab, line feed, vertical tab, form feed, carriage return and space |
| TextLaws.SplitSpaced | src/server/mod.rs:256-259 | an empty line has no words, and white space in front of one does not count |
| TextLaws.SplitWord | src/server/mod.rs:256-259 | a word ends at the next white space or at the end of the line |
| TextLaws.InlineRequest | src/server/mod.rs:247-259 | a line that does not begin with a star is read as its words, the space before the line break not counting |
| TextLaws.RequestLimits | src/server/mod.rs:265-308 | text reads back exactly up to 1048576 tokens of 536870912 bytes |
| TextLaws.LineFrames | src/resp.rs:11-47 | status, error and null replies byte for byte |
| TextLaws.BulkFrames | src/resp.rs:36-45 | a bulk string is preceded by its length in bytes in decimal |
| TextLaws.ArrayFrames | src/resp.rs:50-56 | an array is preceded by its count |
| Utf8Laws.TextIff | src/server/mod.rs:307-307 | the byte strings taken for text are exactly the UTF-8 encodings of lists of Unicode scalar values |
| StringLaws.SetLaw | src/database/db.rs:341-351 | SET replaces value and deadline, at now plus the seconds if the clock can represent it |
| StringLaws.GetLaw | src/database/db.rs:353-362 | GET decodes as the text stored, nil for no key, an error for another type |
| StringLaws.StrLenLaw | src/database/db.rs:423-431 | STRLEN decodes as the length, 0 for no key |
| StringLaws.AppendLaw | src/database/db.rs:405-421 | APPEND adds at the end, keeps the deadline and answers the new length |
| StringLaws.SetNxLaw | src/database/db.rs:462-475 | SETNX sets an absent key and answers 1, or 0 and does nothing |
| StringLaws.GetSetLaw | src/database/db.rs:479-496 | GETSET answers the old text, or nil, and leaves the new one without a deadline |
| StringLaws.MGetLaw | src/database/db.rs:433-444 | MGET answers in order the text at each key, nil for anything but a string |
| StringLaws.MSetLaw | src/database/db.rs:447-458 | after MSET each key has the last value given for it and no deadline, and no other key has changed |
| StringLaws.IncrByLaw | src/database/db.rs:381-401 | a counter command answers and stores the sum, under the deadline the key had, or refuses |
| ListLaws.LPushLaw | src/database/db.rs:500-507 | LPUSH leaves the values in front, the last first, and answers the length |
| ListLaws.RPushLaw | src/database/db.rs:509-516 | RPUSH leaves the values behind, in order |
| ListLaws.LPopLaw | src/database/db.rs:518-545 | LPOP answers and removes the first element, the key with the last one |
| ListLaws.RPopLaw | src/database/db.rs:522-545 | RPOP answers and removes the last element |
| ListLaws.LLenLaw | src/database/db.rs:560-566 | LLEN answers the length, 0 for no key |
| ListLaws.LIndexLaw | src/database/db.rs:568-577 | LINDEX counts from zero at the front and from minus one at the back, nil outside |
| ListLaws.LSetLaw | src/database/db.rs:579-594 | LSET replaces that element, or says that there is no key or no such index |
| ListLaws.LRangeLaw | src/database/db.rs:547-558 | LRANGE lists the elements between the ends, in order |
| ListLaws.PushedIsAtItsEnd | src/command/mod.rs:293-300 | after LPUSH the last value pushed is at 0, after RPUSH at -1 |
| SetLaws.SAddLaw | src/database/db.rs:598-608 | SADD leaves the union and answers how many were new |
| SetLaws.SRemLaw | src/database/db.rs:610-626 | SREM leaves the difference and answers how many there were |
| SetLaws.SMembersLaw | src/database/db.rs:628-634 | SMEMBERS lists every element once |
| SetLaws.SIsMemberLaw | src/database/db.rs:636-642 | SISMEMBER answers 1 for an element and 0 otherwise |
| SetLaws.SCardLaw | src/database/db.rs:644-650 | SCARD answers the number of elements |
| SetLaws.SPopLaw | src/database/db.rs:654-667 | SPOP answers some element and removes that one |
| SetLaws.SInterLaw | src/database/db.rs:670-682 | SINTER lists the elements of all sets, or refuses another type |
| SetLaws.SUnionLaw | src/database/db.rs:685-692 | SUNION lists the elements of any |
| SetLaws.SDiffLaw | src/database/db.rs:695-708 | SDIFF lists the elements of the first in none of the others |
| SortedSetLaws.ZAddLaw | src/database/db.rs:712-726 | ZADD gives each member the last score named for it, keeps the two indexes agreeing and answers how many are new |
| SortedSetLaws.ZRemLaw | src/database/db.rs:728-741 | ZREM removes the member from both indexes, and the key with the last one |
| SortedSetLaws.ZScoreLaw | src/database/db.rs:756-762 | ZSCORE answers the printed score, nil for no member |
| SortedSetLaws.ZCardLaw | src/database/db.rs:764-770 | ZCARD answers the number of members |
| SortedSetLaws.ZRankLaw | src/database/db.rs:772-778 | ZRANK answers the position in the order, nil for no member |
| SortedSetLaws.ZRangeLaw | src/database/db.rs:743-754 | ZRANGE lists the members between the ends of the range, in order |
| SortedSetLaws.ZRangeScoresLaw | src/database/db.rs:799-810 | with WITHSCORES each is followed by its printed score |
| SortedSetLaws.ZRangeByScoreLaw | src/database/db.rs:812-829 | ZRANGEBYSCORE lists one stretch of the order, the members in the range of scores |
| SortedSetLaws.ZIncrByLaw | src/database/db.rs:782-797 | ZINCRBY stores and answers the sum, or refuses one that is no number |
| HashLaws.HSetLaw | src/database/db.rs:831-839 | HSET sets the field and answers whether it is new |
| HashLaws.HGetLaw | src/database/db.rs:841-847 | HGET answers the value, nil for no field |
| HashLaws.HDelLaw | src/database/db.rs:849-862 | HDEL removes the field, and the key with the last one |
| HashLaws.HLenLaw | src/database/db.rs:897-903 | HLEN answers the number of fields |
| HashLaws.HExistsLaw | src/database/db.rs:905-911 | HEXISTS answers 1 for a field and 0 otherwise |
| HashLaws.HIncrByLaw | src/database/db.rs:915-927 | HINCRBY stores and answers the sum, or refuses |
| HashLaws.HGetAllLaw | src/database/db.rs:866-879 | HGETALL lists each field once, followed by its value |
| HashLaws.HKeysLaw | src/database/db.rs:881-887 | HKEYS lists each field once |
| HashLaws.HValsLaw | src/database/db.rs:889-895 | HVALS lists the value of each field once |
| KeyLaws.DelLaw | src/database/db.rs:364-376 | DEL removes the keys named and counts those that were there |
| KeyLaws.ExistsLaw | src/database/db.rs:933-938 | EXISTS counts the positions that name a key |
| KeyLaws.TypeLaw | src/database/db.rs:942-951 | TYPE answers the name of the type, or none |
| KeyLaws.KeysLaw | src/database/db.rs:954-962 | KEYS lists once each key the pattern matches |
| KeyLaws.ExpireLaw | src/database/db.rs:966-977 | EXPIRE replaces the deadline, or removes the key if the time is not positive |
| KeyLaws.TtlLaw | src/database/db.rs:981-990 | TTL answers the whole seconds left, -1 without a deadline, -2 without a key |
| KeyLaws.PersistLaw | src/database/db.rs:993-1002 | PERSIST clears a deadline and answers whether there was one |
| KeyLaws.RenameLaw | src/database/db.rs:1006-1018 | RENAME moves value and deadline, or says that there is no key |
| KeyLaws.KeyspaceLaw | src/database/db.rs:1021-1030 | DBSIZE answers the number of keys, FLUSHALL leaves none |
| KeyLaws.EchoLaw | src/command/mod.rs:719-723 | PING answers PONG or its message, ECHO its text |
| KeyLaws.SaveLaw | src/command/mod.rs:730-742 | SAVE answers OK or the cause of the failure in one line, BGSAVE does not wait |
| KeyLaws.InfoLaw | src/database/db.rs:1055-1070 | INFO reports the uptime, the clients and the number of keys in decimal |
| KeyLaws.PublishLaw | src/command/mod.rs:743-745 | PUBLISH answers how many ids the channel lists |
| DeadlineLaws.CommandFrame | src/database/db.rs:215-236 | only six commands replace a deadline, new keys have none otherwise, and no command touches a key it does not name |
| DeadlineLaws.RequestFrame | src/database/db.rs:215-236 | the same of any request by its literal name: six names, and the keys it spells out |
| DeadlineLaws.DeadlineKept | src/database/db.rs:219-236 | over any run of other requests a key that stays present keeps its deadline |
| DeadlineLaws.WritesKeepExpiry | src/database/db.rs:341-351 | after SET with EX, however the key is written in place, its deadline is the one the SET gave |
| DeadlineLaws.GoneAtDeadline | src/database/db.rs:83-96 | a GET answers the value before that instant and nil from then on |
| Keyspace.CommandsSound | src/command/mod.rs:651-834 | for every command: an error reply means an unchanged keyspace, a command that is not a write (SPOP aside) changes nothing, and the reply is a well-formed RESP value |
| Databases.Database.ReadShared | src/database/db.rs:324-331 | the first phase answers as an atomic read would and tells whether there is an expired entry to evict |
| Databases.Database.EvictExpired | src/database/db.rs:332-336 | the second phase checks again, and no live view changes from then on |
| Databases.Database.ReadEntry | src/database/db.rs:319-337 | answers from the live entry or the default, and leaves the live keyspace as it was |
| Databases.Database.LiveEntry | src/database/db.rs:102-108 | finds the entry exactly when it is live, evicting it otherwise |
| Databases.Database.EntryOrCreate | src/database/db.rs:215-236 | get-or-create never revives an expired entry |
| Databases.Database.Set | src/database/db.rs:341-351 | the new value and deadline replace whatever was there |
| Databases.Database.IncrBy | src/database/db.rs:381-401 | counts in the live keyspace; on a failure no key appears, although the entry is created first |
| Databases.Database.Append | src/database/db.rs:405-421 | appends in place, keeping the deadline |
| Databases.Database.MGet | src/database/db.rs:433-444 | one answer per key, in order, absent for anything but a live string |
| Databases.Database.MSet | src/database/db.rs:447-458 | pairs apply in order |
| Databases.Database.SetNx | src/database/db.rs:462-475 | an expired key counts as absent |
| Databases.Database.GetSet | src/database/db.rs:479-496 | returns the old live string, clears the deadline, refuses other types |
| Databases.Database.Del | src/database/db.rs:364-376 | removes the keys; counts each live key once however often it is named |
| Databases.Database.CountExisting | src/database/db.rs:933-938 | counts positions, so repeated keys count repeatedly |
| Databases.Database.Push | src/database/db.rs:500-516 | pushes in order at either end |
| Databases.Database.Pop | src/database/db.rs:528-545 | takes one element and drops the key with the last |
| Databases.Database.LSet | src/database/db.rs:579-594 | replaces an element or reports which error applies |
| Databases.Database.SAdd | src/database/db.rs:598-608 | the union with the values, counting new members once |
| Databases.Database.SRem | src/database/db.rs:610-626 | the difference, dropping an emptied key |
| Databases.Database.SPop | src/database/db.rs:654-667 | removes the member it returns, dropping an emptied key |
| Databases.Database.SInter | src/database/db.rs:670-682 | the members common to all sets, missing keys being empty; any other type is an error |
| Databases.Database.SUnion | src/database/db.rs:685-692 | the members of any of the sets |
| Databases.Database.SDiff | src/database/db.rs:695-708 | the members of the first set in none of the others |
| Databases.Database.ZAdd | src/database/db.rs:712-726 | adds all pairs in order to the live sorted set |
| Databases.Database.ZRem | src/database/db.rs:728-741 | removes a member, dropping an emptied key |
| Databases.Database.ZIncrBy | src/database/db.rs:782-797 | adds to a score; infinity minus infinity is refused and changes nothing |
| Databases.Database.HSet | src/database/db.rs:831-839 | sets a field of the live hash, creating the hash if no live one is there |
| Databases.Database.HDel | src/database/db.rs:849-862 | removes a field, dropping an emptied key |
| Databases.Database.HIncrBy | src/database/db.rs:915-927 | adds to a field; a failure leaves no empty hash behind |
| Databases.Database.MatchingKeys | src/database/db.rs:954-962 | exactly the live keys the pattern matches |
| Databases.Database.Expire | src/database/db.rs:966-977 | a non-positive lifetime deletes, others set the deadline |
| Databases.Database.Persist | src/database/db.rs:993-1002 | clears a deadline and says whether there was one |
| Databases.Database.Rename | src/database/db.rs:1006-1018 | moves the live entry with its deadline, or fails |
| Databases.Database.SweepExpired | src/database/db.rs:1036-1041 | removes exactly the expired entries and counts them |
| Databases.Database.LogWrite | src/database/db.rs:1224-1233 | appends one encoded entry when logging is on and no replay is running |
| Databases.LiveLater | src/database/db.rs:83-85 | keyspaces that look the same now look the same at any later time |
| Dispatch.FailureAtomic | src/command/mod.rs:612-640 | a request answered with an error has changed neither keyspace nor registry and is not logged |
| Dispatch.Execute | src/command/mod.rs:651-791 | live keyspace, registry and reply are those the command specifies |
| Dispatch.RunCommand | src/command/mod.rs:612-640 | logs a successful write as it came and a successful SPOP as the SREM of the popped member |
| Dispatch.Run | src/command/mod.rs:612-640 | the same from raw tokens, parse errors included; on an error reply the live keyspace, the registry and the log of the database are what they were |
| Dispatch.ReplayAof | src/server/mod.rs:102-131 | replays the readable part of a log without logging again, stops at the first torn entry and returns how many were applied |
| StoreInvariant.UnloggedUnchanged | src/command/mod.rs:579-640 | a request that adds no log entry has changed nothing |
| StoreInvariant.CommandsKeepOk | src/database/db.rs:219-240 | no command leaves an empty collection or a sorted set with disagreeing indexes |
| StoreInvariant.ReachableOk | src/database/db.rs:528-741 | no keyspace reachable by requests holds an empty collection, and members of sets are tokens that were sent |
| Recovery.TornLogReplay | src/server/mod.rs:102-131 | replaying any byte prefix of a log applies exactly its complete entries up to the first beyond the limits, in order, and counts them |
| Recovery.WholeLogReplay | src/server/mod.rs:102-131 | a whole log is replayed to its end if and only if every entry is within the limits |
| Recovery.LogDecodesUniquely | src/database/aof.rs:67-75 | a log can be cut into entries in only one way |
| Recovery.WritesSame | src/command/mod.rs:579-607 | a logged command has the same effect whatever the hash order and clock, if and only if the two clocks agree on whether they can represent the deadline it sets |
| Recovery.PopIsRemove | src/command/mod.rs:619-629 | SREM of the popped member has the effect of the SPOP |
| Recovery.RequestAgainstEntry | src/command/mod.rs:612-640 | any request either changes nothing or logs one entry, which reproduces its effect under any other clock if and only if the two agree on the deadline it sets |
| Recovery.StaysFaithful | src/command/mod.rs:612-640 | after one more request the log still rebuilds the values of the run if and only if the request is blind to what has expired |
| Recovery.RecoversIff | src/server/mod.rs:102-131 | a log rebuilds the values of the run after every request, whatever the deadlines, clocks and hash orders, if and only if every request is blind |
| Recovery.CalmIsBlind | src/command/mod.rs:612-640 | where nothing has expired, a request that logs is blind if and only if both clocks or neither can represent the deadline it sets |
| Recovery.UnloggedBlind | src/command/mod.rs:612-640 | a request that logs nothing is blind if and only if nothing has expired |
| Recovery.ReplayRebuilds | src/server/mod.rs:102-131 | the log of a run in which no deadline passes rebuilds its values |
| Recovery.CrashRecovery | src/server/mod.rs:102-131 | for every run and byte prefix of its log, replay applies exactly the entries that can be read and rebuilds the values the run had after as many logged writes, at every point before which all requests were blind |
| Recovery.PointOfEntry | src/command/mod.rs:631-636 | the run did pass through every number of logged writes |
| Recovery.ExactRecovery | src/server/mod.rs:102-131 | without deadlines, for any requests and every byte prefix, the rebuilt keyspace is exactly that of the run after the entries that can be read, which are all complete ones if and only if these are within the limits |
| PassingDeadlines.PassingDeadlineDiverges | src/server/mod.rs:102-131 | a run in which a deadline passes whose second request is not blind and whose replay ends in another keyspace |
| PassingDeadlines.PassingDeadlineOverwritten | src/server/mod.rs:102-131 | a run in which a deadline passes whose second request is blind and whose replay is exact |
| LogLimits.EntryWithinLimits | src/command/mod.rs:612-640 | the entry of a request is within the limits exactly when the request is, the rewritten SPOP included |
| LogLimits.ReadableIffWithinLimits | src/server/mod.rs:102-131 | the log of a run is readable if and only if every logged request was within the limits |
| LogLimits.WholeRecovery | src/server/mod.rs:102-131 | the replay of a whole log applies every write, and rebuilds exactly the keyspace, if every logged request was within the limits, and applies fewer otherwise |
| LogLimits.RecoveryIff | src/server/mod.rs:102-131 | a run whose logged requests are within the limits recovers from a crash at every byte of its log if and only if every request is blind |
| LogLimits.OversizedRunLost | src/server/mod.rs:102-131 | an accepted inline DEL with too many keys, and the SET after it, are both lost at replay |
| Restarts.ServeAll | src/command/mod.rs:612-640 | serving requests on a new database writes the log and leaves the live keyspace of the run |
| Restarts.KillAndRestart | src/server/mod.rs:64-131 | a database killed after any byte of its log, and one that replays what is left: the new one shows exactly what the old one had after as many logged writes as can be read |
| Expiry.EvictionInvisible | src/database/db.rs:332-336 | the second phase of a read removes nothing a client can observe, whatever happened in between |
| Expiry.ServeRequest | src/command/mod.rs:612-640 | dispatching a request on the database is a step of the interleaving machine |
| Expiry.BeginReadEntry | src/database/db.rs:324-331 | so is the first phase of a read |
| Expiry.FinishReadEntry | src/database/db.rs:332-336 | so is its second phase, however much later |
| Expiry.RunSweep | src/database/db.rs:1036-1041 | so is a sweep |
| Expiry.StepSimulates | src/database/db.rs:319-337 | each step gives the reply an atomic read on eager state gives |
| Expiry.LazyRefinesEager | src/database/db.rs:1033-1041 | every interleaved run has the replies and the live keyspace of a server that drops keys at their deadlines |
| Expiry.MaintenanceUnobservable | src/database/db.rs:1033-1041 | runs that differ only in sweeps and evictions give the same replies |
| Expiry.ReadersAnswer | src/command/mod.rs:651-791 | each command that reads one key answers what the reader it passes to `read_entry` reads from the live keyspace, and changes nothing |
| Expiry.TwoPhaseReads | src/database/db.rs:319-337 | whichever commands are read in two phases, and whatever happens between the phases, all are answered as if they had run at once on eager state |
| Snapshots.Rebuild | src/database/db.rs:1135-1168 | the loops rebuild the value that the entry describes |
| Snapshots.LoadSnapshot | src/database/db.rs:1131-1172 | replaces the whole keyspace with the restored entries |
| Snapshots.ZSetRoundTrip | src/database/db.rs:1106-1160 | both indexes of a sorted set are rebuilt from its printed entries |
| Snapshots.ValueRoundTrip | src/database/db.rs:1103-1168 | every value survives, under any hash order |
| Snapshots.SnapshotRoundTrip | src/database/db.rs:1097-1172 | exactly the live keys return, with equal values; each lifetime shrinks by less than a second and never grows, or is dropped where the new clock cannot represent it; exactly those with less than a second left are lost |
| Snapshots.ReloadKeepsOk | src/database/db.rs:1131-1172 | a reload leaves no empty collection and no disagreeing indexes, even if scores do not read back |
| Snapshots.LifeKeepsOk | src/database/db.rs:1131-1172 | so does any life of a server made of requests and restarts |
| Counters.CounterParse | src/command/mod.rs:458-479 | INCR, DECR, INCRBY and DECRBY become exactly the addition their text asks for; an amount to subtract needs a negation in range |
| Counters.IncrByExact | src/database/db.rs:381-401 | an addition succeeds exactly when the total fits the integer type |
| Counters.CounterConservation | src/database/db.rs:381-401 | after any run of counter requests, failures and reads, the stored text is that of the sum of the amounts that succeeded, and parses to it |
| Counters.CounterAnswer | src/command/mod.rs:458-479 | the next counter request is answered with the new total, or with an overflow error exactly when that total does not fit |
| PubSubRegistry.PubSub.NextId | src/database/pubsub.rs:28-30 | ids are handed out in sequence |
| PubSubRegistry.PubSub.Subscribe | src/database/pubsub.rs:33-40 | adds one listing |
| PubSubRegistry.PubSub.Unsubscribe | src/database/pubsub.rs:44-52 | removes one listing and the channel with its last |
| PubSubRegistry.MessageDecodes | src/database/pubsub.rs:62-66 | a message decodes as the array of the word message, the channel and the payload |
| PubSubRegistry.PubSub.Publish | src/database/pubsub.rs:57-71 | one message more in the mailbox of every subscriber and no other; counts the subscribers |
| Sessions.Session.constructor | src/session.rs:42-53 | a session starts outside both modes with a new id |
| Sessions.Session.HandleRequest | src/session.rs:67-118 | reply, session, registry and log are those of the session protocol, and the live keyspace agrees with it from then on |
| Sessions.Session.BeginMulti | src/session.rs:129-138 | opens an empty transaction unless one is open |
| Sessions.Session.Discard | src/session.rs:140-145 | closes the transaction |
| Sessions.Session.Enqueue | src/session.rs:82-109 | queues what parses, marks the transaction for anything refused |
| Sessions.Session.Exec | src/session.rs:147-161 | runs the queue in order and frames the replies as one array |
| Sessions.Session.Subscribe | src/session.rs:165-182 | one confirmation per name; names already held are not registered again |
| Sessions.Session.Unsubscribe | src/session.rs:184-205 | drops the named channels, or all of them, with one confirmation each |
| Sessions.Session.Cleanup | src/session.rs:121-125 | removes every listing the session has |
| SessionLaws.OthersAreRefused | src/session.rs:71-80 | in subscribe mode any request but PING, SUBSCRIBE and UNSUBSCRIBE is answered with an error and changes neither session, keyspace, registry nor log |
| SessionLaws.PingIsAnswered | src/session.rs:71-117 | PING is answered there with PONG or its message, and changes nothing |
| SessionLaws.SubscribeNeedsNames | src/session.rs:165-169 | SUBSCRIBE without a name is refused and does nothing |
| SessionLaws.SubscribeActs | src/session.rs:165-182 | SUBSCRIBE, in that mode or outside it, adds the names to the session and the registry, and its reply decodes as one confirmation for each name in order, with the count after it |
| SessionLaws.UnsubscribeActs | src/session.rs:184-205 | UNSUBSCRIBE drops the names, or all channels, with the confirmations decoded likewise; with nothing to drop it answers nil and 0 |
| SessionLaws.MultiOpens | src/session.rs:129-138 | MULTI answers OK and opens an empty transaction, or refuses to nest |
| SessionLaws.TransactionEnds | src/session.rs:140-161 | EXEC and DISCARD without a transaction are refused; DISCARD, and EXEC on a spoiled one, end it and do nothing else |
| SessionLaws.OthersAreQueued | src/session.rs:89-109 | in a transaction any other request answers QUEUED and is queued if it parses, and otherwise spoils the transaction with the error that explains it |
| Transactions.DispatchFraming | src/command/mod.rs:612-640 | every reply is exactly one RESP value whatever bytes the clients supplied |
| Transactions.ExecFraming | src/session.rs:147-161 | a clean EXEC decodes as one array with one element per queued command and nothing left over |
| Transactions.ParsedIsNotControl | src/session.rs:67-118 | the command layer accepts none of the session's own commands |
| Transactions.QueueIsWhatWasQueued | src/session.rs:82-109 | the queue is exactly the requests answered +QUEUED since MULTI, in order; nothing else happened; the transaction is dirty exactly when a request was refused |
| Transactions.AbortChangesNothing | src/session.rs:140-161 | a dirty EXEC and a DISCARD change neither keyspace, registry nor log |
| Transactions.TransactionEquivalence | src/session.rs:82-161 | MULTI, commands, EXEC leave what the commands one by one would leave, and reply with the very replies those would have had |
| SystemRuns.AnswerKeepsOk | src/session.rs:67-118 | one request keeps its own session consistent and touches no other's listings |
| SystemRuns.CleanupRemoves | src/session.rs:121-125 | after cleanup the id is listed nowhere |
| SystemRuns.RunKeepsInv | src/session.rs:60-205 | in every run: no session is in a transaction and subscribed, a session is registered on exactly the channels it lists, nothing else is registered, no channel entry is empty, and queued commands parse |
| SystemRuns.SubscribersAreSessions | src/database/pubsub.rs:33-52 | the subscribers of a channel are the open sessions that list it |
| SystemRuns.MailboxIsHistory | src/database/pubsub.rs:57-71 | each item of a mailbox decodes as the word message, a channel and a payload, and these are exactly the ones published on channels its session listed at that time, in order and once each |
| SystemRuns.NoEcho | src/session.rs:67-81 | no session receives what it publishes itself |
| SystemRuns.PublishCounts | src/database/pubsub.rs:57-71 | PUBLISH answers with the number of sessions that list the channel |
| RegistryRuns.ListedIffJoined | src/database/pubsub.rs:33-52 | under any interleaving of single registry operations, an id is listed exactly when the last thing it did about the channel was to join |
| RegistryRuns.NoChannelEmpty | src/database/pubsub.rs:44-52 | nor is any channel entry ever empty |
| RegistryRuns.MailboxIsReceived | src/database/pubsub.rs:57-71 | each item of a mailbox decodes as the word message, a channel and a payload, and these are exactly the ones sent while its owner was registered, in order and once each |
| RegistryRuns.SubscribeIsOps | src/session.rs:165-182 | SUBSCRIBE is one registry operation for each name not held yet |
| RegistryRuns.UnsubscribeIsOps | src/session.rs:184-205 | UNSUBSCRIBE is one registry operation for each name held |
| RegistryRuns.ListedWhenComplete | src/session.rs:165-205 | however other sessions' operations fall within the requests of one, after them it is registered on exactly the channels it lists |
| RegistryRuns.UnsubscribedHearsNothing | src/session.rs:147-161 | a session that lists no channel, as in a transaction, hears nothing of what is sent meanwhile, by itself or others |

## Left out

- Sockets, tasks, signals, configuration and tracing, and where the counters of `INFO` come from, which are parameters: plumbing without state of its own.
- Files: renames, temporary names, JSON, `fsync` policies. The log is a byte string, a snapshot a value, and the outcome of `SAVE` a parameter.
- Parsing and printing of floating-point numbers are a parameter (`Commands.FloatText`), and scores are exact reals with infinities: no rounding, no overflow to infinity, no negative zero.
- Databases.Database.ReadEntry: takes both of its phases at once; the phases are methods of their own, and that anything may fall between them is proved in `Expiry`.
- Databases.Database.ZIncrBy: adds exact reals, as said above of all scores.
- Databases.Database.LogWrite: always succeeds, where the source warns about an append that fails and goes on.
- Dispatch.Run: reads the clock once per request, where the source reads it again in each check of a deadline within the same locked section.
- The order of log entries under concurrent writers: the source releases the store before it appends, so the recovery theorems are about runs in which an entry is appended before the next write.
- Recovery.CrashRecovery: says nothing of logs to which a restarted server has appended after a torn tail, which the source does not cut off; with deadlines it compares values and which keys have deadlines, not their instants, which replay counts from the restart.
- Transactions.TransactionEquivalence: other connections may run between the commands of an EXEC; the source documents that it does not isolate them.
- SystemRuns.RunKeepsInv: a request is one step, where the source lets other connections in between the commands of an EXEC and the single channel updates of one request; `RegistryRuns` is about the registry with those in between.
- SystemRuns.MailboxIsHistory: at the same granularity; `RegistryRuns.MailboxIsReceived` is the statement for single registry operations.
- Collections are held in the store by value: the source owns them through the map, so there is no aliasing to capture. `VecDeque`, `HashMap` and `BTreeSet` are sequences, maps and sorted sequences; lengths are not bounded by memory.
- PubSubRegistry.PubSub.Publish: sending to a mailbox always succeeds, where the source counts only the sends that do; it drops a session's listings before its receiver.
- Whitespace beyond ASCII in header lines and inline requests is not trimmed or split on.
- The wrappers `RSet` and `RHash` are plain sets and maps here, and methods that only pass a reader to `read_entry` have none of their own: the laws of their commands say what they answer.
