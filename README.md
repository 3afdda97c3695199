# Prologin SADM, modelled in Dafny

This project models the core of Prologin's system administration suite (SADM), the software that runs the contest network of the Prologin finals. It covers:

- **Machine and user databases (MDB and UDB):** the Django models that allocate IPv4 addresses and Unix uids from pools, and the uid and login validators.
- **DNS:** the zone generator that turns MDB machines into forward and reverse zones.
- **Ansible:** the `mdb` module that registers a machine or checks its record.
- **User import:** the batch import command that makes logins and passwords for contestants.
- **Synchronisation:** the publish/subscribe queue that keeps backlogs, plus the client fold that replays updates into a local state.
- **presencesync:** the heartbeat queue that times out logged-in users.
- **passwd:** the client that rebuilds `/etc/passwd`, `/etc/shadow` and `/etc/group` from the UDB.
- **Contest site (stechec):** the champion and match models, the language table, the paginator, and the round-robin launch and evaluation commands.
- **Master node:** tasks, worker records, dispatching and the resubmission of timed-out tasks.
- **Worker node:** the slot accounting, the command-line assembly of compilation and match operations, and the reading of a process's output.
- **Matchmaker:** it turns each new champion into the matches it owes.
- **Minecraft RCON client:** packet encoding and decoding, framing, and request ids.
- **Memoising cache:** entries that expire after a number of seconds.

The model takes each file's own form:
- Stateful objects (queues, the master, the worker, the matchmaker, the RCON channel and client, the pools) are classes. Their methods state their whole new state.
- Loops in the source are methods with loop invariants. Each is proved equal to a specification function.
- Pure code (parsing, encoding, zone and file generation, validation) is functions.
- Lemmas state what the source promises: round trips, ordering, "nothing else changes", the error cases, and the agreement between each method and its specification.

Clocks, random choices, cryptographic hashes, password generation and external commands are parameters. Where a finding shows the code doing something its authors evidently did not mean, both the code as written and the corrected behaviour are modelled, and the rest of the model uses the corrected one.

## Model

| member | source | states |
|---|---|---|
| Rcon.PackInt32 | minecraft/server/rconite.py:76 | `struct.pack('<i')` gives four bytes, least significant first, of the two's-complement pattern |
| Rcon.UnpackInt32 | minecraft/server/rconite.py:111 | `struct.unpack('<i')` of four bytes is a signed 32-bit value |
| Rcon.UnpackPack | minecraft/server/rconite.py:76-111 | unpacking a packed signed 32-bit integer gives it back |
| Rcon.PackUnpack | minecraft/server/rconite.py:76-111 | packing an unpacked 4-byte string gives it back |
| Rcon.Partition | minecraft/server/rconite.py:112-115 | `partition(b'\x00')` fails exactly when there is no zero byte; otherwise the head holds no zero byte and head, zero, tail rebuild the input |
| Rcon.PartitionOf | minecraft/server/rconite.py:112-115 | partitioning `h + [0] + t` with no zero in `h` splits at that zero |
| Rcon.Encode | minecraft/server/rconite.py:53-76 | a string with a zero byte is a ValueError; otherwise the two integers then s1 and s2, each with its terminator |
| Rcon.Decode | minecraft/server/rconite.py:78-122 | an accepted message is the two integers then s1 and s2, each ended by its only zero byte |
| Rcon.DecodeEncode | minecraft/server/rconite.py:104-107 | decoding an encoded message gives the message back |
| Rcon.DecodedParts | minecraft/server/rconite.py:104-107 | an accepted message is the packed integers it decodes to, then its two strings, each ended by a zero byte |
| Rcon.EncodeDecode | minecraft/server/rconite.py:68-71 | encoding what a message decodes to gives back the message |
| Rcon.DecodeOutcome | minecraft/server/rconite.py:110-122 | too short or fewer than two zero bytes is an incomplete message; bytes after the second zero are trailing garbage |
| Rcon.Socket.Send | minecraft/server/rconite.py:156 | the socket takes a non-empty prefix of the buffer and says how long it is |
| Rcon.Socket.Recv | minecraft/server/rconite.py:169 | the socket gives at most the bytes asked for, empty only at the end of the stream |
| Rcon.FrameHeader | minecraft/server/rconite.py:150-163 | the length read from a frame header is the frame's length |
| Rcon.RconChannel.WriteFrame | minecraft/server/rconite.py:145-151 | the wire gains the 4-byte little-endian length then the frame; a length that does not fit 32 bits is a struct error |
| Rcon.RconChannel.WriteFully | minecraft/server/rconite.py:153-156 | the wire gains the whole buffer, whatever prefixes the socket accepts at a time |
| Rcon.RconChannel.ReadFully | minecraft/server/rconite.py:166-173 | exactly `length` bytes, the next ones of the stream, or EOFError when the stream ends first; nothing when length is not positive |
| Rcon.RconChannel.ReadFrame | minecraft/server/rconite.py:158-164 | reads the 4-byte length then that many bytes of the stream, EOFError when the stream ends first |
| Rcon.FrameRoundTrip | minecraft/server/rconite.py:145-164 | a frame written by write_frame is read back whole by read_frame |
| Rcon.CheckResponseId | minecraft/server/rconite.py:241-247 | id -1 is an authentication error, any other id but the request's is an unexpected message |
| Rcon.RconClient.GenerateRequestId | minecraft/server/rconite.py:249-251 | the id is one more than the previous one and becomes the last one |
| Rcon.RconClient.Converse | minecraft/server/rconite.py:233-239 | uses the next id; an encoding error leaves the socket alone; otherwise the wire gains exactly the frame of the encoded request, and the result is EOFError when no whole frame follows, the decoding error, the id check's error, or the reply's s1 when the id matches |
| Rcon.FreshClientIds | minecraft/server/rconite.py:204-251 | successive ids of a fresh client are 1, 2, 3 and so on, and a server echoing any of them passes the id check |
| TimeAuth.Trunc | prologin/timeauth.py:33 | `int(time.time())` truncates toward zero: the result is within one of the clock, on the zero side |
| TimeAuth.GenerateToken | prologin/timeauth.py:31-37 | the token splits at its colon into the truncated timestamp and the HMAC of the message followed by that timestamp |
| TimeAuth.CheckToken | prologin/timeauth.py:40-67 | accepted when timeauth is disabled; otherwise refused for no token, for not exactly two colon-separated chunks, for a non-integer timestamp and for one more than TOKEN_TIMEOUT seconds old; an accepted token carries the HMAC of the message and its timestamp |
| TimeAuth.GeneratedTokenAccepted | prologin/timeauth.py:28-67 | a generated token is accepted, same secret and message, exactly while at most TOKEN_TIMEOUT seconds separate the check from the truncated issue time |
| TimeAuth.GeneratedTokenWindow | prologin/timeauth.py:28-62 | a token checked within 119 seconds of its generation is accepted; one checked more than 120 seconds later is refused |
| Tools.Pipe.Read | python-lib/prologin/workernode/tools.py:47 | a read of `n` bytes gives the next at most `n` bytes of the output, empty only at its end or for `n` = 0 |
| Tools.CommunicateProcess | python-lib/prologin/workernode/tools.py:31-56 | reads until the end of the output or until `max_len` bytes are held, never more; the result is that prefix, followed by the truncation message when the limit was reached |
| Tools.CommunicateAsWritten | python-lib/prologin/workernode/tools.py:64-70 | `communicate` as written gives the capture with an empty truncation message, whatever message it was given |
| Tools.Communicate | python-lib/prologin/workernode/tools.py:64-70 | `communicate` passing its truncation message on gives the capture with that message |
| Tools.TruncateMessageDropped | python-lib/prologin/workernode/tools.py:52-70 | a 10-byte limit on a longer output with the message "log truncated": 10 bytes as written, 23 bytes with the message passed on |
| Paginator.PagesInSpec | python-lib/prologin/concours/stechec/templatetags/paginator.py:19-25 | the filtered range holds exactly the pages of `[lo, hi)` between 1 and the page count, ascending, at most `hi - lo` of them |
| Paginator.PageNumbersSpec | python-lib/prologin/concours/stechec/templatetags/paginator.py:19-25 | the page numbers are exactly the pages within `adjacent` of the current one, ascending, at most `2 * adjacent + 1`, the current page among them when it exists |
| Paginator.PaginateLinks | python-lib/prologin/concours/stechec/templatetags/paginator.py:26-33 | the first page gets a link of its own exactly when it is out of reach of the current one or there is no page, and likewise the last |
| Cache.Call | python-lib/prologin/cache.py:35-44 | the function is called exactly when there is no entry or it is older than `seconds`; otherwise the stored value comes back and the cache is unchanged; a value computed is stored with the later clock reading; a raising call leaves no entry |
| Cache.CallKeepsOthers | python-lib/prologin/cache.py:33-43 | a call changes no entry under other arguments |
| Cache.ValueLastsSeconds | python-lib/prologin/cache.py:38-43 | after a value is computed at `t`, the next call with the same arguments returns it without calling the function exactly when made at most `seconds` after `t` |
| Cache.StaleDropped | python-lib/prologin/cache.py:38-42 | a stale entry calls the function again, and if it raises, the entry is gone |
| Cache.Cached.Get | python-lib/prologin/cache.py:35-44 | the wrapper's new cache and its result are those of `Call`, and the function's call is recorded exactly when `Call` says it was called |
| Cache.CallTwice | python-lib/prologin/cache.py:31-46 | two calls with the same new arguments, the second within `seconds` of the first's store, call the function once and return its value twice |
| Permutations.ArrangementsSound | prologin/matchmaker/matchmaker.py:317-320 | every tuple `itertools.permutations(pool, r)` yields has length r, draws from the pool and repeats no element of a pool without duplicates |
| Permutations.ArrangementsComplete | prologin/matchmaker/matchmaker.py:317-320 | every tuple of r distinct elements of a pool without duplicates is yielded |
| Permutations.ArrangementsFromMono | prologin/matchmaker/matchmaker.py:260-262 | the tuples whose first element is taken from a later position are among those from an earlier one |
| Permutations.PrependSound | prologin/matchmaker/matchmaker.py:260-262 | an element of the pool put in front of tuples drawn from the rest gives tuples of the next length drawn from the pool, distinct ones when the tails are |
| Sorting.SortBySorted | python-lib/prologin/udbsync_clients/passwd.py:215-219 | `list.sort(key=...)`: the result is in order of the keys and is a permutation of the input |
| Sorting.InsertBySorted | python-lib/prologin/udbsync_clients/passwd.py:216 | inserting an element into a list in key order keeps the list in key order |
| Cache.Cached.constructor | python-lib/prologin/cache.py:31-33 | a new wrapper keeps the lifetime and the function, with an empty cache |
| Master.MasterNode.constructor | prologin/masternode/master.py:55-59 | a new master knows no worker and has no database request |
| MasterTask.Task.constructor | prologin/masternode/task.py:53-57 | a new task has not started, has run zero times and has no error |
| MasterWorker.Worker.constructor | python-lib/prologin/masternode/worker.py:28-34 | a new worker record has the given slots, no task and its heartbeat set to now |
| Matchmaker.MatchMaker.constructor | prologin/matchmaker/matchmaker.py:87-105 | a new matchmaker manages no champion, indexes no match and has an empty queue |
| PresenceSync.PresenceQueue.constructor | python-lib/prologin/presencesync/server.py:69-75 | a new queue has no start time, an empty backlog and an empty reverse backlog |
| Synchronisation.PubSubQueue.constructor | python-lib/prologin/synchronisation.py:38-41 | a new queue's backlog is the initial one and it has no subscriber |
| WorkerNode.Worker.constructor | python-lib/prologin/workernode/worker.py:73-83 | a new worker has all its slots free and its server port at the start of its range |
| Rcon.RconChannel.constructor | minecraft/server/rconite.py:132-133 | a channel wraps its socket |
| Rcon.RconClient.constructor | minecraft/server/rconite.py:204-207 | a new client has its channel and its last request id at zero |
| Common.JoinSplit | python-lib/prologin/udbsync_clients/passwd.py:244-247 | `sep.join(s.split(sep))` gives back `s` |
| Common.SplitJoin | python-lib/prologin/udbsync_clients/passwd.py:139-143 | splitting parts joined by a separator none of them holds gives the parts back |
| Common.ParseIntToString | python-lib/prologin/udbsync_clients/passwd.py:104-105 | `int(str(i))` gives back `i` |
| Common.NatToStringInjective | python-lib/prologin/udbsync_clients/passwd.py:227 | distinct naturals print differently |
| Common.StripNoSpaceEnds | python-lib/prologin/udb/management/commands/batchimport.py:37-57 | `strip()` leaves alone a string that neither starts nor ends with whitespace |
| RoundRobinEval.CumScoreAppend | python-lib/prologin/concours/stechec/management/commands/evaluate_roundrobin.py:41-45 | the cumulative score over two runs of matches is the sum of the scores over each |
| RoundRobinEval.CumScoreAbsent | python-lib/prologin/concours/stechec/management/commands/evaluate_roundrobin.py:39-45 | a champion that plays no match has cumulative score 0 |
| RoundRobinEval.MatchScoreAbsent | python-lib/prologin/concours/stechec/management/commands/evaluate_roundrobin.py:44-45 | a champion absent from a match gets nothing from it |
| RoundRobinEval.MaxScore | python-lib/prologin/concours/stechec/management/commands/evaluate_roundrobin.py:52 | the best score of a non-empty match is one of its scores and no score is above it |
| RoundRobinEval.Winners | python-lib/prologin/concours/stechec/management/commands/evaluate_roundrobin.py:53 | the winners are the champions whose score is the best one, in the order of the match |
| RoundRobinEval.AwardsTotal | python-lib/prologin/concours/stechec/management/commands/evaluate_roundrobin.py:52-58 | a match has at least one winner and hands out 2 points to a sole winner, one per winner when several tie |
| RoundRobinEval.SoleWinnerGetsTwo | python-lib/prologin/concours/stechec/management/commands/evaluate_roundrobin.py:54-55 | a sole top scorer gets 2 points from the match |
| RoundRobinEval.PointsOfOnes | python-lib/prologin/concours/stechec/management/commands/evaluate_roundrobin.py:57-58 | with one point per increment, a champion gets as many points as it appears among the receivers |
| RoundRobinEval.TiedWinnerPoints | python-lib/prologin/concours/stechec/management/commands/evaluate_roundrobin.py:56-58 | when several tie, each winner gets one point per place it holds among the winners and a non-winner gets nothing |
| RoundRobinEval.LoserGetsNothing | python-lib/prologin/concours/stechec/management/commands/evaluate_roundrobin.py:52-58 | a champion below the best score of a match gets no point from it |
| RoundRobinEval.WinPointsAbsent | python-lib/prologin/concours/stechec/management/commands/evaluate_roundrobin.py:38-58 | a champion that plays no match gets no win point |
| RoundRobinEval.Evaluation | python-lib/prologin/concours/stechec/management/commands/evaluate_roundrobin.py:60-65 | each tournament player is given its win points or its cumulative score, as the scoring option says, in the order of the players |
| RoundRobinEval.AddMatchScores | python-lib/prologin/concours/stechec/management/commands/evaluate_roundrobin.py:43-45 | the cumulative table afterwards is the one before plus the match's scores, per champion |
| RoundRobinEval.HighestScore | python-lib/prologin/concours/stechec/management/commands/evaluate_roundrobin.py:52 | the loop computes the best score of the match |
| RoundRobinEval.TopScorers | python-lib/prologin/concours/stechec/management/commands/evaluate_roundrobin.py:53 | the loop computes the list of winners |
| RoundRobinEval.AddTies | python-lib/prologin/concours/stechec/management/commands/evaluate_roundrobin.py:57-58 | each winner's points go up by one per place it holds among the winners |
| RoundRobinEval.AddMatchWins | python-lib/prologin/concours/stechec/management/commands/evaluate_roundrobin.py:52-58 | the wins table afterwards is the one before plus the match's win points |
| RoundRobinEval.ScoreMatches | python-lib/prologin/concours/stechec/management/commands/evaluate_roundrobin.py:38-58 | after the loop both tables are those of all the matches; a match without players is the error of `max` |
| RoundRobinEval.PlayerScores | python-lib/prologin/concours/stechec/management/commands/evaluate_roundrobin.py:60-65 | the scores set are those of `Evaluation` |
| RoundRobinEval.Evaluate | python-lib/prologin/concours/stechec/management/commands/evaluate_roundrobin.py:21-66 | refuses a tournament with matches not done yet; otherwise sets every player's score as `Evaluation` says |
| RoundRobinLaunch.ProductSound | python-lib/prologin/concours/stechec/management/commands/launch_roundrobin.py:26-27 | every tuple of `itertools.product` has length NPLAYERS and draws from the tournament's players |
| RoundRobinLaunch.ProductFromSound | python-lib/prologin/concours/stechec/management/commands/launch_roundrobin.py:26-27 | the tuples from a given first element on are sound in the same sense |
| RoundRobinLaunch.ProductFromMono | python-lib/prologin/concours/stechec/management/commands/launch_roundrobin.py:26-27 | starting the first element earlier loses no tuple |
| RoundRobinLaunch.ProductComplete | python-lib/prologin/concours/stechec/management/commands/launch_roundrobin.py:26-27 | every tuple of NPLAYERS players is in the product |
| RoundRobinLaunch.Kept | python-lib/prologin/concours/stechec/management/commands/launch_roundrobin.py:28-31 | a tuple is kept exactly when no champion id occurs twice in it |
| RoundRobinLaunch.KeptArePermutations | python-lib/prologin/concours/stechec/management/commands/launch_roundrobin.py:26-31 | with distinct champions, the tuples kept are exactly the orderings of NPLAYERS different champions |
| RoundRobinLaunch.Round | python-lib/prologin/concours/stechec/management/commands/launch_roundrobin.py:38-42 | one match per map of the tournament with maps, a single match without |
| RoundRobinLaunch.GenMatchesSpec | python-lib/prologin/concours/stechec/management/commands/launch_roundrobin.py:20-44 | an error when maps are used and the tournament has none; otherwise the rounds of every kept tuple |
| RoundRobinLaunch.RoundsCount | python-lib/prologin/concours/stechec/management/commands/launch_roundrobin.py:37-42 | a tuple's rounds hold `repeat` matches, times the number of maps when maps are used |
| RoundRobinLaunch.ScheduledCount | python-lib/prologin/concours/stechec/management/commands/launch_roundrobin.py:26-42 | each kept tuple gets `repeat` matches, times the number of maps when maps are used |
| RoundRobinLaunch.RoundsSound | python-lib/prologin/concours/stechec/management/commands/launch_roundrobin.py:33-42 | every match of a tuple's rounds pits that tuple, on a map of the tournament when maps are used |
| RoundRobinLaunch.ScheduledSound | python-lib/prologin/concours/stechec/management/commands/launch_roundrobin.py:26-42 | every match pits a kept tuple, hence no champion against itself |
| RoundRobinLaunch.GenMatchesSound | python-lib/prologin/concours/stechec/management/commands/launch_roundrobin.py:20-44 | every match holds NPLAYERS different champions of the tournament, on one of its maps when maps are used |
| RoundRobinLaunch.RoundsComplete | python-lib/prologin/concours/stechec/management/commands/launch_roundrobin.py:37-42 | with `repeat` at least 1, a tuple plays on every map when maps are used, once otherwise |
| RoundRobinLaunch.ScheduledComplete | python-lib/prologin/concours/stechec/management/commands/launch_roundrobin.py:26-42 | every kept tuple plays, on every map when maps are used |
| RoundRobinLaunch.GenMatchesComplete | python-lib/prologin/concours/stechec/management/commands/launch_roundrobin.py:20-44 | with `repeat` at least 1, every ordering of NPLAYERS different champions plays, on every map when maps are used |
| RoundRobinLaunch.GenMatchesCount | python-lib/prologin/concours/stechec/management/commands/launch_roundrobin.py:20-55 | the number of matches announced is every kept tuple `repeat` times, times the number of maps when maps are used |
| RoundRobinLaunch.AppendRounds | python-lib/prologin/concours/stechec/management/commands/launch_roundrobin.py:37-42 | the loop appends exactly the tuple's rounds to the matches |
| RoundRobinLaunch.GenMatches | python-lib/prologin/concours/stechec/management/commands/launch_roundrobin.py:20-44 | the loop returns what `GenMatchesSpec` says |
| Ranking.RunStart | python-lib/prologin/concours/stechec/views.py:386-394 | the start of the run of equal scores holding a player: all scores from there to the player equal its own, and the one before differs |
| Ranking.RankIsFirstWithScore | python-lib/prologin/concours/stechec/views.py:382-397 | in a descending list, a player's rank is one plus the number of players with a strictly higher score |
| Ranking.ExAequoSharesRank | python-lib/prologin/concours/stechec/views.py:388-397 | a player is ex aequo exactly when it has the rank of the player before; ranks never decrease; the first player has rank 1 |
| Ranking.Ranked | python-lib/prologin/concours/stechec/views.py:388-397 | each player keeps its champion and score and is given the start of its run plus one as rank, ex aequo when it has the previous player's score |
| Ranking.RankedPlayer | python-lib/prologin/concours/stechec/views.py:379-398 | players and scores stay in place; the first has rank 1 and is not ex aequo; in a descending list a rank is one plus the number of higher scores |
| Ranking.RankPlayers | python-lib/prologin/concours/stechec/views.py:379-398 | the loop writes in place the ranks and flags `Ranked` gives |
| StechecModels.ChampionDirectory | prologin/concours/stechec/models.py:79-86 | refused for a champion with no id; otherwise root, contest, `champions`, the author's name and the id |
| StechecModels.ChampionDirectoryInjective | prologin/concours/stechec/models.py:79-86 | two saved champions of one author in one contest share a directory only when they have the same id |
| StechecModels.MatchDirectory | prologin/concours/stechec/models.py:330-339 | the last two components are the thousands of the id and the id modulo 1000, each with at least three digits |
| StechecModels.MatchDirectoryInjective | prologin/concours/stechec/models.py:330-339 | two matches share a directory only when they have the same id |
| StechecModels.MatchDirectoryAgrees | prologin/masternode/task.py:40-48 | the site reads a match where the master node writes it: under one root, both paths are the same |
| StechecModels.CodeLength | prologin/concours/stechec/models.py:18 | the length of the escape code `\033[...m` at the head of a text, the dots not crossing a newline and the first `m` ending it |
| StechecModels.CodeEnd | prologin/concours/stechec/models.py:18 | where the lazy `.*?m` of a code scanned from a position stops |
| StechecModels.StripAnsi | prologin/concours/stechec/models.py:18-22 | one left-to-right pass drops each code where it starts and keeps every other character, in order; the result is no longer than the text |
| StechecModels.StripAnsiPlain | prologin/concours/stechec/models.py:21-22 | a text without an escape character comes out unchanged |
| StechecModels.StripAnsiPlainPrefix | prologin/concours/stechec/models.py:21-22 | a plain part in front is kept as is and the rest is stripped on its own |
| StechecModels.StripAnsiCode | prologin/concours/stechec/models.py:21-22 | a complete code in front is dropped whole |
| StechecModels.LanguageFallback | prologin/concours/stechec/models.py:123-132 | every code of the table has an entry and a highlighter of its own; any other code has no entry and is highlighted as plain text |
| StechecModels.TablesKnowCodes | python-lib/prologin/concours/stechec/languages.py:3-26 | the languages table and the highlighter table have the same codes |
| StechecModels.LookupFound | prologin/concours/stechec/models.py:130-131 | a value found in a table is that of one of its entries |
| StechecModels.Extensions | prologin/concours/stechec/models.py:137-139 | the whitelist holds exactly the extensions of the table's entries |
| StechecModels.SourcesOf | prologin/concours/stechec/models.py:149-164 | the sources by name are the regular files with a whitelisted extension and no blacklisted prefix, case folded, in directory order |
| StechecModels.SourcesOfLookup | prologin/concours/stechec/models.py:149-164 | a name is a source exactly when some entry with that name is shown, and its contents are those of the last such entry |
| StechecModels.SourceContents | prologin/concours/stechec/models.py:134-164 | the loop over the extracted files builds `SourcesOf` |
| StechecModels.HaskellSourceHidden | python-lib/prologin/concours/stechec/languages.py:12 | as written, a Haskell champion's `main.hs` is not shown |
| StechecModels.HaskellSourceShown | python-lib/prologin/concours/stechec/languages.py:12 | with `.hs` as Haskell's extension its sources are shown, and every file shown as written still is |
| StechecModels.NonEmptyLines | prologin/concours/stechec/models.py:170 | the count of non-empty pieces of `split('\n')` |
| StechecModels.Sloc | prologin/concours/stechec/models.py:166-171 | the total is at least each file's count of non-empty lines and at most the number of newlines plus the number of files |
| StechecModels.LinesBound | prologin/concours/stechec/models.py:170 | a text has at most one more non-empty line than newlines; a text without newline is one line when not empty |
| StechecModels.SlocAppend | prologin/concours/stechec/models.py:166-171 | the count over several sources is the sum of their counts |
| MdbModels.Octets | python-lib/prologin/mdb/models.py:97 | the four dotted parts of an IPv4 address, none holding a dot |
| MdbModels.DottedInjective | python-lib/prologin/mdb/models.py:97 | different addresses have different texts |
| MdbModels.OctetsInjective | python-lib/prologin/mdb/models.py:97 | different addresses have different octets |
| MdbModels.PoolType | python-lib/prologin/mdb/models.py:88-91 | organizers and users share the users' pool, no pool is looked up under `orga`, and every other type keeps its own |
| MdbModels.PoolAddress | python-lib/prologin/mdb/models.py:96-97 | none exactly when the network address plus the count leaves the address space (where `ipaddress` raises) |
| MdbModels.AddressText | python-lib/prologin/mdb/models.py:97 | the dotted text of that address, if any |
| MdbModels.AllocationsDistinct | python-lib/prologin/mdb/models.py:87-97 | two allocations from one pool at different counts give different addresses |
| MdbModels.PoolOf | python-lib/prologin/mdb/models.py:92-104 | the pool of a type, found when one has it; pool types are unique |
| MdbModels.AllocateIp | python-lib/prologin/mdb/models.py:87-97 | the pool of the machine's type counts one more and is saved first, then the machine gets its address; a missing pool or an address out of range is an error |
| MdbModels.Save | python-lib/prologin/mdb/models.py:69-72 | an address is allocated only when the machine has none |
| UdbModels.ValidateUnixUid | prologin/udb/models.py:28-38 | a login whose host account has a uid in 0..999 or 60000..65533 is refused with a message naming the login and the uid; otherwise accepted |
| UdbModels.PoolOf | prologin/udb/models.py:93-109 | the pool of a group, found when one has it; groups are unique among pools |
| UdbModels.AllocateUid | prologin/udb/models.py:92-97 | the pool of the user's group counts one more and the user gets the pool's base plus the new count; without a pool nothing changes |
| UdbModels.Save | prologin/udb/models.py:73-77 | the login is validated first and a refusal changes nothing; a uid is allocated only when none is set |
| UdbModels.RootRefused | prologin/udb/tests.py:8-14 | saving `root` where root has uid 0 is refused with a message naming uid 0 |
| UdbModels.FirstRootUids | prologin/udb/tests.py:16-20 | the first user saved from a fresh root pool based at 12000 gets uid 12001, the next 12002 |
| MdbDns.IndexFrom | dns/mdbdns.py:37-39 | `text.index(pat, i)`: the first occurrence at or after `i`, none where Python raises ValueError |
| MdbDns.LastIndexOf | dns/mdbdns.py:38 | `rindex`: the last position of the character, none after it |
| MdbDns.FirstIndexOf | dns/mdbdns.py:39 | `index`: the first position of the character, none before it |
| MdbDns.MarkerFirstAt | dns/mdbdns.py:37-47 | in a generated zone file the first `@@SERIAL@@` is the serial's own marker: nothing before it holds two `@` in a row |
| MdbDns.SerialReadBack | dns/mdbdns.py:37-40 | the serial field is read back between the last tab before the marker and the space after it |
| MdbDns.HeaderNoDoubleAt | dns/mdbdns.py:42-47 | the header above the serial's tab never holds `@@` |
| MdbDns.ZoneSerialBumps | dns/mdbdns.py:27-62 | the serial read back from a generated zone is the one written plus one, whatever the records |
| MdbDns.RegenerateSerials | dns/mdbdns.py:30-57 | a new zone file starts at serial 1, and rewriting a generated one moves its serial up by one |
| MdbDns.BodyRoundTrip | dns/mdbdns.py:58-59 | the body holds the records and nothing else: they are read back from it in order |
| MdbDns.OfType | dns/mdbdns.py:79 | the machines of one type, in order |
| MdbDns.AlienReverseCovers | dns/mdbdns.py:65-75 | the alien reverse zone names each host 1 to 254 once, in order, the last one being the gateway |
| MdbDns.OrgaLeftOutAsWritten | dns/mdbdns.py:78-87 | as written, the user reverse zone never lists an organizer machine |
| MdbDns.OrgaReverseCounterexample | dns/mdbdns.py:79-81 | an organizer machine from the users' pool gets no PTR record as written, and one once organizers are added |
| MdbDns.ReverseMachinesSpec | dns/mdbdns.py:78-87 | a machine is in a reverse zone exactly when it has the zone's type, or is an organizer and the zone is the users' |
| MdbDns.ReverseNameOfAddress | dns/mdbdns.py:84 | for an allocated address, the owner name is the decimal text of its last octet |
| MdbDns.NormalZoneSpec | dns/mdbdns.py:98-104 | the normal zone holds an address record for exactly the names and aliases of the machines, each with its machine's address |
| MdbDns.NormalZoneSound | dns/mdbdns.py:98-104 | every record of the normal zone is an address record for a name of some machine |
| MdbDns.NormalZoneComplete | dns/mdbdns.py:98-104 | every name of every machine has its address record in the normal zone |
| MdbDns.AddressRecords | dns/mdbdns.py:101-102 | the inner loop appends one address record per name, in order |
| MdbDns.NormalRecords | dns/mdbdns.py:98-103 | the loop over the machines and their names builds the records of `NormalZoneSpec` |
| MdbDns.BuildAllDone | dns/mdbdns.py:111-120 | with distinct zone names, a complete run leaves each zone's file regenerated from its own previous contents |
| MdbDns.BuildAllStops | dns/mdbdns.py:111-120 | a run that stops does so on a zone whose previous file has no readable serial |
| MdbDns.BuildAllKeeps | dns/mdbdns.py:111-120 | the file of a zone not in the list keeps its contents |
| MdbDns.ZonesDistinct | dns/mdbdns.py:75-118 | the six zones have different names, so each is built once |
| MdbDns.ZoneDirectory.BuildZone | dns/mdbdns.py:27-62 | the zone's file is replaced by the records under a header with the next serial; a file whose serial cannot be read is left alone and the call fails |
| MdbDns.ZoneDirectory.BuildNext | dns/mdbdns.py:115-120 | one step of the update builds the next zone |
| MdbDns.ZoneDirectory.UpdateDnsConfig | dns/mdbdns.py:111-120 | corrected (the user reverse zone lists the organizers' machines): the six zones are built in turn, and the first that fails stops the update |
| BatchImport.Title | python-lib/prologin/udb/management/commands/batchimport.py:73-74 | `str.title` on ASCII letters: same length, other characters kept, a letter upper-cased at the start of a word and lower-cased inside one |
| BatchImport.MakeAscii | python-lib/prologin/udb/management/commands/batchimport.py:28-30 | only ASCII characters are kept, letters lowered, in order |
| BatchImport.SplitNonLower | python-lib/prologin/udb/management/commands/batchimport.py:56 | the pieces between characters other than `a`-`z`: each piece is only `a`-`z` |
| BatchImport.Initial | python-lib/prologin/udb/management/commands/batchimport.py:57 | at most one character: the first of the stripped piece |
| BatchImport.RunStarts | python-lib/prologin/udb/management/commands/batchimport.py:56-57 | the reference: letters `a`-`z` that start a run of them |
| BatchImport.InitialsAreRunStarts | python-lib/prologin/udb/management/commands/batchimport.py:56-57 | the initials of the split pieces are the first letters of the runs of `a`-`z`, one per run, in order |
| BatchImport.LowerOnly | python-lib/prologin/udb/management/commands/batchimport.py:59 | the letters `a`-`z` of the text, in order |
| BatchImport.BaseLoginSpec | python-lib/prologin/udb/management/commands/batchimport.py:56-61 | a base login is only `a`-`z`: the initials of the first name, then the first ten (or all, if fewer) letters of the last name |
| BatchImport.CandidatesBound | python-lib/prologin/udb/management/commands/batchimport.py:63-67 | `n` distinct candidates all taken need `n` taken logins, so the suffix loop ends |
| BatchImport.Unique | python-lib/prologin/udb/management/commands/batchimport.py:63-67 | the result is not taken, and it is the first candidate from the `k`-th on that is not |
| BatchImport.FreshLogin | python-lib/prologin/udb/management/commands/batchimport.py:63-67 | the loop returns the base login, or the base with the smallest suffix 1, 2, ... that no earlier row took |
| BatchImport.RowUser | python-lib/prologin/udb/management/commands/batchimport.py:43-81 | an error exactly when `--passwords` meets a row without exactly one colon or a name pair; the uid, group, password and login of the user; from names, the first candidate of the row's base login not taken before |
| BatchImport.ImportFrom | python-lib/prologin/udb/management/commands/batchimport.py:43-86 | at most one user per row, and one for every row exactly when no error stops the import |
| BatchImport.MakeUser | python-lib/prologin/udb/management/commands/batchimport.py:44-81 | the loop body computes `RowUser` |
| BatchImport.ImportRow | python-lib/prologin/udb/management/commands/batchimport.py:43-86 | one row's step: its user joins the users before it, or the import ends with them |
| BatchImport.CreateUsers | python-lib/prologin/udb/management/commands/batchimport.py:40-86 | the users saved and the error, if any, are those of `ImportFrom` over all the rows |
| BatchImport.ImportFromUids | python-lib/prologin/udb/management/commands/batchimport.py:41-86 | from a row on, the `j`-th user gets the next uid plus `j` and the group of `--type` |
| BatchImport.ImportUids | python-lib/prologin/udb/management/commands/batchimport.py:41-86 | the `j`-th user created gets the base uid plus `j` and the group of `--type`; a user for every row unless an error stops it |
| BatchImport.ImportFromDistinct | python-lib/prologin/udb/management/commands/batchimport.py:42-69 | from a row on, logins from names are distinct and not among those taken |
| BatchImport.ImportNameLogins | python-lib/prologin/udb/management/commands/batchimport.py:42-69 | from names, each user's login, in order, is the first free candidate of its own row's base login, given the logins of the users created before it |
| BatchImport.ImportLoginsDistinct | python-lib/prologin/udb/management/commands/batchimport.py:42-69 | from names, every user gets a login of its own that no earlier row took |
| BatchImport.ImportFromPasswords | python-lib/prologin/udb/management/commands/batchimport.py:44-79 | from a row on, with `--passwords` and `--logins`, each user's login and password are the two halves of its row |
| BatchImport.ImportPasswords | python-lib/prologin/udb/management/commands/batchimport.py:44-79 | with `--passwords` and `--logins`, each row is cut at its one colon into login and password; on names, the import stops on the first row creating no one |
| AnsibleMdb.Flatten | ansible/library/mdb.py:145 | numbers stay numbers and text is kept; a non-empty list without commas in its items is given back by splitting the result at the commas |
| AnsibleMdb.NewMachineSpec | ansible/library/mdb.py:137-149 | the record holds exactly the record parameters that are set, each with its value, lists joined by commas |
| AnsibleMdb.NewMachineUnique | ansible/library/mdb.py:144-149 | no two fields of the record share a name |
| AnsibleMdb.SetDefault | ansible/library/mdb.py:165-169 | `setdefault`: a key already set keeps its value, a new one is appended, keys stay unique |
| AnsibleMdb.DefaultsSpec | ansible/library/mdb.py:163-169 | a created machine keeps every field given and gets the default of every one not given that has one; nothing else is added |
| AnsibleMdb.Mismatch | ansible/library/mdb.py:153-154 | the first of the fixed fields that the record sets to a value other than the current one, none when all agree |
| AnsibleMdb.MismatchFirst | ansible/library/mdb.py:153-161 | the mismatching field reported is preceded only by matching ones |
| AnsibleMdb.MdbGetMachine | ansible/library/mdb.py:90-102 | the first machine with that hostname marked present, or a record holding only the hostname marked absent |
| AnsibleMdb.Prepare | ansible/library/mdb.py:151-176 | the record to write, or the failure: an existing machine must keep ip, mac and hostname; a machine to create gets defaults and needs a mac |
| AnsibleMdb.PrepareExisting | ansible/library/mdb.py:151-161 | an existing machine fails on the first of ip, mac and hostname set differently; otherwise the record is written as given |
| AnsibleMdb.PrepareCreate | ansible/library/mdb.py:162-176 | a machine to create fails exactly when no mac is given; otherwise each field is the one given or its default |
| AnsibleMdb.ChangedSpec | ansible/library/mdb.py:178-186 | the diff shows a change exactly when some field of the record is missing from the current record or differs there |
| AnsibleMdb.NonState | ansible/library/mdb.py:195-196 | the fields of the record other than `state`: a field is kept exactly when it is in the record and is not `state` |
| AnsibleMdb.OptionsSpec | ansible/library/mdb.py:194-196 | the options are twice as many as the fields but `state`, and the i-th such field is passed at positions 2i and 2i+1 as `--name` followed by its value: in record order, and nothing else |
| AnsibleMdb.CommandMessage | ansible/library/mdb.py:203-207 | the failure message holds the output when there is some and the errors when there are some |
| AnsibleMdb.CheckFixedFields | ansible/library/mdb.py:153-161 | the loop finds `Mismatch` |
| AnsibleMdb.FillDefaults | ansible/library/mdb.py:165-169 | the five `setdefault` calls give `Defaults` |
| AnsibleMdb.AppendOptions | ansible/library/mdb.py:194-196 | the loop appends exactly the options of `OptionsSpec` |
| AnsibleMdb.BuildCommand | ansible/library/mdb.py:191-198 | the split management command, then `addmachine --update` and the options, or `delmachine` and the hostname |
| AnsibleMdb.RunModule | ansible/library/mdb.py:105-210 | a preparation failure ends the module with no diff; otherwise the diff, and the command runs exactly when not in check mode and changed, failing with its message when its status is not 0 |
| Synchronisation.PubSubQueue.PostMessage | python-lib/prologin/synchronisation.py:43-47 | the backlog is extended by the message and every subscriber receives it |
| Synchronisation.PubSubQueue.RegisterSubscriber | python-lib/prologin/synchronisation.py:49-54 | the new subscriber receives the whole backlog, then is subscribed |
| Synchronisation.PubSubQueue.UnregisterSubscriber | python-lib/prologin/synchronisation.py:56-59 | the subscriber is removed; KeyError when it was not subscribed |
| Synchronisation.SigningString | python-lib/prologin/synchronisation.py:85 | the length of the message, a colon, the message, then the timestamp |
| Synchronisation.SigningStringParts | python-lib/prologin/synchronisation.py:157 | the length is found up to the first colon, then the message and the timestamp |
| Synchronisation.SigningStringInjective | python-lib/prologin/synchronisation.py:157 | a signing string determines the message and the non-negative timestamp it was made from |
| Synchronisation.SendUpdates | python-lib/prologin/synchronisation.py:151-163 | refused without a secret; otherwise the serialised updates, the truncated time and the HMAC of their signing string |
| Synchronisation.AcceptUpdate | python-lib/prologin/synchronisation.py:80-99 | refused when the HMAC does not match or the stamp is not within five seconds of now; otherwise the updates to post |
| Synchronisation.SendThenAccept | python-lib/prologin/synchronisation.py:151-163 | a request sent with the server's secret is accepted exactly when the stamp is within five seconds of now, and then the server posts the very updates sent |
| Synchronisation.TamperedRefused | python-lib/prologin/synchronisation.py:85-92 | a request signed over another message or timestamp is refused by any HMAC that tells signing strings apart |
| Synchronisation.ReduceAppend | python-lib/prologin/synchronisation.py:175-190 | folding two batches one after the other is folding their concatenation |
| Synchronisation.ReduceKeepsIndexed | python-lib/prologin/synchronisation.py:171-190 | the state stays indexed by the primary key: every stored record sits under its own key |
| Synchronisation.ReduceLastWriteWins | python-lib/prologin/synchronisation.py:182-190 | last write wins: after a successful fold a key is present exactly when the last update touching it stored a record (or, untouched, when it was present before), and it holds that record |
| Synchronisation.DeleteRemoves | python-lib/prologin/synchronisation.py:186-190 | a delete of a stored record removes exactly that record |
| Synchronisation.ApplyUpdates | python-lib/prologin/synchronisation.py:167-190 | ValueError without a primary-key field name; otherwise the loop computes the corrected fold |
| Synchronisation.DeleteAsWrittenFails | python-lib/prologin/synchronisation.py:190 | with records keyed by MAC address, deleting a stored machine makes the reducer as written raise KeyError, while the corrected one removes it |
| PresenceSync.Expired | python-lib/prologin/presencesync/server.py:90-94 | exactly the logins whose expiration time is not after now |
| PresenceSync.ExpiryKeepsInverse | python-lib/prologin/presencesync/server.py:86-101 | expiry keeps the backlog and the reverse backlog inverse, and leaves only unexpired logins |
| PresenceSync.Remaining | python-lib/prologin/presencesync/server.py:96-99 | the backlog once expired logins are gone: exactly the unexpired entries |
| PresenceSync.ExpiryIdempotent | python-lib/prologin/presencesync/server.py:86-101 | expiring twice at the same time changes nothing the second time |
| PresenceSync.Holder | python-lib/prologin/presencesync/server.py:124 | the login the reverse backlog holds for a hostname, none for the default |
| PresenceSync.LoggedOff | python-lib/prologin/presencesync/server.py:117-140 | the logins reported as logged off: those that expired, plus a previous holder of the hostname other than the login |
| PresenceSync.UpdateItems | python-lib/prologin/presencesync/server.py:135-141 | one `update` item exactly when the hostname changes hands |
| PresenceSync.QuietReLogin | python-lib/prologin/presencesync/server.py:112-150 | a login that already holds its hostname and has not expired causes no message when registered again |
| PresenceSync.PresenceQueue.RemoveExpired | python-lib/prologin/presencesync/server.py:86-101 | removes and returns exactly the expired logins, together with their hostnames |
| PresenceSync.PresenceQueue.CollectExpired | python-lib/prologin/presencesync/server.py:91-95 | the first loop collects exactly the logins whose expiration time is not after now |
| PresenceSync.PresenceQueue.RemoveLogins | python-lib/prologin/presencesync/server.py:97-100 | the second loop takes those logins out of the backlog and their hostnames out of the reverse backlog |
| PresenceSync.PresenceQueue.DeleteItems | python-lib/prologin/presencesync/server.py:105-147 | one `delete` item per login |
| PresenceSync.PresenceQueue.RemoveAndPublishExpired | python-lib/prologin/presencesync/server.py:103-110 | expires, then publishes one delete per expired login if there is any |
| PresenceSync.PresenceQueue.UpdateBacklog | python-lib/prologin/presencesync/server.py:112-150 | registers the login on the hostname after expiry; publishes deletes for the logins that expired or were displaced, then the update if the hostname changed hands |
| PresenceSync.PresenceQueue.IsLoginAllowed | python-lib/prologin/presencesync/server.py:162-241 | allowed when already on the hostname; otherwise refused when logged elsewhere, when the hostname is busy, when the machine or user is not registered exactly once, or a contestant on a non-contestant machine |
| PresenceSync.PresenceQueue.Start | python-lib/prologin/presencesync/server.py:247-248 | the start time is recorded |
| PresenceSync.PresenceQueue.GetList | python-lib/prologin/presencesync/server.py:250-258 | after expiry, login to hostname for every login still valid |
| PresenceSync.PresenceQueue.RequestLogin | python-lib/prologin/presencesync/server.py:260-289 | on any backlog: expires and publishes the deletes; refuses with "too early" until `timeout` seconds after the start; otherwise answers exactly what is_login_allowed answers on the expired backlog; a refusal changes nothing more, an admission records the login on the hostname with a fresh expiration and publishes update_backlog's batch |
| PresenceSync.RequestLoginKeepsInverse | python-lib/prologin/presencesync/server.py:260-289 | when the backlog and the reverse backlog start inverse, they stay inverse after a refused and after an admitted login |
| PresenceSync.HeartbeatMoveBreaksInverse | python-lib/prologin/presencesync/server.py:112-131 | update_backlog, which heartbeats call directly, does not keep the maps inverse: a login moved to another hostname leaves the old hostname pointing at it |
| PresenceSync.PresenceQueue.UpdateWithHeartbeat | python-lib/prologin/presencesync/server.py:291-297 | update_with_heartbeat as corrected (nothing in the server calls it): expires and publishes, then records the association as-is |
| PresenceSync.HeartbeatNeverRecorded | python-lib/prologin/presencesync/server.py:296 | as written, every call of the (uncalled) update_with_heartbeat fails with TypeError before recording anything |
| PresenceSync.AdmitKeepsInverse | python-lib/prologin/presencesync/server.py:175-194 | admitting a login that already holds the hostname, or is not logged anywhere while the hostname is free, keeps the maps inverse |
| Master.StatusCalls | prologin/masternode/task.py:120-124 | one status write per task, in order, each for that task's champion or match |
| Master.PlayerScores | prologin/masternode/master.py:229-236 | none exactly when some row lacks a field; otherwise one score per row, in order, with its player, score and whether it timed out |
| Master.MatchDoneCalls | prologin/masternode/master.py:188-249 | none when a successful result lacks `match_result`; otherwise the writes end with the match status, "done" exactly on success with well-formed rows, which are written first |
| Master.Drop | prologin/masternode/master.py:288-289 | the tasks not removed, every one of them kept |
| Master.DropNoDup | prologin/masternode/master.py:288-289 | removing tasks keeps the task list free of duplicates |
| Master.WithoutNoDup | python-lib/prologin/masternode/worker.py:71-87 | rebuilding the list without a champion's or match's tasks keeps it free of duplicates |
| Master.ExecuteCalls | prologin/masternode/task.py:100-175 | an execution writes one "pending" status for its champion or match, exactly when it is a compilation or the match's run_match call succeeded, and nothing otherwise |
| Master.Resubmitted | prologin/masternode/master.py:266-278 | a task changes exactly when it timed out or failed with tries left, gains at most one execution, and never exceeds `max_tries` executions |
| Master.RetryCallsPending | prologin/masternode/master.py:267-282 | the retry policy writes a "pending" status for a task exactly when it is stuck with tries left and is a compilation or a match whose run_match call succeeded, and nothing otherwise |
| Master.Resubmit | prologin/masternode/master.py:267-284 | the body of the first loop: a stuck task with tries left is run again by the `execute` of its class, leaving the match's RPC error if any, and its "pending" write is returned; the task is reported for failing exactly when it is stuck with no tries left |
| Master.ResubmitEach | prologin/masternode/master.py:265-285 | each task gets the retry policy with its class's `execute`; the tasks to fail are exactly the stuck ones with no tries left; the "pending" writes are those of the tasks run again, in list order |
| Master.FailTasks | prologin/masternode/master.py:287-290 | each task to fail leaves the worker and gets the status "failed", one write per task |
| Master.ResubmitWorker | prologin/masternode/master.py:265-290 | on one worker: every task gets the retry policy, the failed tasks are exactly the stuck ones with no tries left, each appears once, they leave the worker's task list; the writes are the "pending" writes of the re-executed tasks, then one "failed" write per failed task |
| Master.MasterNode.UpdateWorker | prologin/masternode/master.py:89-103 | an unknown worker is registered if it answers the probe; a known one takes the new slot counts (zero capacity included) and its heartbeat time |
| Master.MasterNode.RedispatchWorker | prologin/masternode/master.py:252-262 | every task of the worker goes back to "new" and the worker is forgotten |
| Master.MasterNode.Heartbeat | prologin/masternode/master.py:106-117 | a zero `max_slots` raises ZeroDivisionError and changes nothing; otherwise a first heartbeat from a registered worker redispatches its tasks before the worker is updated |
| Master.MasterNode.CompilationDone | prologin/masternode/master.py:120-164 | a result from an unknown worker or for a task no longer run is discarded; otherwise the task is removed and the champion status written |
| Master.MasterNode.MatchDone | prologin/masternode/master.py:167-249 | discarded like a compilation result; otherwise the task is removed and `MatchDoneCalls` is written |
| Master.MasterNode.ResubmitTimeoutTasks | prologin/masternode/master.py:264-290 | each stuck task runs again while it has had fewer than `max_task_tries` executions, and is otherwise removed and failed; the database receives the "pending" writes of the executions, then the "failed" writes |
| Master.MasterNode.FindWorkerFor | prologin/masternode/master.py:372-380 | ZeroDivisionError exactly when a worker with room has zero `max_slots`; otherwise a worker with room for the task and the least usage among those with room, or none exactly when no worker has room |
| Master.MasterNode.Place | python-lib/prologin/masternode/worker.py:66-69 | the chosen worker gives up the task's slots and runs it with the `execute` of its class: the task's error is the match's RPC error if any, and the database receives its "pending" write |
| Master.MasterNode.DispatchOne | prologin/masternode/master.py:386-396 | one task: nothing changes when no worker has room or on ZeroDivisionError; otherwise it joins exactly the worker find_worker_for picked, starts with its execution's error, and its "pending" write is made |
| Master.MasterNode.DispatchTasks | prologin/masternode/master.py:382-404 | the tasks are placed in order on workers with room, stopping at the first that finds none, or at find_worker_for's ZeroDivisionError; each placed task has started one more execution now, with its RPC error, and the database receives their "pending" writes in order |
| MasterTask.ChampionPathParts | prologin/masternode/task.py:30-37 | a champion directory has five components: the third is `champions`, the fourth the user, and the last reads back as the champion id |
| MasterTask.MatchPath | prologin/masternode/task.py:40-49 | the thousands of the id, then the id modulo 1000, each zero-padded to three digits |
| MasterTask.MatchPathInjective | prologin/masternode/task.py:40-49 | distinct matches get distinct directories |
| MasterTask.Task.Execute | prologin/masternode/task.py:64-67 | one more execution, started now, with no error |
| MasterTask.Task.ExecuteMatch | prologin/masternode/task.py:155-175 | the common step, then the match is set pending only when the run call succeeded; otherwise its error is recorded |
| MasterTask.Task.Run | prologin/masternode/task.py:100-175 | the `execute` of the task's class: one more execution started now; a compilation is always set pending; a match is set pending exactly when no RPC error occurred, which is exactly when the task has no error afterwards |
| MasterWorker.Without | python-lib/prologin/masternode/worker.py:71-87 | the tasks not for that champion or match, in their order |
| MasterWorker.WithoutAppend | python-lib/prologin/masternode/worker.py:71-87 | removal distributes over concatenation, so the kept tasks keep their order |
| MasterWorker.WithoutNothing | python-lib/prologin/masternode/worker.py:71-87 | when no task is for that champion or match, nothing is removed |
| MasterWorker.Worker.Usage | python-lib/prologin/masternode/worker.py:41-43 | the fraction of slots in use: one minus free over maximum |
| MasterWorker.Worker.Update | python-lib/prologin/masternode/worker.py:52-55 | the reported slot counts are stored and the heartbeat time renewed |
| MasterWorker.Worker.KeepAlive | python-lib/prologin/masternode/worker.py:57-58 | the heartbeat time becomes now |
| MasterWorker.Worker.AddTask | python-lib/prologin/masternode/worker.py:66-69 | the task takes its slots and joins the list, and the `execute` of its class runs: it is set pending exactly when it is a compilation or no RPC error occurred, and that error is recorded otherwise |
| MasterWorker.Worker.RemoveTask | python-lib/prologin/masternode/worker.py:71-87 | the list is rebuilt without the tasks for that champion or match |
| MasterWorker.Worker.FindTask | prologin/masternode/master.py:133 | the first task for that champion or match, if any |
| MasterWorker.AddThenRemove | python-lib/prologin/masternode/worker.py:66-87 | a task added then removed by its identifier leaves the list as it was, when no other task had it |
| WorkerNode.NextPort | python-lib/prologin/workernode/worker.py:142-146 | the next port, back to the start of the range past its end |
| WorkerNode.Ports | python-lib/prologin/workernode/worker.py:149-153 | the `n` ports handed out one after the other |
| WorkerNode.PortsAfter | python-lib/prologin/workernode/worker.py:149-153 | the k-th port handed out is the one reached after k steps |
| WorkerNode.AfterInRange | python-lib/prologin/workernode/worker.py:142-146 | from inside the range, every step stays inside it |
| WorkerNode.AfterShort | python-lib/prologin/workernode/worker.py:142-146 | fewer steps than the range holds ports wrap around at most once |
| WorkerNode.PortsCycle | python-lib/prologin/workernode/worker.py:136-153 | ports handed out from inside the range stay in it, each follows the one before, and any range-size successive ones are distinct |
| WorkerNode.ScoreLineShape | python-lib/prologin/workernode/worker.py:219-221 | a line is kept exactly when it is digits, a space and an optionally negative number |
| WorkerNode.ScoreLineOf | python-lib/prologin/workernode/worker.py:219-224 | what a server prints for a player is read back as that pid and score |
| WorkerNode.Scores | python-lib/prologin/workernode/worker.py:217-224 | the pairs of the lines that are score lines, in order |
| WorkerNode.ScoresOfScoreLines | python-lib/prologin/workernode/worker.py:217-224 | results printed one per line are read back in order |
| WorkerNode.Worker.StartJob | python-lib/prologin/workernode/worker.py:54-58 | with fewer free slots than the job needs nothing happens; otherwise the job takes them |
| WorkerNode.Worker.EndJob | python-lib/prologin/workernode/worker.py:63-64 | the job's slots are given back, whether it ended normally or not |
| WorkerNode.Worker.AsyncWork | python-lib/prologin/workernode/worker.py:47-69 | the call answers the slots the job needs; the slot count ends where it began, and the job ran exactly when enough slots were free |
| WorkerNode.Worker.AvailableServerPort | python-lib/prologin/workernode/worker.py:136-146 | the current port, the current one then moving to `NextPort` |
| WorkerNode.Worker.GetPorts | python-lib/prologin/workernode/worker.py:148-153 | `n` successive ports as `Ports` gives them, none when `n` is not positive |
| WorkerNode.ParseScores | python-lib/prologin/workernode/worker.py:217-224 | the loop over the lines computes `Scores` |
| WorkerNode.ParseScoresOfOutput | python-lib/prologin/workernode/worker.py:217-224 | server output made of score lines alone is read back to the scores printed |
| WorkerOperations.OptionLine | python-lib/prologin/workernode/operations.py:39-42 | none for a line without `=`; otherwise the stripped text before the first `=` and the stripped rest |
| WorkerOperations.OptsOf | python-lib/prologin/workernode/operations.py:37-43 | the options the lines build, keys unique, each assigned in turn |
| WorkerOperations.OptsOfLastValue | python-lib/prologin/workernode/operations.py:38-42 | a later line naming an option overrides the earlier ones, and lines without `=` change nothing |
| WorkerOperations.ParseOpts | python-lib/prologin/workernode/operations.py:36-43 | the loop over the lines of the text computes `OptsOf` of its lines |
| WorkerOperations.Sides | python-lib/prologin/workernode/operations.py:41 | the two sides of `name=value` around the first `=` |
| WorkerOperations.OptionLineSides | python-lib/prologin/workernode/operations.py:41-42 | a line `name=value` whose name has no `=` is read as the two sides, stripped |
| WorkerOperations.OptionLineOf | python-lib/prologin/workernode/operations.py:39-42 | a name without `=` and a value, neither with whitespace at its ends, joined by `=`, are read back as themselves |
| WorkerOperations.OptsOfText | python-lib/prologin/workernode/operations.py:36-43 | writing options one per line and reading them back gives them back, in order |
| WorkerOperations.OptionArgs | python-lib/prologin/workernode/operations.py:113-115 | `--name`, then the value, for every option in the order of the dictionary |
| WorkerOperations.AppendOptions | python-lib/prologin/workernode/operations.py:113-115 | the loop appends exactly `OptionArgs` to the command |
| WorkerOperations.ServerBase | python-lib/prologin/workernode/operations.py:104-111 | the fixed part of the server's command line: rules, addresses, one client more than players, time, socket timeout, verbosity |
| WorkerOperations.ClientBase | python-lib/prologin/workernode/operations.py:165-175 | the fixed part of a client's command line: its name, rules, champion library, addresses, memory, socket timeout, time, verbosity |
| WorkerOperations.ServerClientCount | python-lib/prologin/workernode/operations.py:108 | the server expects one client more than there are players, the dumper |
| WorkerOperations.ClientNamedByPlayer | python-lib/prologin/workernode/operations.py:166 | a client is named by its player id |
| WorkerOperations.SpawnServer | python-lib/prologin/workernode/operations.py:102-122 | the server runs with the fixed arguments then the match options; a failing server yields an empty output, otherwise its output |
| WorkerOperations.SpawnClient | python-lib/prologin/workernode/operations.py:160-181 | the champion directory goes in the environment with a trailing slash, the match options after the fixed arguments; the run's code and output are returned |
| Matchmaker.MatchesWith | prologin/matchmaker/matchmaker.py:265-273 | `repeat` rounds of one match per map when maps are used, otherwise `repeat` copies of the bare match |
| Matchmaker.MatchesWithMaps | prologin/matchmaker/matchmaker.py:268-271 | with maps, every map appears in every round |
| Matchmaker.AddTo | prologin/matchmaker/matchmaker.py:280 | the match is under the champion afterwards, and nothing else changes |
| Matchmaker.IndexUnder | prologin/matchmaker/matchmaker.py:279-280 | the match is indexed under each of its champions and under nobody else |
| Matchmaker.IndexMatches | prologin/matchmaker/matchmaker.py:278-280 | a match is indexed under a champion exactly when it was before or is one of the new matches holding that champion |
| Matchmaker.AddToByValue | prologin/matchmaker/matchmaker.py:72-73 | as written: a match equal by value to one already under the champion is not added |
| Matchmaker.ByValueCancelMisses | prologin/matchmaker/matchmaker.py:265-295 | with maps and two rounds, cancelling champion 1 as written leaves the second copy of its match live in the queue |
| Matchmaker.MarkCancelled | prologin/matchmaker/matchmaker.py:293-295 | the items at the given positions are cancelled, every other item unchanged |
| Matchmaker.PreparedMembers | prologin/matchmaker/matchmaker.py:290-295 | a match is cancelled for the old champions exactly when it is indexed under one of them |
| Matchmaker.CancelStep | prologin/matchmaker/matchmaker.py:290-295 | cancelling one more champion adds exactly its indexed matches to those cancelled |
| Matchmaker.TakeBatch | prologin/matchmaker/matchmaker.py:379-389 | at most `n` matches, none of them cancelled, and the number of queue entries consumed |
| Matchmaker.Live | prologin/matchmaker/matchmaker.py:386-389 | the matches of a queue that are not cancelled, in order |
| Matchmaker.TakeBatchFifo | prologin/matchmaker/matchmaker.py:375-391 | the matches taken are exactly the live ones of the consumed part of the queue, in FIFO order; it stops before the end only when the batch is full |
| Matchmaker.CancelConsistent | prologin/matchmaker/matchmaker.py:283-295 | cancellation keeps the index consistent and leaves no live queued match with an old champion |
| Matchmaker.MatchMaker.GetMatchesWith | prologin/matchmaker/matchmaker.py:265-273 | the items built are `MatchesWith`; without maps one object repeated, with maps a new object per match |
| Matchmaker.MatchMaker.AppendRound | prologin/matchmaker/matchmaker.py:270-271 | one round adds a new item per map |
| Matchmaker.MatchMaker.MakeMatches | prologin/matchmaker/matchmaker.py:275-281 | corrected: each match is indexed under each of its champions, then the matches join the back of the queue in order |
| Matchmaker.MatchMaker.CancelMatches | prologin/matchmaker/matchmaker.py:283-295 | every prepared match indexed under an old champion is cancelled and the old champions leave the index |
| Matchmaker.MatchMaker.CancelEach | prologin/matchmaker/matchmaker.py:290-295 | the loop over the old champions cancels the matches of each |
| Matchmaker.MatchMaker.CancelChampion | prologin/matchmaker/matchmaker.py:291-295 | the champion's entry is popped and each of its matches cancelled; an absent champion changes nothing |
| Matchmaker.MatchMaker.CancelAll | prologin/matchmaker/matchmaker.py:293-295 | each match of the popped set is cancelled |
| Matchmaker.MatchMaker.CreateMatches | prologin/matchmaker/matchmaker.py:375-391 | with the pending limit not reached, the batch `TakeBatch` gives is taken off the queue and inserted; with it reached, nothing |
| Matchmaker.MatchMaker.PopBatch | prologin/matchmaker/matchmaker.py:379-389 | the loop pops the batch `TakeBatch` defines and leaves the queue without the entries that batch consumed |
| Matchmaker.MatchMaker.MakeMatchesForChampions | prologin/matchmaker/matchmaker.py:310-327 | the matches of every ordered tuple of distinct champions of the pool holding a new champion are made |
| Matchmaker.MatchMaker.ScheduleTuples | prologin/matchmaker/matchmaker.py:317-325 | existing items are kept, every new id points at a new item, and the new items are exactly the matches of the tuples holding a new champion, in order |
| Matchmaker.MatchMaker.NewChampionsWatch | prologin/matchmaker/matchmaker.py:329-347 | corrected (over the index of MakeMatches): matches of champions that left are cancelled, matches of newcomers made, and the latest champions become the current ones |
| Matchmaker.NewMatchesHaveNewcomer | prologin/matchmaker/matchmaker.py:317-325 | every match made holds a new champion, and none is cancelled |
| Matchmaker.NewMatchesComplete | prologin/matchmaker/matchmaker.py:317-325 | every tuple holding a new champion gets all its matches made: with maps in use, a match on every map; without, the bare match |
| Matchmaker.Missing | prologin/matchmaker/matchmaker.py:239-248 | each desired match occurs as many times as it is desired minus the times it exists, never fewer than zero |
| Matchmaker.MissingFrom | prologin/matchmaker/matchmaker.py:248 | the elements of a counter, grouped by first occurrence, each as many times as counted |
| Passwd.ParseUser | python-lib/prologin/udbsync_clients/passwd.py:99-109 | a passwd line is login, password, uid, gid, a name that may hold colons, then non-empty home and shell; anything else is none |
| Passwd.ParseShadow | python-lib/prologin/udbsync_clients/passwd.py:121-123 | a shadow line is a login, a colon and the rest |
| Passwd.AddMember | python-lib/prologin/udbsync_clients/passwd.py:139-143 | adding to a set: the member is in it afterwards and nothing else is added |
| Passwd.Members | python-lib/prologin/udbsync_clients/passwd.py:139-143 | the members are the non-empty comma-separated parts, each once |
| Passwd.MembersElements | python-lib/prologin/udbsync_clients/passwd.py:139-143 | a name is a member exactly when it is a non-empty part |
| Passwd.ParseGroup | python-lib/prologin/udbsync_clients/passwd.py:133-144 | a group line is name, password, gid and a member list of allowed characters; anything else is none |
| Passwd.UserLineFields | python-lib/prologin/udbsync_clients/passwd.py:224-228 | the fields of a written passwd line, the name split at its colons |
| Passwd.ParseUserLine | python-lib/prologin/udbsync_clients/passwd.py:224-228 | a written passwd line reads back as the user it was written from |
| Passwd.ParseShadowLine | python-lib/prologin/udbsync_clients/passwd.py:239 | a written shadow line reads back as its login and the rest |
| Passwd.MembersOfDistinct | python-lib/prologin/udbsync_clients/passwd.py:139-143 | distinct non-empty names are their own member set |
| Passwd.MemberListField | python-lib/prologin/udbsync_clients/passwd.py:244-247 | a joined member list has no colon and is a valid member field |
| Passwd.MembersOfJoin | python-lib/prologin/udbsync_clients/passwd.py:139-143 | the member list of a written group line reads back as written |
| Passwd.ParseGroupLine | python-lib/prologin/udbsync_clients/passwd.py:243-249 | a written group line reads back as the group, members in the order written |
| Passwd.PasswdUsers | python-lib/prologin/udbsync_clients/passwd.py:95-115 | the users outside Prologin's uid range by login, the last line of a login winning; none when a line does not parse |
| Passwd.PasswdUsersKept | python-lib/prologin/udbsync_clients/passwd.py:110-111 | every line with a uid outside Prologin's range has its login in the table |
| Passwd.ShadowPasswords | python-lib/prologin/udbsync_clients/passwd.py:117-127 | the rest of each shadow line by login; none when a line does not parse |
| Passwd.ShadowPasswordsKept | python-lib/prologin/udbsync_clients/passwd.py:121-123 | every line of /etc/shadow has its login in the table |
| Passwd.GroupsOf | python-lib/prologin/udbsync_clients/passwd.py:129-148 | the groups by name; none when a line does not parse |
| Passwd.GroupsOfUnparsable | python-lib/prologin/udbsync_clients/passwd.py:145-148 | a line of /etc/group that does not parse stops the reading |
| Passwd.GroupsOfParsed | python-lib/prologin/udbsync_clients/passwd.py:129-148 | /etc/group is read when every line parses |
| Passwd.ResetGroupStep | python-lib/prologin/udbsync_clients/passwd.py:151-159 | resetting one group empties or creates it and changes no other |
| Passwd.ResetGroupsSpec | python-lib/prologin/udbsync_clients/passwd.py:150-159 | both Prologin groups are present and empty, an existing one keeps its gid, a new one gets its own, no other group changes |
| Passwd.UserGroups | python-lib/prologin/udbsync_clients/passwd.py:166-171 | the groups each user type joins, the first giving the primary gid; an unknown type is none |
| Passwd.AddToGroup | python-lib/prologin/udbsync_clients/passwd.py:195-196 | the login joins the named group and no other group changes |
| Passwd.JoinAll | python-lib/prologin/udbsync_clients/passwd.py:195-196 | the login is added to each group of the list, in order |
| Passwd.AddUser | python-lib/prologin/udbsync_clients/passwd.py:165-196 | the passwd and shadow entries filed under the key and the login added to its groups; none for an unknown type |
| Passwd.AddUsers | python-lib/prologin/udbsync_clients/passwd.py:165-196 | the database users added in order; none when one has an unknown type |
| Passwd.AddUsersUnknownType | python-lib/prologin/udbsync_clients/passwd.py:171 | a database user of an unknown type stops the rebuild |
| Passwd.AddUsersKnownTypes | python-lib/prologin/udbsync_clients/passwd.py:165-196 | the database users are all added when every one has a known type |
| Passwd.AddToGroupMembers | python-lib/prologin/udbsync_clients/passwd.py:196 | adding a login makes it a member of that group and changes no other group |
| Passwd.JoinAllMembers | python-lib/prologin/udbsync_clients/passwd.py:195-196 | adding a login to a list of groups makes it a member of those and changes no other |
| Passwd.AddUserMembers | python-lib/prologin/udbsync_clients/passwd.py:165-196 | one database user becomes a member of exactly the groups its type joins |
| Passwd.AddUsersMembers | python-lib/prologin/udbsync_clients/passwd.py:165-196 | afterwards a group's members are those it had plus the users whose type joins it: everyone joins `user`, `orga` and `root` users also `orga` |
| Passwd.AddUsersEntries | python-lib/prologin/udbsync_clients/passwd.py:172-193 | each database user gets the passwd entry of its type with its home and its first group's gid, and a shadow entry with its hash, under its key |
| Passwd.AddUsersOthers | python-lib/prologin/udbsync_clients/passwd.py:165-193 | entries under keys that are not the database's stay as they were |
| Passwd.ReadFiles | python-lib/prologin/udbsync_clients/passwd.py:95-159 | the three files read and Prologin's groups reset; the first file with a bad line stops the reading |
| Passwd.CheckLogins | python-lib/prologin/udbsync_clients/passwd.py:198-211 | the rebuild goes on only when passwd and shadow have the same logins; otherwise it names the excess, shadow side first |
| Passwd.Merge | python-lib/prologin/udbsync_clients/passwd.py:88-211 | the three files read, groups reset, database users added, logins compared |
| Passwd.SortedUsers | python-lib/prologin/udbsync_clients/passwd.py:215-216 | the passwd entries in order of uid, a permutation of them |
| Passwd.SortedGroups | python-lib/prologin/udbsync_clients/passwd.py:218-219 | the groups in order of gid, a permutation of them |
| Passwd.SortedMembers | python-lib/prologin/udbsync_clients/passwd.py:245-247 | a group's members in order of uid |
| Passwd.ShadowFile | python-lib/prologin/udbsync_clients/passwd.py:232-239 | the shadow entry of each user in order, those without one skipped |
| Passwd.KnownPrefix | python-lib/prologin/udbsync_clients/passwd.py:241-250 | the number of groups before the first with a member that has no passwd entry |
| Passwd.GroupFileAsWritten | python-lib/prologin/udbsync_clients/passwd.py:241-250 | as written: the lines before the first group with an unknown member, and whether writing completed |
| Passwd.UnknownMembers | python-lib/prologin/udbsync_clients/passwd.py:246 | the members with no passwd entry |
| Passwd.Generate | python-lib/prologin/udbsync_clients/passwd.py:88-250 | corrected: unknown members stop the rebuild with the other checks, before anything is written |
| Passwd.PasswdUnparsableAborts | python-lib/prologin/udbsync_clients/passwd.py:112-115 | a bad /etc/passwd line stops the rebuild before anything is written |
| Passwd.ShadowUnparsableAborts | python-lib/prologin/udbsync_clients/passwd.py:124-127 | so does a bad /etc/shadow line, once /etc/passwd is read |
| Passwd.GroupUnparsableAborts | python-lib/prologin/udbsync_clients/passwd.py:145-148 | and a bad /etc/group line, once the other two are read |
| Passwd.MergeKeepsSystemUsers | python-lib/prologin/udbsync_clients/passwd.py:110-111 | a user outside Prologin's uid range keeps its entry unless the database has that login |
| Passwd.MergeDropsProloginUsers | python-lib/prologin/udbsync_clients/passwd.py:165-178 | the entries left in Prologin's uid range are the database's |
| Passwd.MergeMembers | python-lib/prologin/udbsync_clients/passwd.py:150-196 | Prologin groups hold exactly the database users their type sends there; other groups keep their members |
| Passwd.AddUsersKeyed | python-lib/prologin/udbsync_clients/passwd.py:165-178 | adding database users keyed by login keeps the table keyed by login |
| Passwd.ShadowFileAligned | python-lib/prologin/udbsync_clients/passwd.py:222-239 | with a shadow entry for every user, /etc/shadow has one line per user in the order of /etc/passwd |
| Passwd.MergeShadowAligned | python-lib/prologin/udbsync_clients/passwd.py:198-239 | when the rebuild goes ahead, every user written has a shadow entry under its login |
| Passwd.SortedGroupsKnown | python-lib/prologin/udbsync_clients/passwd.py:218-246 | the sorted groups all have known members exactly when the table's groups do |
| Passwd.GenerateAgrees | python-lib/prologin/udbsync_clients/passwd.py:88-250 | when every member has a passwd entry, the rebuild as written and the corrected one do the same |
| Passwd.UnknownMemberCutsGroupFile | python-lib/prologin/udbsync_clients/passwd.py:241-250 | a member without a passwd entry fails the source after /etc/passwd and /etc/shadow are written, cutting /etc/group short; the corrected rebuild writes nothing |
| Passwd.AudioMemberEmptiesGroupFile | python-lib/prologin/udbsync_clients/passwd.py:241-250 | `audio:x:92:bob` with no `bob`: the source writes empty /etc/passwd, /etc/shadow and /etc/group; the corrected one writes nothing |
| PasswdCallback.ReadPasswd | python-lib/prologin/udbsync_clients/passwd.py:95-115 | the loop over /etc/passwd computes `PasswdUsers` |
| PasswdCallback.ReadShadow | python-lib/prologin/udbsync_clients/passwd.py:117-127 | the loop over /etc/shadow computes `ShadowPasswords` |
| PasswdCallback.ReadGroups | python-lib/prologin/udbsync_clients/passwd.py:129-148 | the loop over /etc/group computes `GroupsOf` |
| PasswdCallback.ResetProloginGroups | python-lib/prologin/udbsync_clients/passwd.py:150-159 | the loop gives the reset the model specifies |
| PasswdCallback.JoinGroups | python-lib/prologin/udbsync_clients/passwd.py:195-196 | the loop computes `JoinAll` |
| PasswdCallback.AddUdbUsers | python-lib/prologin/udbsync_clients/passwd.py:161-196 | the loop computes `AddUsers` |
| PasswdCallback.WritePasswd | python-lib/prologin/udbsync_clients/passwd.py:222-230 | the loop writes `PasswdFile` |
| PasswdCallback.WriteShadow | python-lib/prologin/udbsync_clients/passwd.py:232-239 | the loop writes `ShadowFile` |
| PasswdCallback.WriteGroups | python-lib/prologin/udbsync_clients/passwd.py:241-250 | the loop writes `GroupFileAsWritten` and says whether every group was written |
| PasswdCallback.Callback | python-lib/prologin/udbsync_clients/passwd.py:88-250 | the files the callback leaves are those `GenerateAsWritten` gives |

## Left out

- Concurrency: asyncio tasks, coroutines and the event loop are run one step at a time, in program order.
- Interleavings between concurrent coroutines are not modelled.
- Persistence: database queries and writes (Django ORM, the contest database of the master and matchmaker) are modelled as values passed in or as lists of recorded calls.
- File, socket and HTTP I/O are modelled as sequences or maps passed in and returned. Logging, metrics and monitoring probes are not modelled.
- Effects outside the program are parameters: `time.time()`, `time.monotonic()` and today's date, the HMAC of the RPC layer, `crypt`/`openssl passwd`, `pwgen`, `shlex.split`, `run_command`, `pwd.getpwnam` and the `ipaddress` parse.
- Python sets iterate in an unspecified order. Where the source iterates over a set, the model takes any order and its contracts hold for every order.
- Strings: `str.lower`, `str.strip`, and `str.title` are ASCII-only.
- BatchImport.MakeAscii: the NFKD normalisation of `make_ascii` is not modelled: non-ASCII characters are dropped without first being decomposed (so `é` gives nothing rather than `e`).
- WorkerNode.ScoreLine: `\d` of the score regular expression matches ASCII digits only; Python's `\d` on `str` also matches other Unicode decimal digits.
- Passwd.ParseUser: uid and gid are read as ASCII digits only. The `\d` of `USER_PATTERN` and `int()` also accept other Unicode decimal digits (for example fullwidth ones), so a line the source parses can make the model's `PasswdUsers` return none and the rebuild abort.
- Passwd.ParseGroup: the gid is read as ASCII digits only. The `\d` of `GROUP_PATTERN` and `int()` also accept other Unicode decimal digits, so a line the source parses can make the model's `GroupsOf` return none and the rebuild abort.
- Matchmaker.MatchMaker.MakeMatches: indexes each match under its champions by identity, as the corrected row of "## Findings" for matchmaker.py:72-73 does. As written, a match equal in value to one already indexed is not added (`AddToByValue`, `ByValueCancelMisses`).
- Matchmaker.MatchMaker.NewChampionsWatch: cancels over the corrected index of MakeMatches. As written, a repeated match of a champion that left can stay live in the queue (`ByValueCancelMisses`).
- MdbDns.ZoneDirectory.UpdateDnsConfig: builds the user reverse zone with the corrected `ReverseMachines`, which adds the organizers' machines. As written, mdbdns.py:79-81 adds none (`ReverseMachinesAsWritten`, `OrgaLeftOutAsWritten`).
- Common.ParseInt: accepts optional surrounding whitespace, a sign and ASCII digits. Underscores and non-ASCII digits, which Python's `int()` also accepts, are not modelled.
- Sorting.SortBy: is proved ordered and a permutation of its input, not stable. Python's `list.sort` is also stable.
- Passwd.AddToGroup: is total; a missing group leaves the table unchanged. The groups it is called on are the Prologin groups just reset, so the source's KeyError cannot arise there.
- StechecModels.StripAnsi: is stated by its plain-text, prefix and code-dropping lemmas, without a multiset bound on what it keeps.
- The stechec language table's other entries and the compilation log are not modelled. The team-specific views are not modelled.
- `Tournament.DoesNotExist` and `sys.exit` in the round-robin commands are error results. The launch command's confirmation prompt and printing are not modelled.
- `reload_zones` (an `rndc` call) is not modelled. Zone files are a map from zone name to text.
- batchimport: the reading of the input file and the printing are not modelled.
- batchimport: `u.save()` is not modelled, and neither are the database's uniqueness constraints beyond the login uniqueness the command itself ensures.
- Ansible module: the HTTP query to the MDB is a parameter.
- Ansible module: `fail_json` messages are modelled by kind; only the failing command's message is modelled in full.
- Ansible module: a field missing from the MDB record (a KeyError) counts as a mismatch.
- Ansible module: AnsibleModule's argument validation is taken as given (`ValidParams`).
- Cache: times are reals. The wrapped function is pure, with `None` standing for an exception. Keyword arguments and `functools.wraps` are not modelled.
- Master.MasterNode.DispatchTasks: states the placement order and the stop when no worker has room. It does not state the per-worker slot arithmetic after each placement. `Master.Place` states that arithmetic for one step. It does not state that the tasks after the stop are left untouched.
- Master.MasterNode.DispatchTasks: the `execute` coroutines of the placed tasks run together once the loop ends (`asyncio.wait`). The model runs each one when its task is placed, so the "pending" writes come in placement order. In the source their order, and whether a match's write comes before another task's RPC call, depends on the event loop.
- Master.MasterNode.ResubmitTimeoutTasks: the re-executions are scheduled with `asyncio.create_task` and run after the method returns. The model runs each one in the first loop, so its "pending" write comes before every "failed" write. In the source that order depends on the event loop.
- Master.ExecuteCalls: a compilation's `execute` reads its `champion.tgz` archive and then calls `compile_champion`. The model takes the read to succeed. A failing `compile_champion` call is not modelled: it raises out of the coroutine after the "pending" write and sets no error on the task.
- Master.ExecuteCalls: the outcome of each match's `run_match` call is an input (`rpcErrors`, one entry per task); only the calls' success or their error message is modelled.
- Master.MasterNode.ResubmitTimeoutTasks: is modelled as `ResubmitWorker`, which runs `ResubmitEach` (one `Resubmit` per task) and then `FailTasks`, in the source's order.
- prologin/masternode/master.py expects worker methods that python-lib/prologin/masternode/worker.py lacks. It calls `get_compilation_task`, `get_match_task` and `tasks.discard`, and passes a task object to `remove_*_task`. The model looks tasks up and removes them by id, as the master intends.
- python-lib/prologin/workernode/worker.py passes a `file_opts` argument to `spawn_server` and `spawn_client` that operations.py does not take. The model drops it.
- Tools.Communicate: writing `data` to the process's stdin and the `coro_timeout` of `add_coro_timeout` are not modelled: the process's output is a pipe given in full, and the timeout belongs to the event loop.
- WorkerNode.Worker: `update_master` and `send_heartbeat`, the RPC calls that report the worker's slots to the master, are not modelled: they are network calls. Their receiving side is `Master.MasterNode.UpdateWorker` and `Master.MasterNode.Heartbeat`.
- Worker operations: `tar`/`untar`, `compile_champion` (a shell script) and `spawn_dumper` are not modelled.
- Rcon: decoding the payload with the client's charset is not modelled; payloads stay bytes.
- Matchmaker: the database parts of `bootstrap` and `cancel_matches` are not modelled: the champion queries, the changes to the tournament's players and the cancelling of matches already created. `bootstrap`'s missing-match computation is modelled (`Matchmaker.Missing`).
- Matchmaker: `match_limit_reached()` is one boolean per call of `create_matches`, because nothing in its loop changes the database.
- Synchronisation: the server's retry loop around `get_initial_backlog` is not modelled, and neither is the HTTP transport of updates.

## Findings

| source | as written | input that shows it | evidently intended | confidence | as-written member | corrected member |
|---|---|---|---|---|---|---|
| python-lib/prologin/synchronisation.py:190 | a delete removes `state[self.pk]`, the key named after the primary-key field, which raises KeyError | records keyed by `mac`, state `{"aa:bb": {mac: "aa:bb"}}`, update `delete {mac: "aa:bb"}` | remove `state[data[self.pk]]`, the deleted record | not executed | Synchronisation.DeleteAsWrittenFails | Synchronisation.DeleteRemoves |
| prologin/matchmaker/matchmaker.py:72-73 | value-equal match items collapse in the per-champion sets, so cancelling a champion leaves the later copies queued | maps in use and `match_repeat` = 2: the two copies of a match compare equal | every scheduled copy indexed and cancelled | not executed | Matchmaker.ByValueCancelMisses | Matchmaker.CancelConsistent |
| python-lib/prologin/workernode/tools.py:69-70 | `communicate` passes `truncate_message=''` on, so its own message is dropped | output longer than `max_len` with a non-empty `truncate_message` | the caller's truncate message appended | not executed | Tools.TruncateMessageDropped | Tools.Communicate |
| python-lib/prologin/udbsync_clients/passwd.py:245-247 | a group member without a passwd entry raises KeyError after /etc/passwd and /etc/shadow are written, and the partial /etc/group is still moved into place | an /etc/group line `audio:x:92:bob` with no user `bob` | the rebuild stops before anything is written | not executed | Passwd.AudioMemberEmptiesGroupFile | Passwd.GenerateAgrees |
| python-lib/prologin/concours/stechec/languages.py:12 | Haskell is listed with the `.php` extension | a Haskell champion's `.hs` source | the `.hs` extension | not executed | StechecModels.HaskellSourceHidden | StechecModels.HaskellSourceShown |
| dns/mdbdns.py:79-81 | organiser machines are added to the user reverse zone from a list already filtered to users, so they never appear | one `orga` machine | organiser machines in the user reverse zone | not executed | MdbDns.OrgaReverseCounterexample | MdbDns.ReverseMachinesSpec |
| python-lib/prologin/presencesync/server.py:296 | `remove_and_publish_expired(self)` passes `self` twice, so the unused `update_with_heartbeat` would raise TypeError on any call; the heartbeat handler calls `update_backlog` directly and is not affected | any call of `update_with_heartbeat` | the expired entries removed, then the login recorded | not executed | PresenceSync.HeartbeatNeverRecorded | PresenceSync.PresenceQueue.UpdateWithHeartbeat |
