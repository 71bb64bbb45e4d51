# Verified model of the agent's core

This project models the self-contained algorithms and state machines of the PHP agent and of the official detection
plugin, and proves what they promise. Each module is one component; loops over mutable state are methods with loops,
objects whose methods update their fields are classes, and each of these is proved against a specification whose
meaning is then proved in lemmas.

| module | component |
|---|---|
| `Options` | optional values, shared by the other modules |
| `LongestCommonSubstring` | the longest-common-substring table with two rolling rows |
| `PgConninfo` | the connection string parser that unescapes inside its own buffer |
| `PgLayout` | what texts the parser reads, and as what |
| `LruCache` | the list of recent checks with its map of iterators, on heap nodes |
| `PathRewrite` | `replaceAll`, path simplification and the traversal tests built on it |
| `TokenSpan` | the search for the tokens that a user input crosses |
| `ParameterMerge` | flattening of headers, cookies and JSON into one parameter object |
| `MergeInputs` | how often each header, cookie and string counts in it |
| `ConfigHandover` | the configuration's way from the heartbeat process to the PHP workers, as interleaved steps |
| `ConfigFallback` | when a worker can fall back to an older configuration |
| `TokenBucket` | the rate limit of a logger |
| `LogLines` | reading log lines and making a body of them |
| `LogShipping` | posting and acknowledging log lines and saving the offset, turn by turn |
| `LogDelivery` | that no line is lost once it is read, and the file is read to its end |
| `LogRotation` | the daily change of the log file, and when a line is acknowledged twice |
| `Whitelist` | hook whitelist names as bit masks over URL prefixes |
| `IniBlock` | the installer's and the uninstaller's edit of php.ini |
| `Supervisor` | forking, recording and reaping of the agent processes, with the SIGCHLD handler interleaved |
| `Checksums` | bank card and identity card check digits |

## Where the code does not do what one would expect

Each of these is a lemma with a concrete input, or an exact condition for all inputs.

- `TokenSpan`: when no token stops at or after the end of the input, the span is counted one too long. Exactly which calls
  answer wrongly for it, and which read a token that does not exist, is `PromiseKept`, `SqlPromiseKept` and
  `MissingTokenRead`; `TrailingComment` is an input for both.
- `PathRewrite`: because of its moving index the rewriter can leave a match. A replacement without a match of its own
  leaves none in any text exactly when no overlap of pattern and replacement clashes (`ReplaceAllLeavesNone`), which holds
  for all uses in the modelled code (`SteadyRounds`); `UnsteadyRoundsMayLeaveAMatch` is one that clashes. A replacement that
  starts with its pattern never ends on a text that has a match (`NeverStops`).
- `PgConninfo`: an unquoted empty value swallows the item after it (`EmptyValueSwallows`); unquoted pairs are read back
  exactly when no value but the last is empty (`PrintedUnquotedParsesBack`, `PrintAndParse`).
- `ParameterMerge`: without a parameter object the merged one is not attached, so a second call is empty. It equals the
  first exactly when there is such an object or no input (`MergeTwice`, `AnswersDiffer`). A header named `Cookie` without
  a lower-case `cookie` entry throws (`Context.AddHeaders`).
- `ConfigHandover`: a backend time that goes backwards can leave a stamp above the held version; no run does so exactly
  when the backend's times never decrease (`StampPromise`, `BackwardTimeBreaksStamp`). It can also make a worker fall back
  to an older version; no run does so exactly when the times make no peak (`HeldPromise`, `PeakLowersHeld`).
- `ConfigHandover`: a file that could be opened but not written to its end is published all the same, and then workers
  that hold something older cannot catch up until something new is written (`OneRequestSuffices`, `TornLeavesBehind`).
- `TokenBucket`: the refill is truncated to a 32-bit `int`. The bound on the messages that pass holds all the same
  (`AdmittedBound`); that a message passes after a quiet minute holds exactly when what is due, truncated, is positive
  (`AdmitsExactly`, `QuietMinuteAdmits`), and `OverflowStarves` is a run in which it is not.
- `LogLines`: the line that stops a filling is consumed and never posted (`GatherDropsOneLine`).
- `LogRotation`: a rotation is due by the zone offset of the agent's start and goes to the date of the zone in force. When
  it returns to a file already read, its lines are acknowledged again, and only then (`OnceExactly`); the end of daylight
  saving does that (`FallBack`). A turn that runs over midnight hides the new day (`MidnightTurn`, `DayIsSkipped`).
- `Whitelist`: `*` and the empty key are the same trie key, and the empty one wins (`StarIsShadowed`).
- `IniBlock`: a file without marker lines is restored exactly when it is empty or ends in a newline (`RoundTrip`), and a
  second install replaces the first under a like condition (`Reinstall`).
- `Supervisor`: a child that exits and is reaped between fork and record leaves a record that keeps its role without a
  process (`StaleChanges`, `StaleStarves`, `LateRecord`).

## Model

| member | source | states |
|---|---|---|
| `LongestCommonSubstring.CellIsLongestCommonSuffix` | plugins/official/plugin.js:1348-1362 | a table cell is the length of the longest common suffix of two prefixes, characterised for every length at once |
| `LongestCommonSubstring.ScanCell` | plugins/official/plugin.js:1351-1359 | filling one cell keeps what the maximum and the list of start places mean, in each of the cases new maximum, equal, smaller |
| `LongestCommonSubstring.FillRow` | plugins/official/plugin.js:1347-1363 | one row filled in place from the row above: exactly the cells of that row, and the start places so far |
| `LongestCommonSubstring.FillTable` | plugins/official/plugin.js:1336-1372 | the two buffers that change places after each row agree with the full table |
| `LongestCommonSubstring.StartsAreCommonPieces` | plugins/official/plugin.js:1351-1359 | after the table, a place is listed exactly when the piece of the first string there, of the best length, occurs in the second |
| `LongestCommonSubstring.NothingLonger` | plugins/official/plugin.js:1353-1355 | no common substring is longer than the best cell |
| `LongestCommonSubstring.SetOfStarts` | plugins/official/plugin.js:1373 | putting the places in a `Set` keeps each once, ascending |
| `LongestCommonSubstring.SetOfPieces` | plugins/official/plugin.js:1374-1378 | the pieces at the places, each once, in the order of their first occurrence |
| `LongestCommonSubstring.LcsSearch` | plugins/official/plugin.js:1333-1379 | the result lists exactly the common substrings of maximal positive length, each once, ordered by first occurrence in the first string |
| `LongestCommonSubstring.NothingCommon` | plugins/official/plugin.js:1333-1379 | there is no longest common substring exactly when the strings share no character |
| `PgConninfo.SkipSpacesInPlace` | agent/php5/hook/openrasp_pgsql_utils.cc:69-76 | the white space loop stops where the grammar says, inside the buffer |
| `PgConninfo.ReadKeyword` | agent/php5/hook/openrasp_pgsql_utils.cc:39-60 | the keyword loop leaves the keyword in the buffer, ended by its first white space or by `=`, and stands behind the white space |
| `PgConninfo.CopyDown` | agent/php5/hook/openrasp_pgsql_utils.cc:94-99 | a copied byte lands at or before its own place, so no unread byte changes and nothing before the value changes |
| `PgConninfo.CopyEscaped` | agent/php5/hook/openrasp_pgsql_utils.cc:89-96 | a backslash keeps the character after it, and at the end of the text copies nothing |
| `PgConninfo.ReadUnquoted` | agent/php5/hook/openrasp_pgsql_utils.cc:79-103 | the unquoted value is unescaped in place to the grammar's value, terminated, with the rest of the text unread |
| `PgConninfo.ReadQuoted` | agent/php5/hook/openrasp_pgsql_utils.cc:104-132 | the quoted value likewise; it fails exactly when the grammar finds no closing quote |
| `PgConninfo.ReadItem` | agent/php5/hook/openrasp_pgsql_utils.cc:39-132 | one item: success exactly when the grammar accepts it, with both strings standing in the buffer |
| `PgConninfo.PairIsDelivered` | agent/php5/hook/openrasp_pgsql_utils.cc:134-137 | the two C strings at the pointers handed to the callback are the item's name and value |
| `PgConninfo.PgConninfoParse` | agent/php5/hook/openrasp_pgsql_utils.cc:20-141 | the callback receives exactly the pairs of the pure grammar, whose texts `PgLayout` describes, up to the first malformed item, in order; nothing for a null string or no callback |
| `PgConninfo.PrintedQuotedParsesBack` | agent/php5/hook/openrasp_pgsql_utils.cc:20-141 | printing any list of pairs in quotes and parsing gives back the same list |
| `PgConninfo.PrintedUnquotedParsesBack` | agent/php5/hook/openrasp_pgsql_utils.cc:79-103 | printing without quotes and parsing gives the pairs back exactly when no value but the last is empty |
| `PgConninfo.EmptyValueSwallows` | agent/php5/hook/openrasp_pgsql_utils.cc:69-78 | after an item with an empty unquoted value another item follows: the two pairs are not read back, whatever comes behind them |
| `PgConninfo.PrintAndParse` | agent/php5/hook/openrasp_pgsql_utils.cc:20-141 | the in-place parser run on printed text stores the printed pairs exactly when they are quoted or no value but the last is empty |
| `PgLayout.ParsesLayout` | agent/php5/hook/openrasp_pgsql_utils.cc:20-141 | the grammar from outside: a text laid out as names, white space wherever the code allows it, `=`, quoted or bare values and any ending parses to exactly these names and values, completely exactly when nothing but white space is left at the end; a name followed by white space and no `=` delivers nothing more |
| `PgLayout.EveryTextIsLaid` | agent/php5/hook/openrasp_pgsql_utils.cc:20-141 | every text has such a layout, so nothing else is ever delivered |
| `PgLayout.DeliversEntries` | agent/php5/hook/openrasp_pgsql_utils.cc:20-141 | the in-place parser delivers the entries of a layout of its text, and no name contains white space or `=` |
| `LruCache.LRU.Reorder` | agent/php5/openrasp_lru.h:25-36 | moves an item to the front, or right after an insertion beyond the limit drops the last one, in list and map alike |
| `LruCache.LRU.Get` | agent/php5/openrasp_lru.h:41-54 | a hit is moved to the front and returned, a miss changes nothing |
| `LruCache.LRU.Set` | agent/php5/openrasp_lru.h:55-78 | the new list is the specified one in all cases: limit 0, overwriting, inserting, inserting with eviction |
| `LruCache.LRU.Contains` | agent/php5/openrasp_lru.h:80-83 | answers membership and, going through `get`, also makes the entry the most recent one |
| `LruCache.LRU.Clear` | agent/php5/openrasp_lru.h:88-92 | empties list and map and keeps the limit |
| `LruCache.LRU.Reset` | agent/php5/openrasp_lru.h:93-97 | empties list and map and sets the limit |
| `LruCache.LRU.Lookup` | agent/php5/openrasp_lru.h:44-48 | the map has a hash exactly when the list has it, and its iterator leads to the item that stands there |
| `LruCache.StepFollows` | agent/php5/openrasp_lru.h:41-97 | every operation keeps the list equal to the first `max` hashes of the recency order with their last written values |
| `LruCache.RunFollows` | agent/php5/openrasp_lru.h:39-97 | so does every run of operations from a new cache |
| `LruCache.CachedExactlyWhenRecent` | agent/php5/openrasp_lru.h:39-97 | after any run a hash is cached exactly when it was touched since the last reset and fewer than `max` others were after it; its value is the last written one and the size stays within `max` |
| `LruCache.Replay` | agent/php5/openrasp_lru.h:19-97 | a new cache object on which any calls are made, one after the other, ends with the contents of the run |
| `LruCache.IsCached` | agent/php5/openrasp_lru.h:80-83 | what such an object answers for a key, said of the history alone |
| `PathRewrite.ReplaceAll` | plugins/official/plugin.js:838-859 | the do/while rewriter with its length limit: whenever the rounds end, it ends with what they leave |
| `PathRewrite.NeverStops` | plugins/official/plugin.js:854-856 | a replacement that starts with the pattern goes on for ever on a text that has a match |
| `PathRewrite.ShrinkingStops` | plugins/official/plugin.js:854-856 | a replacement that shortens the text, or removes a character, ends on every text |
| `PathRewrite.StoppedIsRewrite` | plugins/official/plugin.js:851-858 | if no match is left, the rounds were leftmost replacement until nothing matches |
| `PathRewrite.NoClashMeans` | plugins/official/plugin.js:854-856 | no replacement makes a match before its own place, in any text, exactly when none of the finitely many overlaps of pattern and replacement clashes |
| `PathRewrite.RoundsMissNone` | plugins/official/plugin.js:851-858 | then the moving search index misses nothing: whenever the rounds end, no match is left |
| `PathRewrite.ReplaceAllLeavesNone` | plugins/official/plugin.js:851-858 | without a clash the rounds leave no match in any text on which they end; for a replacement without a match of its own that holds exactly when no overlap clashes |
| `PathRewrite.SteadyRounds` | plugins/official/plugin.js:851-858 | the replacements the plugin makes are of that kind |
| `PathRewrite.UnsteadyRoundsMayLeaveAMatch` | plugins/official/plugin.js:854-856 | one that clashes: `aab` to `a` leaves a match in `aabaaabb` |
| `PathRewrite.NamingKeeps` | plugins/official/plugin.js:1152-1156 | what a path names: empty segments and `.` are dropped wherever they stand, every other one stays at its place |
| `PathRewrite.RewriteKeepsPath` | plugins/official/plugin.js:1152-1156 | removing doubled separators or `/./` keeps first and last character and the sequence of names |
| `PathRewrite.RewriteDotMakesNoDouble` | plugins/official/plugin.js:1155-1156 | the second pass does not bring doubled separators back |
| `PathRewrite.RewriteIsMapChar` | plugins/official/plugin.js:1149-1151 | replacing one separator by the other everywhere is the character-wise map |
| `PathRewrite.SimplifiedIsSimplest` | plugins/official/plugin.js:1152-1156 | both passes together yield a text with neither pattern and the same path |
| `PathRewrite.SimplifiedTwice` | plugins/official/plugin.js:1152-1156 | simplifying twice is simplifying once |
| `PathRewrite.SimplifyPath` | plugins/official/plugin.js:1148-1157 | the code for both systems yields such a simplest form of its input, backslashes included on Windows |
| `PathRewrite.UpsAreDotDots` | plugins/official/plugin.js:872-876 | overlapping matches of `/../` in the padded path correspond one to one to its `..` segments |
| `PathRewrite.SplitBothSlashes` | plugins/official/plugin.js:872 | making backslashes slashes and splitting there is splitting at both kinds |
| `PathRewrite.HasTraversal` | plugins/official/plugin.js:869-884 | true exactly when the path has at least two `..` segments, split at both slashes |
| `PathRewrite.ParamHasTraversal` | plugins/official/plugin.js:887-896 | true exactly when it has at least one |
| `TokenSpan.FindStart` | plugins/official/plugin.js:1277-1290 | the first token that stops after the start of the input, or none |
| `TokenSpan.FindEnd` | plugins/official/plugin.js:1292-1313 | the last token the input reaches; without a token that stops at or after its end the value stays the number of tokens |
| `TokenSpan.SearchesFindSpan` | plugins/official/plugin.js:1277-1313 | for ordered tokens the two searches delimit exactly the tokens the input overlaps, up to that off-by-one |
| `TokenSpan.DiffIsReached` | plugins/official/plugin.js:1315 | the counted span against the number of overlapped tokens and of those that are no keywords |
| `TokenSpan.TwoNonKeywords` | plugins/official/plugin.js:1318-1325 | the scan answers whether two tokens of the span are no keywords, and reads past the list when it has to |
| `TokenSpan.IsTokenChanged` | plugins/official/plugin.js:1269-1330 | for ordered tokens, every distance and both modes the outcome in terms of overlapped tokens and non-keywords; false when no token stops after the start of the input, ordered or not |
| `TokenSpan.PromiseKept` | plugins/official/plugin.js:1315-1329 | outside SQL mode a call answers whether at least `distance` tokens overlap the input, except exactly when no token stops at or after the end of the input and just one overlapping token is missing |
| `TokenSpan.SqlPromiseKept` | plugins/official/plugin.js:1315-1329 | in SQL mode, with the demand for two non-keywords below ten tokens: exactly which calls answer it |
| `TokenSpan.MissingTokenRead` | plugins/official/plugin.js:1316-1325 | exactly which calls read a token that does not exist |
| `TokenSpan.TrailingComment` | plugins/official/plugin.js:1292-1325 | an input that runs from the last token into a removed trailing comment: a wrong verdict outside SQL mode, the missing token read in it |
| `ParameterMerge.NamesDiffer` | plugins/official/plugin.js:1416-1441 | for one kind and path different numbers give different names |
| `ParameterMerge.TakenNumbersFit` | plugins/official/plugin.js:1416-1418 | only as many consecutive numbers can be taken as the object has entries, so the counting loops end |
| `ParameterMerge.FreshNumber` | plugins/official/plugin.js:1416-1418 | the counting loop stops at the first number from its start on whose name is free |
| `ParameterMerge.GainsMeans` | plugins/official/plugin.js:1404-1448 | what merging means for a reader: old entries unchanged, and the new ones stand one to one for the inputs, each named and filled by its own |
| `ParameterMerge.ParameterObject.AddCookies` | plugins/official/plugin.js:1414-1420 | adds one fresh entry per cookie |
| `ParameterMerge.ParameterObject.AddMember` | plugins/official/plugin.js:1436-1445 | a string leaf becomes an entry, an object or array goes on the worklist, the rest is skipped; nothing is lost between the two |
| `ParameterMerge.ParameterObject.AddJson` | plugins/official/plugin.js:1429-1446 | the worklist loop ends and adds one fresh entry per string leaf of the tree |
| `ParameterMerge.Context.AddHeaders` | plugins/official/plugin.js:1411-1428 | adds the inputs that `HeadersCounted` counts; throws exactly when such a header has no lower-case cookie entry behind it |
| `ParameterMerge.Context.GetAllParameter` | plugins/official/plugin.js:1404-1448 | the first call gains exactly the multiset of inputs that `InputsCounted` counts, a later one changes nothing |
| `ParameterMerge.MergeTwice` | plugins/official/plugin.js:1405-1410 | a second call gives equal entries exactly when the context has a parameter object or there is no input; without the object the second answer is empty |
| `ParameterMerge.AnswersDiffer` | plugins/official/plugin.js:1405-1410 | a request with one JSON leaf and no parameter object: one entry in the first answer, none in the second |
| `MergeInputs.InputsCounted` | plugins/official/plugin.js:1404-1448 | how often each input of a context counts: a cookie once for each header named cookie, a header as often as it stands under a listed name, a string of the JSON tree once for each place |
| `MergeInputs.HeadersCounted` | plugins/official/plugin.js:1411-1428 | the part of headers and cookies, for every list of headers and cookies |
| `MergeInputs.EveryLeafOnce` | plugins/official/plugin.js:1429-1446 | the strings of a JSON tree, at any depth, are inputs once for each place, under the path of that place |
| `MergeInputs.DecimalReads` | plugins/official/plugin.js:1416-1417 | numbers in names are written in decimal, without leading zeros |
| `ConfigHandover.StepKeepsOk` | agent/php5/agent/heartbeat_agent.cc:151-206 | every step of writer or worker keeps the relation between file, published time, held version and stamp |
| `ConfigHandover.StepKeepsHeld` | agent/php5/openrasp_conf_holder.cc:23-40 | no step makes a worker hold an older version, a torn read included |
| `ConfigHandover.NeverStale` | agent/php5/openrasp.cc:311-319 | over all interleavings with non-decreasing backend times a stamp never exceeds the held version, which never goes backwards |
| `ConfigHandover.BackwardTimeBreaksStamp` | agent/php5/openrasp.cc:311-319 | whenever the backend answers a time and later an earlier one, some run over these answers ends with a stamp above the held version |
| `ConfigHandover.StampPromise` | agent/php5/openrasp.cc:311-319 | for every list of backend answers: in every state of every run over them no stamp exceeds the held version, exactly when the answers never decrease |
| `ConfigHandover.HeldNeverGoesBack` | agent/php5/openrasp_conf_holder.cc:23-40 | from the start, with answers that never decrease, no worker ever goes back to an older version |
| `ConfigHandover.OneRequestCatchesUp` | agent/php5/openrasp.cc:311-319 | once the writer is quiet and the file whole, a worker that starts one more request holds at least the published configuration whenever it serves after that |
| `ConfigHandover.TornLeavesBehind` | agent/php5/utils/file.cc:55-65 | when a published file was not written to its end, no request catches up, even if the backend repeats its answer |
| `ConfigHandover.OneRequestSuffices` | agent/php5/openrasp.cc:311-319 | from the start, with answers that never decrease and a quiet writer: after one more request a worker holds at least the published configuration exactly when the file is whole or it did before |
| `ConfigHandover.Host.UpdateConfig` | agent/php5/agent/heartbeat_agent.cc:151-210 | the heartbeat's own sequence is a run of writer steps, publishes and reports exactly when the file could be opened, and leaves it whole or torn |
| `ConfigHandover.Host.RequestStart` | agent/php5/openrasp.cc:311-319 | the request's own sequence is a run of that worker's steps, beginning with the check |
| `ConfigFallback.HeldPromise` | agent/php5/openrasp.cc:311-319 | for every list of backend answers: no step of any run over them makes a worker hold an older version, exactly when after an answer greater than an earlier positive one no smaller one comes |
| `ConfigFallback.PeakLowersHeld` | agent/php5/openrasp.cc:311-319 | wherever the answers make such a peak, some run makes a worker fall back |
| `TokenBucket.RaspLoggerEntry.Init` | agent/php5/openrasp_log.cc:216-228 | the first call fills the bucket and stamps it, later ones leave it |
| `TokenBucket.RaspLoggerEntry.ConsumeTokenIfAvailable` | agent/php5/openrasp_log.cc:296-321 | refill, test and consumption of one token with the truncation to a 32-bit `int`; a refused message costs nothing and moves no stamp |
| `TokenBucket.RaspLoggerEntry.Gate` | agent/php5/openrasp_log.cc:418-431 | a message stopped by folder or level costs no token |
| `TokenBucket.RefillExact` | agent/php5/openrasp_log.cc:300-308 | below the limit of a C `int` the refill is the mathematical one, capped at the burst |
| `TokenBucket.StampIsLastPassed` | agent/php5/openrasp_log.cc:316-319 | refills are counted from the last message that passed |
| `TokenBucket.AdmittedBound` | agent/php5/openrasp_log.cc:296-321 | over any run with a non-decreasing clock at most `maxburst * (1 + elapsed / 60000)` messages pass, and the tokens never exceed `maxburst`, whatever wraps |
| `TokenBucket.TokensAreConserved` | agent/php5/openrasp_log.cc:296-321 | over any run the tokens at the end are those at the start and the refills, less one for each message that passed |
| `TokenBucket.PassesTheTokens` | agent/php5/openrasp_log.cc:296-321 | within a minute of the last message that passed as many messages pass as there are tokens, and nothing is refilled |
| `TokenBucket.LogAll` | agent/php5/openrasp_log.cc:418-431 | messages logged one after the other through an entry are that run of its bucket |
| `TokenBucket.RunKeepsTokens` | agent/php5/openrasp_log.cc:296-321 | while the allowance fits in an `int` the tokens never fall below 0 |
| `TokenBucket.AdmitsExactly` | agent/php5/openrasp_log.cc:300-320 | more than 60000 ms after the last stamp, from any bucket, a message passes exactly when what is due, cut to an `int`, is positive; the refill is negative exactly when the cut leaves the non-negative half |
| `TokenBucket.QuietMinuteAdmits` | agent/php5/openrasp_log.cc:300-320 | the same for every run from a full bucket, and the message does pass while the allowance fits |
| `TokenBucket.OverflowStarves` | agent/php5/openrasp_log.cc:303-307 | a run from a full bucket of 2^20 after which, 2048 idle minutes later, no message passes and the bucket is negative |
| `LogLines.LineEndsFirst` | agent/php5/agent/log_collect_item.cc:206 | a line goes to the first newline behind its start, or to the end of the file |
| `LogLines.LineIs` | agent/php5/agent/log_collect_item.cc:206 | what stands before the first newline is the line, and the next starts right behind that newline |
| `LogLines.GatherTakesInOrder` | agent/php5/agent/log_collect_item.cc:206-219 | a filling takes qualified lines of the unread file, in order, at most 512 |
| `LogLines.GatherDropsOneLine` | agent/php5/agent/log_collect_item.cc:206-219 | a filling takes the next lines without a gap, and unless it reaches the end of the file consumes exactly one more line that is in no body |
| `LogLines.ClosedBody` | agent/php5/agent/log_collect_item.cc:204-225 | the bracketed lines with the last comma made a bracket are the comma-joined list, and nothing when there was no line |
| `LogLines.BodyHolds` | agent/php5/agent/log_collect_item.cc:204-225 | the body holds exactly the texts of its lines, in order, with one comma between them and brackets around them |
| `LogShipping.LogCollectItem.constructor` | agent/php5/agent/log_collect_item.cc:46-49 | an item without a status file starts at offset 0 with an empty body |
| `LogShipping.LogCollectItem.Resume` | agent/php5/agent/log_collect_item.cc:55-67 | an item with a status file starts at the saved offset of the saved day's file |
| `LogShipping.LogCollectItem.UpdateFpos` | agent/php5/agent/log_collect_item.cc:98-111 | the open file keeps its place; a new inode makes the stored offset 0 |
| `LogShipping.LogCollectItem.RefreshCacheBody` | agent/php5/agent/log_collect_item.cc:200-227 | an unsent body stays as it is; otherwise it becomes empty, or bracketed and comma-joined lines that the filling takes |
| `LogShipping.LogCollectItem.ClearCacheBody` | agent/php5/agent/log_collect_item.cc:229-233 | the posted lines become the acknowledged ones |
| `LogShipping.LogCollectItem.HandleRotate` | agent/php5/agent/log_collect_item.cc:246-266 | when a rotation is due, the file of the date takes the place of the active one and reading starts at 0 |
| `LogShipping.LogCollectItem.Round` | agent/php5/agent/log_agent.cc:74-98 | one turn of the loop is one step of the state, which loses nothing (`TurnLosesNone`): exactly when it posts, and what it has read, acknowledged and saved whether it does or not |
| `LogShipping.Run` | agent/php5/agent/log_agent.cc:66-99 | the object through any number of turns and restarts is in the state that the steps lead to, about which `LogDelivery` and `ReadOnce` speak |
| `LogShipping.StepSound` | agent/php5/agent/log_collect_item.cc:134-266 | every step keeps the lines read of each file in its order, the reading behind them and the saved offset behind the acknowledged ones, unless it rotates to a file already read |
| `LogShipping.StepGenuine` | agent/php5/agent/log_collect_item.cc:162-227 | every turn keeps the acknowledged lines qualified lines of their files, and the body made of such |
| `LogShipping.ReadOnce` | agent/php5/agent/log_agent.cc:66-99 | a run over growing files, restarts included, in which no rotation goes to a day already read acknowledges lines of the files, those of a day in the order of its file, none twice, and saves an offset behind them |
| `LogDelivery.TurnLosesNone` | agent/php5/agent/log_agent.cc:76-98 | no turn loses a line: what was acknowledged or in the body still is, in the same order, whatever the turn does |
| `LogDelivery.RunLosesNone` | agent/php5/agent/log_agent.cc:76-98 | neither does any run of one process |
| `LogDelivery.RunKeepsAcknowledged` | agent/php5/agent/log_agent.cc:66-99 | and over restarts what was acknowledged stays so |
| `LogDelivery.FailingKeepsBody` | agent/php5/agent/log_collect_item.cc:200-202 | while posts fail, for any number of turns, body, lines and saved offset stay as they are |
| `LogDelivery.PostTakesBody` | agent/php5/agent/log_agent.cc:84-90 | the first post that succeeds takes exactly that body, and the body is then empty |
| `LogDelivery.IdleReadsNothing` | agent/php5/agent/log_agent.cc:78-82 | an item that is not to collect, or has no file, reads and posts nothing in any run |
| `LogDelivery.ReadsToTheEnd` | agent/php5/agent/log_agent.cc:76-98 | with successful posts as many turns as there are characters left acknowledge every line that the fillings take, to the end of the file |
| `LogDelivery.StaysResumable` | agent/php5/agent/log_agent.cc:86-90 | unsent lines of the saved day stay behind the saved offset, so that a restart reads them again |
| `LogDelivery.RestartResumes` | agent/php5/agent/log_collect_item.cc:55-67 | a restart right after a post goes on where the turn had read to |
| `LogRotation.OneFile` | agent/php5/agent/log_agent.cc:66-99 | without a rotation the acknowledged lines are an in-order subsequence of the lines of the one file, without repeats |
| `LogRotation.OnceExactly` | agent/php5/agent/log_collect_item.cc:241-266 | for a collecting item and every list of days: no run that rotates to these days acknowledges a line twice, exactly when each of them is new when it comes |
| `LogRotation.ReturnRepeats` | agent/php5/agent/log_collect_item.cc:254-266 | wherever a rotation returns to a day, some run acknowledges a line twice |
| `LogRotation.FixedZoneOnce` | agent/php5/utils/time.cc:24-48 | while the clock does not go back and the zone stays the one the agent was loaded in, no line is acknowledged twice, restarts included |
| `LogRotation.FallBack` | agent/php5/agent/log_collect_item.cc:30 | after daylight saving ended: at 23:00 the agent rotates to the file it has read and acknowledges its line again |
| `LogRotation.MidnightTurn` | agent/php5/agent/log_collect_item.cc:241-253 | after a turn the active file is that of the day of its end exactly when the turn rotated or did not run over midnight |
| `LogRotation.DayIsSkipped` | agent/php5/agent/log_collect_item.cc:241-253 | after one that did, no turn on that day rotates, so that day's file is never read |
| `Whitelist.NamesAndTypes` | agent/php5/openrasp_check_type.cc:30-59 | looking a name up gives a type exactly when it is the registered name of that type |
| `Whitelist.OneType` | agent/php5/openrasp_hook.cc:426 | one shifted bit stands for one check type |
| `Whitelist.UnionTypes` | agent/php5/agent/shared_config_manager.cc:56 | a bitwise or of masks is the union of their types |
| `Whitelist.BuildMask` | agent/php5/agent/shared_config_manager.cc:95-107 | a list of names covers a check type in the mask exactly when it has its name or `all`; unknown names set only bit 0 |
| `Whitelist.BuildTable` | agent/php5/agent/shared_config_manager.cc:90-110 | the table has one mask per prefix, that of the first entry with it, `*` being the empty prefix |
| `Whitelist.KeysClash` | agent/php5/agent/shared_config_manager.cc:108 | only `*` and the empty key can meet, and then the empty key wins |
| `Whitelist.CombineMasks` | agent/php5/agent/shared_config_manager.cc:53-57 | the combined mask has a type exactly when the mask of some key that starts the URL has it |
| `Whitelist.CombinedMeans` | agent/php5/agent/shared_config_manager.cc:53-57 | seen from the configuration: exactly when some effective configured prefix of the URL lists the type |
| `Whitelist.SharedConfigManager.BuildCheckTypeWhiteArray` | agent/php5/agent/shared_config_manager.cc:73-111 | a configuration whose trie fits replaces the old one, another leaves it |
| `Whitelist.SharedConfigManager.GetCheckTypeWhiteBitMask` | agent/php5/agent/shared_config_manager.cc:45-60 | the mask of a URL against the configuration in force |
| `Whitelist.HookGlobals.RequestStart` | agent/php5/openrasp_hook.cc:407-432 | the mask of a request: the URL's, or that of the request before when the URL has no `://`, joined with the built-in checks whose action is ignore |
| `Whitelist.IgnoredInRequest` | agent/php5/openrasp_hook.cc:220-231 | in a request a check type is ignored exactly when some effective prefix of what follows `://` lists its name or `all`, or it is built in with action ignore; without `://` the mask of the request before counts, and outside a request everything is ignored |
| `Whitelist.RemainderBehind` | agent/php5/openrasp_hook.cc:414-417 | the prefix search looks at what stands behind the first `://` |
| `Whitelist.RemainderMissing` | agent/php5/openrasp_hook.cc:414-417 | and at nothing when there is none |
| `Whitelist.BuiltIn` | agent/php5/openrasp_check_type.cc:30-59 | built in are exactly the checks whose names start with `x` or with `we` |
| `Whitelist.StarIsShadowed` | agent/php5/agent/shared_config_manager.cc:108 | with both `*` and the empty key configured, what `*` lists is lost |
| `IniBlock.LinesSplit` | rasp-install/php/install.php:668 | splitting keeps all text, and only a last line lacks its newline |
| `IniBlock.SplitsOneWay` | rasp-install/php/install.php:668 | a list of such lines is what its text splits into |
| `IniBlock.InBlockMeans` | rasp-install/php/install.php:671-681 | a line is in a block exactly when some BEGIN line at or before it has no END line after it up to there |
| `IniBlock.StripLoop` | rasp-install/php/install.php:669-686 | the loop keeps exactly the lines outside blocks that are no END markers, in order, and ends in the found state exactly when a block is unclosed |
| `IniBlock.SurvivorsAre` | rasp-install/php/install.php:669-686 | what survives is the lines outside every block that are no END marker, each once and in order |
| `IniBlock.Uninstall` | rasp-install/php/uninstall.php:96-123 | an unclosed block is refused, otherwise the file becomes the surviving lines |
| `IniBlock.Install` | rasp-install/php/install.php:668-696 | the same, with the new block behind |
| `IniBlock.MarkerLines` | rasp-install/php/install.php:278-317 | the first and last line of the generated block are recognised as its markers |
| `IniBlock.NewlineFreeSettings` | rasp-install/php/install.php:278-317 | with settings free of newlines no other line of the block is taken for a marker |
| `IniBlock.SettingBehindKey` | rasp-install/php/install.php:278-317 | each setting stands behind its own key |
| `IniBlock.EntryWritten` | rasp-install/php/install.php:278-317 | and each such entry is a line of the block |
| `IniBlock.TrimMeans` | rasp-install/php/install.php:671-675 | trimming takes the white space at both ends and nothing else |
| `IniBlock.BlockVanishes` | rasp-install/php/uninstall.php:99-109 | a block behind unmarked lines goes, and nothing else |
| `IniBlock.StripAfterUnfinished` | rasp-install/php/install.php:671-687 | a block appended to a line without newline is not taken away again: either the line goes too or the block stays |
| `IniBlock.RoundTrip` | rasp-install/php/uninstall.php:96-123 | for a file without marker lines uninstalling after installing restores it exactly when it is empty or ends in a newline |
| `IniBlock.Reinstall` | rasp-install/php/install.php:668-696 | installing twice leaves what installing once with the second settings leaves, exactly when the file is empty, ends in a newline or ends in an END marker |
| `Supervisor.StepKeepsOk` | agent/php5/agent/openrasp_agent_manager.cc:327-346 | every step of the loop, the handler and the children keeps each child recorded or just forked |
| `Supervisor.OneChildPerRole` | agent/php5/agent/openrasp_agent_manager.cc:327-346 | in every reachable state a role has at most one child, and outside the window between fork and record that child is the recorded one |
| `Supervisor.StaleChanges` | agent/php5/agent/openrasp_agent_manager.cc:60-76 | a record goes stale exactly when its child was reaped between fork and record, and stops exactly when its pid is reaped again |
| `Supervisor.StaleStarves` | agent/php5/agent/openrasp_agent_manager.cc:332 | until then the role has no child, in every run |
| `Supervisor.NeverLateNeverStale` | agent/php5/agent/openrasp_agent_manager.cc:60-76 | without such a reaping no record goes stale, in any run |
| `Supervisor.LateRecord` | agent/php5/agent/openrasp_agent_manager.cc:334-343 | a concrete run in which it happens |
| `Supervisor.Recovers` | agent/php5/agent/openrasp_agent_manager.cc:60-76 | without a stale record the handler and one turn of the loop bring back a role that has no live child |
| `Supervisor.OpenraspAgentManager.SigchldHandler` | agent/php5/agent/openrasp_agent_manager.cc:60-76 | the handler leaves no zombie and no record of one, and every other record as it was |
| `Supervisor.OpenraspAgentManager.EnsureAgentProcessesSurvival` | agent/php5/agent/openrasp_agent_manager.cc:327-346 | whatever exits and signals happen between its statements, a call is a run of the steps; without a signal and with fresh pids every role has a record after it, and otherwise each has that of its own turn unless a later turn cleared it |
| `Supervisor.TurnServes` | agent/php5/agent/openrasp_agent_manager.cc:332-343 | after a turn, whatever interrupted it, the role has a record exactly when it had one at the check or the fork succeeded; the child is alive unless it exited before the record, and the record stale exactly when it was reaped before it too |
| `Supervisor.AllServed` | agent/php5/agent/openrasp_agent_manager.cc:327-346 | when no signal comes and each fork gives a fresh pid, every role is served, whatever exits |
| `Supervisor.OwnTurn` | agent/php5/agent/openrasp_agent_manager.cc:332-343 | a role has a record after its own turn exactly when one stood there and no signal cleared it, or the fork succeeded |
| `Supervisor.LaterTurn` | agent/php5/agent/openrasp_agent_manager.cc:60-76 | another role's turn keeps the record, unless a signal comes in it when the recorded child has exited |
| `Supervisor.RecordIsLast` | agent/php5/agent/openrasp_agent_manager.cc:327-346 | so after the whole call, whatever happens meanwhile |
| `Checksums.BankCardCheck` | plugins/official/plugin.js:3161-3171 | the loop from the left accepts exactly the Luhn condition defined from the right, for every number of digits |
| `Checksums.JoinedKeeps` | plugins/official/plugin.js:3161 | the number without blanks and hyphens: every other character, once and in order |
| `Checksums.LuhnByPairs` | plugins/official/plugin.js:3164-3170 | of two digits at the right end the last counts as it is and the other with the digits of its double |
| `Checksums.LuhnFindsChange` | plugins/official/plugin.js:3161-3171 | every change of one digit of an accepted number is rejected |
| `Checksums.LuhnFindsSwap` | plugins/official/plugin.js:3161-3171 | a swap of neighbours of an accepted number is accepted exactly when they are equal or 0 and 9 |
| `Checksums.WeightsDouble` | plugins/official/plugin.js:3108 | each weight is twice the next one modulo 11 |
| `Checksums.WeightedMeansMod112` | plugins/official/plugin.js:3118-3127 | the weighted sum is 1 modulo 11 exactly when the recursive MOD 11-2 method accepts |
| `Checksums.IdentityCheck` | plugins/official/plugin.js:3112-3127 | a matched number is reported exactly when it does not start with 0 and the recursive method accepts it |
| `Checksums.Mod112FindsChange` | plugins/official/plugin.js:3118-3127 | every change of one character of a reported number into one of another value is rejected |
| `Checksums.Mod112FindsSwap` | plugins/official/plugin.js:3118-3127 | every swap of two different neighbours is rejected |

## Left out

- Hooks, Zend API, V8, curl, sockets, YAML and JSON reading: foreign code; what they answer is a parameter or a step.
- `DoubleArrayTrie`, `ReadWriteLock` and shared memory: the trie is a map whose prefix search finds every key that is a
  prefix, a locked access is one step, and whether a built trie fits is a parameter.
- The mask the trie is given at startup: its value is all ones, which the trie builder refuses as negative, so the
  model starts from an empty table.
- Regular expressions and tokenizers: keywords, qualified lines and matched card numbers are predicates or inputs.
- Whitelist.SharedConfigManager.BuildCheckTypeWhiteArray: `fits` stands for the result of the trie builder and the size limit.
- `get_cookies`: the cookies are an input; parsing them is plain splitting.
- ParameterMerge.Context.GetAllParameter: header names are compared after ASCII lower-casing, names on the prototype chain
  are not modelled, `key_num` is unbounded, and a `null` member is an object without members, which adds nothing either.
- PathRewrite.ReplaceAll: the patterns `$&` and the like in a replacement text are not modelled, no caller here uses
  them; `rounds` bounds the rounds in which the loop ends, a call whose loop does not end has no result.
- PathRewrite.ReplaceAllLeavesNone: for a replacement that contains its pattern only the direction without a clash; with
  one, it depends on the replacement whether a loop that ends can leave a match.
- TokenSpan.IsTokenChanged: for tokens out of order only the case that no token stops after the start of the input.
- TokenBucket.RaspLoggerEntry.ConsumeTokenIfAvailable: a signed overflow is modelled as wrap-around; syslog and files are left out.
- LogShipping.LogCollectItem.Round: the removal of expired files and the growing pause after failed posts touch neither
  body nor offset and are left out; offsets are unbounded, where the code keeps them in an `int`; what a line must hold to
  qualify does not change while the process runs; and the readings of the clock after the post are one.
- LogShipping.LogCollectItem.Resume: a status file is one that an earlier process wrote, so its offset is not negative.
- LogShipping.Run: a process dies between turns; one that dies between a post and saving the offset posts that body again.
- LogShipping.ReadOnce: each day's file is only appended to.
- ConfigHandover.Host.UpdateConfig: the other shared settings written before the file have no order relation with it and are left out.
- IniBlock.Install: permissions, the `.bak` copy and failed writes are left out, and so is the separate file in a scanned
  directory, which is written and removed as a whole.
- IniBlock.RoundTrip: text is modelled as characters, not bytes; trimming and splitting look only at ASCII characters.
- Supervisor.OpenraspAgentManager.SigchldHandler: the lock it takes on shared memory, and a signal that arrives while the loop
  holds it, are not modelled.
- Supervisor.OpenraspAgentManager.EnsureAgentProcessesSurvival: the kernel gives a pid no child of the supervisor has; stopping
  the children and a second supervisor are not modelled.
- Checksums.BankCardCheck: the length and prefix the regular expression asks for are not used, the result holds for all digits.
- `SharedLogBlock`, phone numbers and the other checks of the plugin: not modelled.
- `agent/php7`, the copy for the other PHP version: not modelled.
