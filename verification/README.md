# A verified model of EasyWAF's algorithms and protocols

EasyWAF is a web application firewall: a proxy that counts requests, keeps
address lists, challenges visitors and logs what it did, with converters that
turn other systems' rules into its own. This project models the parts of it
whose correctness is not visible from any one function, and proves what they
are for. `dafny verify dfyconfig.toml` checks all of it.

| file | models |
|---|---|
| `RateLimit.dfy` | one client's sliding-window count, and whole request histories |
| `RetryAfter.dfy` | the wait a refused client is told (section 10.2.3 of RFC 9110) |
| `ClientTable.dfy` | the bounded table of clients and what forgetting one costs it |
| `Restore.dfy` | swapping a staged snapshot in, with a crash possible between any two file operations |
| `Regex.dfy` | the regular expressions the converters emit, with a matching relation |
| `NumericPattern.dfy`, `ByteRange.dfy` | two generators of the ModSecurity converter |
| `CharsetRule.dfy`, `CharsetConditions.dfy` | the conditions it writes for rule 920480, and the rule they are for |
| `ContentChain.dfy` | positioned contents of the Suricata converter, and a rule's contents as conditions |
| `Cidr.dfy`, `IpRanges.dfy` | address blocks by octets and by integers, merging and bisection |
| `Policies.dfy` | every policy's lists and the verdict on an address |
| `ListCache.dfy` | the shared cache of those lists: racing readers, writes and reloads |
| `Text.dfy`, `Forwarded.dfy` | the client's address from `X-Forwarded-For` |
| `LogLine.dfy` | log fields against the tokenizer that reads them |
| `Challenges.dfy` | the challenge store, whose `issue` lets go of its lock half way |
| `Options.dfy`, `Sets.dfy`, `Sorting.dfy` | what the others share |

Code that changes state in place is modelled by classes and loops
(`LiveTally`, `Shard`, `Host`, `ChallengeStore`, `ComputeAbove`, `ReadParts`,
`ComputeConditions`, `Coalesce`, `BuildPolicies`, `Tokenise` and so on), each
proved against a specification function or predicate; the laws are lemmas about
those. Protocols are runs of atomic steps. Clocks, the network, SQL, randomness
and the drawing of images are parameters of the steps.

## What the proofs found

Most of what the code promises holds for every input. Where it does not, the
model keeps the code as it is, and a lemma says when it fails.

- A repeated content in a Suricata rule is left out of the conditions, and a
  content tied to it (`distance`, `within`) then joins whatever condition comes
  last: `ContentChain.RepeatedContentLosesItsTail` gives a rule and buffers on
  which this answers wrongly both ways; `ContentChain.ConditionsMeanRule` says
  when it cannot.
- `startswith` makes the converter drop an `offset` or a `depth` given with it:
  `ContentChain.DeclaredUnlessDropped` says exactly when that changes the
  meaning.
- The limits documented for the challenge store (10,000 in all, 50 for one
  address) hold exactly as long as no two calls of `issue` are between check and
  insert at once: `Challenges.LimitsHoldIff`. With `k` at once the limits are
  exceeded by at most `k - 1`, and that many are reached.
- A query that fails while the lists are rebuilt counts as one that found
  nothing, and what is built from it is every answer under the current numbers
  until something is written or reloaded: `ListCache.FailedQueryIsKept`. Without
  that the cache is exact: `ListCache.CacheIsCurrent`.
- The file that names an import can outlive its restore. `Restore.OrphanedIff`
  says for every start and every crash exactly when: the restore was given up,
  or undoing it had nothing to put back or failed, or the crash fell between the
  removals of the marker and of that file; staging leaves it exactly when an
  import stops half way (`Restore.StagingOrphansIff`). The next snapshot restored
  is then reported as that import: `Restore.NextRestoreIsMisreported`.
- A crash between the removal of the marker and the writing of the outcome loses
  the report of a restore that worked: `Restore.RecordLostIff` says that exactly
  then. A start that runs to its end records it: `Restore.RestoreIsRecorded`.
- A start reports a restore as done that it has not done exactly when the write of
  the marker fails after creating it: `Restore.SuccessIsReported`.
- Rule 920480 reads the first charset a header names; its converted conditions read
  the first occurrence of the word. They mean the same for every list of allowed
  charsets if and only if that occurrence is the one a name follows:
  `CharsetConditions.ConditionsMeanLinks`. On `charsets; charset=utf-8` they part
  (`CharsetConditions.MissedIsMissed`).
- The log format's document (`docs/design/easylog-easywaf-type.md`, section 3)
  quotes values with whitespace, quotes or `=`; the code also quotes those with a
  backslash. The model follows the code.

## Model

| member | source | states |
|---|---|---|
| RateLimit.LiveTally.Advance | src/rate_limit.rs:161-174 | the tally brought to the window of the time given, its fields changed in place |
| RateLimit.LiveTally.Record | src/rate_limit.rs:185-196 | counting a request: the new tally and the count handed out |
| RateLimit.TallyIsExact | src/rate_limit.rs:156-197 | over any history in order, the tally holds exactly the requests of the newest request's window and of the one before, refused ones included |
| RateLimit.TallyStartsAgain | src/rate_limit.rs:156-197 | the same where each request brings its own window: what was counted before the window last changed counts for nothing |
| RateLimit.CountIsEstimate | src/rate_limit.rs:178-213 | the count handed out is the newest window's requests and those of the one before in proportion, rounded up, and over a limit exactly when it exceeds it |
| RateLimit.LetThroughMeans | src/rate_limit.rs:178-213 | a request is within the limit if and only if its own window's requests and the one before's in proportion are |
| RateLimit.PassedInSlotWithinLimit | src/rate_limit.rs:161-213 | no fixed window lets more than the limit through |
| RateLimit.LastPassBounds | src/rate_limit.rs:161-213 | the last request let through in an interval one window long bounds all of them by limit * (w + u) / w |
| RateLimit.FewerThanTwiceTheLimit | src/rate_limit.rs:161-213 | for every history and every interval one window long, fewer than twice the limit are let through |
| RateLimit.NoMoreThanMost | src/rate_limit.rs:161-213 | nor ever more than twice the limit less the limit divided by the window, rounded up |
| RateLimit.BoundIsReached | src/rate_limit.rs:161-213 | for every limit and window a history that gets exactly that many through: the maximum |
| RetryAfter.CorrectionNeverRuns | src/rate_limit.rs:243-250 | the division alone finds the least offset, so the loop after it never takes a step |
| RetryAfter.ComputeFirstFit | src/rate_limit.rs:234-252 | the loop finds what the specification calls the first fit |
| RetryAfter.FirstFitIsLeast | src/rate_limit.rs:234-252 | the first fit is the least offset at which there is room, and there is room ever after |
| RetryAfter.ComputeWaitMs | src/rate_limit.rs:229-262 | the wait, computed as the source does |
| RetryAfter.WaitIsExact | src/rate_limit.rs:224-262 | one more request fits after a wait if and only if the wait is at least the one given |
| RetryAfter.RetryAfterIsExact | src/rate_limit.rs:215-221 | the whole seconds of the header are the least that suffice, for every count handed out |
| ClientTable.Shard.CountAt | src/rate_limit.rs:299-309 | a request counted in a shard, room made first when it is full and the client new |
| ClientTable.Shard.MakeRoom | src/rate_limit.rs:315-324 | idle clients forgotten, and if that frees nothing the half seen longest ago; below the cap either way |
| ClientTable.MiddleIsCutoff | src/rate_limit.rs:320-322 | the middle of the sorted times has at most half before it and more than half up to it |
| ClientTable.CutoffFrees | src/rate_limit.rs:322-323 | the second pass forgets more than half |
| ClientTable.IdleIsForgotten | src/rate_limit.rs:311-318 | an idle client is counted next, whenever and in whatever window, as one never seen |
| ClientTable.NoMoreIsKept | src/rate_limit.rs:311-324 | a tally that counts no more than another still does after both count a request |
| ClientTable.ForgettingIsNeverStricter | src/rate_limit.rs:299-324 | in every run, whatever is evicted, no request is over a limit it would not have been over with an unbounded table |
| ClientTable.IdleEvictionIsUnobservable | src/rate_limit.rs:311-319 | in every run where idle clients make room enough, every count is the unbounded table's |
| ClientTable.NeverAboveTheCap | src/rate_limit.rs:276-324 | in every run a shard holds at most its cap |
| ClientTable.ClientsAreApart | src/rate_limit.rs:299-309 | the table that forgets nobody holds for each client the tally its own requests leave, a window of nought taken as one millisecond |
| ClientTable.RoomMeans | src/rate_limit.rs:311-324 | who stays when room is made: exactly those seen within two of their own windows, or of those exactly the half seen last; all as they were |
| ClientTable.ForgottenOnlyWhenFull | src/rate_limit.rs:305-308 | in every run a client is forgotten only when another, not in the table, asks and the table is full |
| Restore.Host.ApplyStagedRestore | src/backup.rs:468-567 | the start performs the operations specified, in that order, for whatever it finds and however they turn out |
| Restore.Host.PutBack | src/backup.rs:480-499 | the operations that undo a swap that never came up |
| Restore.Host.KeepCurrent | src/backup.rs:505-539 | the operations that keep the current database, and whether it is kept |
| Restore.Host.SwapIn | src/backup.rs:554-566 | the operations of the swap |
| Restore.Host.FinishRestore | src/backup.rs:571-599 | the operations once the database is open: the marker and the reason taken, the outcome written, its three settings recorded and the file removed, in that order |
| Restore.StartIsSafe | src/main.rs:140-145 | a start cut after any operation, with any operation failing, keeps the invariant that the database staged over survives |
| Restore.LiveDatabaseSurvives | src/backup.rs:468-567 | after any number of starts, each cut anywhere, the database live at staging survives whole, live or as the copy kept |
| Restore.NothingForeignIsOpened | src/backup.rs:478-566 | after any number of starts no main file lies beside another's log, and during a swap the copy kept is never the restored database |
| Restore.GoodStartSettles | src/backup.rs:468-599 | from any state crashes leave, one start that runs to completion leaves nothing staged and no marker, and the snapshot or the old database live |
| Restore.OneGoodStartSettles | src/backup.rs:468-599 | so after any starts at all |
| Restore.BrokenSnapshotIsUndone | src/backup.rs:478-499 | a snapshot that will not open is undone by the next start, with the old database live |
| Restore.OrphanedIff | src/backup.rs:478-589 | for every safe disk, start and cut: exactly when the start leaves the reason file with nothing staged and no marker |
| Restore.StagingOrphansIff | src/routes/backup.rs:526-532 | staging leaves it so exactly when an import stops between its two steps |
| Restore.IdleStartsKeepNotes | src/backup.rs:501-503 | with nothing staged and no marker, no start however cut changes what is staged, the marker or the reason |
| Restore.SuccessIsReported | src/backup.rs:571-589 | a start reports success exactly when it moved the snapshot into place or left a marker it could not write, and about whatever the reason names |
| Restore.RestoreIsRecorded | src/backup.rs:571-599 | for every safe disk and start that runs to its end: what the database holds next is the outcome there was to tell, all of it, and no outcome file is left |
| Restore.RecordLostIff | src/backup.rs:573-598 | a crash once the database is up leaves the outcome to be told or in the database, except exactly when it falls between the removal of the marker and the writing of the outcome |
| Restore.StartLeaves | src/backup.rs:468-599 | for every safe disk and start that runs to its end: which database is live, which is kept and what is still staged |
| Restore.NextRestoreIsMisreported | src/backup.rs:578-587 | a snapshot restored after any starts is reported as an import exactly when that import's reason had been left over |
| Regex.WrittenAlikeFoundAlike | scripts/suricata2easywaf.py:540-548 | patterns that are written alike are found in the same texts, however they were put together |
| NumericPattern.ComputeAbove | scripts/modsec2easywaf.py:695-705 | the loop builds the alternatives for greater numbers |
| NumericPattern.ComputeBelow | scripts/modsec2easywaf.py:707-717 | the loop builds the alternatives for lesser numbers |
| NumericPattern.AboveChooses | scripts/modsec2easywaf.py:695-705 | the alternatives match exactly the greater numbers without leading zeros, and nothing else |
| NumericPattern.BelowChooses | scripts/modsec2easywaf.py:707-717 | the same for the lesser ones, nought included |
| NumericPattern.PatternMeansComparison | scripts/modsec2easywaf.py:691-724 | for every number and comparison the pattern is found exactly in the decimal numbers that compare so; only less than nought is refused |
| CharsetRule.PrefixMeansNoCharset | scripts/modsec2easywaf.py:650-658 | under the case-insensitive flag, the prefix matches exactly the texts without the word in any case |
| CharsetRule.ConditionReadsFirstCharset | scripts/modsec2easywaf.py:650-659 | whatever is asked after the word is asked of its first occurrence and of no other |
| CharsetConditions.ConditionsPartWhere | scripts/modsec2easywaf.py:653-659 | for a header and a list: conditions and rule part exactly where the word comes first without a name and the name that comes later is allowed |
| CharsetConditions.ConditionsMeanLinks | scripts/modsec2easywaf.py:650-659 | for a header: they agree on every list if and only if the first occurrence of the word is the one a name follows |
| CharsetConditions.MissedIsMissed | scripts/modsec2easywaf.py:653-659 | one header on which they part |
| CharsetConditions.SpelledIsRead | scripts/modsec2easywaf.py:653-654 | the name the rule captures: after blanks, an equals sign, blanks and at most one quote, all that a name may hold |
| CharsetConditions.ReadIsSpelled | scripts/modsec2easywaf.py:653-654 | and it captures none where nothing is spelled so |
| ByteRange.RangeIsRead | scripts/modsec2easywaf.py:734-741 | a range written with any blanks and leading zeros is read as its two numbers, a single number as itself |
| ByteRange.PartIsRead | scripts/modsec2easywaf.py:734-741 | what every part is read as: nothing where it is blank, else one number or two around the first dash, or unreadable |
| ByteRange.Utf8Decodes | scripts/modsec2easywaf.py:727-732 | the bytes a character stands for determine it, as section 3 of RFC 3629 lays them out |
| ByteRange.ReadParts | scripts/modsec2easywaf.py:733-741 | the set of bytes the argument's parts allow, or a refusal exactly when one cannot be read |
| ByteRange.RunsLeftOut | scripts/modsec2easywaf.py:747-754 | the runs hold exactly the ASCII bytes left out, apart from one another and in order |
| ByteRange.ByteRangePattern | scripts/modsec2easywaf.py:727-758 | for every argument: refused exactly when it should be, and otherwise found exactly in texts with a byte outside the ranges |
| ContentChain.GapMatches | scripts/suricata2easywaf.py:237-247 | a gap leads exactly to the places distance and within allow |
| ContentChain.ChainMeansPlaceable | scripts/suricata2easywaf.py:395-414 | a chain's pattern is found exactly when positions for all its contents satisfy every constraint |
| ContentChain.DeclaredUnlessDropped | scripts/suricata2easywaf.py:401-413 | a lone content's pattern means what its modifiers declare in every buffer if and only if startswith drops nothing |
| ContentChain.Piece | scripts/suricata2easywaf.py:208-414 | a content is refused exactly when it is not ASCII, or is tied with a negative distance or a within short of its length, or is of its own without startswith and with a depth short of its length |
| ContentChain.SameWriting | scripts/suricata2easywaf.py:395-413 | two contents of their own are written alike exactly when text, case, end and place are the same |
| ContentChain.ComputeConditions | scripts/suricata2easywaf.py:531-548 | the loop over the pieces computes the conditions, or refuses exactly when a content cannot be expressed or the first is tied to nothing |
| ContentChain.EachWrittenOnce | scripts/suricata2easywaf.py:545-548 | contents all of their own have a condition each, one for those written alike, and no other |
| ContentChain.ConditionsMeanKeptChains | scripts/suricata2easywaf.py:533-548 | the conditions all hold exactly when every chain kept has a place |
| ContentChain.ConditionsMeanRule | scripts/suricata2easywaf.py:533-548 | they hold exactly when every chain written has a place, if nothing is tied to a content left out whose condition is not the last |
| ContentChain.RepeatedContentLosesItsTail | scripts/suricata2easywaf.py:540-548 | a rule and two buffers on which they do not |
| Cidr.AndHigh | src/forwarded.rs:84-98 | masking the low bits off a word drops the remainder |
| Cidr.OrLow | src/forwarded.rs:84-98 | setting the low bits of a word fills the remainder |
| Cidr.MatchIsSameHigh | src/forwarded.rs:100-113 | matching octet by octet compares the numbers above the host bits |
| Cidr.RangeIsSameHigh | src/forwarded.rs:84-98 | a block's range holds exactly the numbers equal above the host bits, and fits its family |
| Cidr.RangeIsBlock | src/forwarded.rs:57-113 | for every block and address, octet-wise matching and lying in the range are the same |
| IpRanges.Coalesce | src/iplist.rs:113-129 | the loop that edits the last range computes the merged ranges |
| IpRanges.CoalescedIsCanonical | src/iplist.rs:113-129 | sorted, a value apart at least, covering exactly the union, at the top of the space too |
| IpRanges.CanonicalIsUnique | src/iplist.rs:108-129 | a set of values has one canonical form |
| IpRanges.CoalescingIsCanonical | src/iplist.rs:108-129 | two inputs give the same array if and only if they cover the same values |
| IpRanges.PartitionPoint | src/iplist.rs:99-100 | how many ranges begin at or below a value, by bisection |
| IpRanges.BisectionFinds | src/iplist.rs:89-101 | the one range bisection leaves settles the answer |
| IpRanges.ComputeRanges | src/iplist.rs:80-87 | blocks sorted into families, each merged |
| IpRanges.IndexIsBlocks | src/iplist.rs:79-129 | for every list of blocks and every address, the index says yes exactly when some block contains it |
| Policies.BuildLists | src/iplist.rs:152-164 | one policy's lists, and exactly the unusable rows reported |
| Policies.GroupRows | src/iplist.rs:353-363 | the groups there are and their rows in order: known policies from the start, others from their first row |
| Policies.ListEach | src/iplist.rs:364-370 | every group's lists, and exactly the texts of its unusable rows |
| Sorting.Dedup | src/iplist.rs:371-374 | a sorted list with each element once, and none lost |
| Policies.BuildPolicies | src/iplist.rs:342-402 | every known policy's lists, with the published lists that reach it; and, sorted and once each, exactly the texts of the unusable rows some policy would have had |
| Policies.VerdictIsDeclared | src/iplist.rs:166-206 | checking an address gives the declared verdict: allow anywhere, block anywhere, a list that blocks, a list that challenges, with an every-policy list reaching a policy exactly if it neither chose nor muted it |
| Policies.NamedIsFirst | src/iplist.rs:187-206 | for any lists: a published list is named exactly when no list by hand holds the address and it is the first of its response that does, none that blocks holding it if it challenges |
| Policies.NamedListHasIt | src/iplist.rs:376-402 | for lists as built: it is the list of the first choice that reaches the policy with that response and has the address in one of its blocks, under its own identifier and name |
| Policies.VerdictIgnoresOrder | src/iplist.rs:342-402 | that verdict does not depend on the order or repetition of rows, choices or mutes |
| ListCache.RunsAreConsistent | src/iplist.rs:446-521 | in every interleaving, what any reader or the cache holds under a tag is as the tables and data are now, as far as the tag is current |
| ListCache.CacheIsCurrent | src/iplist.rs:441-521 | in every interleaving, under the current tag the contents are the current inputs exactly when every query that failed would have found nothing |
| ListCache.AnswerIsCurrent | src/iplist.rs:446-521 | the same of the answer a request takes away |
| ListCache.AnswerGivesTheVerdict | src/iplist.rs:446-521 | so a request gets the verdict the current configuration declares |
| ListCache.TagsNeverGoBack | src/iplist.rs:510-519 | in every interleaving the tags kept never decrease lexicographically |
| ListCache.InstallKeepsTheNewer | src/iplist.rs:510-519 | what is kept is the newer of what was there and what was built, and what was built if their tags are equal |
| ListCache.LastWriteHolds | src/modules/generation.rs:12-17 | after any run the tables are as last written, under a number past all before |
| ListCache.LastReloadHolds | src/iplist.rs:421-426 | and the published data as last reloaded, under a number of their own |
| ListCache.NextReaderGetsTheChange | src/iplist.rs:446-521 | after any run and a write or reload, whoever asks next, is answered and meets no other change is given exactly what is current, and that is kept |
| ListCache.SeenIsTakenAsCurrent | src/modules/generation.rs:51-94 | a reader that goes by the number last seen is given what is kept under it, whatever was written since |
| ListCache.KeptUntilChanged | src/iplist.rs:450-521 | lists kept under the current tag, with no reader gathering others under it, are every answer under it in every interleaving until a write or reload |
| ListCache.FailedQueryIsKept | src/iplist.rs:464-519 | so after queries that fail every answer under the current numbers lacks what they would have read, until a write or reload; wrong exactly when that was something |
| ListCache.FailedQueryIsGiven | src/iplist.rs:447-456 | and whoever asks next is given one |
| Forwarded.JoinIsChain | src/forwarded.rs:163-181 | reading the joined header reads every line's hops in order |
| Forwarded.ResolveIsRightmostUntrusted | src/forwarded.rs:184-268 | the connection's address, or the rightmost untrusted hop, or the leftmost of a chain of proxies |
| Forwarded.ResolveOfParts | src/forwarded.rs:239-268 | of two parts of a header the later decides alone if and as soon as it names an untrusted address |
| Forwarded.LinesAreCommas | src/forwarded.rs:163-181 | several lines mean what one line joined by commas does, with any blank space around them |
| Forwarded.ForgedHopsAreIgnored | src/forwarded.rs:184-268 | nothing put in front, on the same line or others, changes the answer once a later part names an untrusted address |
| Forwarded.HopFormsAgree | src/forwarded.rs:270-292 | an address bare, in brackets or with a port is read as the same one |
| Forwarded.HopIsRead | src/forwarded.rs:270-292 | what any hop is read as: the address between the brackets, or else the one before the last colon there, or none |
| Forwarded.UnmappedIs | src/forwarded.rs:285-291 | exactly the addresses with ten octets of nought and two of 255 in front are taken as IPv4 |
| Forwarded.JunkIsPassedOver | src/forwarded.rs:249-256 | a hop that is no address, between others or alone on a line, changes nothing |
| Forwarded.PeerIsTakenAsGiven | src/forwarded.rs:239-268 | the peer is not unmapped as hops are: exactly when that changes the answer (no listener here accepts a mapped peer: each binds IPv4) |
| LogLine.Tokenise | src/logging.rs:513-524 | the loop with its buffer and two flags splits a line into the tokens specified |
| LogLine.Parse | src/logging.rs:512-533 | the whole parser, the last value of a key counting |
| LogLine.UnquotedField | src/logging.rs:349-366 | for every value, the two replacements one after the other undo the escaping |
| LogLine.FieldIsBareIff | src/logging.rs:349-366 | a value is written bare exactly when it is not empty and holds no whitespace, quote, equals sign or backslash |
| LogLine.TokensOfLine | src/logging.rs:513-524 | for any values, a line's tokens are its fields |
| LogLine.TokensApart | src/logging.rs:513-524 | whitespace outside quotes parts any line in two that are read on their own |
| LogLine.WordRead | src/logging.rs:525-532 | after any line, a word adds its key and value, cut at the first equals sign, or nothing if it has none |
| LogLine.ParsedLineIsMeant | src/logging.rs:512-533 | for any values, the parser reads back what the line was written from, repeated keys included |
| LogLine.NoValueForgesAField | src/logging.rs:535-556 | with distinct clean keys exactly the pairs written are read: no value adds, drops or changes a field |
| LogLine.AuditLineReadsBack | src/audit.rs:153-175 | an audit line read back says who, from where, what and with which outcome, a path or detail beyond 256 characters cut there and marked, and a detail only if there is one |
| Challenges.ChallengeStore.IssueCheck | src/challenge.rs:79-98 | the first half of issue: expired challenges swept when full, the client left short of its share |
| Challenges.RefusedIff | src/challenge.rs:81-87 | in every run a call is refused exactly when MAX_PENDING or more of the challenges waiting have not expired |
| Challenges.CheckLeaves | src/challenge.rs:80-98 | in every run a full store is left no expired challenge, other clients lose nothing else, and the client loses its oldest until it is one short of its share |
| Challenges.ChallengeStore.MakeRoom | src/challenge.rs:88-97 | exactly the oldest are removed, by expiry and then identifier |
| Challenges.RoomIsDetermined | src/challenge.rs:88-97 | that says which: no two outcomes are allowed |
| Challenges.ChallengeStore.IssueInsert | src/challenge.rs:109-117 | one challenge more, the client's, and all else as it was; from here until its time is up the solution given back leads to the page and any other answer is wrong |
| Challenges.ChallengeStore.Verify | src/challenge.rs:126-140 | the outcome of the trimmed, uppercased answer, and the challenge used up by its own client alone |
| Challenges.StoreIsBounded | src/challenge.rs:78-118 | in every interleaving with at most k calls between check and insert the store holds at most MAX_PENDING - 1 + k, calls under way included |
| Challenges.ClientIsBounded | src/challenge.rs:75-118 | and one address at most its share - 1 + k, by its own calls |
| Challenges.ClientBoundIsReached | src/challenge.rs:75-118 | for every k there is a run that reaches the bound on one address |
| Challenges.StoreBoundIsReached | src/challenge.rs:78-118 | and one that reaches the bound on the store |
| Challenges.LimitsHoldIff | src/challenge.rs:36-44 | both documented limits hold in all runs if and only if at most one call is between check and insert |
| Challenges.AnsweredAtMostOnce | src/challenge.rs:120-140 | in every run no challenge is answered right or wrong twice |
| Challenges.OneAttempt | src/challenge.rs:120-133 | once its own client has answered, in time or not, no answer to a challenge counts; another client's answer changes nothing |
| Challenges.AnswersBelong | src/challenge.rs:120-140 | every such answer is by the client the challenge was issued to, in time, judged by its own solution and leading to its own page |
| Challenges.OthersCannotTakeIt | src/challenge.rs:124-130 | a challenge stays until its own client answers or asks again, or its time is up |
| Challenges.OwnAnswerCounts | src/challenge.rs:126-140 | so in every run the client's own answer in time, if it has neither answered nor asked since, is judged by the solution drawn |

## Left out

- ConditionsMeanRule: says when the conditions are right, and not that they are wrong in every other rule, because two patterns written differently can mean the same; the counterexample beside it shows that they can be wrong.
- FewerThanTwiceTheLimit: histories of up to 2^64 - 1 requests in time order, because counts saturate there and a clock running backwards is not modelled; the same holds of the other laws of that file.
- WaitIsExact: for counts short of saturation, and without the truncation of a time near 2^64 milliseconds.
- BuildPolicies: does not say what a policy that is not known is given, because that depends on the order of rows and no request has such a policy.
- PrefixMeansNoCharset: the case-insensitive flag is for ASCII letters, where the engine also takes the long s for an s.
- ConditionsMeanLinks: blanks are ASCII's, a list's words hold no blank, quote or semicolon and no `*`, and the rule disregards ASCII case as its conditions do.
- ByteRangePattern: digits are ASCII's.
- ChainMeansPlaceable: offsets and depths are not negative, buffers are sequences of single-unit characters, and disregarding case is for ASCII letters.
- ComputeConditions: patterns are compared as what is written out, in which a lazy repeat and a greedy one are one.
- AuditLineReadsBack: the time and the two numbers are taken to need no quoting, because their formatting is not modelled.
- Verify: what uppercase is, is a parameter.
- Normalise: which texts are addresses is a parameter, of which only that the empty one is none is assumed.
- The text of a regular expression: patterns are modelled by their structure, so escaping a literal and the engine's own parsing are not.
- Rules with more than one buffer, negated contents, `pcre`, `isdataat`, transforms and the header block: conditions of other buffers stand beside those modelled.
- The parsing of address rows: a row's block, kind and response arrive read or unreadable.
- Poisoned locks, the sixteen shards' hashing, and memory ordering within one lock: each locked section is one atomic step.
- SQLite itself: a snapshot is one copy that may be cut short, opening may begin a log and closing folds it into the main file.
- Renames, copies and the marker's write may fail in the restore, the last also after creating the file; removals, the other notes' writes and the writes into the database are taken to work.
- The preview that replays a site's traffic through the same tally, the settings of a limit, and its wording: they add nothing to the count.
- The pipeline that matches requests, sign-in, certificates, the administration pages, import and export.
