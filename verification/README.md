# libswatcher: a model and its proofs

libswatcher is a C library that watches files and directories. This project models the five parts of it that
carry an argument, and proves what each is for.

* **The hash table** (`include/uthash.h`), on nodes with real links: `UtHash`, `HashSort`, `Bits`. Any run of finds,
  adds and deletes behaves as an insertion-ordered map, through every doubling of the buckets, and the merge sort is
  a stable sort. The other modules use this view of a table: keys in insertion order and a map (`Tables`).
* **Patterns** (`src/regex/re.c`, `src/core/pattern.c`): `Regex`, `RegexMeaning`, `Glob`, `Patterns`. The backtracking
  matcher decides a declared language; compiling the text of a regular expression and matching its tokens finds exactly
  what the expression denotes; the glob translation keeps a glob's meaning exactly when it holds none of `^ $ + [` and,
  where plain chars are signed, no byte beyond ASCII; and a name is matched by a list of such patterns exactly when one
  of them says so of it. Strings are C strings: one model character a byte.
* **The poll backend** (`src/backend/backend_poll.c`, `src/core/rescan.c`): `Paths`, `FileTree`, `PollSpec`, `Moves`,
  `Poll`, `PollExact`, `Rescan`, `PollRuns`. Scans that skip unchanged directories agree with a full walk over whole
  runs, but for one exact exception; renames are matched as often as possible; the events of a scan are a permutation
  of what the path-by-path differ reports, and replay to the new set of paths.
* **The inotify backend** (`src/backend/backend_inotify.c`, `src/core/swatcher.c`): `WatchSpec`, `Overflow` and
  `Watches` for the two watch tables, recursive add, removal and the rescan after an overflow; `Slots`, `Coalesce`,
  `Pairing` and `Events` for coalescing, pairing renames by cookie and debouncing.
* **The io_uring ring** (`src/backend/backend_uring.c`): `Uring`, one read at a time into one shared buffer, against a
  kernel that may act between any two accesses; the rings refine a machine of four states.

Paths are lists of components in the model and strings in the program; `Paths` proves what the program's string
tests mean on components. A file tree is a value that stands still during a scan. The clock, the kernel's answers and
the results of system calls are parameters, and every statement holds for all of them within the stated bounds.
Ghost fields (`offered`, `given`, `windows`, `hist`, `calls`, `causes`, `buffered`, `delivered`) record a run so that
it can be spoken about.

## Where the code falls short

Each of these is proved with its exact condition, and all but the last with a concrete input.

* A glob with an escaped `^`, `$`, `+` or `[` is accepted by `is_glob_pattern`, but its translation means something
  else (`Glob.GlobMeaningIff`, `Glob.EscapedPlusLosesMeaning`, `Glob.EscapedDollarLosesMeaning`).
* A literal byte of 0x80 or above never matches where plain char is signed, as it is by default on x86 and on Apple's
  platforms: the pattern's byte is kept as an unsigned char (`src/regex/re.c:27`) and compared with a plain char
  (`src/regex/re.c:284`). A glob that holds one matches nothing (`Glob.GlobMeaningIff`, `Glob.AccentLosesMeaning`).
* Poll: the prefix test for "direct child" also accepts siblings whose name merely starts with the directory's name.
  That costs repeated visits only, with one exception: a known file `foobar` that is replaced by a directory stays in
  the snapshot table, scan after scan, while a sibling directory `foo` is skipped; every other entry stays right
  (`PollExact.ScanIsExactIff`, `PollRuns.RetypeIsReal`, `PollRuns.RetypeStays`).
* The watch options files and symlinks together register directories too (`WatchSpec.OptionsAsDocumented`,
  `WatchSpec.OptionsTakeDirectory`).
* `swatcher_remove` of a target that is not registered itself frees the whole registry, while the descriptor table
  keeps its watches; on an empty registry it follows a null pointer. A recursive target with watch patterns, or for
  files or symlinks only, is such a target although it was added with success, and so is a second target for a path that
  is watched (`Watches.Inotify.Remove`, `Watches.RemoveFilesTarget`). With one target for each path,
  `swatcher_is_watched` tells beforehand.
* The rescan after an overflow does not look below a directory that is registered by itself and not recursively, so
  directories below a recursive watch can stay unwatched (`Overflow.OverflowClosureIff`, `Overflow.ClosureCanFail`).
* The same rescan asks for no pattern, so it can register directories that no watch wants: one it finds missing, and,
  when the iteration goes on to what it has just registered, one that a recursive add left alone on purpose. Whether it
  does depends on the order of the table (`Overflow.RescanAskedForIff`, `Overflow.LaterRoundStrays`,
  `Overflow.LastRoundStops`, `Overflow.OtherSpecWants`).
* A path that is deleted and created again within one coalescing window is reported as if it had been absent at the
  start (`Slots.SlotIsNetIff`, `Slots.RecreationMisleads`).
* When `io_uring_enter` is interrupted before the kernel takes the request, `read_pending` is set all the same, no later
  round submits again, and nothing is ever read (`Uring.Ring.OneRound`, `Uring.Ring.ThreadLoop`).

The comment at `src/backend/backend_poll.c:124-127` says a first encounter stores mtime 0; the code stores the mtime
and relies on the 1500 ms rule, and so does the model. The comment at `src/core/pattern.c:8-10` says a glob contains
no `\d`; the code does not look for it, and neither does the model.

## Model

| member | source | states |
|---|---|---|
| UtHash.UnlinkApp | include/uthash.h:464-474 | deleting the k-th item of the app-order list leaves head, tail and all prev/next links those of the list without it |
| UtHash.UnlinkChain | include/uthash.h:792-805 | the same for a bucket chain, with its count |
| UtHash.AppendApp | include/uthash.h:281-287 | the new item is linked last |
| UtHash.PushChain | include/uthash.h:770-784 | the new item is linked first in its chain and counted |
| UtHash.Rehash | include/uthash.h:856-871 | moving one item into its new bucket keeps the chain linked and counted, keeps `count <= (expand_mult + 1) * ideal`, and counts the item as nonideal exactly when it exceeds the ideal length |
| UtHash.Redistribute | include/uthash.h:853-873 | all items land in the doubled array, each in its masked bucket, with correct chains; nonideal_items is the sum over buckets of what exceeds the ideal |
| UtHash.IdealLength | include/uthash.h:849-851 | the shift-and-mask expression is the ceiling of items over buckets |
| UtHash.Doubled | include/uthash.h:836-886 | doubling keeps the set of items, partitioned by masked hash over twice as many linked and counted chains, with ideal length, nonideal count and chain bound right |
| UtHash.PartitionRedist | include/uthash.h:853-873 | redistributing the chains of a partition of the items gives a partition of the same items modulo the doubled count |
| UtHash.SumExcessPush | include/uthash.h:859-864 | pushing an item raises the total excess by one exactly when its chain is already at the ideal length |
| UtHash.Table.Find | include/uthash.h:748-767 | the item of that key, or null exactly when no item has it |
| UtHash.Table.MakeTable | include/uthash.h:215-245 | a fresh table is empty: 32 buckets without items, and all counters zero |
| UtHash.Table.ExpandBuckets | include/uthash.h:836-886 | doubling in place: all of the above, the app-order list untouched, ineff_expands and noexpand as the rule says |
| UtHash.Table.AddToTable | include/uthash.h:770-784 | the item joins the chain of its hash and the count; the buckets are doubled exactly when the chain reaches ten times one more than its expand_mult and noexpand is not set |
| UtHash.Table.LinkItem | include/uthash.h:405-415 | the item joins the end of the app-order list |
| UtHash.Table.Add | include/uthash.h:399-418 | adding an absent key appends the item to the order and keeps every invariant |
| UtHash.Table.Delete | include/uthash.h:453-480 | deleting removes exactly that item from the order and keeps every invariant, freeing the table with the last item |
| UtHash.Table.Iterate | include/uthash.h:1063-1065 | iteration visits the items in insertion order |
| UtHash.Table.DeleteWhere | include/uthash.h:1063-1065 | iteration that deletes the current item visits all items and leaves exactly the others, in order |
| UtHash.Table.Fsck | include/uthash.h:519-566 | in every valid state all of the program's own consistency conditions hold |
| UtHash.Run | include/uthash.h:399-480 | over any sequence of find, add and delete, answers and order are those of an insertion-ordered map |
| UtHash.LookupHas | include/uthash.h:748-767 | looking up in the map finds an item with the key if there is one, null otherwise |
| UtHash.LookupItem | include/uthash.h:748-767 | every item of the map is found under its own key |
| UtHash.RemoveAbsent | include/uthash.h:453-480 | removing a key that is absent changes nothing |
| UtHash.PartitionSize | include/uthash.h:545-548 | the chains together hold as many items as the order |
| Bits.AndMask | include/uthash.h:433-436 | masking with one less than a power of two is the remainder |
| Bits.CeilDivQuotient | include/uthash.h:849-851 | rounding up is the quotient plus one for a remainder |
| Bits.CeilDivLeast | include/uthash.h:818-835 | it is the least chain length at which that many buckets hold all items |
| HashSort.SortCorrect | include/uthash.h:893-975 | the bottom-up merge sort gives a sorted permutation in which equal items keep their order |
| HashSort.MergeSorted | include/uthash.h:920-960 | merging two sorted runs gives a sorted run |
| HashSort.MergeStable | include/uthash.h:933-948 | merging keeps the order of equal items, the first run's before the second's |
| HashSort.MergeRuns | include/uthash.h:908-961 | the relinking merge of two adjacent runs yields their merge, linked both ways, and the rest of the list untouched |
| HashSort.PassOver | include/uthash.h:903-965 | one pass over the list is one pass of merging on the sequence, and says whether there was more than one merge |
| HashSort.SortList | include/uthash.h:899-972 | the loop over run lengths ends with the sorted list, linked both ways, head and tail right |
| HashSort.Sort | include/uthash.h:893-975 | sorting a table reorders the app-order list into the sorted order and leaves the buckets alone |
| Regex.MatchPattern | src/regex/re.c:336-354 | true exactly when the text from here starts with a word of the declared language (ends with it, under `$`), whatever the match length was |
| Regex.MatchQuestion | src/regex/re.c:320-333 | the same for an optional atom |
| Regex.MatchStar | src/regex/re.c:288-303 | the same for any number of an atom, by backing off from the longest run |
| Regex.MatchPlus | src/regex/re.c:305-318 | the same for at least one |
| Regex.MatchP | src/regex/re.c:57-76 | the least index strictly before the end of the text at which a match starts, 0 or -1 for an anchored pattern, else -1 |
| Regex.AcceptsStep | src/regex/re.c:336-354 | acceptance decomposes by the token at hand and the quantifier behind it |
| Regex.Compile | src/regex/re.c:78-185 | compiling is the lexing function: the same tokens, class bodies, stack leftovers and failures, cut at 29 tokens |
| Regex.CompileOne | src/regex/re.c:90-158 | one token of it |
| Regex.CompileClass | src/regex/re.c:118-147 | one class of it, with every failing case |
| Regex.ScanClass | src/regex/re.c:130-143 | the class body, its end and its use of the shared class buffer |
| RegexMeaning.ReadsAtom | src/regex/re.c:92-153 | the text of a literal, escaped where it must be, of `.`, of an escape or of a class compiles to the token that stands for it, and the rest of the pattern is left |
| RegexMeaning.ReadsItems | src/regex/re.c:89-161 | the text of a whole expression compiles to the tokens that spell it |
| RegexMeaning.FitMeans | src/regex/re.c:272-286 | a token accepts exactly the bytes its atom stands for: `\d` the ten digits, `\w` these, the letters and the underscore, `\s` the six spaces, `\D \W \S` all others, a literal itself unless it is beyond ASCII where plain chars are signed |
| RegexMeaning.LanguageIsDenoted | src/regex/re.c:288-354 | the language of the tokens is what the expression denotes: a run of each atom after the other, each as long as its quantifier allows |
| RegexMeaning.CompiledMeaning | src/regex/re.c:78-185 | every expression that fits compiles, and at each place of every name its tokens accept exactly if a stretch from there on, to the end under `$`, is denoted |
| RegexMeaning.Match | src/regex/re.c:48-76 | compiling and matching finds an expression that starts with `^` at 0 or not at all, any other at the least place before the end where it is denoted |
| RegexMeaning.DigitPattern | src/regex/re.c:104-105 | the pattern `\d` accepts a byte exactly if it is one of 0123456789, `\D` exactly if it is not |
| RegexMeaning.WordPattern | src/regex/re.c:106-107 | the same for `\w` and `\W`: letters, digits and the underscore |
| RegexMeaning.SpacePattern | src/regex/re.c:108-109 | the same for `\s` and `\S`: space, tab, line feed, vertical tab, form feed and carriage return |
| Glob.IsGlobPattern | src/core/pattern.c:11-34 | true exactly when no `^ $ + [` stands outside a backslash pair and some `*` or `?` does |
| Glob.IsGlobMeaning | src/core/pattern.c:8-34 | told place by place: none of `^ $ + [` and some `*` or `?` among the characters that are not second in a backslash pair |
| Glob.TokensCounted | src/core/pattern.c:48-68 | a translation needs two tokens and one for each character, and one more for each `*` |
| Glob.GlobToRegex | src/core/pattern.c:36-76 | the buffer receives the translation and a terminator exactly when it is big enough by the program's tests |
| Glob.GlobMeaningIff | src/core/pattern.c:8-76 | for every accepted glob of at most 29 tokens: compiled and matched, its translation agrees with the glob on every C string, whatever the stack held, exactly when the glob has none of `^ $ + [` and, where plain chars are signed, no byte of 0x80 or above |
| Glob.GlobKeepsMeaning | src/core/pattern.c:36-76 | the if half: compiling and matching the translation is direct glob matching |
| Glob.HighByteLosesMeaning | src/regex/re.c:284 | a byte of 0x80 or above where plain chars are signed makes the agreement fail |
| Glob.SpellsNever | src/regex/re.c:272-286 | the tokens of such a glob accept no string |
| Glob.AccentLosesMeaning | src/regex/re.c:284 | the bytes of an accented e and a star: accepted, free of the four characters, and faithful exactly where plain chars are unsigned |
| Glob.SpellsMeaning | src/core/pattern.c:44-68 | the tokens of a translated glob denote exactly the C strings the glob matches, if its literals can be told from every byte |
| Glob.LexSpells | src/regex/re.c:89-160 | compiling a translation yields the tokens that spell the glob |
| Glob.AnchorLosesMeaning | src/core/pattern.c:18-27 | an escaped `^` or `$` in the glob makes the agreement fail |
| Glob.QuantifierLosesMeaning | src/core/pattern.c:18-27 | an escaped `+` or `[` in the glob makes the agreement fail |
| Glob.EscapedPlusLosesMeaning | src/core/pattern.c:18-29 | a star and an escaped plus: accepted, short enough, and never faithful |
| Glob.EscapedDollarLosesMeaning | src/core/pattern.c:18-29 | a star and an escaped dollar: accepted, short enough, and not faithful over some stack |
| Patterns.RegexText | src/core/pattern.c:99-109 | a pattern that is no glob is compiled as it stands; what is compiled for a glob of fewer than 30 tokens, free of `^ $ + [` and with literals that can be told from every byte, is found in exactly the C strings the glob matches; and so for a regular expression that fits and what it denotes |
| Patterns.CompilePatterns | src/core/pattern.c:78-123 | a list is compiled pattern by pattern, or not at all if one fails or there is none; a list of such globs and expressions never fails, each compiled pattern deciding what its source says; a pattern that is no glob is compiled as it stands |
| Patterns.PatternMatched | src/core/pattern.c:134-146 | true exactly when some compiled pattern of the list is found in the name |
| Patterns.Matched | src/core/pattern.c:78-146 | compiling a list of such patterns and matching a name against it: true exactly when some glob of the list matches the name or some expression of it is found there |
| Patterns.GlobDecides | src/core/pattern.c:98-109 | what is compiled for such a glob is found in a C string exactly when the glob matches it |
| Patterns.RegexpDecides | src/core/pattern.c:107-109 | what is compiled for a text that writes an expression down is found in a C string exactly where the expression is denoted, however the text is read |
| Paths.ChildTestMeaning | src/backend/backend_poll.c:226-233 | poll's string test for a direct child holds of the direct children and of siblings whose name extends the directory's, and of nothing else |
| Paths.BelowTestMeaning | src/backend/backend_inotify.c:393-395 | the removal test holds of exactly the paths below, by whole components |
| Paths.RenderInjective | src/backend/backend_poll.c:178-183 | different component lists are different strings |
| Paths.BaseNameIsLast | src/backend/backend_poll.c:97-100 | the name the callback patterns see is the last component |
| FileTree.DotsAreListed | src/backend/backend_poll.c:171-172 | a directory that lists `.` and `..` beside its files is a tree the scans speak about |
| Poll.Target.CheckCache | src/backend/backend_poll.c:128-159 | the listing is skipped exactly when the path exists, is cached with the same mtime and was cached more than 1500 ms ago; an outdated entry is refreshed and a missing one added, with the current mtime and time, and no other changes; deciding once is deciding for the whole scan |
| Poll.Target.Refresh | src/backend/backend_poll.c:208-213 | the snapshot is seen and current, with one MODIFIED exactly when its stamp changed |
| Poll.Target.VisitFile | src/backend/backend_poll.c:202-214 | a listed file is current afterwards; unknown ones are new and silent |
| Poll.Target.ScanPath | src/backend/backend_poll.c:113-263 | terminates on every finite tree and cache, although it mixes two ways of going down; everything reachable is listed or re-stat'ed as it should be, nothing else changes, and each changed stamp offers exactly one MODIFIED however often the path is visited |
| Poll.Target.ListDirectory | src/backend/backend_poll.c:161-217 | the listing branch of that |
| Poll.Target.ReuseListing | src/backend/backend_poll.c:218-262 | the skipping branch of that |
| Poll.Target.RecheckFiles | src/backend/backend_poll.c:225-245 | every known path the test accepts and stat finds is current afterwards |
| Poll.Target.VisitCachedDirs | src/backend/backend_poll.c:248-261 | iterating the cache while it grows reaches every directory cached before |
| Poll.Target.FindNew | src/backend/backend_poll.c:322-331 | the first new snapshot of that size, in table order |
| Poll.Target.PairGone | src/backend/backend_poll.c:317-339 | the in-place matching loop is the greedy matching of vanished with new paths: its events, its leftovers, and exactly the vanished entries deleted |
| Poll.Target.AnnounceNew | src/backend/backend_poll.c:342-347 | CREATED for exactly the new paths left, in table order |
| Poll.Target.ScanTarget | src/backend/backend_poll.c:265-348 | one scan: the walk from cleared flags, then one MODIFIED per changed stamp, the matching, and the leftovers, in this order; the callback receives of these exactly the wanted ones, in order; the table keeps its order |
| Poll.Target.InitialScan | src/backend/backend_poll.c:352-401 | records exactly the eligible files at or below the directory and emits nothing |
| Poll.Target.Emit | src/backend/backend_poll.c:88-111 | an event about a path below the root reaches the callback exactly if its kind is in the mask and the last component of the path passes the callback patterns; all events before stay |
| Poll.DeliveredIsWanted | src/backend/backend_poll.c:91-106 | of any events offered, the callback receives in order exactly those of a wanted kind whose path has an admitted last component |
| Moves.MatchingIsMaximum | src/backend/backend_poll.c:313-331 | for each size the number of MOVED is the lesser of the vanished and the new paths of that size |
| Moves.LeftoversDiffer | src/backend/backend_poll.c:313-347 | no DELETED and no CREATED left over share a size |
| Moves.PairEvents | src/backend/backend_poll.c:318-334 | each vanished path gets one event: DELETED, or MOVED to a new path of equal size |
| Moves.PairNews | src/backend/backend_poll.c:323-330 | each new path is used by at most one MOVED; used and left ones are all the new ones |
| PollExact.TrustedIsUnchanged | src/backend/backend_poll.c:135-141 | when the 1500 ms rule trusts an entry, the scan before came more than 1000 ms after caching, so the listing is what it was then |
| PollExact.ReachIsVisited | src/backend/backend_poll.c:113-263 | every directory of the target is visited, through listings or through the cache |
| PollExact.EligibleIsCurrent | src/backend/backend_poll.c:161-262 | every eligible file ends up current, listed or not |
| PollExact.SeenIsLoose | src/backend/backend_poll.c:225-245 | whatever ends up seen is an eligible file, or was known and is a directory that was re-stat'ed |
| PollExact.TouchedDirectory | src/backend/backend_poll.c:225-245 | a re-stat'ed directory is taken for its child by a skipped directory: its parent or a sibling whose name it extends |
| PollExact.LingeringIsSeen | src/backend/backend_poll.c:235-243 | a path so taken is re-stat'ed and stays |
| PollExact.ScanIsExactIff | src/backend/backend_poll.c:113-263 | from any table a run can reach: after a scan it holds every eligible file with its stamp and beyond these only known paths that are directories now; it is exactly the (mtime, size) map of the eligible files if and only if no known path is a directory that a skipped directory takes for its child |
| PollExact.CacheStaysSound | src/backend/backend_poll.c:146-158 | after a scan the cache knows every directory of the target and promises what the next scan needs |
| PollRuns.Watch | src/backend/backend_poll.c:515-547 | over a whole run of scans at most 500 ms apart every table holds every eligible file with its stamp and otherwise only lingering directories, and it is known which are exact; the callback receives exactly the wanted ones of the events offered, in order; the events offered, and those delivered if all are wanted, always replay to the current set of paths |
| PollRuns.ExactUntilRetyped | src/backend/backend_poll.c:113-263 | the table of a scan is exact if before no scan so far a file was replaced by a directory beside a directory whose name its name extends |
| PollRuns.LingersOn | src/backend/backend_poll.c:225-245 | as long as the tree does not change a lingering entry stays |
| PollRuns.StaysInexact | src/backend/backend_poll.c:225-245 | while anything lingers a scan over an unchanged tree leaves a wrong table, though nothing was retyped before it |
| PollRuns.RetypeIsReal | src/backend/backend_poll.c:225-245 | a concrete start that meets every condition and after whose scan the table is wrong |
| PollRuns.RetypeStays | src/backend/backend_poll.c:225-245 | the same run continued over an unchanged tree: the table is still wrong |
| Rescan.Diff | src/core/rescan.c:66-110 | reports each wanted difference between two tables once, and nothing else |
| Rescan.DiffersAgree | src/core/rescan.c:66-110 | a scan's events, each MOVED told as DELETED and CREATED, are a permutation of what the differ reports for the tables before and after |
| Rescan.SplitPair | src/backend/backend_poll.c:317-347 | splitting the moves undoes the matching |
| Rescan.ReplayScan | src/backend/backend_poll.c:265-348 | replaying a scan's events on the paths before gives the paths after |
| Watches.Inotify.AddSingle | src/backend/backend_inotify.c:112-175 | registers an unregistered path unless the kernel refuses, keeps table and registry inverse and watch_count their size, and otherwise changes nothing |
| Watches.Inotify.AddRecursive | src/backend/backend_inotify.c:179-382 | from any starting registry: adds exactly the entries below that are under no ignored name, of a kind the options take and let through by the watch patterns, and itself unless told not to; registered entries stay as they are |
| Watches.Inotify.AddEntry | src/backend/backend_inotify.c:192-279 | one entry of that |
| WatchSpec.EntryOfDir | src/backend/backend_inotify.c:232-237 | what one subdirectory contributes is what its own recursive add, with its own skip flag, contributes |
| WatchSpec.EntriesAll | src/backend/backend_inotify.c:191-374 | the entries together contribute all that is wanted below |
| WatchSpec.OptionsAsDocumented | src/backend/backend_inotify.c:232-245 | the code's tests take the documented kinds for every set of options but files with symlinks |
| WatchSpec.KindsTaken | src/backend/backend_inotify.c:232-245 | directories are registered under the option sets 0, 2, 3, 5, 6 and 7, files under 0, 1, 3, 5 and 7; documented for directories are 0, 2, 3, 6 and 7 |
| WatchSpec.OptionsTakeDirectory | src/backend/backend_inotify.c:232-237 | files and symlinks asked for over a tree with a directory: the directory is taken |
| Watches.Inotify.RemoveChildren | src/backend/backend_inotify.c:386-413 | unregisters exactly the paths below, by whole components |
| Watches.Inotify.HandleRmdir | src/backend/backend_inotify.c:457-487 | unregisters exactly the directory and the paths below it |
| Watches.Inotify.HandleMkdir | src/backend/backend_inotify.c:415-455 | a new directory below a recursive watch is added recursively, with itself; otherwise nothing changes |
| WatchSpec.RemovalUndoesAdd | src/backend/backend_inotify.c:415-487 | after adding and removing a directory the registry is what it was, less what was registered within it |
| Watches.Inotify.Remove | src/core/swatcher.c:157-176 | removing any created target: a registered one leaves both tables; any other empties the registry and leaves the descriptor table, or crashes if the registry is empty; the tables are inverse afterwards if and only if it was this target that was registered |
| Watches.RemoveFilesTarget | src/core/swatcher.c:144-176 | a recursive target for files only is added, then removed: the registry is gone, the watch of its file is not, and stays when the target loop of the cleanup has run |
| Watches.Inotify.Cleanup | src/core/swatcher.c:186-194 | the target loop empties the registry and takes out of the descriptor table exactly what was registered: everything if the tables were inverse |
| Watches.Inotify.Add | src/core/swatcher.c:144-151 | adding a target is a recursive or a single add, with the skip flag of its options and patterns |
| Watches.Inotify.RescanAll | src/backend/backend_inotify.c:491-523 | iterating a table that grows meanwhile, in any state and with any patterns: with no failed add the registry becomes what the rounds in table order make of it, every directory directly below a watch active at the start is registered, and without patterns the registry is exactly what it was and everything swept |
| Watches.Inotify.RescanDirectory | src/backend/backend_inotify.c:498-521 | rescanning one directory registers its missing child directories, whatever the patterns say, and below each what the watch wants |
| Overflow.RoundAll | src/backend/backend_inotify.c:504-519 | the entries of a directory, one after the other, add up to its round |
| Overflow.GrownIffMore | src/backend/backend_inotify.c:497 | the iteration goes on behind the entries it started with exactly if an entry other than the last had something to register |
| Overflow.IteratingMore | src/backend/backend_inotify.c:497-522 | one step of the iteration, whose next entry is fixed before the current one is handled |
| Overflow.IteratingEnd | src/backend/backend_inotify.c:497-522 | when it ends, the outcome is as described and every watch active at the start has its child directories registered |
| Overflow.RescanAskedForIff | src/backend/backend_inotify.c:491-523 | every new watch is one that a watch active before, with the spec it carries, wants below itself, if and only if every directory found missing in the first rounds fits the watch that finds it and the iteration stops behind the first entries or finds nothing more |
| Overflow.RescanAskedForIf | src/backend/backend_inotify.c:491-523 | for that it is enough that every directory within a missing one is unignored and taken by the spec |
| Overflow.AskedForIsWanted | src/backend/backend_inotify.c:430-441 | then every new watch is wanted, and where all active watches share a spec this is the same |
| Overflow.LaterRoundStrays | src/backend/backend_inotify.c:491-523 | two watches that ignore x: x is registered in a later round though no missing directory is ignored |
| Overflow.LastRoundStops | src/backend/backend_inotify.c:491-523 | one watch that ignores x over the same tree: x is left alone |
| Overflow.OtherSpecWants | src/backend/backend_inotify.c:430-441 | two watches of different specs: a directory comes to be watched with the spec that ignores it, though the other watch wants it |
| Overflow.SweepMore | src/backend/backend_inotify.c:516-518 | without patterns one round goes on with the sweep |
| Overflow.SweepDone | src/backend/backend_inotify.c:491-523 | direct children registered and subtrees added whole give the whole sweep |
| Overflow.OverflowClosureIff | src/backend/backend_inotify.c:491-523 | after the rescan every directory below an active recursive watch is registered if and only if there was no blind spot: a registered directory below an active one, itself not active, with a child directory neither registered nor swept from elsewhere |
| Overflow.ClosureCanFail | src/backend/backend_inotify.c:498-521 | a concrete tree and registry with a blind spot |
| Slots.SlotIsNetIff | src/backend/backend_inotify.c:566-591 | for every possible history of a path in one window the slot tells its net effect if and only if the path was not present at the start and created again |
| Slots.SlotMeaning | src/backend/backend_inotify.c:566-591 | what the slot holds in either case |
| Slots.RecreationMisleads | src/backend/backend_inotify.c:583-591 | deleted and created again: told as created, though it was changed |
| Slots.LegalSplit | src/backend/backend_inotify.c:557-609 | a possible history cut in two is two possible histories, the second from where the first ends |
| Slots.RateBound | src/backend/backend_inotify.c:543-555 | spaced dispatches: at most L/c + 1 of them for one path in any interval of length L |
| Coalesce.FullPathMeaning | src/backend/backend_inotify.c:706-712 | a full path is the target's path and the name with just one separator between them, the path's own if it ends in one |
| Coalesce.CoalescedAs | src/backend/backend_inotify.c:564-608 | the merge rules field by field: which of event, stamp, kind and old path an arrival replaces, what it keeps, what cancels out, and where the slot stands |
| Coalesce.FlushedSettles | src/backend/backend_inotify.c:543-555 | a flush told slot by slot: the quiet ones leave in order of first arrival with their own event, kind and old path, the others stay as they are |
| Events.Pipeline.CoalesceAdd | src/backend/backend_inotify.c:557-609 | the slot of the path is merged by the rules, field by field, keeps its place or goes last or goes away; other slots stay; nothing given is forgotten |
| Events.Pipeline.Flush | src/backend/backend_inotify.c:543-555 | dispatches, in order of first arrival, exactly the slots that have been quiet for coalesce_ms, or all, each with its path, event, kind and old path; the others stay in order |
| Events.Pipeline.FlushDue | src/backend/backend_inotify.c:768-771 | after the flush of a round no slot has been quiet for that long |
| Events.Pipeline.Shutdown | src/backend/backend_inotify.c:925-930 | every pending slot is dispatched, in order of first arrival; what no dispatch stands for has cancelled out |
| Events.Pipeline.Dispatch | src/backend/backend_inotify.c:700-722 | with coalescing on a named call goes to the slot of its full path and nowhere else; any other is made at once and touches no slot |
| Events.Pipeline.Expire | src/backend/backend_inotify.c:748-766 | exactly the FROM entries at least coalesce_ms old, or 100 ms without coalescing, leave; each whose target wants it with one DELETED of its name, in order |
| Events.Pipeline.DoTick | src/backend/backend_inotify.c:746-773 | the expiry pass, and then with coalescing on the flush of what it leaves |
| Pairing.ExpiriesCalls | src/backend/backend_inotify.c:754-764 | expired entries lead to their DELETED calls, in order, and to nothing else |
| Pairing.FreshTold | src/backend/backend_inotify.c:754-764 | what stays is what is younger than the limit; what leaves and is wanted is told as DELETED, entry by entry |
| Events.Pipeline.ExpireOne | src/backend/backend_inotify.c:754-764 | the DELETED goes to the very path that was buffered |
| Pairing.FreshIsFresh | src/backend/backend_inotify.c:748-766 | after the pass no pending entry is as old as the limit, and none that left was younger |
| Pairing.FreshAndStale | src/backend/backend_inotify.c:748-766 | the pass loses and doubles no entry |
| Events.Pipeline.Handle | src/backend/backend_inotify.c:855-919 | a FROM with cookie and name is buffered with its joined path and calls nothing; a TO that has a name, is wanted and passes leads to one MOVED, with the path of the pending FROM of its nonzero cookie or with none if there is no such FROM, and takes that entry out and no other; any other record leads to its own event if it is wanted and passes, else to nothing |
| Events.Pipeline.TakeMove | src/backend/backend_inotify.c:883-889 | the entry of that cookie is taken out, and only that one |
| Events.Pipeline.Run | src/backend/backend_inotify.c:737-923 | over every run in which no FROM reuses a cookie: the FROMs buffered and the other records handled are those of the run; each FROM is still pending, consumed or expired, once; the dispatcher's calls are those of the records consumed, expired and passed, in order; and every old path handed on is the joined path of a FROM record before the TO record, with the same nonzero cookie |
| Pairing.TracedMore | src/backend/backend_inotify.c:855-899 | one step more: every pending entry comes from a FROM record so far, every old path handed on from an earlier FROM with the cookie of the TO |
| Pairing.PendingTold | src/backend/backend_inotify.c:883-889 | at most one entry has the cookie of a TO; its path is the one handed on, and taking it leaves all others |
| Pairing.CausedMore | src/backend/backend_inotify.c:748-919 | one more cause adds its calls, and a TO is paired with the FROM of its own cookie only |
| Pairing.ConservedDrop | src/backend/backend_inotify.c:762-763 | an entry that leaves is counted once, as consumed or as expired |
| Coalesce.DispatchIsNetIff | src/backend/backend_inotify.c:543-609 | the windows dispatched for a path cut its history; each dispatch tells its window's net effect if and only if the window has no re-creation of a path present at its start |
| Events.RunTellsNet | src/backend/backend_inotify.c:543-609 | the same in every reachable state, of all events given for the path |
| Events.RunIsDebounced | src/backend/backend_inotify.c:543-609 | in every reachable state before shutdown at most L/coalesce_ms + 1 dispatches for a path fall into any interval of length L |
| Coalesce.SummariesPut | src/backend/backend_inotify.c:564-608 | absorbing an event keeps every slot the summary of its window and the windows the whole history |
| Coalesce.SummariesSend | src/backend/backend_inotify.c:548-553 | so does dispatching one |
| Coalesce.TimelySend | src/backend/backend_inotify.c:549-552 | dispatching after coalesce_ms of quiet keeps dispatches for a path that far apart |
| Uring.Ring.SubmitRead | src/backend/backend_uring.c:124-150 | with nothing outstanding the ring is never full, whatever the indices, and the request lands in a slot of the ring |
| Uring.Ring.KernelRuns | src/backend/backend_uring.c:1055-1068 | no kernel steps change the number of reads outstanding, or anything while the kernel holds no read; while it holds one, their first completion is what the program will find |
| Uring.Ring.KernelTakes | src/backend/backend_uring.c:1047 | a call that is not interrupted takes the queued read |
| Uring.Ring.OneRound | src/backend/backend_uring.c:1038-1115 | a round is left exactly if submitting or polling fails; it strands its read exactly if it submits it and the call is interrupted; a read completed by the time poll reports it, before the round or within it, is consumed: what it brought has been parsed, nothing is outstanding, and all that was delivered is parsed; in all cases the place of the read and what is parsed follow the machine of four states |
| Uring.Ring.Consume | src/backend/backend_uring.c:1071-1082 | the buffer that is parsed is what the kernel delivered, while no read can write to it |
| Uring.Ring.Drain | src/backend/backend_uring.c:1067-1088 | ends after (tail - head) mod 2^32 rounds, consumes what was completed when the tail was loaded, parses what it brought and advances the head past it; without a completion nothing changes |
| Uring.Ring.ThreadLoop | src/backend/backend_uring.c:1036-1115 | at each top of the loop the reads queued, in the kernel or completed and not consumed are one if read_pending and none otherwise; everything delivered is parsed once, in order; over any rounds the place of the read and what is parsed are those of the machine of four states, and the loop is left exactly at the first round whose call fails; a completed read is parsed by the first round that polls it; rounds that submit, complete and poll parse all that their reads bring; once a read is stranded nothing is parsed again |
| Uring.SmoothRun | src/backend/backend_uring.c:1036-1088 | rounds that each submit, complete and poll a read parse everything the reads bring, in order, and end with none outstanding |
| Uring.BackRun | src/backend/backend_uring.c:1056-1088 | a completed read waits for the first round that polls it, and is parsed first there |
| Uring.StuckRun | src/backend/backend_uring.c:1040-1053 | no rounds get past a stranded read |
| Uring.MinusWraps | src/backend/backend_uring.c:124-150 | differences and successors of ring indices are those modulo 2^32 |
| Uring.SlotsFollow | src/backend/backend_uring.c:113-117 | successive indices use successive slots, across the wrap at 2^32 too |

## Left out

- System calls, threads and locks, logging, the VCS pause, allocation failure, paths cut at SW_PATH_MAX, the Win32,
  FSEvents and fanotify backends and the C++ and Zig wrappers.
- uthash: hash functions (an arbitrary fixed function of the key), Bloom filters, HASH_SELECT, sorted insertion,
  replacing, and 32-bit overflow of item and bucket counts.
- Regex.MatchP: the digit, letter and space tests are those of the C locale.
- Regex.MatchP: a character class is an arbitrary test on class body and character, because its rule for `-` reads
  before the body; the text of the class is modelled by the compiler.
- Regex.MatchPattern: the match length is carried along and shown not to matter; its value is not described, as failing
  returns do not restore it and no caller uses it.
- Regex.MatchPattern: requires tokens whose quantifiers follow an atom, `^` first and `$` last, as every other sequence
  reads past its neighbours.
- RegexMeaning.CompiledMeaning: expressions of at most 29 tokens whose class texts fit the buffer of 40 bytes; longer
  ones are cut or refused, which is in Regex.Compile; `^` and `$` inside an expression have no meaning of their own.
- Glob.GlobMeaningIff: stops at 29 tokens, where the compiler cuts patterns silently.
- PollExact.ScanIsExactIff: assumes scans at most 500 ms apart, a tree that stands still during a scan, directories
  whose mtime shows their last change, and no mtime in the future at a cached path; outside these the cache rule
  promises nothing.
- Poll.Target.ScanTarget: directory targets without symlinks; the single-file branch is one find, add or delete.
- Poll.Target.ScanTarget: one reading of the clock stands for the readings of one scan.
- rescan_walk: the walk of InitialScan without filters; it would repeat that proof.
- Watches.Inotify.AddRecursive: trees without symlinks; with follow_symlinks the recursion precedes the check for
  registered paths and need not end on cycles of links.
- Watches.Inotify.AddSingle: assumes the kernel answers with a descriptor that is not in the table.
- Overflow.RescanAskedForIff: asks that the watch that wants a new one carries its spec; with several specs in one
  registry the wider question, whether any watch wants it, is answered one way (Overflow.AskedForIsWanted); the two
  do differ then (Overflow.OtherSpecWants).
- Watches.Inotify.Remove: what later calls do once the registry has been lost to a wrong removal, but for the cleanup.
- Watches.Inotify.RescanAll: the callbacks and the rescan of file contents that follow it on overflow.
- Events.Pipeline.Run: watch table lookup, mkdir and rmdir handling and overflow are modelled in Watches only, and
  nothing is said about whether the target of a pending entry is still registered: removal does not visit that table.
- Events.Pipeline.Run: a FROM whose cookie is still pending would put two entries of one key into the table; the
  kernel does not reuse cookies so.
- Events.RunTellsNet: histories of creations, changes and deletions; a MOVED, OPENED, CLOSED, ACCESSED or ATTRIB event
  overwrites the slot by the default rule, as the model's slots do too.
- Uring.Ring.ThreadLoop: says what becomes of a read that completes, not that a read taken is ever completed; expiry and
  flushing at the end of its rounds are those of Coalesce.
