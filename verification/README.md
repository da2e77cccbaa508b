# Models of Solaris command logic in Dafny

This project models seven pieces of the Solaris sources and proves what they promise, over all inputs and all runs:

* **Regular expressions** (`regexp.h`): the text of a pattern is read into items, the items are compiled to code by a
  loop that patches what it has written, and the code is matched by a backtracking interpreter with captures kept in
  global arrays. The reference is a tree of the pattern with a denotation (`RegexMeaning.Denotes`), and a search order
  given by vectors of repetition counts. Patterns can also be written down as abstract syntax with a meaning of its own
  and a spelling: reading the spelling gives the pattern back (`RegexSpelling.ReadsWhatIsWritten`), and the search finds
  what was meant (`RegexWritten.SearchFindsMeant`). The main results are `RegexTheorems.CompileAndStep` (text in, leftmost match
  of the pattern's tree out, or a search that no number of turns completes), `RegexGreedy.GreedyGreatest` (which match)
  and `RegexEnding.LoopsExactly` (when the search does not end).
* **Bad sector remapping** (`ix_altsctr.c`): a map of the alternates partition, a table of remapped ranges, and any
  number of updates, each refused for an exact reason or one that covers what was asked for and keeps every alternate
  inside the partition, good, and used once (`AltsRounds.Rounds`; in terms of the lists as they were given,
  `AltsRounds.RoundsRecord`). A remapped sector keeps the one sector that stands in for it (`AltsPart.StandInsSafe`,
  `AltsRounds.StandInsStay`).
* **Connect accounting** (`acctcon.c`): the session machine over login records, conservation of time and sessions,
  invariance under changes of the clock, and the books at every point of every run as sums over the sessions of the
  records: who is charged, how much, and how often (`SessionBooks.RunKept`, `SessionBooks.BooksExactly`).
* **Clock repair** (`wtmpfix.c`): the two-pass repair of time stamps, its declarative form, and when it restores the
  true times (`ClockRepair.RepairRestores`).
* **Merging totals** (`acctmerg.c`): the merge of any number of accounting files, with its result in terms of
  numbers and names (`TacctMerge.MergedByName`).
* **Command totals** (`acctcms.c`): the open-addressed hash table and what is left of it in the summary.
* **The audit daemon** (`auditd.c`): the scan of the ring of audit directories, and the chain that headers and trailers
  of the log files form. The daemon's loop computes `AuditRounds.RunOf`, a function of what happens in its rounds, and
  over every run the chain breaks exactly where a round found no space (`AuditRounds.BreaksExactly`). Which directory
  a round uses follows from the free blocks (`AuditOutcomes.RoundUsesRoom`), and what signals do is stated of rounds and
  runs (`AuditOutcomes.ServiceOutcome`, `AuditOutcomes.RunReloads`).

What changes in place in C is a class with methods that change fields or arrays, proved against functions of the old
state; the laws are then lemmas about those functions. Each file holds one module of the same name:

| part | modules |
|---|---|
| regular expressions | Bits, RegexSyntax, RegexParser, RegexCompiler, RegexSemantics, RegexGreedy, RegexEnding, RegexMeaning, RegexPatterns, RegexMatcher, RegexAdvance, RegexTheorems, RegexSpelling, RegexWritten, RegexExamples |
| bad sectors | AltsTable, AltsMap, AltsPart, AltsRoom, AltsUpdate, AltsRounds, AltsExamples |
| connect accounting | LoginRecords, Sums, Sessions, SessionLaws, SessionBooks, ClockLaws |
| clock repair | LoginRecords, ClockRepair |
| merging totals | TacctMerge |
| command totals | Ring, CommandTable, CommandSummary |
| audit daemon | Ring, AuditTrail, AuditScan, AuditSearch, AuditRounds, AuditOutcomes, AuditDaemon |
| several | Options |

`dafny verify dfyconfig.toml` checks the whole project.

Bytes are integers from 0 to 255, and the bit operations of the source are written as arithmetic. Amounts that the
source keeps in `float` are `real`. What the operating system answers (free blocks, whether a file opens, signals, the
time, the user table, the split into prime and other hours) is a parameter, so every statement holds for every answer.
A number of invariants are the constraint of a subset type (`AltsPart.Safe`, `AltsPart.AltSafe`, `AuditTrail.Books`):
a field or parameter of that type satisfies the invariant wherever it is mentioned.

Where the code does not do what one would expect, the code is kept; there is a lemma at an input, and one that says
exactly when it happens:

* A starred reference to a group that matched nothing never ends, although the pattern matches: `\(\)\1*`, on every
  subject (`RegexExamples.EmptyGroupLoops`). A search does not end if and only if some repetition counts lead to such a
  reference and no match has lexicographically greater ones (`RegexEnding.LoopsExactly`, `RegexEnding.HangsExactly`);
  the matcher then runs out of turns whatever their number, and otherwise does not
  (`RegexAdvance.Matcher.Advance`).
  Of some patterns it can be told beforehand that every search ends (`RegexTheorems.SearchEnds`), but others may end too
  (`RegexExamples.FilledHereEnds`).
* The compiler counts closed groups, so it accepts a reference inside its own group, as in `\(\(\)\1\)`
  (`RegexExamples.InnerReferenceUnsupported`). `RegexPatterns.SupportedExactly` gives the accepted patterns that the
  statements about matching cover, and `RegexPatterns.SupportedText` puts it in terms of the text.
* For the same reason it refuses a reference to a group that is closed while one around it is open, as in `\(\(\)\2\)`
  (`RegexExamples.InnerClosedRefused`); `RegexSpelling.ErrorsAt` has the condition.
* An interval without an upper bound stops at 20000 characters more than its lower one
  (`RegexWritten.AtLeastExactly`).
* A lone backslash at the end of a text is accepted and stands for NUL (`RegexExamples.LoneBackslash`,
  `RegexPatterns.NoNulExactly`).
* While nothing is remapped, a list whose reports all lie inside the partition fails with 65, as if there were no room,
  and the sectors are not recorded: no run is ever found for an entry table without entries
  (`AltsExamples.OwnSectorRefused`, `AltsExamples.OwnSectorUninstalled`). An update fails with 65 if and only if this is
  so, or an entry in its turn or the entry table finds no free run (`AltsRounds.UpdateFailsExactly`).
* A sector that is reported twice in one list stays in the table twice (`AltsExamples.DuplicateStays`,
  `AltsRounds.DisjointExactly`).
* An accepted login without a name is begun but never charged (`SessionLaws.NamelessLogin`,
  `SessionLaws.SessionsAccountedExactly`).
* A record of the login program in the middle of a session moves the time of the line, so the time before it is lost
  (`SessionBooks.TimeLost`). A session is charged for its whole length if and only if the last record on its line before
  its end is as late as the login, clock changes put right (`SessionBooks.WholeExactly`).
* A record without a name spoils the command table unless it has nothing to add (`CommandTable.NamelessLeaks`,
  `CommandTable.EntryKeeps`).
* In a merge a record without a name ends its file, so the totals miss the rest (`TacctMerge.NamelessEnds`). A file is
  read to its end if and only if all records have names (`TacctMerge.ReadableAll`), and what is missed is exactly the
  rest (`TacctMerge.MissesUnread`).
* The search for hard space goes on twice after a failed open, so it can pass over a directory that would open
  (`AuditScan.SearchMisses`). It finds nothing if and only if each such directory comes after an odd row of refusals,
  and the ring does not end in one (`AuditSearch.FindsNothingExactly`).
* A hangup together with a request for a new log makes the daemon forget the request, so records may go on to the old
  log (`AuditOutcomes.SwitchForgotten`). `AuditOutcomes.KeepsExactly` says when a round goes on with the open log.

## Model

| member | source | states |
|---|---|---|
| `RegexCompiler.PlaceRange` | usr/src/head/regexp.h:176-179 | Setting the bits of a range adds exactly its characters to the map and leaves the others |
| `RegexCompiler.PromoteKeeps` | usr/src/head/regexp.h:155-162 | Growing a map from 16 to 32 bytes in the middle of a bracket expression keeps its set |
| `RegexCompiler.ScanBracket` | usr/src/head/regexp.h:136-183 | For every text the loop ends with the map of the set that the bracket expression denotes, at the place after it, or with its error; which set that is, `RegexSpelling.MarksRead` and `RegexSpelling.UnclosedBracket` say |
| `RegexSpelling.MarksRead` | usr/src/head/regexp.h:136-183 | A bracket expression written as characters and pairs of ends is read as exactly the characters named, with all that lie between the ends of a pair, for any number of parts in any order |
| `RegexSpelling.UnclosedBracket` | usr/src/head/regexp.h:151-154 | Without a closing bracket, error 49 |
| `RegexSpelling.ClassRead` | usr/src/head/regexp.h:132-203 | A bracket expression, negated or not, is one item: the class of the characters it names |
| `RegexCompiler.Complement` | usr/src/head/regexp.h:190-195 | Complementing a 32-byte map byte by byte yields the set of all other characters, without NUL |
| `RegexCompiler.EmitBracket` | usr/src/head/regexp.h:185-203 | Both ways of negating and both sizes produce the one code of the class |
| `RegexCompiler.ScanInterval` | usr/src/head/regexp.h:226-260 | The bounds of an interval are read as the grammar has them, with each of its errors |
| `RegexSpelling.BoundRead` | usr/src/head/regexp.h:226-260 | The three forms of an interval, with their numbers in decimal, are read as their bounds |
| `RegexSpelling.IntervalErrors` | usr/src/head/regexp.h:226-260 | Error 16 without a digit, 11 for a number of 255 or more, 44 for a third bound, 45 without the closing brace, 46 for bounds out of order |
| `RegexCompiler.StarMirrors` | usr/src/head/regexp.h:124-128 | Setting the star bit of the last operation in place is the code of the starred item |
| `RegexCompiler.RngeMirrors` | usr/src/head/regexp.h:226-260 | Setting the interval bits in place and appending the bounds is the code of the item with an interval |
| `RegexCompiler.EmitGroup` | usr/src/head/regexp.h:207-225 | A group delimiter appends its code and keeps the stack of open groups, or fails as the grammar says |
| `RegexCompiler.EmitBack` | usr/src/head/regexp.h:269-276 | A back-reference appends its code when that many groups are closed, and is error 25 otherwise |
| `RegexCompiler.EmitEscape` | usr/src/head/regexp.h:207-277 | An escape does to the code what reading it does to the items |
| `RegexCompiler.EmitClass` | usr/src/head/regexp.h:136-203 | A bracket expression appends the code of the class it denotes |
| `RegexCompiler.EmitOne` | usr/src/head/regexp.h:97-286 | Each turn of the loop keeps code, place of the last item and group counts those of the items read so far |
| `RegexCompiler.Compile` | usr/src/head/regexp.h:61-287 | Every text compiles to the code of the pattern it denotes, keeps the previous code, or fails with that pattern's error |
| `RegexSpelling.ReadsWhatIsWritten` | usr/src/head/regexp.h:61-287 | Round trip: a text that starts with the spelling of a pattern, ended by the delimiter or a newline, is read as that pattern, with its groups numbered in order, its references, classes, intervals and anchors |
| `RegexSpelling.ErrorsAt` | usr/src/head/regexp.h:97-286 | What causes the errors 25, 36, 42, 43 and 50, at any place of any text |
| `RegexSpelling.EmptyPattern` | usr/src/head/regexp.h:81-90 | An empty pattern is error 41 if and only if there is none before it and the mode does not allow it |
| `RegexPatterns.ParsedGroups` | usr/src/head/regexp.h:209-224 | In an accepted pattern groups are numbered in the order they open and nested properly |
| `RegexPatterns.ParsedItemsOk` | usr/src/head/regexp.h:226-260 | In an accepted pattern every interval has a lower bound below 255 and not above its upper bound |
| `RegexPatterns.TreeOf` | usr/src/head/regexp.h:61-287 | The pieces of an accepted pattern are the flattening of a tree of groups |
| `RegexPatterns.SupportedExactly` | usr/src/head/regexp.h:61-287 | An accepted pattern is well formed for the statements about matching if and only if its suffixes have code, references follow the end of their group, and no item is NUL |
| `RegexPatterns.NoNulExactly` | usr/src/head/regexp.h:61-287 | In an accepted text without NUL an item stands for NUL if and only if the text is read to its end and ends in an odd row of backslashes |
| `RegexPatterns.SupportedText` | usr/src/head/regexp.h:61-287 | An accepted text without NUL is supported if and only if its suffixes have code, references follow the end of their group, and no lone backslash is read at its end |
| `RegexSyntax.BitmapUnique` | usr/src/head/regexp.h:35-36 | A map is determined by the set it stands for |
| `RegexMatcher.HitIsAccepts` | usr/src/head/regexp.h:350-386 | The test on a character with a 16- or 32-byte map, negated or not, is membership in the class |
| `RegexMatcher.OpKinds` | usr/src/head/regexp.h:19-31 | An operation code with its star and interval bits tells which piece it belongs to |
| `RegexMatcher.EncodeMeanings` | usr/src/head/regexp.h:61-287 | The code of the items is the code of the pieces they mean |
| `RegexMatcher.CodeSplit` | usr/src/head/regexp.h:346-352 | The code at a place starts with the operation and arguments of the first piece, and the code of the rest follows |
| `RegexMatcher.ScanStar` | usr/src/head/regexp.h:489-517 | Skipping characters stops one after the longest run that is accepted |
| `RegexMatcher.Ecmp` | usr/src/head/regexp.h:37 | The comparison holds exactly when the text stands there before the end of the subject |
| `RegexAdvance.Matcher.GetRnge` | usr/src/head/regexp.h:532-542 | The bounds of an interval become the count to take and the count that may follow |
| `RegexAdvance.Matcher.ScanRnge` | usr/src/head/regexp.h:396-462 | An interval fails exactly when fewer characters than its lower bound are there, and otherwise skips as many as it allows |
| `RegexAdvance.Matcher.PassAtom` | usr/src/head/regexp.h:350-386 | One character or the end mark: succeeds as the greedy search does and goes on after it |
| `RegexAdvance.Matcher.PassGroup` | usr/src/head/regexp.h:388-394 | A group delimiter records the place, and keeps all captures made on this path |
| `RegexAdvance.Matcher.PassRef` | usr/src/head/regexp.h:464-472 | A reference succeeds exactly when the text of its group stands there |
| `RegexAdvance.CopyTurns` | usr/src/head/regexp.h:474-479 | Whatever the number of turns, the loop over copies of an empty text goes on at the same place; over any other text it ends after stepping over as many copies as stand there |
| `RegexAdvance.Matcher.BacktrackRefs` | usr/src/head/regexp.h:474-486 | A starred reference steps over the copies of its group and gives back one at a time; it yields what the greedy search yields, and runs out of turns as that does not end |
| `RegexAdvance.Matcher.Backtrack` | usr/src/head/regexp.h:519-526 | Giving back one character at a time yields what the greedy search yields, from the captures of this path alone |
| `RegexAdvance.Matcher.Advance` | usr/src/head/regexp.h:330-530 | For every bound on the turns of each loop over copies: where the greedy search does not end it runs out of them, and with as many turns as the subject is long only there; otherwise it succeeds exactly when the greedy search from this place and these captures matches, with its end and its captures; what failed attempts left in the arrays has no effect |
| `RegexAdvance.LiteralFirst` | usr/src/head/regexp.h:306-316 | Where the first character differs from a leading literal there is no match, so the shortcut misses none |
| `RegexAdvance.Matcher.Step` | usr/src/head/regexp.h:291-326 | With and without the shortcut, reports the first place at which the greedy search matches, or the only one if anchored; it runs out of turns, whatever their number, where that search does not end |
| `RegexGreedy.GreedyGreatest` | usr/src/head/regexp.h:330-530 | The match found is the one with the lexicographically greatest vector of repetition counts; without a match there is no such vector |
| `RegexGreedy.GreatestUnique` | usr/src/head/regexp.h:519-526 | There is one greatest vector, and one match for it |
| `RegexGreedy.GreedyDecidesMatching` | usr/src/head/regexp.h:330-530 | Where it ends, the greedy search matches if and only if some way to match exists |
| `RegexEnding.LoopsExactly` | usr/src/head/regexp.h:330-530 | The search from a place does not end if and only if some vector of counts leads to a starred reference to an empty text and no match has a lexicographically greater one |
| `RegexEnding.HangsExactly` | usr/src/head/regexp.h:291-326 | The scan does not end if and only if at some place the search does not end and at no place before it is there a match |
| `RegexGreedy.ScanFindsLeftmost` | usr/src/head/regexp.h:291-326 | The scan finds the leftmost place with a match, or there is none |
| `RegexMeaning.MatchesConcat` | usr/src/head/regexp.h:330-530 | Code in sequence matches exactly through a place in between |
| `RegexMeaning.FlattenKeepsMeaning` | usr/src/head/regexp.h:388-394 | The flat code of a tree matches a stretch with given captures if and only if the tree denotes it |
| `RegexPatterns.BracketExcludesNul` | usr/src/head/regexp.h:136-183 | No bracket expression contains NUL |
| `RegexTheorems.SearchEnds` | usr/src/head/regexp.h:330-530 | On supported code in which every starred reference is to a group that cannot be empty the search ends, on every subject |
| `RegexExamples.EmptyGroupLoops` | usr/src/head/regexp.h:474-486 | The text `\(\)\1*` is accepted and supported and matches at every place of every subject, but the search does not end |
| `RegexExamples.FilledHereEnds` | usr/src/head/regexp.h:474-486 | A starred reference to a group that can be empty, on a subject where it is not: the search ends |
| `RegexExamples.InnerReferenceUnsupported` | usr/src/head/regexp.h:269-276 | The text `\(\(\)\1\)` is accepted, although the reference stands inside its own group |
| `RegexExamples.InnerClosedRefused` | usr/src/head/regexp.h:269-276 | The text `\(\(\)\2\)` is error 25, although the second group is closed where it is referred to |
| `RegexExamples.LoneBackslash` | usr/src/head/regexp.h:207-286 | The text of one backslash is accepted, with an item that stands for NUL |
| `RegexTheorems.ScanDenotes` | usr/src/head/regexp.h:291-326 | The scan's start and end are a stretch that the tree denotes, and no earlier start has one |
| `RegexTheorems.SearchFinds` | usr/src/head/regexp.h:291-326 | What the search reports is the leftmost stretch that the tree denotes, with the greatest repetition counts among the matches there |
| `RegexTheorems.StallsExactly` | usr/src/head/regexp.h:291-530 | The search from a place, anchored or not, does not end if and only if counts lead to copies of an empty text with no match before the place and none there with greater counts |
| `RegexTheorems.CompileAndStep` | usr/src/head/regexp.h:61-326 | For every text, either mode, every subject, start and number of turns, compiling and searching with the code yields the error, the previous pattern, the leftmost stretch the tree denotes with the greatest repetition counts, or shows there is none; it is still searching for every number of turns if the search stalls, and with as many as the subject is long only then |
| `RegexWritten.MeansTree` | usr/src/head/regexp.h:330-530 | The tree of a written pattern denotes a stretch with given captures if and only if the pattern means it; its meaning is stated on the syntax, by characters, counts and copies of groups |
| `RegexWritten.SearchFindsMeant` | usr/src/head/regexp.h:61-326 | Compiling the spelling of a pattern and searching with the code finds the leftmost stretch that it means, or shows that there is none, unless it is still searching |
| `RegexWritten.AtLeastExactly` | usr/src/head/regexp.h:532-542 | An interval without an upper bound takes every run from its lower bound on, if and only if no run is longer than 20000 characters more than that |
| `AltsTable.EntSort` | usr/src/cmd/addbadsec/ix_altsctr.c:574-599 | The entries come out sorted and are a permutation, also when a pass without exchanges ends it early |
| `AltsTable.SinkPass` | usr/src/cmd/addbadsec/ix_altsctr.c:583-596 | A pass moves the least entry to its front, and one without exchanges proves the rest sorted |
| `AltsTable.Absorb` | usr/src/cmd/addbadsec/ix_altsctr.c:618-625 | Extending an entry over its neighbours covers each sector as often as before and leaves a gap after it |
| `AltsTable.EntCompress` | usr/src/cmd/addbadsec/ix_altsctr.c:607-628 | Coalescing covers each sector as often as before, and no two adjacent entries are left uncoalesced |
| `AltsTable.FarApart` | usr/src/cmd/addbadsec/ix_altsctr.c:607-628 | Coalesced entries that do not overlap are at least one sector apart |
| `AltsTable.EntMerge` | usr/src/cmd/addbadsec/ix_altsctr.c:635-670 | The loops compute the merge of the used entries of two lists |
| `AltsTable.MergeMembers` | usr/src/cmd/addbadsec/ix_altsctr.c:635-670 | The merge holds exactly the used entries of both lists |
| `AltsTable.MergeCount` | usr/src/cmd/addbadsec/ix_altsctr.c:635-670 | The merge covers each sector as often as both lists together |
| `AltsTable.MergeSorted` | usr/src/cmd/addbadsec/ix_altsctr.c:635-670 | The merge of sorted lists is sorted |
| `AltsTable.MergeTies` | usr/src/cmd/addbadsec/ix_altsctr.c:645-657 | Of two entries that start together the one of the second list comes first |
| `AltsTable.CoveredOnce` | usr/src/cmd/addbadsec/ix_altsctr.c:635-670 | In a sorted table the ranges are disjoint if and only if no sector is covered twice |
| `AltsTable.EntBsearch` | usr/src/cmd/addbadsec/ix_altsctr.c:676-712 | Stays within the table; what it finds covers the sector; on disjoint ranges it misses none |
| `AltsMap.AltsmapAlloc` | usr/src/cmd/addbadsec/ix_altsctr.c:545-567 | Finds the first free run in the direction asked for; fails exactly when there is none or no sector is asked for |
| `AltsMap.FirstFitIs` | usr/src/cmd/addbadsec/ix_altsctr.c:545-567 | The first fit upwards is the lowest free run, and downwards the highest, so allocation is a function of the map |
| `AltsRoom.AssignedExactly` | usr/src/cmd/addbadsec/ix_altsctr.c:453-481 | The assignment of alternates fails if and only if some entry waits for which no run is free after the highest free runs were taken in turn before it; otherwise every entry has the highest run free in its turn |
| `AltsRoom.FailsExactly` | usr/src/cmd/addbadsec/ix_altsctr.c:410-447 | Merging a list fails if and only if an entry waits in vain, no run is left for the entry table, or the merged table is empty |
| `AltsRoom.GeneratedExactly` | usr/src/cmd/addbadsec/ix_altsctr.c:410-447 | After a merge every waiting entry is on the highest run free in its turn, and the entry table on the lowest run left after the map |
| `AltsMap.ExpandMap` | usr/src/cmd/addbadsec/ix_altsctr.c:486-493 | The sector map is what the bits say |
| `AltsMap.CompressMap` | usr/src/cmd/addbadsec/ix_altsctr.c:498-522 | Expanding what it writes restores the sector map, for every size of partition |
| `AltsMap.MapByte` | usr/src/cmd/addbadsec/ix_altsctr.c:486-522 | A byte of the packed map holds the marks of eight sectors, the first as its highest bit |
| `AltsPart.AlternatesSafe` | usr/src/cmd/addbadsec/ix_altsctr.c:453-481 | In every state that keeps the invariant an alternate is inside the partition, not known to be bad, outside partition table, map and entry table, and used by one entry only |
| `AltsPart.StandInsSafe` | usr/src/cmd/addbadsec/ix_altsctr.c:453-481 | Sector by sector: what stands in for a remapped sector is in the partition, good and not vital, and stands in for no other |
| `AltsPart.VitalMarks` | usr/src/cmd/addbadsec/ix_altsctr.c:141-177 | A vital sector that is marked is an alternate in use, and an unmarked one is no alternate |
| `AltsPart.AssignKeeps` | usr/src/cmd/addbadsec/ix_altsctr.c:453-481 | Assigning a free run to an entry keeps the invariant |
| `AltsPart.MergeKeepsAlts` | usr/src/cmd/addbadsec/ix_altsctr.c:410-447 | Merging entries that have no alternate yet keeps the invariant |
| `AltsUpdate.AltsTables.InitAltsctr` | usr/src/cmd/addbadsec/ix_altsctr.c:201-241 | Error 56 exactly for a report of the first sector, 57 exactly when there is no free run for the map; otherwise the tables have the reports inside the partition marked and the map on the lowest free run, and keep the invariant |
| `AltsUpdate.InitTablesExactly` | usr/src/cmd/addbadsec/ix_altsctr.c:201-241 | A new installation marks the reports and puts the map on the lowest run of good sectors after the partition table; it fails if and only if there is none |
| `AltsUpdate.AltsTables.ChkBadAltsctr` | usr/src/cmd/addbadsec/ix_altsctr.c:717-747 | Says whether a sector is an alternate in use |
| `AltsUpdate.AltsTables.ChkInside` | usr/src/cmd/addbadsec/ix_altsctr.c:149-177 | A report inside the partition is refused exactly when it hits a vital sector or an alternate, with the error of what it hits: 53 the partition table, 54 the map, 55 the entry table, 66 an alternate; otherwise it is marked and the invariant kept |
| `AltsPart.RefusalExactly` | usr/src/cmd/addbadsec/ix_altsctr.c:149-177 | By the sectors of the drive: a report is error 53 if and only if it is the first of the partition, 54 on the map, 55 on the entry table, 66 on a sector that stands in for another, and none elsewhere |
| `AltsUpdate.AltsTables.ChkReport` | usr/src/cmd/addbadsec/ix_altsctr.c:146-190 | A report is dropped if it is in the partition or already remapped, and kept if not |
| `AltsUpdate.AltsTables.ChkBadsec` | usr/src/cmd/addbadsec/ix_altsctr.c:141-191 | All reports are accepted in turn, with those in the partition marked and the invariant kept, or the error is that of the first report that must be refused |
| `AltsUpdate.AltsTables.AssignOne` | usr/src/cmd/addbadsec/ix_altsctr.c:460-480 | An entry gets the highest free run that is long enough; error 65 if and only if there is none |
| `AltsUpdate.AltsTables.AssignAltsctr` | usr/src/cmd/addbadsec/ix_altsctr.c:453-481 | Every entry ends with an alternate, those that had one keep it, and no range changes; error 65 if and only if some entry waits for which no run is free in its turn |
| `AltsUpdate.AltsTables.GenAltsEnt` | usr/src/cmd/addbadsec/ix_altsctr.c:410-447 | The merged table is assigned and placed on the lowest free run, with the invariant kept; error 65 if and only if an entry waits in vain, no run is left for the table, or the merged table is empty |
| `AltsUpdate.AltsTables.JoinReports` | usr/src/cmd/addbadsec/ix_altsctr.c:72-73 | Sorting and coalescing keep how often each sector is reported, and leave the entries in order with no two neighbours uncoalesced |
| `AltsUpdate.AltsTables.Remap` | usr/src/cmd/addbadsec/ix_altsctr.c:72-74 | Sort, coalesce, merge and assign together: the new table covers what the old one and the reports covered, and the packed map is that of the new tables; error 65 if and only if an entry waits in vain, no run is left for the table, or the merged table is empty |
| `AltsRounds.GetBadsec` | usr/src/cmd/addbadsec/ix_altsctr.c:342-381 | The list of reports is the requested sectors that are on the drive, in order; `AltsRounds.WantedExactly` has it without that function |
| `AltsRounds.WantedExactly` | usr/src/cmd/addbadsec/ix_altsctr.c:342-381 | Every requested sector from the second track to the end of the drive is in the list as often as it was requested, no other is, and the order is that of the requests |
| `AltsRounds.HitsExactly` | usr/src/cmd/addbadsec/ix_altsctr.c:149-177 | The sectors of the partition that are marked are those reported |
| `AltsRounds.KeptCover` | usr/src/cmd/addbadsec/ix_altsctr.c:178-190 | No report in the partition is kept, each sector not covered before is kept as often as reported, and of a table with disjoint ranges exactly those in need of an alternate |
| `AltsRounds.JoinedApart` | usr/src/cmd/addbadsec/ix_altsctr.c:607-628 | New entries without duplicates are left at least one sector apart |
| `AltsRounds.DisjointExactly` | usr/src/cmd/addbadsec/ix_altsctr.c:574-670 | The updated table has disjoint ranges if and only if no sector in need of an alternate is reported twice |
| `AltsExamples.DuplicateStays` | usr/src/cmd/addbadsec/ix_altsctr.c:574-670 | A list with one sector twice is accepted, and the new table covers the sector twice |
| `AltsRounds.UpdateBadsec` | usr/src/cmd/addbadsec/ix_altsctr.c:64-77 | An update through the stored map is refused if and only if some report hits a vital sector; it fails with 65 if and only if an entry waits in vain, no run is left for the table, or the merged table is empty; then the disk stays as it was; otherwise every sector asked for outside the partition is covered, no other is new, and the invariant is kept |
| `AltsRounds.UpdateRecords` | usr/src/cmd/addbadsec/ix_altsctr.c:64-77 | In terms of the list as given: after an accepted update a sector requested on the drive is covered, or known bad in the partition, nothing else is new, and nothing is lost |
| `AltsRounds.UpdateFailsExactly` | usr/src/cmd/addbadsec/ix_altsctr.c:64-77 | In terms of the list: an update with no vital report fails with 65 if and only if nothing was remapped before and there are reports, all inside the partition, or there is no room for what is added |
| `AltsRounds.NothingToRemapFails` | usr/src/cmd/addbadsec/ix_altsctr.c:436-443 | With an empty table, a list of reports that all lie inside the partition fails with 65 and leaves the tables as they were |
| `AltsExamples.OwnSectorRefused` | usr/src/cmd/addbadsec/ix_altsctr.c:436-443 | One report of a sector of the partition that may fail, with free sectors left: the one possible outcome of the update is 65 and no change |
| `AltsRounds.Install` | usr/src/cmd/addbadsec/ix_altsctr.c:64-77 | A first installation fails with 56 exactly for a report of the first sector, with 57 for want of a run for the map, with 65 when an entry waits in vain, no run is left for the entry table or it is empty; otherwise it covers each report outside the partition as often as it was made and stores tables that keep the invariant |
| `AltsRounds.InstallRecords` | usr/src/cmd/addbadsec/ix_altsctr.c:64-77 | In terms of the list as given: each sector outside the partition is covered as often as it was requested, and the known bad sectors inside are those requested |
| `AltsRounds.InstallFailsExactly` | usr/src/cmd/addbadsec/ix_altsctr.c:64-77 | An installation whose map has a place fails with 65 if and only if there are reports but none outside the partition, or there is no room for the entries |
| `AltsExamples.OwnSectorUninstalled` | usr/src/cmd/addbadsec/ix_altsctr.c:436-443 | The same report on a first installation: the map has a place, and it fails with 65 |
| `AltsRounds.Rounds` | usr/src/cmd/addbadsec/ix_altsctr.c:64-77 | Any number of updates, refused ones included: each step is an update of what the one before stored; at the end the invariant holds, and every sector of the accepted lists is covered or known bad, and nothing else is new |
| `AltsRounds.RoundsRecord` | usr/src/cmd/addbadsec/ix_altsctr.c:64-77 | In terms of the lists as given: after any number of updates every sector requested on the drive in an accepted list is covered or known bad, nothing else is new, and nothing is lost |
| `AltsRounds.StandInsStay` | usr/src/cmd/addbadsec/ix_altsctr.c:64-77 | Over any number of updates, accepted or not, a sector that was remapped keeps the sector that stands in for it |
| `Sessions.Accountant.Enter` | usr/src/cmd/acct/acctcon.c:398-429 | A session is charged to its user, added to what the user has or as a new user |
| `Sessions.Accountant.Iline` | usr/src/cmd/acct/acctcon.c:243-262 | Finds the first entry of a line, or adds one |
| `Sessions.Accountant.UpdateLine` | usr/src/cmd/acct/acctcon.c:276-328 | A record changes its line and charges the session that it ends, as the step of the machine says; who is charged and for what time, `SessionBooks.BooksExactly` says |
| `Sessions.Accountant.Upall` | usr/src/cmd/acct/acctcon.c:264-274 | Logs everybody off, line by line |
| `Sessions.Accountant.Loop` | usr/src/cmd/acct/acctcon.c:172-215 | A record is one step of the machine |
| `Sessions.Accountant.Account` | usr/src/cmd/acct/acctcon.c:172-215 | A file of records is a run of the machine |
| `SessionLaws.UpdateConserves` | usr/src/cmd/acct/acctcon.c:276-328 | A record keeps charged time equal to line time and accounts for each session begun |
| `SessionLaws.StepConserves` | usr/src/cmd/acct/acctcon.c:172-215 | Every kind of record keeps the balance, clock changes and boots too |
| `SessionLaws.RunConserves` | usr/src/cmd/acct/acctcon.c:172-215 | At every point of every run the balance holds, with the accepted logins without a name as the only difference |
| `SessionLaws.SessionsAccountedExactly` | usr/src/cmd/acct/acctcon.c:264-328 | Charged sessions and lines logged on add up to the sessions begun if and only if no accepted login lacked a name |
| `SessionLaws.NamelessLogin` | usr/src/cmd/acct/acctcon.c:276-328 | One login without a name: a session is begun that is neither charged nor on |
| `SessionLaws.TotalsFit` | usr/src/cmd/acct/acctcon.c:276-328 | With ordered times and no clock change no line's total exceeds the time since its first record |
| `SessionBooks.RunKept` | usr/src/cmd/acct/acctcon.c:172-215 | At every point of every run, in terms of the records read: each user has the prime time, the other time and the number of the sessions begun by logins with their name, nobody else is charged, each line has its last record and its totals, and the clock changes are counted |
| `SessionBooks.BooksExactly` | usr/src/cmd/acct/acctcon.c:172-215 | The same of a whole file and the run of the machine over it |
| `SessionBooks.LoginBeforeIs` | usr/src/cmd/acct/acctcon.c:276-328 | The login that a session belongs to is the accepted one with no login, logoff or boot accepted on its line since |
| `SessionBooks.SessionsAre` | usr/src/cmd/acct/acctcon.c:276-328 | The sessions charged are exactly the pairs of an accepted login with a name and the next accepted login, logoff or boot on its line |
| `SessionBooks.ChargedOnce` | usr/src/cmd/acct/acctcon.c:276-328 | No session is charged twice |
| `SessionBooks.WholeExactly` | usr/src/cmd/acct/acctcon.c:276-328 | A session is charged for its whole length if and only if the last record on its line before its end is at the time of the login, clock changes put right |
| `SessionBooks.TimeLost` | usr/src/cmd/acct/acctcon.c:276-328 | A login, a record of the login program and a logoff on one line: only the time after the second is charged |
| `ClockLaws.RunAhead` | usr/src/cmd/acct/acctcon.c:172-215 | Two runs on clocks that differ by a constant agree in all totals, counts and charges |
| `ClockLaws.ClockChangeShifts` | usr/src/cmd/acct/acctcon.c:180-191 | The pair of clock records moves the times of all lines by the difference |
| `ClockLaws.ClockChangeIsInvisible` | usr/src/cmd/acct/acctcon.c:172-215 | A clock change anywhere in a file, with all later times moved, changes no total, no count and no user's time |
| `ClockRepair.Wtmpfix.Mkdtab` | usr/src/cmd/acct/wtmpfix.c:144-158 | Starts the list, or moves the start of its last range |
| `ClockRepair.Wtmpfix.Setdtab` | usr/src/cmd/acct/wtmpfix.c:160-174 | Closes the last range with its adjustment and begins another at the same start |
| `ClockRepair.Wtmpfix.Adjust` | usr/src/cmd/acct/wtmpfix.c:176-192 | Adds up the adjustments whose range holds the place |
| `ClockRepair.PairGain` | usr/src/cmd/acct/wtmpfix.c:273-284 | A range from the last boot to a clock change adjusts exactly the records that change applies to |
| `ClockRepair.Wtmpfix.ScanFile` | usr/src/cmd/acct/wtmpfix.c:234-288 | The first pass succeeds exactly when clock records come in pairs, and then its list gives every record its gain |
| `ClockRepair.Wtmpfix.Repair` | usr/src/cmd/acct/wtmpfix.c:90-115 | The time of each record comes out as its raw time plus the multi-user clock changes after it with no boot in between |
| `ClockRepair.RepairRestores` | usr/src/cmd/acct/wtmpfix.c:90-192 | When all later clock changes apply to a record, its repaired time is the true time on the clock as it is at the end |
| `ClockRepair.GainExactly` | usr/src/cmd/acct/wtmpfix.c:258-284 | A clock change is added to exactly the records before it back to the last boot, if there was a change to run level 2 since the last one to single-user mode |
| `ClockRepair.ModeExactly` | usr/src/cmd/acct/wtmpfix.c:258-266 | The mode is multi-user if and only if there was a change to run level 2 since the last one to single-user mode |
| `ClockRepair.NameCharIs` | usr/src/cmd/acct/wtmpfix.c:205-216 | The characters that a name may have, by their codes |
| `TacctMerge.KeyOrder` | usr/src/cmd/acct/acctmerg.c:118-134 | The keys that records are merged by are totally ordered |
| `TacctMerge.NameLessIs` | usr/src/cmd/acct/acctmerg.c:118-134 | A name is before another if and only if it is smaller at the first place where they differ, or ends there |
| `TacctMerge.KeysAre` | usr/src/cmd/acct/acctmerg.c:118-134 | Records are summed if and only if number and, unless only numbers count, name agree; they come in order of the numbers, and then of the names |
| `TacctMerge.Merger.constructor` | usr/src/cmd/acct/acctmerg.c:99-104 | The first record of each file is read; what is left to merge is each file up to its first record without a name |
| `TacctMerge.ReadableAll` | usr/src/cmd/acct/acctmerg.c:189-219 | A file is read to its end if and only if all its records have names |
| `TacctMerge.MissesUnread` | usr/src/cmd/acct/acctmerg.c:189-219 | The sums over the files are those over what is merged plus those over the rest of each file from its first nameless record on |
| `TacctMerge.NamelessEnds` | usr/src/cmd/acct/acctmerg.c:118-134 | A record without a name before one with a name: nothing of the second reaches the total |
| `TacctMerge.Merger.GetNext` | usr/src/cmd/acct/acctmerg.c:189-219 | The next record replaces the current one, whose name is emptied at the end of the file |
| `TacctMerge.Merger.GetLeast` | usr/src/cmd/acct/acctmerg.c:118-134 | The first of the files whose current record has the least number, and name, also stated by `<` on the numbers and by the first difference of the names; none when all are used up |
| `TacctMerge.Merger.SumCurr` | usr/src/cmd/acct/acctmerg.c:140-160 | The record written is the sum of what was taken off the files, all with its key, and no file is left with that key in front |
| `TacctMerge.LeavesGreater` | usr/src/cmd/acct/acctmerg.c:140-160 | With sorted files only greater keys are left |
| `TacctMerge.UniqueSum` | usr/src/cmd/acct/acctmerg.c:140-160 | With increasing keys the sum for a key is its one record |
| `TacctMerge.Merger.MergeAll` | usr/src/cmd/acct/acctmerg.c:106-112 | The grand total is the sum of all records, each key's lines sum to its records, no key is lost or made up; with sorted files there is one line per key, in increasing order; it ends |
| `TacctMerge.MergedByName` | usr/src/cmd/acct/acctmerg.c:106-160 | What merging means by numbers and names: every account has lines and every line an account, the lines of an account add up to its records, and from files in order there is one line each, in order |
| `CommandTable.HashFits` | usr/src/cmd/acct/acctcms.c:408-414 | The hash of a cleaned name is not negative and fits an int |
| `CommandTable.HashValue` | usr/src/cmd/acct/acctcms.c:408-414 | The hash is the name as a number to the base seven, filled up with NUL to eight characters |
| `CommandTable.CleanExactly` | usr/src/cmd/acct/acctcms.c:408-414 | Two names are cleaned to the same if and only if they differ only where both have a control character, a character above 127 or a question mark |
| `CommandTable.MissedAll` | usr/src/cmd/acct/acctcms.c:415-417 | A search that meets a free slot or comes around proves the name absent |
| `CommandTable.EntryKeeps` | usr/src/cmd/acct/acctcms.c:402-436 | Entering a record keeps the table in order, and its free slots empty if and only if the record has a name or nothing to add |
| `CommandTable.NamelessLeaks` | usr/src/cmd/acct/acctcms.c:402-436 | A record without a name and then one with a name in the same slot: the name is charged with what is not its own |
| `CommandTable.EntryTotal` | usr/src/cmd/acct/acctcms.c:432-436 | Entering any record, named or not, adds its counters to the total over all slots |
| `CommandTable.EntryRefines` | usr/src/cmd/acct/acctcms.c:432-436 | Entering a record adds it to the map from names to summed counters |
| `CommandTable.RefinesByName` | usr/src/cmd/acct/acctcms.c:402-436 | What the table has for a command is the sum over the records whose names differ from its name in such characters only; it has the command if and only if there is such a record |
| `CommandTable.FullCount` | usr/src/cmd/acct/acctcms.c:415-418 | A table is full if and only if it holds as many names as slots |
| `CommandSummary.Acctcms.constructor` | usr/src/cmd/acct/acctcms.c:154-157 | A table of free slots is the empty map |
| `CommandSummary.Acctcms.Hash` | usr/src/cmd/acct/acctcms.c:408-415 | Control characters become question marks, and the slot to start at is the hash of the cleaned name |
| `CommandSummary.Acctcms.Search` | usr/src/cmd/acct/acctcms.c:415-418 | Finds the slot of the name, or the free slot it may take, or that the table is full without it |
| `CommandSummary.Acctcms.Enter` | usr/src/cmd/acct/acctcms.c:402-436 | The record is added to the slot found, and the table is unchanged when it would have to grow |
| `CommandSummary.Acctcms.EnterAll` | usr/src/cmd/acct/acctcms.c:238-259 | For any sequence of records it stops exactly at the first that the table has no room for; without one the table is in order with all totals, and is the map from names to summed counters if the nameless records have nothing to add |
| `CommandSummary.OverflowsExactly` | usr/src/cmd/acct/acctcms.c:415-418 | A record finds no room if and only if its name is new and as many names as slots came before it |
| `CommandSummary.RoomExactly` | usr/src/cmd/acct/acctcms.c:415-418 | Records that all have names have room if and only if there are no more distinct names than slots |
| `CommandSummary.Acctcms.FixJunk` | usr/src/cmd/acct/acctcms.c:447-456 | Commands used at most once are joined under one name, other slots are unchanged, every total is conserved |
| `CommandSummary.NamedOfAt` | usr/src/cmd/acct/acctcms.c:502-524 | Closing holes keeps the order: a slot moves down past the free slots before it |
| `CommandSummary.Acctcms.Squeeze` | usr/src/cmd/acct/acctcms.c:502-524 | The slots with names, in their order and without holes |
| `CommandSummary.JoinedSummary` | usr/src/cmd/acct/acctcms.c:447-524 | After joining and squeezing: one slot for each command used more than once, with the sum of its records, and one for the rest |
| `CommandSummary.Acctcms.Summarize` | usr/src/cmd/acct/acctcms.c:154-162 | From the records to the summary, when they have room and the nameless ones nothing to add: dense, one slot per name kept, each with the sum of its records, every total conserved |
| `AuditTrail.RenamedIs` | usr/src/cmd/auditd/auditd.c:926-929 | Writing a date over the place holder yields the name with both times, for every directory and host |
| `AuditTrail.NameLayout` | usr/src/cmd/auditd/auditd.c:886-888 | What stands where in the name of a log: directory, slash, the two times of fourteen characters, and host |
| `AuditTrail.NamesDiffer` | usr/src/cmd/auditd/auditd.c:886-888 | Two closed logs have the same name if and only if directory and both times agree |
| `AuditTrail.SwitchSound` | usr/src/cmd/auditd/auditd.c:914-949 | A new log continues the chain, or starts it anew when none is open |
| `AuditTrail.FinishSound` | usr/src/cmd/auditd/auditd.c:640-647 | Closing the last log at shutdown keeps the chain |
| `AuditTrail.BreakSound` | usr/src/cmd/auditd/auditd.c:795-800 | Closing the last log for want of space is a break and keeps the rest of the chain |
| `AuditTrail.HeaderNames` | usr/src/cmd/auditd/auditd.c:914-949 | A header names a closed log if and only if that was opened in the same directory at the same time as the log before the header, and closed at the same time |
| `AuditTrail.HeaderNamesOne` | usr/src/cmd/auditd/auditd.c:914-949 | When no two logs were opened in the same directory at the same time, a header names the log before it and no other |
| `AuditScan.PassStep` | usr/src/cmd/auditd/auditd.c:479-506 | One turn of the soft pass changes the one directory it is at |
| `AuditScan.SawAll` | usr/src/cmd/auditd/auditd.c:498-506 | After a whole pass, hard space was seen if and only if some directory has it |
| `AuditScan.SearchLaws` | usr/src/cmd/auditd/auditd.c:528-554 | The hard search changes only directories where opening failed; one with hard space that is left follows such a directory |
| `AuditScan.SearchMissesOnly` | usr/src/cmd/auditd/auditd.c:528-554 | A consequence for one directory: with hard space and openable it is not missed unless the one before it has hard space and refuses |
| `AuditScan.SearchMisses` | usr/src/cmd/auditd/auditd.c:543-549 | Two directories with hard space: when the first refuses, the second is never looked at |
| `AuditSearch.FindsNothingExactly` | usr/src/cmd/auditd/auditd.c:528-554 | The search finds nothing if and only if the open log cannot be reused, each directory that could be opened comes after an odd row of refusing ones, and if there is any the ring does not end in an odd row |
| `AuditRounds.NoSpaceExactly` | usr/src/cmd/auditd/auditd.c:477-554 | A round finds no space if and only if no directory is usable and the search over what the soft pass left finds nothing, in terms of what the system answers |
| `AuditRounds.RoundKeeps` | usr/src/cmd/auditd/auditd.c:460-570 | A round keeps the chain, opens at most one log, and breaks the chain if and only if it finds no space while a log is open |
| `AuditRounds.BreaksExactly` | usr/src/cmd/auditd/auditd.c:430-570 | Over every run: the chain is broken after a log if and only if it was so before, or some round of the run found no space while that log was open |
| `AuditRounds.RunLinked` | usr/src/cmd/auditd/auditd.c:430-570 | Over every run that starts without logs: neighbouring logs name each other, except where a round found no space, and there neither names the other |
| `AuditOutcomes.SpaceIs` | usr/src/cmd/auditd/auditd.c:1220-1256 | A directory not marked to stay full has soft space if and only if at least fifty blocks and the minimum percentage of its blocks are free, and hard space if and only if at least fifty but fewer than that are |
| `AuditOutcomes.PassLeaves` | usr/src/cmd/auditd/auditd.c:477-506 | After a whole pass a directory has hard space if and only if its free blocks say so, and is marked full otherwise |
| `AuditOutcomes.RoundUsesRoom` | usr/src/cmd/auditd/auditd.c:477-506 | A round opens its log in the first directory, from the current one on, that has the free blocks asked for and opens, and writes down to that number of free blocks |
| `AuditOutcomes.RoundUsesTight` | usr/src/cmd/auditd/auditd.c:528-554 | A log is opened on less room only when no directory has the free blocks asked for and opens, in one with at least fifty free that opens, and then without a limit |
| `AuditOutcomes.KeepsExactly` | usr/src/cmd/auditd/auditd.c:460-570 | A round goes on with the open log if and only if it may and no directory is fit and the current one has hard space; otherwise it opens a new one, or closes it for want of space |
| `AuditOutcomes.ReusedExactly` | usr/src/cmd/auditd/auditd.c:528-542 | The search reuses the open log if and only if it may and the directory it starts at has hard space |
| `AuditOutcomes.ServiceOutcome` | usr/src/cmd/auditd/auditd.c:578-777 | For every error and all signals: which records are written, when the run ends, when the list is to be read anew, when a new log is asked for, and which signals stay waiting |
| `AuditOutcomes.RoundSleeps` | usr/src/cmd/auditd/auditd.c:790-804 | A round without space ends the run if and only if it is asked to; of the other signals only a hangup is acted on |
| `AuditOutcomes.HangupReloads` | usr/src/cmd/auditd/auditd.c:430-570 | After a round in which a hangup is noticed the daemon has ended or will read the list anew, and if it waited before the round no record is written first |
| `AuditOutcomes.RunReloads` | usr/src/cmd/auditd/auditd.c:430-452 | Over every run: a round in which a hangup is noticed, unless it ends the run, is followed by one that starts at the first directory of the list as it is then |
| `AuditOutcomes.SwitchesLog` | usr/src/cmd/auditd/auditd.c:460-570 | After a user signal or the size limit, without a hangup, the next records go to a new log |
| `AuditOutcomes.SwitchForgotten` | usr/src/cmd/auditd/auditd.c:443-451 | With a hangup at the same time, no fit directory and a tight first one, they go to the old log |
| `AuditDaemon.Auditd.TestSpace` | usr/src/cmd/auditd/auditd.c:1220-1256 | The space of a directory follows from its free blocks, the minimum and the soft limit; `AuditOutcomes.SpaceIs` says how |
| `AuditDaemon.Auditd.CloseLog` | usr/src/cmd/auditd/auditd.c:966-1016 | The open log gets its trailer and its final name; with none open nothing happens |
| `AuditDaemon.Auditd.OpenLog` | usr/src/cmd/auditd/auditd.c:857-954 | A new log names the file its predecessor becomes, whose trailer names the new log; a failure marks the directory full and goes on |
| `AuditDaemon.Auditd.DoAuditing` | usr/src/cmd/auditd/auditd.c:578-777 | For every error and every set of signals: records go to the open log, down to the limit, unless a signal waits; what becomes of the log, the directory, the reload and the switch to a new log is fixed; the end of the run closes the log with nothing to follow, or leaves it |
| `AuditDaemon.Auditd.HandleAllHard` | usr/src/cmd/auditd/auditd.c:790-804 | For want of space the open log is closed the first time, with nothing to follow, and the daemon waits |
| `AuditDaemon.Auditd.SoftPass` | usr/src/cmd/auditd/auditd.c:477-506 | Visits each directory at most once and uses the first under its limit that opens; otherwise the directories are as the pass leaves them, and hard space is reported if and only if there is some |
| `AuditDaemon.Auditd.HardSearch` | usr/src/cmd/auditd/auditd.c:528-554 | The loop ends, by the number of directories with hard space and the distance to the start, and yields what the search function says |
| `AuditDaemon.Auditd.ProcessAudit` | usr/src/cmd/auditd/auditd.c:460-570 | A round computes `AuditRounds.AfterRound`: the first usable directory, or hard space where it is found, or the end of the log; about that function are the statements above |
| `AuditDaemon.Auditd.Serve` | usr/src/cmd/auditd/auditd.c:430-452 | The loop, reloads and shutdowns included, computes `AuditRounds.RunOf` from the state after loading the list, for every sequence of rounds; so every run has the chain of `AuditRounds.RunLinked` |

## Left out

- CommandSummary.Acctcms.Enter: returns -1 where the source enlarges the table, because the new slots then hold what the allocator left: of the 999 slots only 999 bytes are cleared.
- CommandSummary.Acctcms.EnterAll: stops where the source would enlarge the table.
- CommandSummary.Acctcms.Summarize: says nothing of a table in which a nameless record left counters behind; CommandTable.EntryTotal still holds of it.
- RegexPatterns.SupportedExactly: does not say what the matcher does with the other accepted patterns, which read places of groups that were not set.
- RegexTheorems.CompileAndStep: requires a supported pattern, by RegexPatterns.SupportedText.
- RegexTheorems.SearchEnds: a condition on the pattern alone, so only one way; RegexEnding.LoopsExactly is the exact statement for a pattern and a subject.
- AuditScan.SearchMissesOnly: one way only; AuditSearch.FindsNothingExactly is the exact statement.
- AuditDaemon.Auditd.OpenLog: the retry while the name is taken is left out; the date is the one at which a name was free, and writing the trailer and renaming succeed.
- TacctMerge.Merger.MergeAll: 16-bit counters do not wrap, and sums are not rounded.
- `usr/src/ucbhead/regexp.h`, a near duplicate of the modelled header.
- The size of the code buffer, `locs`, and the overflow of an interval's digits in `regexp.h`.
- Disk access, volume tables, SCSI remapping and printing in the bad sector commands; storing and loading go through the bit map.
- Options, printed reports, and the validity and range checks of the accounting commands; `pnpsplit`, the user table and the device table are parameters.
- Byte offsets in `wtmpfix.c`, which are record numbers here, and the search for the next good record.
- Allocation failures, and the growth of tables in `acctcon.c` and `acctcms.c`.
- The `-t` path of `acctcms.c`, and the sorting of its output.
- When signals are delivered, the warning script, and posting the log's name in `auditd.c`; the list is read as given, with any space marks.
- `acctdusg.c`, `diskusg.c`, `allocate3.c`, `auditconfig.c` and the rest of the tree.
