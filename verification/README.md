# Kubescape host scanner: a verified model

This project models the parts of the Kubescape host scanner that branch, change state in place or interact with
their surroundings, and proves what they do on every input, every run and every interleaving. To check it, use
Dafny 4.11 and `dafny verify dfyconfig.toml`.

## What is modelled

**Names for numeric ids** (`Wrappers`, `Sequences`, `Strings`, `Whitespace`, `Decimal`, `ColonFile`, `ColonScan`, `ColonExact`,
`Accounts`, `AccountsExact`, `AccountLines`, `Padding`, `NameCache`, `CacheOnLines`). `readColonFile` takes lines in pieces from a buffered reader, stops early once it has enough colons and
skips the rest. The buffered reader is a trace of `(chunk, isPrefix)` deliveries, in which any line may be cut
anywhere, and an ending, which is the end of the file or a read error. `ReadColonFile` is the loop itself; the lemmas
compare it with a scan of complete lines. The matchers promise what the early stop relies on (`Stable`), their
substring test is shown redundant. `AccountsExact` says on exactly which files the two lookups are right. The two-level
cache on top is followed over whole runs, with files changing between calls.

**Redaction of encryption secrets** (`Redaction`, `RedactionHeap`). The decoded document is a tree of mappings and
slices on the heap. The four nested loops change it in place; the document found in the heap afterwards is shown to be
the redaction of the document held before, as a value, in the same objects, with a frame that names exactly the key
maps.

**Directory walks** (`DirWalk`, `DirWalkFacts`, `DirWalkOrder`, `KernelVariables`, `KernelOrder`). The first walks a graph in which links may form
cycles, appending to a list shared by all calls, to a bounded depth. The second returns all kernel variables below a
directory or none.

**CNI directory resolution** (`Process`, `Flags`, `Paths`, `Sorting`, `ContainerRuntime`, `Resolution`,
`Precedence`). Process
lookup, command-line lookup, path joining and sorting are modelled in full; TOML parsers, directory listings and the
process table are parameters.

**Switching the deployment manifest** (`Replacing`, `TextLines`, `Manifest`, `ManifestFacts`). The two edits insert
into and delete from the list that is being iterated. The texts include universal newlines, and the replacements are
left to right and without overlap.

**The shared HTTP client** (`HttpClient`). Double-checked locking as a step system with any number of calls, each step
being one read or write of shared memory.

## Where the code and its own words disagree

The model follows the code.

- `readColonFile` is meant to skip the rest of a long line, but the `continue` for comments
  (`sensor/internal/utils/osuserswrapper.go:68-70`) jumps over the loop that does so. The tail of a comment that was
  cut after enough colons is read as a line of its own. `ColonScan.ScanRefinesWholeLines` needs that this does not
  happen; `Accounts.CommentTailFoundAsUser` and `Accounts.CommentTailFoundAsGroup` give families of files where a record
  is found that no line holds. `AccountsExact.UserLookupsRightExactly` and `AccountsExact.GroupLookupsRightExactly` say
  on exactly which files all lookups are right, and `ColonExact.RightForAllExactly` on which files `readColonFile` is
  right for every matcher that keeps the promises it relies on, of which these two are instances.
- The comment on `Socket` (`sensor/internal/utils/containerruntime.go:70`) says that a socket suffix identifies the
  runtime, but only the whole text of the endpoint is compared: `Resolution.FullSocketPathSelectsNothing`.
- `getCNIConfigDir` and `GetCNIConfigPath` promise a default directory; the result can be empty:
  `Resolution.EmptyExactly`, and `Resolution.DefaultMissing` for a host where it is.
- `makeHostDirFilesInfo` is documented to recurse only when `recursive` is set; the flag has no effect
  (`sensor/verboseutils.go:117-119`). `DirWalkFacts.NestedFileListed` is a directory where an unset flag should have
  left a file out, and `DirWalkFacts.NotRecursiveExactly` says on which directories it makes no difference.
- The manifest script works on `deployment/k8s-deployment.yaml`; the repository has `deployment/host-scanner.yaml`. Its
  image line is tagged `test`, and no such line survives deploying and reverting: `ManifestFacts.TestTagNotRestored`.
- In `walkVarsDir` the tests after `Stat` and `io.Copy` look at the outer `err`
  (`sensor/kernelvariables.go:59` and `:73`), so a copy that fails midway still yields a variable
  (`KernelVariables.BrokenCopyIsListed`), and missing file information is dereferenced. The variables listed have their
  whole content exactly when no copy breaks off: `KernelOrder.AllWholeExactly`.

## Model

| member | source | states |
|---|---|---|
| ColonFile.ReadColonFile | sensor/internal/utils/osuserswrapper.go:24-87 | The loop, with early stop, comment jump, skip loop and both kinds of ending, returns what `ScanChunks` defines for every trace of deliveries; `ColonScan` says what that means in whole lines. |
| ColonFile.LineReader.ReadLine | sensor/internal/utils/osuserswrapper.go:37 | One delivery of the buffered reader; at the end it keeps reporting the end, with `isPrefix` false. |
| ColonScan.GatherSplitsLine | sensor/internal/utils/osuserswrapper.go:35-62 | Whatever the inner loop gathers is a beginning of the current line, the unread part holds the rest of it, and it stops inside a line only after `readCols` colons; a last line without them that ends with the file is dropped. |
| ColonScan.StepJudgesLine | sensor/internal/utils/osuserswrapper.go:57-74 | For a stable matcher, judging the gathered part gives the judgement of the whole line, and only comments are both cut and ignored. |
| ColonScan.ScanAgreesFromLineStart | sensor/internal/utils/osuserswrapper.go:24-87 | For every file, cutting, ending and stable matcher: the chunked scan equals the whole-line scan if the first stretch that is answered, if any, starts at a line start. |
| ColonScan.ScanRefinesWholeLines | sensor/internal/utils/osuserswrapper.go:24-87 | Without a comment line that shows `readCols` colons before its last chunk, the chunked scan returns exactly what scanning complete trimmed lines for the first accepted line returns, read errors and unfinished last lines included. |
| ColonScan.CuttingIsIrrelevant | sensor/internal/utils/osuserswrapper.go:32-62 | On such files two cuttings of the same lines, that is two buffer sizes, give the same result. |
| ColonScan.AllStartsIffNoCommentCut | sensor/internal/utils/osuserswrapper.go:68-70 | The scan keeps to real line starts exactly when no comment is cut. |
| ColonScan.CutCommentIsReadAsRecord | sensor/internal/utils/osuserswrapper.go:59-70 | The hypothesis is needed: for every comment head with enough colons and every tail the matcher accepts, the scan answers with the tail although the only line of the file is a comment. |
| ColonExact.JudgedByKey | sensor/internal/utils/osuserswrapper.go:57-71 | All that a stable matcher can see of a line is its first `readCols` fields after trimming. |
| ColonExact.SameFirstsIsEnough | sensor/internal/utils/osuserswrapper.go:24-87 | If cut comments bring in no such key ahead of or besides those of the whole lines, the chunked scan is right for every stable matcher and every ending. |
| ColonExact.RightForAllExactly | sensor/internal/utils/osuserswrapper.go:18-87 | For `readColonFile` with any `fn` that keeps the promises it relies on: all such scans of a file are right if and only if the keys of the chunked scan and of the whole lines first appear in the same order. For the two matchers in use see the `AccountsExact` rows. |
| Whitespace.TrimStable | sensor/internal/utils/osuserswrapper.go:67 | Once a line holds a colon, any continuation of it has the same first byte and the same closed fields after `bytes.TrimSpace`, multi-byte white space included. |
| Padding.TrimOfPadded | sensor/internal/utils/osuserswrapper.go:67 | Whatever white space, given by the bytes of its 27 UTF-8 encodings, is put around it, a text without white space at its ends is what trimming leaves. |
| Padding.TrimTakesSpace | sensor/internal/utils/osuserswrapper.go:67 | And every text is such a one: trimming takes off nothing but that white space, and all of it. |
| AccountLines.JudgeIgnoresPadding | sensor/internal/utils/osuserswrapper.go:64-71 | White space around a line changes nothing for any matcher. |
| AccountLines.CommentIgnored | sensor/internal/utils/osuserswrapper.go:68-70 | A line whose first byte after white space is `#` is ignored. |
| AccountLines.BlankLineIgnored | sensor/internal/utils/osuserswrapper.go:68-70 | So is a line of white space only. |
| AccountLines.FirstAnswerDecides | sensor/internal/utils/osuserswrapper.go:71-74 | The first line that the matcher answers decides, whatever follows. |
| AccountLines.EndingDecides | sensor/internal/utils/osuserswrapper.go:39-46 | If no line is answered, the end of the file gives nothing and a read error is reported. |
| AccountLines.LinesOfDelivery | sensor/internal/utils/osuserswrapper.go:32-37 | Whatever pieces lines are delivered in, the whole lines are what the pieces make. |
| Accounts.UserPrefilterExact | sensor/internal/utils/osuserswrapper.go:118-131 | The colon-wrapped substring test of the user matcher never changes the result for any value and line exactly when the index is below six. |
| Accounts.UserPrefilterRedundant | sensor/internal/utils/osuserswrapper.go:117-131 | For every line, value and index below six the user matcher equals its version without the substring test. |
| Accounts.GroupPrefilterRedundant | sensor/internal/utils/osuserswrapper.go:88-107 | The same for the group matcher and indexes below three. |
| Accounts.UserMatcherStable | sensor/internal/utils/osuserswrapper.go:117-153 | The user matcher answers no line with fewer than six colons, and no continuation of a line that has them changes its answer. |
| Accounts.GroupMatcherStable | sensor/internal/utils/osuserswrapper.go:88-113 | The same for the group matcher and three colons. |
| Accounts.UserRowReadsBack | sensor/internal/utils/osuserswrapper.go:127-151 | A row written out of seven fields is read back as that record exactly when its id is the text asked for, its name is not empty and has no `+` or `-` in front, and both ids are numbers; the full name ends at a comma. |
| Accounts.GroupRowReadsBack | sensor/internal/utils/osuserswrapper.go:98-111 | The same for a group row of four fields. |
| AccountLines.BadNamesRefused | sensor/internal/utils/osuserswrapper.go:100-130 | Records with an empty name, or one that starts with `+` or `-`, are found by nobody. |
| AccountLines.NameBeforeComma | sensor/internal/utils/osuserswrapper.go:146-150 | The full name ends at the first comma. |
| AccountLines.UserBehindPadding | sensor/internal/utils/osuserswrapper.go:122-152 | A user record written out with white space around it is found by its id, with each field in its place. |
| AccountLines.GroupBehindPadding | sensor/internal/utils/osuserswrapper.go:93-112 | The same for a group record. |
| Accounts.FindUserId | sensor/internal/utils/osuserswrapper.go:155-166 | Returns what `UserById` defines, a malformed id, an unknown id and a read error included; `LookupsRefineWholeLines` says what that is in whole lines. |
| Accounts.FindGroupId | sensor/internal/utils/osuserswrapper.go:168-175 | The same for groups, whose id is not checked beforehand. |
| AccountLines.UserFound | sensor/internal/utils/osuserswrapper.go:155-166 | On a file without cut comments a user lookup gives the first record with that id, written in bytes, white space and all, whatever comes before that does not match and whatever comes after. |
| AccountLines.GroupFound | sensor/internal/utils/osuserswrapper.go:168-175 | The same for groups. |
| AccountLines.UserNotFound | sensor/internal/utils/osuserswrapper.go:155-166 | Without such a record: a malformed id first, then the read error, then an unknown id. |
| AccountLines.GroupNotFound | sensor/internal/utils/osuserswrapper.go:168-175 | Without such a record: the read error, then an unknown id. |
| Accounts.LookupsRefineWholeLines | sensor/internal/utils/osuserswrapper.go:155-175 | However lines are cut and the file ends, both lookups answer as a scan of complete lines does, as long as no comment is cut. |
| AccountsExact.UserLookupRightExactly | sensor/internal/utils/osuserswrapper.go:155-166 | For every id, file, cutting and ending, one user lookup is right if and only if the first user met with that id, the tails of cut comments included, is the first on a whole line, or there is none in either. |
| AccountsExact.UserLookupsRightExactly | sensor/internal/utils/osuserswrapper.go:155-166 | All user lookups in a file are right, for every id and ending, if and only if the directory from id to first user that the chunked scan comes across equals that of the whole lines: a comparison of two finite maps computed from the file. |
| AccountsExact.GroupLookupRightExactly | sensor/internal/utils/osuserswrapper.go:168-175 | The same for one group lookup. |
| AccountsExact.GroupLookupsRightExactly | sensor/internal/utils/osuserswrapper.go:168-175 | The same for all group lookups in a file. |
| AccountsExact.JudgedByUser | sensor/internal/utils/osuserswrapper.go:117-152 | The user matcher accepts a line exactly when the record on it, which does not depend on the id asked for, has that id, and returns that record. |
| AccountsExact.JudgedByGroup | sensor/internal/utils/osuserswrapper.go:88-112 | The same for the group matcher. |
| Accounts.CommentTailFoundAsUser | sensor/internal/utils/osuserswrapper.go:59-70 | For every comment head with six colons and every well-formed record behind it, `findUserId` returns that record although the file consists of a single comment line. |
| Accounts.CommentTailFoundAsGroup | sensor/internal/utils/osuserswrapper.go:59-70 | The same for `findGroupId` and comment heads with three colons. |
| Decimal.AtoiItoa | sensor/internal/utils/osuserswrapper.go:284 | Printing any 64-bit id and parsing it gives the id back. |
| Decimal.ItoaInjective | sensor/internal/utils/osuserswrapper.go:196-215 | No two ids share a cache key. |
| Decimal.NumeralRead | sensor/internal/utils/osuserswrapper.go:133-138 | An optional sign and decimal digits are read as their value, if that fits into 64 bits. |
| Decimal.OnlyNumerals | sensor/internal/utils/osuserswrapper.go:133-138 | Nothing else is read as a number. |
| Decimal.ValueExactly | sensor/internal/utils/osuserswrapper.go:133-138 | The value is the one in base ten: digits are its decimal text behind zeros. |
| NameCache.LookupUsernameByUID | sensor/internal/utils/osuserswrapper.go:273-292 | Opens `{root}/etc/passwd` and reports either the failure or the user name found. |
| NameCache.LookupGroupnameByGID | sensor/internal/utils/osuserswrapper.go:250-270 | Opens `{root}/etc/group` and reports either the failure or the group name found. |
| NameCache.UserGroupCache.GetUserName | sensor/internal/utils/osuserswrapper.go:192-218 | A stored name is returned and nothing changes; a failed lookup is returned and nothing changes; a successful one is returned and stored for that kind, root and id alone. |
| NameCache.UserGroupCache.GetGroupName | sensor/internal/utils/osuserswrapper.go:221-247 | The same for groups. |
| NameCache.StoringAdds | sensor/internal/utils/osuserswrapper.go:207-215 | Writing through both levels changes what is stored for one kind, root and id and for no other. |
| NameCache.CacheHoldsFirstFound | sensor/internal/utils/osuserswrapper.go:182-247 | At every point of every run the cache holds for each key what its first successful lookup found, and nothing else. |
| NameCache.AnswersAreFirstFound | sensor/internal/utils/osuserswrapper.go:192-247 | Over every run of interleaved queries, with files changing between calls, each answer is the name first found for that kind, root and id, or the current lookup if there was none. |
| NameCache.UnchangedFilesHideCache | sensor/internal/utils/osuserswrapper.go:192-247 | With unchanged files every answer is the direct lookup. |
| NameCache.AnswersPersist | sensor/internal/utils/osuserswrapper.go:194-199 | A name once returned is returned by every later query for the same key, whatever happens to the files. |
| NameCache.NoInvalidId | sensor/internal/utils/osuserswrapper.go:156-159 | The malformed-id error never reaches a caller that starts from a number. |
| CacheOnLines.LookupIsOnLines | sensor/internal/utils/osuserswrapper.go:250-292 | A direct lookup gives the name on the first whole line that holds a record with the id, on every file whose cut comments do not bring in another record for it. |
| CacheOnLines.AnswersAreOnLines | sensor/internal/utils/osuserswrapper.go:192-247 | Over every run on such files, changing or not, each cached answer is the name that the whole lines first gave for its kind, root and id, or what they say now if they never gave one. |
| Redaction.RedactionExactEverywhere | sensor/controlplane.go:172-221 | For a document of any shape, whose mappings have string keys, and every place in it: every map at `resources[i].providers[j][*].keys[k]` gains the field `secret`, that field is the marker, and every other place shows the same text, field names or length. |
| Redaction.KeyMapPaths | sensor/controlplane.go:173-211 | The places meant are those seven steps down through `resources`, any element, `providers`, any element, any field, `keys` and any element. |
| Redaction.RedactionForgetsExactlySecrets | sensor/controlplane.go:189-211 | Two documents become equal if and only if they differ in nothing but the value or presence of `secret` in those maps. |
| Redaction.RedactionIdempotent | sensor/controlplane.go:172-221 | Redacting twice is redacting once. |
| RedactionHeap.RemoveEncryptionProviderConfigSecrets | sensor/controlplane.go:172-221 | On any document without shared parts, only the key maps are written to, and afterwards the same objects hold the redaction of the document, whatever the map iteration order. |
| RedactionHeap.RedactResources | sensor/controlplane.go:178-219 | The loop over resources hides the secret of every key map below them, and writes to no other object. |
| RedactionHeap.RedactProviders | sensor/controlplane.go:189-216 | The same for the loop over the providers of one resource. |
| RedactionHeap.RedactProvider | sensor/controlplane.go:195-214 | The same for the loop over the fields of one provider, in an order chosen arbitrarily. |
| RedactionHeap.RedactKeys | sensor/controlplane.go:204-211 | The same for the loop over one list of keys, in which one map may stand several times. |
| RedactionHeap.RedoErases | sensor/controlplane.go:172-221 | The redaction of the heap document, seen as a value, is the redaction of its value. |
| RedactionHeap.HiddenIsRedone | sensor/controlplane.go:172-221 | Hiding the secrets of the planned key maps and changing nothing else leaves the redacted document in the heap. |
| DirWalk.MakeHostDirFilesInfo | sensor/verboseutils.go:70-128 | From any start level from which the recursion ends, appends to the caller's list, or to a new one, exactly the files collected below the directory, whatever the `recursive` flag; fails only if this directory does not open. |
| DirWalk.AddFiles | sensor/verboseutils.go:84-120 | The loop over one sorted batch only appends, in the order of the sorted names. |
| DirWalkFacts.WalkCounts | sensor/verboseutils.go:70-128 | On any graph, cyclic or not and even with names listed several times, the list holds each path through at most nine nested directories as often as there are ways to a file along it, and no other path; a walk that starts at level ten or above and ends has no limit. |
| DirWalkFacts.WalkExact | sensor/verboseutils.go:70-128 | Where no directory lists a name twice, each path to a file within that limit is listed exactly once. |
| DirWalkFacts.WalkFromTop | sensor/verboseutils.go:70-128 | From level zero the limit is ten names, that is, nine nested directories. |
| DirWalkFacts.FoundExactly | sensor/verboseutils.go:70-128 | On any graph the paths listed are exactly those that lead to a file within that limit. |
| DirWalkFacts.NotRecursiveExactly | sensor/verboseutils.go:67-69 | The documented meaning of a flag that is not set, direct files only, is met if and only if no file within the limit lies in a nested directory. |
| DirWalkFacts.NestedFileListed | sensor/verboseutils.go:96-119 | A directory that holds only a directory with one file: that file is listed from every start level below nine, whatever the flag. |
| DirWalkFacts.BarredLosesOnlyItsSubtree | sensor/verboseutils.go:71-74 | A directory that fails to open takes away the files reached through it and no others. |
| DirWalkFacts.FindingsIgnoreOrder | sensor/verboseutils.go:82-121 | The collected multiset does not depend on the order or the batches in which names are handed out, on any graph and with any names. |
| DirWalkFacts.OneBatchFixesOrder | sensor/verboseutils.go:83-84 | If every directory arrives in one batch, the list itself does not depend on the order the system listed. |
| DirWalkOrder.WalkInOrder | sensor/verboseutils.go:82-115 | Wherever two files of the list part, the one listed first goes through a name of an earlier batch or, in the same batch, through the name that is smaller byte by byte. |
| DirWalkOrder.OneBatchInOrder | sensor/verboseutils.go:82-115 | And that list is in ascending order of paths, component by component: a depth-first traversal with sorted siblings. |
| DirWalkFacts.BoundedAtStart | sensor/verboseutils.go:97-103 | From level `n` below ten calls nest fewer than `10 - n` deep on every graph. |
| DirWalkFacts.DepthBoundedExactly | sensor/verboseutils.go:97-103 | Although the guard is an equality test, nesting is bounded on every graph exactly for start levels below ten; from ten on, a link to its own directory is followed without end. |
| KernelVariables.WalkVarsDir | sensor/kernelvariables.go:40-93 | All or nothing: the depth-first list of variables, or a failure or a panic and no list, by the first thing that goes wrong. |
| KernelVariables.CheckExactly | sensor/kernelvariables.go:48-67 | It succeeds if and only if it reaches, at any depth, no entry that fails to open other than by denied permission, none without file information and no directory whose reading breaks off; and it fails or panics only if such an entry is reached. |
| KernelOrder.FirstTroubleDecides | sensor/kernelvariables.go:46-67 | The first entry of a directory with which anything goes wrong decides what is reported. |
| KernelOrder.EndDecides | sensor/kernelvariables.go:89-92 | If nothing does, how reading the directory ends decides. |
| KernelVariables.ListExactly | sensor/kernelvariables.go:81-85 | A variable is in the list if and only if it is that of a regular file reached through directories that open; its source is the start path plus the relative path and its key the last part. |
| KernelVariables.BrokenCopyIsListed | sensor/kernelvariables.go:73-85 | A regular file whose copy fails midway is listed with the bytes copied so far. |
| KernelOrder.AllWholeExactly | sensor/kernelvariables.go:73-85 | If no directory hands out a name twice, every variable listed has the whole content of its file if and only if no copy that the walk reaches breaks off: the branch meant to stop at such a copy never runs. |
| KernelOrder.ListInOrder | sensor/kernelvariables.go:45-69 | The list is in the order in which directories hand out their entries, at every depth. |
| KernelOrder.EachListedOnce | sensor/kernelvariables.go:45-87 | If no directory hands out a name twice, no file is listed twice. |
| Process.LocateProcessByExecSuffix | sensor/internal/utils/process.go:28-73 | The first entry over all batches that is a number, has a readable command line and an executable with the suffix; otherwise the error for the table that cannot be opened, that breaks off, or that has none. |
| Process.FirstExecMeaning | sensor/internal/utils/process.go:36-67 | The result is the first matching process in listing order, and its arguments joined with NUL are its raw command line: the slash added for matching is not in them. |
| Process.ExecExactly | sensor/internal/utils/process.go:48-63 | For any arguments in a command line, with or without a closing NUL, what is compared is the first: as it is if it starts with `/` or `[`, behind a slash otherwise; and the arguments of the process are exactly those. |
| Process.LocatedFirst | sensor/internal/utils/process.go:36-65 | On a table in which no earlier entry matches, such a process is found with its number and its arguments. |
| Process.NoProcess | sensor/internal/utils/process.go:39-47 | An entry that is no number, or whose command line cannot be read, is passed over. |
| Process.LocateMeaning | sensor/internal/utils/process.go:30-72 | Which of the four results a lookup has: found if and only if some entry matches, and otherwise an error that depends on how reading the table ended. |
| Process.MatchedByName | sensor/internal/utils/process.go:54-58 | An executable given without a directory matches by its whole name, and a kernel thread in brackets never does. |
| Process.RawCmdOfLocated | sensor/internal/utils/process.go:113-115 | The raw command of a located process is its command line with a space for each NUL. |
| Process.GetArg | sensor/internal/utils/process.go:79-110 | The value given by the first argument that is the flag or the flag with `=`; found or not in every case, empty where a bare flag ends the line. |
| Process.BareFlag | sensor/internal/utils/process.go:98-103 | Behind arguments that are not the flag, a bare flag takes the next argument as its value, whatever that is. |
| Process.LastFlag | sensor/internal/utils/process.go:105-106 | At the end of the line it is found, with an empty value. |
| Process.FlagWithValue | sensor/internal/utils/process.go:85-92 | A flag with `=` has the value behind it. |
| Process.NoFlag | sensor/internal/utils/process.go:80-83 | Where the flag does not occur it is not found, whatever flags share its beginning. |
| Flags.LookupIsFirstValue | sensor/internal/utils/process.go:79-110 | On any list of rendered `name=value` settings, whatever prefixes the names share, the lookup returns the first value for that name, or not found. |
| Flags.InsertionExact | sensor/internal/utils/process.go:85-106 | Inserting a differently named setting anywhere into any line leaves a lookup alone unless it comes between the bare flag that decides it and a different value. |
| Flags.RenderedInsertion | sensor/internal/utils/process.go:79-110 | On lines of rendered settings it never changes a lookup. |
| Flags.EmptyNameLookup | sensor/internal/utils/containerruntime.go:128-136 | The lookup of the empty name that containerd's missing flag causes is settled exactly by an empty argument or one that starts with `=`, and is empty exactly in the cases listed. |
| Flags.EmptyNameGivesNothing | sensor/internal/utils/containerruntime.go:129-133 | It gives nothing on lines where no argument starts with `=` and none but the last is empty. |
| Paths.CleanSkips | sensor/internal/utils/containerruntime.go:132-153 | Cleaning leaves out empty and `.` components, in absolute and relative paths. |
| Paths.CleanBacktracks | sensor/internal/utils/containerruntime.go:132-153 | A component and a `..` behind it cancel out. |
| Paths.CleanAtRoot | sensor/internal/utils/containerruntime.go:132-153 | There is nothing above the root. |
| Paths.CleanKeepsPlain | sensor/internal/utils/containerruntime.go:132-153 | Absolute paths of other components stay as they are. |
| Paths.CleanKeepsParents | sensor/internal/utils/containerruntime.go:132-153 | Relative paths keep the `..` that they start with. |
| Paths.CleanNothing | sensor/internal/utils/containerruntime.go:132-153 | A relative path of which nothing is left is `.`. |
| Paths.JoinAbs | sensor/internal/utils/containerruntime.go:132-153 | Joining two absolute paths puts the second behind the first. |
| Paths.JoinPlain | sensor/internal/utils/containerruntime.go:180 | Joining a directory and a listed name puts one and the same prefix, that of the cleaned directory, in front of every name. |
| Paths.SortPrefixed | sensor/internal/utils/containerruntime.go:179-183 | Sorting full paths of one directory is sorting the names. |
| Sorting.SortIgnoresOrder | sensor/verboseutils.go:84 | Sorting forgets the order of arrival. |
| Sorting.LeqExactly | sensor/verboseutils.go:84 | The order is that of bytes: a beginning of the other text, or the smaller byte where they part. |
| Sorting.SortedByBytes | sensor/verboseutils.go:84 | Of two sorted names the first is at most the second in that order. |
| Sorting.SortSorts | sensor/verboseutils.go:84 | Sorting orders the names and neither adds nor loses any. |
| ContainerRuntime.ReverseScanIsOverlay | sensor/internal/utils/containerruntime.go:183-222 | The first hit in descending order is what letting later files overlay earlier ones gives, skipping files that do not parse and empty values. |
| ContainerRuntime.ContainerRuntimeInfo.GetCNIConfigDirFromConfig | sensor/internal/utils/containerruntime.go:161-201 | Filling, sorting in reverse, appending the main config and taking the first hit gives the overlay of the drop-ins, by ascending name, on the main config. |
| ContainerRuntime.ContainerRuntimeInfo.GetCNIConfigDirFromConfigPaths | sensor/internal/utils/containerruntime.go:204-222 | The first non-empty value among files that parse. |
| ContainerRuntime.ContainerRuntimeInfo.GetCNIConfigDir | sensor/internal/utils/containerruntime.go:225-255 | The runtime's own flag before its configuration. |
| ContainerRuntime.NewContainerRuntime | sensor/internal/utils/containerruntime.go:287-313 | A runtime object exactly for the four supported texts, and only if the process is found. |
| ContainerRuntime.GetContainerRuntimeFromProcess | sensor/internal/utils/containerruntime.go:316-330 | containerd if it runs, else cri-o, else nothing. |
| ContainerRuntime.CNIConfigDirFromKubelet | sensor/internal/utils/containerruntime.go:375-413 | The kubelet's directory flag, else the runtime that the endpoint selects, else one of the three errors, each in its case. |
| ContainerRuntime.GetCNIConfigPath | sensor/internal/utils/containerruntime.go:96-125 | The whole chain: kubelet flag, endpoint, containerd process, cri-o process, default. |
| Precedence.OwnFlagWins | sensor/internal/utils/containerruntime.go:244-254 | cri-o's own directory flag comes before all its files, on every host. |
| Precedence.FilesWithoutFlag | sensor/internal/utils/containerruntime.go:225-254 | Without it, and always for containerd, the files decide. |
| Precedence.MainConfig | sensor/internal/utils/containerruntime.go:139-154 | The main config is the file given with `--config`, or the runtime's default, below `/host_fs`. |
| Precedence.DropInDirectory | sensor/internal/utils/containerruntime.go:128-136 | The drop-in directory is the one given with `--config-dir` as it is given, or the runtime's default below `/host_fs`. |
| Precedence.MainConfigDecides | sensor/internal/utils/containerruntime.go:161-222 | The main config decides where no drop-in names a directory; if it does not parse there is none. |
| Precedence.OwnParser | sensor/internal/utils/containerruntime.go:258-283 | Each runtime's files are read by its own parser. |
| Precedence.KubeletFlagWins | sensor/internal/utils/containerruntime.go:377-381 | The kubelet's directory flag comes before everything else. |
| Precedence.EndpointDecides | sensor/internal/utils/containerruntime.go:383-412 | Then the runtime selected by one of the four texts or cri-dockerd's socket, with its own result, even an empty one. |
| Precedence.ProcessesDecide | sensor/internal/utils/containerruntime.go:105-125 | Then containerd's process, then cri-o's, each with the default in place of no directory, then the default. |
| Precedence.KubeletErrors | sensor/internal/utils/containerruntime.go:383-410 | Which of the three errors the kubelet's flags come to. |
| Precedence.CrioFlagReaches | sensor/internal/utils/containerruntime.go:96-125 | With cri-o's endpoint and no flag of the kubelet's, the first value of `--cni-config-dir` on cri-o's rendered line is the result of the whole chain, whatever its files say. |
| Resolution.LastWins | sensor/internal/utils/containerruntime.go:204-222 | The last non-empty value decides, and the main config only if there is none. |
| Resolution.LastDropInWins | sensor/internal/utils/containerruntime.go:178-222 | Of the drop-ins that name a directory the one that comes last by name decides, whatever the main config says. |
| Resolution.ConfiguredDirEmptyExactly | sensor/internal/utils/containerruntime.go:161-222 | The configuration gives nothing if and only if neither the main config nor any listed drop-in names a directory. |
| Resolution.SelectedExactly | sensor/internal/utils/containerruntime.go:291-307 | Which endpoints select a runtime: two literal texts for each, or cri-dockerd's socket as a suffix for containerd, and only if the process runs. |
| Resolution.FullSocketPathSelectsNothing | sensor/internal/utils/containerruntime.go:399-410 | A socket given by more than its last component selects no runtime, unless it is cri-dockerd's. |
| Resolution.EmptyExactly | sensor/internal/utils/containerruntime.go:96-125 | The result is empty if and only if there is no non-empty kubelet directory flag and the endpoint selects a running runtime whose flag and files name no directory. |
| Resolution.DefaultMissing | sensor/internal/utils/containerruntime.go:96-103 | A host where the promised default is missing: containerd runs, the endpoint names its socket and nothing is configured. |
| Resolution.ResolutionIgnoresListingOrder | sensor/internal/utils/containerruntime.go:168-183 | The order in which directories are listed is of no consequence. |
| Resolution.ContainerdHidesCrio | sensor/internal/utils/containerruntime.go:316-330 | While containerd runs, and unless the endpoint is one of cri-o's two texts, cri-o's configuration does not matter. |
| Resolution.OnlyThreeFlagsCount | sensor/internal/utils/containerruntime.go:375-397 | Of a kubelet line of rendered settings only the first value of each of the three flags counts. |
| Resolution.ContainerdUsesDefaultDir | sensor/internal/utils/containerruntime.go:128-136 | containerd's drop-in directory is the default one on every line where no argument starts with `=` and none but the last is empty. |
| Replacing.ReplaceFirst | scripts/build-host-scanner-local.py:73 | The first occurrence is replaced, and the search goes on behind it. |
| Replacing.ReplaceNone | scripts/build-host-scanner-local.py:73 | A text without an occurrence stays as it is. |
| Replacing.TwoPasses | scripts/build-host-scanner-local.py:73 | Two replacements one after the other are a single pass, if neither makes nor hides work for the other. |
| Replacing.UndoneExactly | scripts/build-host-scanner-local.py:73-79 | The opposite pass restores exactly the texts in which nothing kept begins like a new text. |
| Manifest.EditLines | scripts/build-host-scanner-local.py:69-84 | The loop over the list it inserts into and deletes from ends, and gives the specified list and both success flags for each kind of run. |
| Manifest.UpdateK8sDeploymentFile | scripts/build-host-scanner-local.py:58-106 | Return code and file contents for every kind of run and every fate of the write: success, a file that cannot be read or not opened for writing and stays as it was, and a write that breaks off and leaves a beginning of the new text. |
| ManifestFacts.RunReports | scripts/build-host-scanner-local.py:86-106 | A run succeeds if and only if it finds what it looks for and the write succeeds; one that does not get to writing leaves the file as it was. |
| ManifestFacts.BrokenWrite | scripts/build-host-scanner-local.py:95-103 | A write that breaks off reports failure and leaves a beginning of the new text. |
| ManifestFacts.OtherRuns | scripts/build-host-scanner-local.py:66-89 | Any other kind of run fails and changes nothing. |
| ManifestFacts.DeployedAt | scripts/build-host-scanner-local.py:72-76 | Deploying rewrites each image line, puts `imagePullPolicy: Never` behind it, and leaves other lines. |
| ManifestFacts.RevertedAt | scripts/build-host-scanner-local.py:78-84 | Reverting restores the lines up to the first pull policy, deletes that, leaves the line behind it as it is and goes on behind that one. |
| ManifestFacts.FindsLocalAt | scripts/build-host-scanner-local.py:78-84 | The local image is looked for on every line but those behind a deleted one. |
| ManifestFacts.TaggedImage | scripts/build-host-scanner-local.py:73-79 | What the two rewritings make of an image tagged `latest`, and of one tagged `test` with the local name. |
| Manifest.InsertedLine | scripts/build-host-scanner-local.py:76-83 | The line that deploying inserts is not taken for an image line when it is visited next, and reverting recognises it. |
| ManifestFacts.LineReturnsExactly | scripts/build-host-scanner-local.py:73-79 | The four replacements give a line back if and only if at no place outside the replaced texts the line begins with the local image, with `test`, or with `teslatest`, which spells `test` once its end is rewritten. |
| ManifestFacts.ListExactly | scripts/build-host-scanner-local.py:69-84 | Reverting the deployed list gives back the list if and only if every line survives: image lines are not adjacent, return and have no pull policy; others have neither a pull policy nor the local image, unless they follow an image line. |
| ManifestFacts.SurvivorsAreFound | scripts/build-host-scanner-local.py:78-84 | Reverting such a list also finds what it requires to succeed. |
| ManifestFacts.RevertUndoesDeployExactly | scripts/build-host-scanner-local.py:58-106 | For every file with an image line, deploying and then reverting restores the file if and only if it has no carriage return, its last line is ended if it is an image line, and every line survives. |
| ManifestFacts.LatestTagReturns | scripts/build-host-scanner-local.py:73-79 | An image tagged `latest` among text without `q`, `l` and `t` returns. |
| ManifestFacts.TestTagNotRestored | deployment/host-scanner.yaml:35 | A manifest with an image tagged `test` after text without `q`, `l` and `t`, like the repository's own, is never restored. |
| TextLines.TranslateEnding | scripts/build-host-scanner-local.py:67-68 | A carriage return with a newline, a newline and a lone carriage return each become one newline. |
| TextLines.ReadThenConcat | scripts/build-host-scanner-local.py:67-68 | Reading lines and writing them back loses nothing. |
| TextLines.ConcatThenRead | scripts/build-host-scanner-local.py:96-98 | Well-formed lines written out are read back as the same lines. |
| HttpClient.SingleClient | sensor/internal/utils/globals.go:20-29 | Over every interleaving of any number of calls at most one client is made, and every call that has returned has returned that one. |
| HttpClient.ClientStays | sensor/internal/utils/globals.go:24-26 | Once published, the client is never replaced. |
| HttpClient.PublishedNeedsNoLock | sensor/internal/utils/globals.go:21-28 | A call that starts once the client is published never takes or waits for the lock and returns in two steps. |
| HttpClient.MutualExclusion | sensor/internal/utils/globals.go:22-23 | No two calls are between taking and releasing the lock. |
| HttpClient.StepKeepsInv | sensor/internal/utils/globals.go:20-29 | What is known at each point of a call is kept by every step of every other call. |
| HttpClient.NoDeadlock | sensor/internal/utils/globals.go:22-23 | A run that cannot go on is one in which every call has returned. |
| HttpClient.EveryRunEnds | sensor/internal/utils/globals.go:20-29 | Any `n` calls take at most `7n` steps in all, and when none can go on exactly one client has been made, or none for no calls, and all have it. |

## Left out

- A `char` stands for a byte; text is never decoded or normalised.
- The buffered reader's rule for where it cuts is not modelled: any cutting is allowed, and `\r\n` is taken off by the
  reader before a chunk is delivered.
- The matchers' `err` result is always nil in the source and has no counterpart.
- The error test inside the skip loop (`sensor/internal/utils/osuserswrapper.go:78-84`) never fires: an ending comes
  with `isPrefix` false, which ends the loop first.
- Accounts.LookupsRefineWholeLines: assumes that no comment is cut; what holds without that is
  AccountsExact.UserLookupsRightExactly and AccountsExact.GroupLookupsRightExactly.
- RedactionHeap.RemoveEncryptionProviderConfigSecrets: the assignments that store a map or slice back where it was
  found (`keys[k] = key`, `object["keys"] = keys` and so on) change nothing and are not modelled as writes; documents
  with shared parts, which decoding does not build, are not covered.
- Redaction.RedactionExactEverywhere: a mapping with a key that is not a string is decoded to another type, which the
  type tests in `sensor/controlplane.go:179-205` reject, so that nothing at or below it is redacted; the model holds
  such a mapping only as an opaque scalar, and every map means every map with string keys.
- Decoding and encoding of YAML and JSON around the redaction.
- DirWalk.MakeHostDirFilesInfo: callable wherever calls nest to a bounded depth, which on finite directories is
  wherever the source's recursion ends; DirWalkFacts.DepthBoundedExactly says when that is so on every graph.
- DirWalkFacts.WalkExact: assumes that no directory lists a name twice; DirWalkFacts.WalkCounts does without.
- Paths in the two walks are sequences of components, so `path.Join` does not occur there; file contents, owners and
  permissions are not part of a file's entry; the size of batches is not bounded.
- KernelVariables.WalkVarsDir: the system's variables form a finite tree, opened without following cycles; closing of
  files is left out; a panic is a third result rather than an unwinding of the stack.
- `sort.Strings` is represented by an insertion sort on values; `Sorting.SortedUnique` shows that any sort gives the
  same result.
- ContainerRuntime.GetCNIConfigPath: requires that directory listings hold plain file names, as the operating system
  gives them; the TOML parsers are functions from path to value.
- Manifest.UpdateK8sDeploymentFile: decoding errors are not modelled.
- `HttpClient` assumes that all calls see one memory (sequential consistency), which Go does not promise for the read
  outside the lock.
- `RootDir` and `ContaineredPath`, the `Sense*` functions, OS release, kernel and AppArmor status, the HTTP server and
  its handlers, cloud metadata, systemd and port probing, logging and telemetry: input and output, or short
  straight-line code that would add only easy members.
