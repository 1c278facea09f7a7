# A verified model of fuseadf

`fuseadf` mounts an Amiga disk image through FUSE. Between the path-based FUSE
calls and ADFlib, whose calls work in a hidden current directory, it keeps a
state of its own: a printed working directory (`cwd`) next to the volume's
`curDirPtr`. Almost every call saves the printed form, moves, works, and parses
the saved text to move back; others move to the root without touching the text.
This project models that state machine, the directory view given to FUSE, the
in-place rewriting of path strings, the rewriting of `argv`, the permission
translation, and the acquisition of resources, and proves what they promise.

`dafny verify dfyconfig.toml` checks everything.

## How the model is built

- `PathStrings`, `Walking`: C path strings, `dirname`/`basename` after
  POSIX.1-2017 (System Interfaces), and walking a volume by components.
- `Volume`, `VolumeLaws`: a small concrete store in the place of ADFlib: a map
  from sector to block, ordered directory lists, lookup without regard to case,
  exact listing, hard links that are followed, a list of free sectors from which
  the one freed last is taken first. `Valid`
  says that entry names can be used in paths (non-empty, no `/`, not `.`) and
  are unique up to case, that every block has one place, and that free sectors
  are unused. Blocks outside the map cannot be read.
- `ImageState`, `FuseState`: the effect of every `adfimage_` function and every
  FUSE handler on the state, branch by branch, with the early returns that skip
  the restore. `AdfImageImpl`, `Adffs`: the same as classes and methods that
  update fields and buffers step by step, each proved against those functions,
  against the file system without a current directory, and for what it restores.
- `CwdMachine`, `CwdLimits`: when `cwd` and the position agree, and how long
  `cwd` gets.
- `Reference`: the file system without any current directory, and the proof
  that all handlers refine it from every state. `DirView`, `Canonical`,
  `Renaming`, `RenameEffects`, `RenameCalls`, `WholeRuns` build on it.
- `Positions`, `PositionEffects`, `CwdRuns`, `CwdAgreement`, `CwdTexts`: where
  every FUSE operation leaves the current directory and `cwd`, and what follows
  for the size of the root, the agreement of the two, and the length of `cwd` at
  every moment of whole runs. A run ends with a call that never returns.
- `Answers`: what each operation answers and does, spelled out from any state;
  `FileRuns`: writing, cutting and reading back with other operations between.
- `PathRewrite`, `ParentPatterns` (`src/util.h`), `CommandLine`,
  `CommandOptions` (`src/fuseadf.c`), `Permissions`, `Resources`.

A path is *canonical* when it is printed from plain names (`Canonical`); FUSE
passes only those. Most theorems need no more than an absolute path.

## The code as written and as meant

All theorems speak of the code as written unless they say "meant". Where the
two differ:

- The shift loops of `src/util.h` (lines 24-26, 53-55, 64-66) do not advance
  their pointer, and the search for a final `/..` (lines 59-68) repeats a match
  that is not final. Functions ending in `W` give the result as written, with
  `None` for a call that never returns; the methods ending in `Written` count
  steps and complete exactly when there is a result. `Collapse`,
  `DirparentU2A` and the methods without suffix are the meant rewriting: the
  pointer advances and a match that is not final is passed over.
- `&= !MASK` (src/adfimage.c:351-358) clears the whole access word.
- The root's `st_size` (src/adffs.c:177) counts the current directory
  (`PositionEffects.RootSizeExactly`; `RootSizeWrong` has a run on which it is
  wrong although every call succeeds).
- `adfToRootDir` leaves `cwd` as it is (src/adfimage.c:680, 698, 722, 740, 789,
  810; src/adffs.c:271, 276, 411, 441, 451).
- `adfimage_getdentry` and `adfimage_count_dir_entries` ignore whether `chdir`
  succeeded (src/adfimage.c:150, 262); chmod and rename inherit that
  (`Canonical.ChmodWithoutDirectory`, `RenameCalls.RenameWithoutDirectory`).
- `path_is_entryname_non_empty` tests `dirpath` (src/util.h:141); since neither
  `dirname` nor `basename` yields an empty string the test never fails.
- An unreadable root block counts as a valid bitmap (src/adfimage.c:1055;
  `Resources.BitmapAsMeantExactly`).
- `-s` is appended behind the mount point (src/fuseadf.c:89-91), where it is an
  operand if the options were closed by `--`
  (`CommandLine.SingleEnforcedExactly`).
- README.md of the program documents `-l logfile`; the scanner takes the file
  name only when it is attached, so a separate word counts as an operand
  (`CommandLine.SeparateLogFile`).

## Model

| member | source | states |
|---|---|---|
| PathStrings.JoinSplit | src/adfimage.c:394-410 | cutting a path at its slashes and printing the pieces with slashes gives the path back |
| PathStrings.SplitJoin | src/adfimage.c:394-410 | printing slash-free components and cutting the result gives the components back |
| PathStrings.DirnameBasenameNonEmpty | src/util.h:110-118 | neither dirname nor basename is ever empty, so the working directory is always saved and the emptiness tests never fail |
| PathStrings.DirnameBasenameEdges | src/util.h:96-121 | dirname and basename of the empty path and of paths of slashes only, and slashes behind a name do not count |
| PathStrings.DirnameOfJoined | src/util.h:96-121 | dirname and basename of directory, slash and name are the directory without trailing slashes and the name |
| Walking.LongestPrefix | src/adfimage.c:397-409 | the stopping depth is the length of the longest resolvable prefix: a prefix resolves iff it is no longer, and the walk stops at the end of that prefix |
| Walking.PrintParse | src/adfimage.c:383-410 | parsing the printed form of components gives the components |
| Walking.ComponentsPrintable | src/adfimage.c:383-394 | every component list that chdir walks can be printed and parsed back |
| AdfImageImpl.AdfImage.Chdir | src/adfimage.c:375-414 | the scan of a copied path equals the functional walk in position, printed cwd and result, for absolute and relative paths |
| AdfImageImpl.AdfImage.WalkPath | src/adfimage.c:394-413 | overwriting one separator after the other and entering the piece in front of it walks the slash-split of the path, stopping at the first piece that does not resolve |
| AdfImageImpl.AdfImage.AppendDir | src/adfimage.c:1038-1045 | from the print of a list of components cwd becomes the print of the list with one component more |
| AdfImageImpl.AdfImage.CountDirEntries | src/adfimage.c:145-154 | from any state the number of entries where the walk of an absolute path stops, whether or not it resolves; an agreeing state is left unchanged |
| AdfImageImpl.AdfImage.GetDentry | src/adfimage.c:237-325 | from any state the entry of exactly the basename in the longest resolvable prefix of the dirname; when one is found an agreeing state is left unchanged, and in any case agreeing |
| AdfImageImpl.AdfImage.ListFind | src/adfimage.c:212-234 | the loop finds the first entry of exactly this name, or none |
| AdfImageImpl.AdfImage.FileOpen | src/adfimage.c:417-455 | from any state the file that the path denotes from the root, if its dirname resolves; when it is found an agreeing state is left unchanged, and in any case agreeing |
| AdfImageImpl.AdfImage.Read | src/adfimage.c:464-515 | from any state the bytes of the file the path denotes from the root: those at the offset, as many as asked for or as there are, and their number, with the conversions to unsigned and int32; -ENOENT without a file; reading a file leaves an agreeing state unchanged |
| AdfImageImpl.AdfImage.Write | src/adfimage.c:518-569 | from any state the bytes of the buffer stand at the offset of that file, or at its end, every other byte and block is as before, and their number is returned; position and cwd come back |
| AdfImageImpl.AdfImage.Readlink | src/adfimage.c:573-657 | from any state the target of a soft link, or the name of the block another entry is linked to, cut to the buffer, or the code of the step that fails; an agreeing state is left unchanged whenever the dirname resolves |
| AdfImageImpl.AdfImage.Mkdir | src/adfimage.c:661-701 | from any state status and volume are those of making the directory under the dirname seen from the root, the position is the root when that resolves, a well-formed volume stays so, and getattr then finds what was made |
| AdfImageImpl.AdfImage.Remove | src/adfimage.c:705-769 | from any state status and volume are those of removing the entry under the dirname seen from the root, the position is the root when that resolves, and a well-formed volume stays so |
| AdfImageImpl.AdfImage.Create | src/adfimage.c:775-813 | the same as for mkdir, with a file |
| AdfImageImpl.AdfImage.Truncate | src/adfimage.c:816-831 | succeeds iff the path denotes a file from the root; its first bytes are kept, zeros added behind them if it grows, and nothing else changes; an agreeing position comes back |
| AdfImageImpl.AdfImage.SetPermission | src/adfimage.c:336-367 | succeeds iff an entry of the basename is found in the longest resolvable prefix of the dirname; only its access word changes, to one from which the downward closure of the rights set is read back, and whose other bits are kept or wiped |
| AdfImageImpl.AdfImage.Rename | src/adfimage.c:835-949 | from any state outcome and volume are those of the rename without a current directory, and a usable new name keeps the volume well-formed |
| Adffs.Getattr | src/adffs.c:131-316 | from any state, for the entry the path denotes from the root: the size of the file or directory, the rights of the owner from the access word, those of the others without writing, the fixed rights of soft links; -ENOENT without one; the position is the root afterwards when the dirname resolves; for the root rwxr-xr-x and the size of whatever directory is current |
| Adffs.Readdir | src/adffs.c:386-453 | from any state as many of the dots and the names of the directory the path denotes from the root, in order, as there is room for, with -EAGAIN if an entry is refused, or -ENOENT; the position is the root afterwards |
| Adffs.FillFrom | src/adffs.c:426-445 | the loop over the list adds the entry names in order, as many as there is room for, and reports whether one was refused |
| Adffs.Chmod | src/adffs.c:576-607 | 0 or positive EINVAL, according to whether the entry is found; only its access word changes, and getattr in the new volume shows the downward closure of the user bits |
| CwdMachine.ChdirAbsolute | src/adfimage.c:375-414 | an absolute chdir, from any state, succeeds iff every component resolves, and stops with position and printed cwd at the longest resolvable prefix |
| CwdMachine.ChdirRelative | src/adfimage.c:375-414 | the same for a relative chdir from an agreeing state, continuing the components of cwd |
| CwdMachine.ChdirAgrees | src/adfimage.c:375-414 | success, failure and partial descent all leave a cwd that resolves to the position |
| CwdMachine.Restore | src/adfimage.c:449-452 | parsing a saved agreeing cwd leads back to exactly that position and text from anywhere |
| CwdMachine.CountDirRestores | src/adfimage.c:145-154 | counting a directory leaves an agreeing state unchanged |
| CwdMachine.GetDentryRestores | src/adfimage.c:258-324 | getdentry leaves an agreeing state unchanged, except that an empty list leaves it in the directory entered |
| CwdMachine.FileOpenRestores | src/adfimage.c:425-454 | opening a file leaves an agreeing state unchanged iff it returns the file through the restore; otherwise it stays where chdir stopped |
| CwdMachine.ReadRestores | src/adfimage.c:464-515 | the same for read |
| CwdMachine.WriteRestores | src/adfimage.c:518-569 | the same for write, in the volume written to, whose directories are unchanged |
| CwdMachine.ReadlinkRestores | src/adfimage.c:573-657 | readlink restores on every exit except a failing chdir |
| CwdMachine.StepAgrees | src/adfimage.c:375-569 | each of chdir, count, getdentry, open, read, write, readlink and truncate keeps the agreement, on all paths and exits |
| CwdMachine.RunFromOpenAgrees | src/adfimage.c:68-84 | from open on, every interleaving of those operations keeps cwd resolving to the current directory, if no directory is named "." |
| CwdMachine.MountedRunAgrees | src/adfimage.c:68-84 | so on every well-formed volume |
| CwdLimits.DotNameLosesAgreement | src/adfimage.c:390-392 | a directory named "." breaks the agreement after a partial descent, so the assumption on names is needed |
| CwdLimits.RootCallsAgreeExactly | src/adfimage.c:661-813 | mkdir, rmdir, unlink and create that entered the parent leave cwd and position in agreement iff cwd was "/" and the entry is in the root |
| CwdLimits.AbsoluteCwdLength | src/adfimage.c:383-410 | after an absolute chdir cwd is "/" and a prefix of the relative path, and no longer than the path |
| CwdLimits.RelativeCwdLength | src/adfimage.c:397-410 | a relative chdir lengthens cwd by at most a slash and the path |
| CwdLimits.CwdFits | src/adfimage.h:12 | the buffer suffices whenever the lengths of the inputs say so |
| CwdLimits.CreatesGrowCwd | src/adfimage.c:775-813 | n successful creates in a directory d of the root turn cwd into n copies of /d |
| CwdLimits.CreatesFitExactly | src/adfimage.c:775-813 | and that fits the buffer iff n times the length of /d is below its size |
| CwdAgreement.AgreementExactly | src/adffs.c:131-656 | for each of the thirteen FUSE operations the exact condition under which an agreeing state is left agreeing |
| CwdRuns.KeepsAgreementExactly | src/adffs.c:131-453 | of the operations that change no name, readdir leaves an agreeing state iff it stays in the root, getattr iff it looks below the root directory or the way there fails, and the others always, from whatever state, if they move at all |
| CwdRuns.ReachedMakeAgreesExactly | src/adfimage.c:661-813 | mkdir, rmdir, unlink and create that reach the parent leave an agreeing state iff cwd was "/" and the parent is the root |
| CwdRuns.FailedMakeAgreesExactly | src/adfimage.c:680-698 | those that fail on the way to the parent keep the agreement iff the components walked lead to the same place behind the old cwd as from the root |
| CwdRuns.FailedMakeInTree | src/adfimage.c:680-698 | on a volume without hard links: iff cwd was "/" |
| CwdAgreement.RenameAgreesExactly | src/adfimage.c:835-949 | rename keeps the agreement iff it fails or does not move away an entry on the way that cwd prints |
| CwdAgreement.RenameLosesAgreement | src/adfimage.c:942-944 | after a failing read of /d/nope renaming /d to /f leaves cwd at "/d", which leads nowhere |
| CwdRuns.RunLength | src/adfimage.h:12 | over every run of FUSE operations cwd gets no longer than the longest path plus the paths of mkdir, rmdir, unlink and create |
| CwdTexts.RunTextsShort | src/adfimage.c:1038-1045 | the same for every text that cwd holds at any moment of the run, within operations too |
| CwdTexts.LastText | src/adfimage.c:375-414 | the texts listed for an operation end with the cwd it leaves |
| CwdTexts.RunTextsFit | src/adfimage.h:12 | so the buffer suffices at every moment of every run whose paths say so |
| Reference.SameParent | src/adfimage.c:666-692 | the relative form of a path has the same parent directory and name as the absolute one |
| Reference.GetattrForgets | src/adffs.c:131-316 | getattr equals its form without a current directory from every state, for the root up to the size |
| Reference.ReaddirForgets | src/adffs.c:386-453 | readdir equals its form without a current directory from every state |
| Reference.WriteForgets | src/adfimage.c:518-569 | write gives the same answer and volume from every state |
| Reference.RenameForgets | src/adfimage.c:835-949 | rename gives the same answer and volume from every state |
| Reference.StepRefines | src/adffs.c:131-656 | every FUSE operation on absolute paths, from any position and cwd whatever and on any volume, answers and changes the volume as if there were no current directory |
| Reference.RunRefines | src/adffs.c:131-656 | the same for every run of operations, answer by answer and in the final volume |
| Reference.HistoryIndependence | src/adffs.c:131-656 | two states of the same volume give the same answers and volumes over every run, except the size of the root |
| Positions.StepPlace | src/adffs.c:131-656 | where each FUSE operation leaves position and cwd, from any state: at the root after readdir, after getattr below a directory that resolves and after mkdir, rmdir, create and unlink that reach the parent; where the old cwd leads after a successful file operation; where the walk stopped otherwise |
| PositionEffects.RootSizeExactly | src/adffs.c:177 | after a run the size of the root is right iff the directory in which the moves of the run end has as many entries as the root |
| PositionEffects.RootSizeRight | src/adffs.c:177 | it is right after every run, from whatever state, of which the last operation that moves ends at the root |
| PositionEffects.RootSizeAfterStep | src/adffs.c:177 | after one operation it is the size of the root, of the directory where a walk stopped, or of the one the old cwd leads to, by its last move |
| PositionEffects.RootSizeAfterListing | src/adfimage.c:508-512 | after listing a directory and any operation that goes back by cwd, the root is reported with the size of that directory |
| PositionEffects.RootSizeWrong | src/adffs.c:177 | on a root with three entries, readdir of /d and a read of /f from open on have getattr report one |
| DirView.AttributesIffListed | src/adffs.c:146-277 | for every absolute non-root path getattr succeeds iff readdir of the dirname lists the basename, and both fail alike |
| DirView.ListedHasAttributes | src/adffs.c:406-452 | getattr of a listed directory joined with any listed name but the dots succeeds |
| DirView.SizeIsListingLength | src/adffs.c:254 | the size of a directory is the number of names readdir emits besides the dots, in any two states |
| DirView.ListingIs | src/adffs.c:415-445 | a listing is as much of the dots and one name per entry, in order, as there is room for; an entry refused is reported as -EAGAIN |
| Canonical.TwoRoutesAgree | src/adfimage.c:237-325 | for a canonical path that chdir resolves, getdentry finds an entry iff the last name is spelled as listed, and its sector, or linked sector, is where chdir ends |
| Canonical.ChmodThenGetattr | src/adffs.c:576-607 | after a successful chmod getattr shows the downward closure of the user bits, equal to them iff W comes with R and X with W; the other access bits survive iff nothing was granted or none was set |
| Canonical.ChmodWithoutDirectory | src/adfimage.c:259-281 | when the dirname does not resolve getattr fails but chmod succeeds iff the longest resolvable prefix holds an entry of that name |
| Permissions.MeantRoundTrip | src/adfimage.c:327-366 | meant: the rights set are read back and no other bit changes, for every word and set of rights |
| Permissions.WrittenReadback | src/adfimage.c:351-358 | as written: the rights read back are the downward closure of those set, and any grant wipes the other bits |
| Permissions.WrittenRoundTripExactly | src/adfimage.c:351-358 | as written the round trip holds iff W comes with R and X with W, and the other bits are kept iff nothing is granted or none was set |
| Renaming.RewriteOfPrinted | src/util.h:71-76 | on a canonical directory path the rewriting returns iff no name begins with two dots and no directory on the way ends in two, and then changes nothing |
| RenameCalls.RenameActs | src/adfimage.c:876-944 | rename of canonical paths succeeds iff the rewriting returns, parents are found and the volume renames between them; otherwise nothing changes |
| RenameCalls.RenameAnswers | src/adfimage.c:876-948 | its codes in the order of the checks: no parent, no directory, for source and target |
| RenameCalls.RenameSucceeds | src/adfimage.c:876-944 | on a well-formed volume it succeeds iff the rewriting returns, directories are taken for the parents, and there is nothing to change, or the old name is found and no other entry has the new one up to case |
| RenameCalls.RenameWithoutDirectory | src/adfimage.c:259-281 | a successful rename acts on the directories its paths denote iff the dirname of each parent resolves (and a link taken for a parent leads to a directory), else on the entry of that name in the longest resolvable prefix |
| RenameCalls.RenameFromNowhere | src/adfimage.c:262 | renaming /nope/d/x to /e/y succeeds and moves /d/x, where getattr finds nothing at /nope/d/x |
| RenameCalls.RenameHangsExactly | src/adfimage.c:865-866 | rename of canonical paths never returns iff a name on the way to a parent confuses the rewriting |
| RenameCalls.RenameEndToEnd | src/adfimage.c:835-949 | for every successful rename: every path not through the moved entry denotes what it did and nothing new; where the parents are the directories their paths denote, the new path denotes the old entry iff the way to it did not pass through that entry, the old path denotes nothing, and what was below the old path is below the new one |
| RenameEffects.WalkThrough | src/adfimage.c:942-944 | a path through the moved entry resolves to nothing afterwards, unless only the spelling changed |
| VolumeLaws.SameNameIs | src/adfimage.c:399 | names are the same up to the case of ASCII letters, and of Latin-1 letters on an international volume |
| VolumeLaws.LookupIs | src/adfimage.c:399 | on a well-formed volume a lookup finds an entry iff it is listed under that name up to case |
| WholeRuns.RunKeepsValid | src/adffs.c:131-656 | every run of operations on absolute paths with usable new names keeps the volume well-formed |
| WholeRuns.MakeThenGetattr | src/adfimage.c:661-813 | getattr after mkdir or create shows the new empty entry with all rights |
| WholeRuns.MakeThenRemove | src/adfimage.c:661-769 | what mkdir or create made, rmdir or unlink removes again, from any state, and every later run is answered as if neither had been called |
| FileRuns.WriteThenRead | src/adfimage.c:464-569 | from any state a write of any buffer at any offset returns its size iff that is below 2^31; after any run that leaves the file alone a read of the place where the bytes went gives them back, and a read of the same offset does iff it lay inside the file or nothing was written |
| FileRuns.WriteThenGetattr | src/adffs.c:231-235 | and getattr reports the old size, or the end of the bytes written if that is further |
| FileRuns.TruncateThenRead | src/adfimage.c:816-831 | after a truncate and any such run a read from the beginning gives the first old bytes and zeros up to the new size, which getattr reports |
| Answers.ReadAnswers | src/adfimage.c:499-514 | the answer of read, as a step from any state |
| Answers.WriteAnswers | src/adfimage.c:553-568 | the answer and the effect of write |
| Answers.TruncateAnswers | src/adffs.c:626-642 | the answer and the effect of truncate |
| Answers.ReadlinkAnswers | src/adfimage.c:599-644 | the answer of readlink |
| Answers.OpenAnswers | src/adffs.c:554-572 | open succeeds iff the path denotes a file |
| Answers.FileIs | src/adfimage.c:436-439 | a path denotes a file iff its dirname resolves and the name leads, through a hard link or not, to a block of that kind |
| Answers.DirectoryIs | src/adfimage.c:399 | a component is entered iff the name leads, through a hard link or not, to a directory |
| Answers.GetattrAnswers | src/adffs.c:178-277 | the answer of getattr for every path but the root's |
| Answers.RootAnswers | src/adffs.c:156-180 | the answer of getattr for the root |
| Answers.RootEntry | src/adfimage.c:243-247 | the entry found for "/" is the root block itself |
| Answers.MakeAnswers | src/adfimage.c:661-813 | the codes of mkdir and create: for the root, without a parent, for a name that is taken up to case or a full volume, and success otherwise |
| Answers.RemoveAnswers | src/adfimage.c:705-769 | the codes of rmdir and unlink: for the root, without a parent or entry, for a directory that is not empty, and success otherwise |
| Answers.MakeChanges | src/adfimage.c:661-813 | on a well-formed volume exactly one empty entry comes, a directory by mkdir and a file by create, under the basename in the directory of the dirname |
| Answers.RemoveChanges | src/adfimage.c:705-769 | and exactly the entry of that name goes by rmdir and unlink |
| Answers.ChmodAnswers | src/adffs.c:576-607 | the codes of chmod |
| PathRewrite.ShiftWritten | src/util.h:24-26 | as written the shift loop ends iff the next cell is NUL, and otherwise changes one cell once, for every number of steps |
| PathRewrite.RemoveDoubleSlashesWritten | src/util.h:17-29 | for every number of steps beyond the first the call completes iff the string has a result, and with that result |
| PathRewrite.DirparentU2AWritten | src/util.h:45-69 | the same for the parent conversion |
| PathRewrite.Fuse2AmigaDosWritten | src/util.h:71-76 | the same for the two together |
| PathRewrite.Fuse2AmigaDosReturns | src/util.h:71-76 | exactly the strings on which the calls return: double slashes and /.. only at the very end, no ../; and the result in each case |
| PathRewrite.WrittenAgreesWithMeant | src/util.h:71-76 | whenever the code as written returns, it returns what was meant |
| PathRewrite.ShiftLeft | src/util.h:23-26 | meant: the shift removes one character from the string in the buffer |
| PathRewrite.RemoveDoubleSlashes | src/util.h:17-29 | meant: each run of slashes is reduced to one and none is left, though the search resumes at the last hit |
| PathRewrite.CollapseKeepsComponents | src/util.h:17-29 | meant: the sequence of non-empty components is kept |
| PathRewrite.CollapseSettles | src/util.h:17-29 | meant: no double slash is left and a second pass changes nothing |
| PathRewrite.ParentMarksInPlace | src/util.h:49-56 | meant: the first loop leaves no ../, and shortens the string by the number of replacements |
| PathRewrite.ParentMarksByComponents | src/util.h:41-56 | meant: a component with k trailing dots keeps k mod 2 of them and gets k/2 more slashes, so .. becomes a slash and names are unharmed iff they do not end in two dots |
| PathRewrite.FinalParentInPlace | src/util.h:58-68 | meant: a final /.. becomes // and everything else stays |
| PathRewrite.DirparentU2AInPlace | src/util.h:45-69 | meant: the two loops give that string, shorter by one character for each replacement |
| PathRewrite.DirparentU2ASettles | src/util.h:45-69 | meant: the result has no ../, does not end in /.., and is not changed again |
| ParentPatterns.ParentPatternLeft | src/util.h:45-69 | meant: a /.. is left iff some component behind a slash begins with two dots and is not a final .. nor an inner one made of dots only |
| ParentPatterns.NoParentLeft | src/util.h:45-69 | meant: neither ../ nor /.. is left when no name begins with two dots |
| PathRewrite.Fuse2AmigaDosInPlace | src/util.h:71-76 | meant: the whole call yields the converted collapsed string, no longer than before, with no ../ left and settled |
| CommandLine.DropArg | src/fuseadf.c:266-273 | the element is deleted, the others keep their order, every slot from argc on is NULL |
| CommandLine.DropArgs | src/fuseadf.c:276-285 | the same for several elements |
| CommandLine.AddArg | src/fuseadf.c:287-293 | the argument is appended in a free slot of the original array, which stays NULL-terminated |
| CommandLine.ScanOption | src/fuseadf.c:180-251 | one round deletes or keeps the option just scanned, optind points at the next unscanned element, and fewer are left |
| CommandLine.ParseArgs | src/fuseadf.c:166-263 | the scan-and-delete loop leaves the program name, the FUSE options with their arguments in order and the mount point, extracts the image name and collects the options the filter collects |
| CommandOptions.ScanEnds | src/fuseadf.c:177-254 | the scan reaches the operands iff every option is known, each -p has a number and none lacks its argument; it stops early iff a -h or -V comes first, and fails otherwise |
| CommandOptions.ScanCollects | src/fuseadf.c:169-250 | what the scan collects and leaves, option by option: read-only iff some -o has "ro", checksums ignored iff -i, logging iff -l, the volume of the last -p; s, d, f and o are left in order |
| CommandOptions.CommandLineMeans | src/fuseadf.c:166-263 | the same for the whole command line from the defaults: image, mount point, read-write, volume 0, no log |
| CommandOptions.PlainCommandLine | src/fuseadf.c:169-173 | without options the image is opened for writing, volume 0, checksums respected |
| CommandLine.KeptIsForFuse | src/fuseadf.c:221-235 | what is left are options meant for FUSE with their arguments, and at most a closing -- |
| CommandLine.SingleIsKept | src/fuseadf.c:222-223 | the single-thread flag is set iff -s is among the options left |
| CommandLine.FuseArgs | src/fuseadf.c:68-91 | FUSE is started iff two operands remain; its argv is what the filter keeps, the mount point and the enforced -s, inside the original array |
| CommandLine.SingleEnforcedExactly | src/fuseadf.c:88-91 | it carries -s as an option iff -s was kept or the options on the command line were not closed by -- |
| CommandLine.DashesLoseSingle | src/fuseadf.c:88-91 | on -- img mnt FUSE gets -- mnt -s, in which -s is no option |
| CommandLine.SeparateLogFile | src/fuseadf.c:201-213 | behind any options, a word after -l is taken for the first operand, so -l logfile image mountpoint is refused and -l word mountpoint takes the word for the image |
| CommandLine.ParseVolumeWraps | src/fuseadf.c:181-195 | a number, with leading space, sign and whatever follows, is accepted iff its value modulo 2^32 is at most 10, and as that; none from 2^64 on |
| CommandLine.NoNumberRefused | src/fuseadf.c:185-188 | without digits behind space and sign it is refused |
| Resources.Program.Open | src/adfimage.c:33-96 | the acquisitions and releases of one open, by the first call that fails |
| Resources.OpenTrace | src/adfimage.c:86-95 | every failing exit releases exactly what was acquired, once and in reverse order |
| Resources.CloseBalance | src/adfimage.c:99-119 | an open followed by close leaves whatever was held before, each resource released once, though the image record outlives the mounts |
| Resources.RunBalance | src/adfimage.c:33-119 | after every run of opens and closes all resources are held or none, and none was acquired twice or released unheld |
| Resources.ReadWriteBitmap | src/adfimage.c:54-60 | after every run an image is held iff an open succeeded since the last close, and one held read-write has a valid bitmap or an unreadable root block |
| Resources.UnreadableOpens | src/adfimage.c:1047-1059 | a read-write open that meets an unreadable root block succeeds as written and is refused as meant; otherwise the bitmap flag decides |
| Resources.BitmapAsMeantExactly | src/adfimage.c:1047-1059 | the acquisitions and releases of a run are the meant ones iff it meets no unreadable root block in a read-write open that gets that far |

## Left out

- ADFlib itself (block layout, hash chains, checksums, bitmap allocation): the
  store above stands for it. A failing store call changes nothing; name length
  limits, read-only volumes, protection bits enforced by ADFlib, and a full disk
  during a write are not modelled.
- adfFileOpen in write mode is modelled for existing files only.
- The order in which new entries appear in a directory list: they are appended.
- Entry dates, owner, block size and block count in getattr, which copy a field
  or ask the host.
- `adffs_statfs`, `adffs_chown`, `adffs_utimens`, logging, usage and version
  output, `src/adffs_util.c`, `src/util.c`: each is settled by reading it.
- The handlers `adffs_read`, `adffs_write`, `adffs_readlink`, `adffs_mkdir`,
  `adffs_rmdir`, `adffs_create`, `adffs_unlink` and `adffs_rename` are steps of
  the runs but not methods of their own: they pass one call on.
- Lifetimes of C strings and leaks; buffers have their contents and length only,
  and the size of `cwd` appears as length arithmetic.
- A path of slashes only has the dirname "/", where POSIX also allows "//".
- CommandLine.ParseArgs: does not model option clusters, attached arguments
  (`-p3`, `-lfile`) and options behind operands, for which the fixed step back
  of the scanner was not made; `realpath` is a parameter.
- CommandLine.FuseArgs: does not model what libfuse does with the arguments
  beyond which of them are options.
