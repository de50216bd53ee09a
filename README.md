# askill core, modelled in Dafny

`askill` installs skills into the skill folders of AI coding harnesses. A skill is a directory that holds a `SKILL.md`. The harnesses are Codex CLI, Claude Code and Cursor, each with a global folder and, for some, a project folder. The user picks skills and targets in a terminal menu or with a typed comma list. Each skill is then linked or copied into `<target>/<directory name of the skill>`; an existing destination is skipped or replaced. A small Python helper keeps a `USER_FEEDBACK.md` file whose first line is a timestamp.

This project models that core as verified Dafny:

- `FileTree` (filetree.dfy): the file system as a tree. Entries are `Dir(mode, children)`, `File(bytes, mode)` and `Link(target)`, and paths are sequences of names. It also defines the tree operations behind `os.MkdirAll`, `os.RemoveAll` and `os.Symlink`.
- `Frontmatter` (frontmatter.dfy): `parseSkillFrontmatter` as a loop over the lines `bufio.Scanner` yields. A specification function and lemmas cover delimiters, later keys overriding earlier ones, and reading back a block a skill author writes.
- `Discovery` (discovery.dfy): `DiscoverSkills` is the `WalkDir` walk, which visits entries in lexical order and skips a skill's subtree. It is a pair of recursive methods, proved sound and complete against a "reported path" predicate. `DiscoverTargets` is the fixed five-entry menu built from an "is a directory" test.
- `Install` (install.dfy): `InstallSkill`, `installSymlink`, `copyDir` and `copyFile`. They are methods of a `FileSystem` class whose tree field they update one entry at a time. Lemmas state what a symlink install and a copy leave behind.
- `Tui` (tui.go → tui.dfy): the `multiSelect` state of `selectIndicesTUI`. It is a class whose cursor and selection map the key handlers update. The key loop is driven by the bytes typed, and the outcome is a selection, a cancel or an error.
- `Versions`, `Settings`, `Selection`, `Plan` (run.go):
  - `compareVersions`;
  - the configuration defaults and flag precedence;
  - the skills-source resolution and `normalizeRepoURL`;
  - index parsing and filtering, and the sort by name;
  - the target-major, skill-minor install loop, with its skip or overwrite decisions.
- `UserFeedback` (user_feedback.py → userfeedback.dfy): `update_user_feedback`, `init_user_feedback` and the return codes of `check_user_feedback`, over a file that is its text or absent.

Process state is passed in as parameters: the working directory, the home directory, whether a path is a directory, the outcome of a git clone, the bytes typed, the answers typed and the clock's timestamp. `Wrappers` (wrappers.dfy) holds `Option` and `Result`. `Text` (text.dfy) holds the Go string functions used: `TrimSpace`, `Split`, `Join`, `Atoi`, `EqualFold` and byte-wise string order.

Three details of the code a reader might not expect, which the model follows:

- `withDefaultConfig` takes a working-directory argument that it never reads, so the model leaves it out.
- tui.go's `selectIndicesTUI` takes two arguments and starts with nothing selected. `run.go` calls a four-argument variant, defined elsewhere, with a preselection that is not part of this model. The preselection `defaultSelectAll` builds is modelled on its own, in `Selection.DefaultSelectAll`.
- The "toggle all" key compares the size of the selection map with the item count. The map keeps entries toggled back to false, so after selecting and unselecting the only item, `a` clears instead of selecting. The model reproduces this (`Tui.ToggleAllAfterUnselect`).

## Model

| member | source | states |
|---|---|---|
| Frontmatter.ClosingIndex | internal/installer/installer.go:240-242 | the index found is the first line at or after the start that trims to `---`, or the end |
| Frontmatter.LastValue | internal/installer/installer.go:246-252 | a key's value is trimmed of white space |
| Frontmatter.ParseFrontmatter | internal/installer/installer.go:222-258 | the scanner loop returns exactly the specified name and description; both are empty unless the first line trims to `---`; both are trimmed |
| Frontmatter.StopsAtClosingDelimiter | internal/installer/installer.go:240-242 | lines after the closing `---` never change the result |
| Frontmatter.LaterLineOverrides | internal/installer/installer.go:247-252 | the last line starting with a key decides its value |
| Frontmatter.KeyLineValue | internal/installer/installer.go:246-252 | a `key value` line with a trimmed value yields that value back |
| Frontmatter.KeyLineIsNotDelimiter | internal/installer/installer.go:236-242 | a key line is never taken for a `---` delimiter |
| Frontmatter.RenderRoundTrip | internal/installer/installer.go:229-252 | front matter written with a name and description, followed by any body, parses back to that name and description |
| Discovery.ReadSkill | internal/installer/installer.go:66-77 | a skill directory yields the skill with its front-matter name, or else its base name, its description and its path |
| Discovery.Walk | internal/installer/installer.go:54-79 | the walk appends exactly the specified skills found under a node, in visiting order |
| Discovery.WalkEntries | internal/installer/installer.go:54-79 | visiting the entries in order appends exactly the skills under those entries |
| Discovery.DiscoverSkills | internal/installer/installer.go:44-87 | the three errors (root missing, root not a directory, no skills found) and otherwise every skill found |
| Discovery.ReportedSkill | internal/installer/installer.go:73-77 | the skill recorded for a reported path has that path |
| Discovery.ReportedLookup | internal/installer/installer.go:61-77 | a reported path holds a directory with a regular `SKILL.md`, and its skill is the one read there |
| Discovery.FoundInHas | internal/installer/installer.go:54-79 | a skill under one entry is among the skills under all the entries |
| Discovery.FoundInFrom | internal/installer/installer.go:54-79 | every skill under the entries comes from one of them |
| Discovery.FoundSound | internal/installer/installer.go:54-79 | every recorded skill belongs to a reported path, that is a skill directory reached through non-skill directories |
| Discovery.FoundComplete | internal/installer/installer.go:54-79 | every reported path is recorded |
| Discovery.ReportedNotNested | internal/installer/installer.go:73-78 | no reported skill path lies strictly inside another |
| Discovery.PathLessIrreflexive | internal/installer/installer.go:54 | no path comes before itself in walk order |
| Discovery.PathLessUnder | internal/installer/installer.go:54 | paths under a smaller entry name come first in walk order |
| Discovery.FoundInUnder | internal/installer/installer.go:54-79 | a skill under the entries lies under one of those entry names |
| Discovery.FoundIncreasing | internal/installer/installer.go:54-79 | skills are recorded in strictly increasing lexical path order |
| Discovery.FoundInIncreasing | internal/installer/installer.go:54-79 | entries visited in sorted order give skills in increasing path order |
| Discovery.SingleSkill | internal/installer/installer.go:54-86 | a tree with one reported path yields exactly that one skill |
| Discovery.IsDirectory | internal/installer/installer.go:260-263 | `existsDir` is true exactly for an existing directory |
| Discovery.OfferGlobal | internal/installer/installer.go:92-100 | a global target is appended, marked as existing, exactly when its skills directory is a directory |
| Discovery.ProjectEntry | internal/installer/installer.go:113-127 | a project target is always listed under the project path, with `Exists` telling whether its directory is there |
| Discovery.MenuSnoc | internal/installer/installer.go:89-141 | adding one more type to the order appends that type's entry when it is offered |
| Discovery.MenuInOrder | internal/installer/installer.go:89-141 | the menu is the codex, claude-global, claude-project, cursor-project and cursor-global picks in that order |
| Discovery.DiscoverTargets | internal/installer/installer.go:89-141 | the appends build exactly the menu over the fixed type order |
| Discovery.MenuEntries | internal/installer/installer.go:94-137 | each entry has its type's label and path, and `Exists` as the directory test gives it |
| Discovery.MenuHasType | internal/installer/installer.go:89-141 | a type is listed if and only if it is in the order and is offered |
| Discovery.MenuRanked | internal/installer/installer.go:89-141 | entries keep the relative order of their types |
| Discovery.TargetsMenu | internal/installer/installer.go:89-141 | targets come in the order codex-global, claude-global, claude-project, cursor-project, cursor-global; global types are listed if and only if their folder is a directory; project types are listed if and only if a project path is given |
| Install.FileSystem.MkdirAll | internal/installer/installer.go:155-157 | the tree is updated by `MkdirAllAt`, and a failure changes nothing |
| Install.FileSystem.RemoveAll | internal/installer/installer.go:158-160 | the tree loses the path, and a missing path is not an error |
| Install.FileSystem.Symlink | internal/installer/installer.go:161 | succeeds if and only if the path is vacant, and then the link is there and nothing else changes |
| Install.FileSystem.CopyFile | internal/installer/installer.go:201-220 | succeeds if and only if the destination can be created, and then holds the bytes with the source mode |
| Install.FileSystem.PlaceLink | internal/installer/installer.go:178-190 | a link entry is recreated with the same link target |
| Install.FileSystem.CopyNode | internal/installer/installer.go:164-199 | the walk leaves exactly the copy outcome and fails exactly when it does |
| Install.FileSystem.CopyChildren | internal/installer/installer.go:164-199 | the walk over a directory's entries in lexical order leaves exactly the entries' copy outcome and fails exactly when one entry does |
| Install.FileSystem.CopyDir | internal/installer/installer.go:164-199 | a missing source fails; otherwise the copy outcome of the source node |
| Install.FileSystem.InstallSymlink | internal/installer/installer.go:154-162 | a parent that cannot be made fails with nothing changed; success exactly as the link outcome |
| Install.FileSystem.InstallSkill | internal/installer/installer.go:143-152 | an unknown mode is an error with nothing changed; symlink and copy modes as their outcomes |
| Install.EntriesFail | internal/installer/installer.go:165-198 | once an entry fails, the directory copy fails |
| Install.Restrict | internal/installer/installer.go:164-199 | the entries copied so far are exactly those named |
| Install.RestrictAll | internal/installer/installer.go:164-199 | after every entry is copied, the copy has all the entries |
| Install.RestrictValue | internal/installer/installer.go:164-199 | a copied entry keeps its content |
| Install.EntryVacant | internal/installer/installer.go:191-197 | inside a freshly made directory every new entry name is vacant |
| Install.CopyVacant | internal/installer/installer.go:164-199 | copying into a vacant destination puts exactly the source node there |
| Install.CopyEntriesVacant | internal/installer/installer.go:164-199 | copying the entries in sorted order fills a fresh directory with exactly those entries |
| Install.SymlinkLinks | internal/installer/installer.go:154-162 | a symlink install succeeds if and only if the parent can be made, and leaves a link that reads back as the source path |
| Install.SymlinkIdempotent | internal/installer/installer.go:154-162 | installing the same link twice equals installing it once |
| Install.CopyIsExact | internal/installer/installer.go:164-220 | a copy into a vacant destination leaves an identical copy and the source unchanged |
| Tui.AllTrue | internal/cli/tui.go:84-86 | the map marks exactly the indices below the count, all true |
| Tui.AllTrueStep | internal/cli/tui.go:84-86 | one more iteration of the fill loop marks one more index |
| Tui.MultiSelect.constructor | internal/cli/tui.go:31-35 | cursor 0 and an empty selection map |
| Tui.MultiSelect.Down | internal/cli/tui.go:70-73 | the state moves down exactly as `MoveDown` |
| Tui.MultiSelect.Up | internal/cli/tui.go:74-77 | the state moves up exactly as `MoveUp` |
| Tui.MultiSelect.Space | internal/cli/tui.go:78-79 | the entry at the cursor is flipped |
| Tui.MultiSelect.All | internal/cli/tui.go:80-87 | the selection is cleared or filled as `ToggleAll` says |
| Tui.MultiSelect.Confirm | internal/cli/tui.go:88-96 | returns the selected indices in ascending order |
| Tui.SelectIndicesTUI | internal/cli/tui.go:21-114 | the key loop ends with exactly the outcome of the key-driven specification |
| Tui.AllTrueSize | internal/cli/tui.go:80-87 | filling marks exactly as many entries as there are items |
| Tui.StepsKeepValid | internal/cli/tui.go:70-110 | every key keeps the cursor within the items |
| Tui.DownThenUp | internal/cli/tui.go:70-77 | down then up returns to the same state, except at the last item, where down does nothing |
| Tui.ToggleFlipsCursorOnly | internal/cli/tui.go:78-79 | space flips the entry at the cursor and changes nothing else |
| Tui.ToggleAllMarksOrClears | internal/cli/tui.go:80-87 | `a` selects every item unless the map's size equals the item count, and then clears it |
| Tui.ToggleAllWhenAllSelected | internal/cli/tui.go:80-87 | with every item selected, `a` empties the map |
| Tui.ToggleAllAfterUnselect | internal/cli/tui.go:80-87 | the size test counts unselected entries: select, unselect, `a`, Enter confirms nothing |
| Tui.UnselectedThenAll | internal/cli/tui.go:78-96 | after select and unselect, `a` then Enter confirms nothing, and `a`, `a`, Enter confirms the item |
| Tui.AllSelectsSingle | internal/cli/tui.go:80-96 | with an empty selection of one item, `a` then Enter confirms that item |
| Tui.ChosenExactly | internal/cli/tui.go:88-96 | confirmed indices are exactly the selected ones below the count, strictly ascending |
| Tui.ConfirmedSelection | internal/cli/tui.go:60-113 | a confirmed outcome lists the selection of a reachable valid state |
| Tui.ConfirmedIndicesAscend | internal/cli/tui.go:21-114 | confirmed indices are in range and strictly ascending |
| Tui.UndecidedInputFails | internal/cli/tui.go:60-64 | input with no `q`, CR or LF ends in the read failure |
| Tui.IgnoredByte | internal/cli/tui.go:66-111 | any other byte changes nothing |
| Versions.VersionPart | internal/cli/run.go:763-771 | a digit string gives its value; a part that does not parse gives 0 |
| Versions.Parts | internal/cli/run.go:737-740 | a version always has at least one part |
| Versions.SpaceAndVIgnored | internal/cli/run.go:737-740 | leading white space and one leading `v` are ignored: the parts, and every comparison on either side, are those of the bare version |
| Versions.CompareFrom | internal/cli/run.go:745-760 | the comparison is -1, 0 or 1 |
| Versions.CompareVersions | internal/cli/run.go:736-761 | the loop with early returns computes the specified comparison, which is -1, 0 or 1 |
| Versions.CompareParts | internal/cli/run.go:741-760 | the loop over the parts, with its early returns, computes the specified comparison of the part values |
| Versions.CompareFromReflexive | internal/cli/run.go:745-760 | equal parts compare equal |
| Versions.CompareReflexive | internal/cli/run.go:736-761 | every version equals itself |
| Versions.CompareFromAntisymmetric | internal/cli/run.go:745-760 | swapping the parts lists negates the result |
| Versions.CompareAntisymmetric | internal/cli/run.go:736-761 | swapping the versions negates the result |
| Versions.SameValuesCompareEqual | internal/cli/run.go:745-760 | parts lists with the same values compare equal, whatever their lengths |
| Versions.CompareByValues | internal/cli/run.go:745-760 | only the part values matter |
| Versions.TrailingZerosIgnored | internal/cli/run.go:745-752 | trailing parts that read as 0 do not change the result |
| Versions.PartsOfDigits | internal/cli/run.go:737-740 | a dotted version of digit parts splits back into those parts |
| Versions.JoinDigitsTrimmed | internal/cli/run.go:737 | such a version has no white space to trim |
| Versions.ZeroPart | internal/cli/run.go:763-771 | the part "0" reads as 0 |
| Versions.MissingPartIsZero | internal/cli/run.go:736-771 | "x.y" and "x.y.0" compare equal |
| Versions.CompareFromEqualPrefix | internal/cli/run.go:745-760 | parts that agree up to an index leave the result to the parts from there on |
| Versions.ValuesDecide | internal/cli/run.go:745-760 | the first index where the values differ decides the result, in both directions |
| Versions.PartsCompareNumerically | internal/cli/run.go:736-771 | of two digit-part versions agreeing up to part k, the one with the larger value at k is newer and the other older ("1.10" is newer than "1.9") |
| Settings.WithDefaultConfig | internal/cli/run.go:660-678 | non-blank fields are kept; a blank source becomes "bundled" when there is a bundled root and "cwd" otherwise, a blank project choice "skip", a blank mode "symlink"; the project path becomes its TrimSpace unless the choice is "custom", which keeps it as given |
| Settings.WithDefaultConfigIdempotent | internal/cli/run.go:660-678 | applying the defaults twice equals applying them once |
| Settings.ResolveProjectPath | internal/cli/run.go:680-689 | "cwd" gives the working directory, "custom" exactly the TrimSpace of the project path, anything else "" |
| Settings.ProjectFromConfig | internal/cli/run.go:660-689 | after defaults, "cwd" gives the working directory, "custom" the path trimmed once, and a blank or other choice no project |
| Settings.ResolveInstallMode | internal/cli/run.go:691-696 | copy if and only if the mode equals "copy" ignoring case, and symlink otherwise |
| Settings.EmptyConfigDefaults | internal/cli/run.go:660-696 | an empty configuration installs by symlink with no project |
| Settings.CopyModeIgnoresCase | internal/cli/run.go:691-696 | any casing of "copy" selects copy mode |
| Settings.NormalizeRepoURL | internal/cli/run.go:518-529 | URLs and names without `/` are kept; `github.com/x` becomes exactly `https://github.com/x.git` and any other `x` with a `/` exactly `https://github.com/x.git`, both GitHub clone URLs ending in `.git` |
| Settings.NormalizeIdempotent | internal/cli/run.go:518-529 | normalising twice equals normalising once |
| Settings.ShorthandMatchesHost | internal/cli/run.go:522-527 | `owner/repo` and `github.com/owner/repo` normalise to the same URL |
| Settings.ResolveSkillRepoPath | internal/cli/run.go:477-498 | the keywords pick the bundled root or the working directory; otherwise an empty value is the "empty skills repo path" error, an existing directory is returned as given, and anything else gives exactly the clone's directory (temporary) or its error, for the normalised URL |
| Settings.ExistingDirNotCloned | internal/cli/run.go:491-496 | a non-empty value naming an existing directory is used as given and the clone is never consulted |
| Settings.ShorthandClonesSame | internal/cli/run.go:497-527 | `owner/name` and `github.com/owner/name`, neither a local directory, resolve to the same clone |
| Settings.DefaultSourceIsLocal | internal/cli/run.go:112-127 | an unset source resolves to the bundled root, or the working directory, without cloning |
| Settings.FlagMode | internal/cli/run.go:98-104 | the mode from flags is copy if and only if only `--copy` is set |
| Settings.ApplyFlags | internal/cli/run.go:172-201 | both mode flags are an error; flags override the choice; the root falls back to the bundled root, then the working directory, whose error is reported |
| Settings.ApplyFlagsIdempotent | internal/cli/run.go:172-201 | applying the flags to their own result changes nothing |
| Settings.FlagsAloneDecide | internal/cli/run.go:98-104 | with no configuration, the flags alone decide mode and project |
| Selection.PartIndex | internal/cli/run.go:353-361 | a blank part gives no index, and a part gives at most one |
| Selection.PartsIndices | internal/cli/run.go:352-362 | no more indices than parts |
| Selection.ParseIndices | internal/cli/run.go:345-363 | the parsing loop yields exactly the specified indices, and none for a blank line |
| Selection.ParsePart | internal/cli/run.go:353-361 | one iteration of the loop adds exactly the part's index, if it has one |
| Selection.PartIndexOfNumeral | internal/cli/run.go:353-361 | a decimal numeral n gives the index n-1 |
| Selection.PartsIndicesAppend | internal/cli/run.go:352-362 | parts contribute independently, in input order |
| Selection.SkippedParts | internal/cli/run.go:354-360 | blank and non-numeric parts are skipped without disturbing the others |
| Selection.Numerals | internal/cli/run.go:357 | each number is written as its decimal numeral |
| Selection.MinusOne | internal/cli/run.go:361 | each 1-based number becomes its 0-based index |
| Selection.PartsIndicesOfNumerals | internal/cli/run.go:352-362 | numerals parse back to their numbers minus one |
| Selection.JoinedNumeralsTrimmed | internal/cli/run.go:346 | a comma list of numerals has nothing to trim |
| Selection.TypedNumbers | internal/cli/run.go:345-363 | typing `n1,n2,…` gives the indices `n1-1, n2-1, …` |
| Selection.Picked | internal/cli/run.go:414-438 | at most one entry per index, each one of the items |
| Selection.PickedSingle | internal/cli/run.go:419-423 | an index picks its item when it is in range and nothing otherwise |
| Selection.PickedAppend | internal/cli/run.go:418-424 | indices pick independently and in the order given, so out-of-range ones are dropped and in-range ones kept in order |
| Selection.Filter | internal/cli/run.go:414-438 | the loop returns exactly the in-range picks, in index order |
| Selection.PickedInRange | internal/cli/run.go:419-423 | with every index in range, entry k is the item index k names |
| Selection.TypedNumbersPick | internal/cli/run.go:345-438 | typed numbers in range pick the numbered items in typed order, duplicates kept |
| Selection.DefaultSelectAll | internal/cli/run.go:440-446 | every index below the count is marked true, and nothing else |
| Selection.AllSelectedConfirmsAll | internal/cli/run.go:440-446 | confirming that preselection returns every index in order |
| Selection.ChosenBelow | internal/cli/tui.go:91-95 | the confirmed indices depend only on the entries below the count |
| Selection.InsertByName | internal/cli/run.go:219 | inserting keeps the names ascending and the skills as a permutation |
| Selection.SortByName | internal/cli/run.go:219 | the sorted skills are a permutation with names never decreasing |
| Plan.DestInTarget | internal/cli/run.go:273 | the destination lies in the target folder: one more name, the skill's base name, for a skill below the file-system root; the target folder itself exactly when the skill is the file-system root, as `filepath.Join` cleans the base name "/" away |
| Plan.Row | internal/cli/run.go:272-293 | one target with every skill, in skill order |
| Plan.PlanFromAppend | internal/cli/run.go:269-295 | running the loop over two lists in turn equals running it over both |
| Plan.Visit | internal/cli/run.go:273-292 | one iteration of the loop body does exactly the specified step |
| Plan.VisitRow | internal/cli/run.go:272-293 | the inner loop produces the plan of one target's row and the state after it |
| Plan.RunPlan | internal/cli/run.go:269-295 | the nested loop produces exactly the install plan |
| Plan.PlanFromShape | internal/cli/run.go:269-295 | step k concerns pair k and its destination, which counts as existing if and only if it existed at the start or an earlier pair installed there |
| Plan.PairsLength | internal/cli/run.go:269-272 | there is one pair per target and skill |
| Plan.PairsOrder | internal/cli/run.go:269-272 | pair `i*|skills|+j` is target i with skill j: target-major, skill-minor |
| Plan.KeepExistingNeverReplaces | internal/cli/run.go:276-281 | in the terminal menu without overwrite, an existing destination is never replaced |
| Plan.OverwriteAllNeverSkips | internal/cli/run.go:276-289 | in the terminal menu with overwrite, every pair is installed |
| Plan.NoAnswersDecline | internal/cli/run.go:282-285 | in line mode with no input left, every overwrite is declined |
| Plan.Perform | internal/cli/run.go:276-292 | a skipped pair changes nothing; an installed one first removes an existing destination, then installs as `InstallSkill` does; in copy mode, a skill that the removal took with it (the destination was the skill or held it) makes the install fail with nothing further changed; an unknown mode fails after the removal |
| Plan.ReplaceMakesCopy | internal/cli/run.go:287-292 | replacing an existing destination in copy mode leaves an exact copy of the skill and the skill unchanged |
| UserFeedback.NoteIsOneLine | skills/user-feedback/scripts/user_feedback.py:18-20 | the default note is one line |
| UserFeedback.ReadLines | skills/user-feedback/scripts/user_feedback.py:96-97 | the lines join back into the text, and each has a newline only at its end |
| UserFeedback.ReadLinesConcat | skills/user-feedback/scripts/user_feedback.py:109-110 | reading back what `writelines` wrote gives the same lines |
| UserFeedback.ReplaceFirstLine | skills/user-feedback/scripts/user_feedback.py:105-107 | replacing line 0 replaces exactly the text before the first newline |
| UserFeedback.FeedbackFile.Update | skills/user-feedback/scripts/user_feedback.py:94-111 | a missing file gives 2 and no write; otherwise 0 and the first line replaced |
| UserFeedback.FeedbackFile.Init | skills/user-feedback/scripts/user_feedback.py:82-91 | an existing file without force gives 2 and no write; otherwise 0 and the two-line file |
| UserFeedback.CheckUserFeedback | skills/user-feedback/scripts/user_feedback.py:62-79 | 2 exactly for a missing file or an unparseable first line; 0 with "true" exactly when newer; 1 with "false" exactly when the first line parses and the file is not newer |
| UserFeedback.UpdateKeepsLaterLines | skills/user-feedback/scripts/user_feedback.py:102-110 | an empty file gets one timestamp line; otherwise the line count and every later line are kept, and the newline of line 0 is kept exactly when it had one |
| UserFeedback.UpdateIdempotent | skills/user-feedback/scripts/user_feedback.py:94-111 | updating twice with one timestamp equals updating once |
| UserFeedback.InitLines | skills/user-feedback/scripts/user_feedback.py:87-91 | `init` writes exactly the timestamp line and the note line |
| UserFeedback.UpdateAfterInit | skills/user-feedback/scripts/user_feedback.py:82-111 | updating a fresh file keeps the note and changes only the timestamp |
| UserFeedback.TrimSpaceNewline | skills/user-feedback/scripts/user_feedback.py:65 | stripping a timestamp line gives the timestamp |
| UserFeedback.CheckAfterUpdate | skills/user-feedback/scripts/user_feedback.py:62-111 | after an update, the check parses exactly the timestamp written |

## Left out

- File-system errors other than those the tree produces are not modelled. This covers permissions, I/O errors, `WalkDir` callback errors and scanner token limits; each becomes a generic failure or does not arise.
- Path resolution through symbolic links is not modelled. Discovery and `existsDir` see a link as a link, where `os.Stat` follows it. At install time, `os.MkdirAll` (installer.go:155, run.go:271) follows a link to a directory, such as a symlinked `~/.claude`; the model's `FileTree.MkdirAllAt` and `Install.FileSystem.MkdirAll` fail there instead. `os.Create` in `copyFile` writes through a link at the destination, whereas `Install.Creatable` refuses it. The umask applied to created modes is not modelled either.
- Paths are absolute only: a path is a sequence of names from the root, and `FileTree.PathString` always starts with `/`. A relative skills root, such as a relative `--repo` that `resolveSkillRepoPath` keeps as given (run.go:494-495) and that `Run` builds the skills root from (run.go:203), is not modelled. `os.Symlink` (installer.go:161) stores such a relative path as written, and it then resolves against the link's own directory, so the link would likely dangle. `Install.SymlinkLinks` covers only absolute link targets.
- Install.FileSystem.CopyDir: the copy reads the source as it was before the copy starts. Go's `filepath.WalkDir` (installer.go:165-198) reads each directory only after the callback has made its copy, so a destination inside the source makes Go walk its own copy, nesting deeper until it fails and leaves a deep partial tree. That overlapping case is not modelled; `Install.CopyIsExact` and `Plan.ReplaceMakesCopy` state the copy only for a destination outside the source.
- A copy that fails part-way leaves a partial tree in Go. The model states only the successful outcome and the fact that a failure is reported, not the partial tree.
- `cloneRepo` (git, temporary directories), `detectRepoRoot`, the Homebrew upgrade banner and the configuration file commands are left out. They are process and external-command plumbing; the clone appears only as the `clone` parameter of `Settings.ResolveSkillRepoPath`.
- Raw terminal mode, rendering, and the prompts that run.go calls but that are defined elsewhere are not modelled. Those prompts are `selectIndexTUI`, `promptOverwriteTUI`, the four-argument `selectIndicesTUI` and the configuration prompts; the overwrite choice appears as a parameter of `Plan.Prompting`.
- Tui.Drive: an escape reads the next two bytes when there are two left, and otherwise what is left. A short read from a real terminal can return fewer bytes.
- Plan.RunPlan: existence of destinations is an abstract set, updated by the plan itself. The loop's abort on the first install error and the `MkdirAll` of each target are not part of the plan. `Plan.Perform` models one step's effect on the tree.
- Selection.SortByName: `sort.Slice` is not stable, so only a non-decreasing permutation is stated. The order of skills with equal names is not fixed.
- Unicode is not modelled. White space follows Go's `unicode.IsSpace` list; case folding and lower-casing are ASCII-only; Python's `strip` is modelled by the same trimming.
- Integers are unbounded, so `strconv.Atoi` overflow is not modelled.
- Timestamp parsing in `user_feedback.py` is a parameter of `UserFeedback.CheckUserFeedback`; only the empty-line error is modelled. That parsing uses regular expressions, `datetime`, the local time zone and floats. Times are `real`, so float rounding is not modelled; the clock and the file's modification time are parameters.
- Python's newline translation on read and write is not modelled; the file text is taken as already using `\n`. Creating the parent directory in `init_user_feedback` is not modelled, nor a path that exists as a directory.
- Settings.NormalizeIdempotent: Dafny proves it from the contract of `Settings.NormalizeRepoURL` alone, so the lemma adds no proof of its own.
