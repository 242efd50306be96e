# Image stager of the vision system, modelled in Dafny

The vision system watches a folder for new camera images. When a file is
created there, `ImageRenameHandler` does four things:

- it waits for the file to exist;
- it names the file after one more than the largest number already used as a
  file name in the folder;
- it renames the file, retrying while the file is locked or briefly missing;
- it copies the renamed file into `copied_images` as `<number>_grayscale<ext>`
  and converts that copy to grayscale.

This project models that handler (`code.py`). The filesystem is replaced by
the answers it gives: a directory listing, the answer of each rename
iteration, and success flags for the folder creation, the copy and the
conversion.

Modules:

- `Wrappers` (`wrappers.dfy`): `Option`.
- `PyText` (`pytext.dfy`): the Python text builtins the handler relies on.
  These are `str.isdigit`, `int(s)` on a digit string, and `str(n)`. It also
  defines `str.isdecimal`, which the handler never calls: it is the filter of
  the corrected scan (see "## Findings"). The file also proves the round trip
  `int(str(n)) == n`.
- `NtPath` (`ntpath.dfy`): `os.path.splitext` as Windows Python defines it.
  Both `\` and `/` are separators. The extension starts at the last dot of the
  last path component, unless only dots come before that dot in the component.
- `Numbering` (`numbering.dfy`): the ID scan (code.py lines 37-47). The
  `for` loop that collects numbers is the method `CollectNumbers`. It is proved
  against the function `NumericStems`. The next ID and the new name are pure
  functions, and their properties are lemmas: bounds, freshness against the
  listing, the name round trip, and consecutive IDs for files with unnumbered
  names that arrive one at a time.
- `RenameRetry` (`retry.dfy`): the retry loop (lines 49-73). It is the method
  `RenameWithRetry`, proved against the function `Retry`. The input
  `probe(k)` is what iteration k observes. Every iteration that goes round
  again adds exactly one to the counter. So iteration k always runs with
  `attempt == k`, and `probe` is indexed by the counter.
- `Staging` (`staging.dfy`): `on_created` and `rename_new_image` as the
  methods `OnCreated` and `RenameNewImage`, proved equal to the functions
  `Handle` and `Stage`. The handler's changes on disk are returned as a list
  of `Effect`s, in the order they happen. Lemmas state the step order: no copy
  without a successful rename, no conversion without a successful copy, and
  nothing undone after a failed conversion.

## Model

| member | source | states |
|---|---|---|
| `PyText.DecimalString` | code.py:46 | `f"{n}"` is a non-empty string of ASCII digits, and it starts with `0` only for 0 |
| `PyText.IntOfDigits` | code.py:41-42 | for a string that passes `isdigit`, `int()` succeeds exactly when every digit is decimal |
| `PyText.IsDigitString` | code.py:41 | `isdigit` on a stem; its meaning is stated by `PyText.IntOfDigits` (`int` succeeds iff every digit is decimal) and `Numbering.EntryAsWritten` |
| `PyText.ParseDecimal` | code.py:42 | `int(s)` on decimal digits, 0 for the empty string; `PyText.ParseDecimalString` states `int(str(n)) == n` |
| `PyText.ParseDecimalString` | code.py:42-46 | `int(str(n)) == n`: the numeric name reads back as its ID |
| `PyText.DecimalStringIsDecimal` | code.py:46 | the decimal name of an ID passes `isdecimal` |
| `PyText.DecimalStringInjective` | code.py:46 | distinct IDs get distinct names |
| `NtPath.SplitExt` | code.py:35 | `splitext` loses nothing (root + extension == path); the extension is empty or a dot followed by no dot and no separator; it is non-empty iff the last component has a dot after some non-dot character, and then it starts at the last dot |
| `NtPath.HasExtensionIff` | code.py:35 | the last component has a dot after a non-dot character iff its last dot is not preceded by dots alone |
| `NtPath.SplitExtOfPlainName` | code.py:80-81 | splitting a dot-free name followed by an extension gives both parts back |
| `NtPath.LeadingDotIsNotExtension` | code.py:40 | a leading-dot name such as `.png` has no extension, so its stem is the whole name |
| `NtPath.ExtensionOnlyFromLastComponent` | code.py:35 | dots in directory names never produce an extension |
| `Numbering.CollectNumbers` | code.py:38-42 | the scan loop returns `NumericStems(listing)`: a number is collected iff some entry's stem is a decimal numeral of that value |
| `Numbering.NumericStems` | code.py:38-42 | the numbers the scan collects, under the decimal filter; its contract is stated by `Numbering.NumericStemsMembers` (a number is collected iff some entry is numbered as it) and `Numbering.NumericStemsAppend` (entries contribute independently) |
| `Numbering.NumericStemsMembers` | code.py:38-42 | a number is among the collected ones iff some listing entry is numbered as it (both directions) |
| `Numbering.NumericStemsAppend` | code.py:39-42 | each entry contributes on its own, so the numbers of a joined listing are the numbers of the parts, joined |
| `Numbering.MaxOf` | code.py:45 | `max` returns an element of the list that is at least every element |
| `Numbering.NextId` | code.py:44-45 | the next ID is at least 1, is 1 with no numbered entry, and is one more than a collected number that is at least every collected number |
| `Numbering.NextIdMinusOneIsUsed` | code.py:45 | when some entry is numbered, one entry is numbered exactly the next ID minus one |
| `Numbering.NewName` | code.py:46 | `f"{new_id}{ext}"`; its contract is stated by `Numbering.NewNameRoundTrip` (splits back into the ID and the extension) and `Numbering.NewNameIsFresh` (not in the listing) |
| `Numbering.NextIdIsOne` | code.py:44-45 | the next ID is 1 iff every numbered entry is numbered 0 (for example, when there is none) |
| `Numbering.NextIdAboveEveryEntry` | code.py:38-46 | the next ID is strictly above every entry's number, and when some entry is numbered, one entry is numbered exactly ID - 1 |
| `Numbering.NewNameRoundTrip` | code.py:35-46 | splitting the new name gives back the decimal ID and the source's own extension, and the new name is numbered as the ID |
| `Numbering.NewNameIsFresh` | code.py:38-47 | the new name is not in the listing |
| `Numbering.UnnumberedEntryIgnored` | code.py:39-42 | an entry whose stem is not a decimal numeral changes neither the collected numbers nor the next ID |
| `Numbering.NextIdAfterNumberedEntry` | code.py:44-46 | adding an entry numbered as the next ID raises the next ID by one |
| `Numbering.NextIdAfterStaging` | code.py:44-47 | once the new name is in the folder, the next ID is one higher |
| `Numbering.AssignedIdsAreConsecutive` | code.py:37-47 | files with unnumbered names that arrive one at a time, each renamed, get consecutive IDs starting at the folder's next ID (`Numbering.AssignedIds` takes every rename to succeed: each new name joins the listing) |
| `Numbering.FreshFolderNumbersFromOne` | code.py:44-46 | into a folder with no numbered entry, N arrivals with unnumbered names, each renamed, are named 1..N in arrival order (every rename taken to succeed, as in `Numbering.AssignedIds`) |
| `Numbering.NumbersAsWritten` | code.py:38-42 | the scan as written, with `None` for the ValueError; its contract is stated by `Numbering.NumbersAsWrittenFailsOnDigitOnlyStem` and `Numbering.SuperscriptStemRaises` |
| `Numbering.EntryAsWritten` | code.py:40-42 | one iteration as written: `int(name)` raises exactly for a digit-only stem, and otherwise contributes what the decimal filter contributes |
| `Numbering.NumbersAsWrittenFailsOnDigitOnlyStem` | code.py:39-42 | the scan as written raises ValueError iff some stem passes `isdigit` and fails `isdecimal`; otherwise it collects `NumericStems` |
| `Numbering.DigitOnlyEntryRaises` | code.py:39-42 | adding any entry with a digit-only stem makes the scan as written raise, while the decimal filter ignores the entry |
| `Numbering.SuperscriptStemRaises` | code.py:39-42 | the listing `["².png"]` makes the scan as written raise, and the decimal filter collects nothing from it |
| `RenameRetry.Retry` | code.py:50-73 | the counter never decreases and never exceeds 10 |
| `RenameRetry.RetryResult` | code.py:50-73 | the loop stops at the first non-retryable answer or after 10 retryable ones. The outcome is Renamed iff that answer is a success, Fatal iff it is an error other than 32, and Exhausted iff the counter reached 10. Every counted answer was a missing source or a lock error |
| `RenameRetry.RetryableAnswerCountsOnce` | code.py:54-67 | one unfolding step of `RenameRetry.RetryResult`: a missing source or a lock error adds exactly one to the counter and goes on with the next iteration |
| `RenameRetry.RetryStopsAtOnce` | code.py:59-70 | no answer after the stopping one is consulted: a success or a fatal error ends the attempts at once |
| `RenameRetry.RenameWithRetry` | code.py:49-73 | the loop method returns `Retry(probe, 0)`, with the counter at most 10 and every counted answer retryable; the three outcomes are characterised both ways |
| `RenameRetry.LockReleasedAfterThreeAttempts` | code.py:59-67 | a file that is locked for three attempts and then released is renamed on the fourth attempt, with 3 counted |
| `Staging.GrayscaleName` | code.py:80-81 | the copy name built from the split new name; its contract is stated by `Staging.GrayscaleNameOfNewName` |
| `Staging.GrayscaleNameOfNewName` | code.py:79-81 | the copy is named `<ID>_grayscale<ext>`, with the source file's own extension |
| `Staging.StageAs` | code.py:49-95 | the rename loop and the copy steps for a given new name; its contract is stated by `Staging.EffectsFollowPlan` (effects are a prefix of the plan), `Staging.StepOrder` (each step needs the ones before it) and `Staging.ConversionFailureKeepsProgress` |
| `Staging.Stage` | code.py:33-95 | `rename_new_image`: `StageAs` under the name `Numbering.NewName` picks; its contract is stated by `Staging.GrayscaleNameOfNewName` and the `Numbering` lemmas on the new name (`NewNameRoundTrip`, `NewNameIsFresh`, `NextIdAboveEveryEntry`) |
| `Staging.Handle` | code.py:12-22 | `on_created`: directories are ignored (second ensures of `Staging.OnCreated`), a file that never appears is left alone, otherwise the file is staged; its contract is stated by `Staging.FatalRenameStopsEverything` and `Staging.ExhaustedRetriesStopEverything` |
| `Staging.EffectsFollowPlan` | code.py:59-95 | the effects are always a prefix of rename, make folder, copy, convert; the staging completes iff all four happen |
| `Staging.StepOrder` | code.py:59-95 | something changes on disk iff the rename succeeded; the copy happens iff the rename, folder and copy succeed; the conversion only after all of them |
| `Staging.FatalRenameStopsEverything` | code.py:68-70 | a corollary of `RenameRetry.RetryResult` and `Staging.StepOrder`: an error other than 32 ends the handler with nothing copied or converted |
| `Staging.ExhaustedRetriesStopEverything` | code.py:71-73 | ten retryable answers end the handler without copying |
| `Staging.ConversionFailureKeepsProgress` | code.py:91-95 | a corollary of `Staging.StepOrder`: a failed conversion keeps the rename, the copy folder and the copy |
| `Staging.ChooseName` | code.py:33-47 | the chosen name is `NewName`, is not in the listing, and splits into the decimal next ID and the source's extension |
| `Staging.RenameAndCopy` | code.py:49-95 | the retry loop and the copy steps produce `StageAs`: the effects and outcome for the chosen name |
| `Staging.RenameNewImage` | code.py:33-95 | the whole staging produces `Stage(srcPath, env)` |
| `Staging.OnCreated` | code.py:12-22 | the event handler produces `Handle(event, env)`; a directory event ends it with no effect on disk (the guard at lines 14-15) |

## Left out

- The watchdog `Observer`, the `__main__` loop and interrupt handling (lines 107-123) are process plumbing.
- `wait_for_file` (lines 24-31) polls against the wall clock. It becomes the input `appeared`.
- The `time.sleep` calls between attempts and all printed messages are left out.
- The real `os.listdir`, `os.path.exists`, `os.rename`, `os.makedirs`, `shutil.copy2` and `os.getcwd` are replaced by their results. A failing `os.listdir` raises out of the handler; the model always has a listing.
- `os.path.join` is not modelled. Effects name files (the source path, the new name, the copy name), not joined paths. Preserving metadata in `shutil.copy2` is not modelled.
- The grayscale conversion (lines 97-105, PIL) is an opaque success or failure. `convert_to_grayscale` catches its own exceptions, so the `except` at lines 94-95 never fires. Either way the staging ends as `ConversionFailed` with nothing undone.
- The race between the scan and the rename is concurrency. The model stages one file at a time against a fixed listing.
- Unicode tables in `PyText` are partial. Decimal digits cover ASCII, Arabic-Indic, Extended Arabic-Indic, Devanagari and Fullwidth. Digit-only characters cover the superscript and subscript digits and the circled digits 1-9. Other scripts are not listed.
- `NtPath.SplitExt` models Windows path rules only (the handler's lock handling is Windows-only). POSIX `splitext` treats `\` as an ordinary character.
- Numbering.CollectNumbers, Numbering.NextId, Numbering.NewName, Staging.ChooseName, Staging.Stage, Staging.Handle, Staging.RenameNewImage, Staging.OnCreated: these model the corrected scan, which counts only stems that pass `isdecimal`. With `².png` in the folder they stage the new file, whereas the code as written raises ValueError out of the handler. Only `Numbering.NumbersAsWritten` and its lemmas model that raise (see the finding below).

## Findings

| source | as written | input that shows it | evidently intended | confidence | as-written member | corrected member |
|---|---|---|---|---|---|---|
| code.py:41-42 | `name.isdigit()` guards `int(name)`. `isdigit` also accepts Unicode digits that are not decimal (superscripts, subscripts, circled digits), and `int` raises ValueError on them. The exception leaves `rename_new_image`, so the new file is never renamed | a folder holding `².png` | skip every stem that is not a decimal numeral (`isdecimal`), as for any other non-numeric name | high; not executed | `Numbering.SuperscriptStemRaises` (via `Numbering.NumbersAsWrittenFailsOnDigitOnlyStem`) | `Numbering.CollectNumbers` (`NumericStems`, used by `Staging.ChooseName`) |
