# math-scribe: conversion session, preview rewriter and upload intake

A Dafny model of the core of math-scribe, a browser tool that takes an image of
a formula, runs a simulated recognition and shows the LaTeX result. The model
covers three parts.

- **The conversion session** of the index page (`Session.ConversionSession`).
  It holds the current image (a data URL or none), the current LaTeX, the
  processing flag, the history, the event log and the three settings (model,
  confidence threshold, preprocessing). The upload handler shows the image,
  raises the flag and logs its first lines. It is given the settings the
  handler closed over when it was built, before the file was read, and returns
  a `Run` that carries them. Three timers then fire in a fixed order: analysis,
  threshold report, completion. The threshold and completion timers receive the
  `Run`; the analysis timer needs nothing from it. Completion sets the result,
  drops the flag and puts a new item at the front of the history. The history is cut to ten items (`History.InsertFront`).
  Clear, select-from-history and delete each append one log line.
- **The preview rewriter** (`Preview.RenderPreview`). It chains twelve global
  regular-expression replacements. Each replacement is a function that scans
  left to right. At each position it either rewrites a match and resumes after
  it, or keeps one character and moves on. `[^}]+` is greedy, and it never
  backtracks to a shorter match that succeeds, so each match is unique.
- **The upload intake** (`Upload`). A drop forwards its first file, and only
  when the file's MIME type starts with `image/`. The file input forwards its
  first file with no type check. The `isDragging` flag follows the drag
  events.

Log ids and times (`crypto.randomUUID()`, `new Date()`) are `Stamp` parameters.
The history item's id is a parameter that must not already be in the history,
which models the uniqueness of a random UUID. The recognised text, a random
pick among five fixed strings, is a parameter that must be one of `Samples`.
The data URL produced by the file reader is a parameter too.

What the code does not do, and the model therefore does not do either:

- nothing stops a second upload while one is processing;
- there is no size or type check in the session and no failed state;
- clearing does not cancel pending timers;
- select-from-history takes an item, not an id, and does not look it up in the
  history;
- none of the handlers logs a warning.

## Model

| member | source | states |
|---|---|---|
| `Session.ConversionSession.constructor` | src/pages/Index.tsx:26-35 | the initial state: no image, empty LaTeX, not processing, empty history and log, model `mathpix-v3`, threshold 85, preprocessing on |
| `Session.ConversionSession.AddLog` | src/pages/Index.tsx:37-44 | the log grows by exactly one entry, with the given kind and message, at the end; earlier entries are unchanged |
| `EventLog.NotesAppend` | src/pages/Index.tsx:37-44 | what an appended log says is what the old log said followed by what the new entries say |
| `EventLog.Stamped` | src/pages/Index.tsx:37-44 | appending several notes gives one entry per note, in order, each carrying its note and its own id and time |
| `EventLog.NotesOfStamped` | src/pages/Index.tsx:37-44 | stamping notes with ids and times loses nothing of what they say |
| `Session.ConversionSession.SetModel` | src/pages/Index.tsx:157-164 | the model setting becomes the chosen one |
| `Session.ConversionSession.SetConfidence` | src/pages/Index.tsx:157-164 | the threshold becomes the slider value, which lies in 50..100 in steps of 5 |
| `Session.ConversionSession.SetPreprocessing` | src/pages/Index.tsx:157-164 | the preprocessing switch becomes the chosen value |
| `Session.ConversionSession.HandleImageUpload` | src/pages/Index.tsx:46-59 | the image becomes the data URL and the flag rises; the log gains "Image uploaded: name", then "Starting OCR with model...", then the preprocessing line only if the captured settings have it on; the returned run carries the settings the handler captured when it was built (Index.tsx:99), not those in force when the read completes |
| `Session.ConversionSession.AnalyzeTimer` | src/pages/Index.tsx:61-63 | the log gains the analysis line and nothing else changes |
| `Session.ConversionSession.ThresholdTimer` | src/pages/Index.tsx:65-67 | the log gains the threshold line with the run's captured threshold, not the current setting |
| `Session.ConversionSession.CompletionTimer` | src/pages/Index.tsx:69-90 | LaTeX becomes the recognised sample and the flag drops; the log gains one success line; the history gains exactly one item at the front, whose LaTeX is the result and whose thumbnail is the run's image, cut to ten; ids stay unique |
| `Session.ConversionSession.HandleClear` | src/pages/Index.tsx:101-105 | no image, empty LaTeX, one info line; history, flag and settings are outside its frame |
| `Session.ConversionSession.HandleHistorySelect` | src/pages/Index.tsx:107-113 | LaTeX becomes the item's; the image is replaced only by a non-empty thumbnail; one info line; history is outside its frame |
| `Session.ConversionSession.HandleHistoryDelete` | src/pages/Index.tsx:115-118 | the history becomes the filtered one, ids stay unique, and one info line is added even when no item had the id |
| `Session.ConversionSession.ProcessUpload` | src/pages/Index.tsx:46-99 | an upload whose timers fire in order keeps every earlier log entry and appends exactly the run's entries (start lines, analysis, threshold, success) with their stamps; it shows the image and result, clears the flag and inserts one item in front |
| `Session.ConversionSession.ThresholdChangeDuringRead` | src/pages/Index.tsx:46-99 | a threshold change made after the handler was built and before the file was read leaves the run's snapshot and its threshold line at the old threshold, while the setting itself changes |
| `Session.ConversionSession.ClearDuringRun` | src/pages/Index.tsx:69-105 | a clear between upload and completion does not cancel the run: LaTeX and history still receive the result, with the cleared image as thumbnail, and the success line is the last log entry |
| `Session.StartNotes` | src/pages/Index.tsx:51-59 | no contract of its own: the lines the upload handler logs; described by RunNotesOrder and PreprocessingLineIffEnabled |
| `Session.RunNotes` | src/pages/Index.tsx:51-82 | no contract of its own: every line one run logs, in firing order; described by RunNotesOrder, PreprocessingLineIffEnabled and RunReportsCapturedThreshold |
| `Session.RunNotesOrder` | src/pages/Index.tsx:50-82 | a run logs 5 lines, or 6 with preprocessing: upload, model, [preprocessing], analysis, threshold, success; every line but the last is info |
| `Session.PreprocessingLineIffEnabled` | src/pages/Index.tsx:57-59 | the preprocessing line is in a run's log if and only if the captured settings have preprocessing on |
| `Session.RunReportsCapturedThreshold` | src/pages/Index.tsx:66 | the threshold line of a run reads back as the threshold captured at upload |
| `Session.ThresholdRoundTrip` | src/pages/Index.tsx:66 | the message `Confidence threshold: c%` reads back as exactly c |
| `Decimal.IntString` | src/pages/Index.tsx:66 | `${c}` for an integer of magnitude below 10^21: non-empty, starting with `-` exactly for negative numbers, digits otherwise, with no leading zero (a non-negative number starts with `0` only when it is 0, a negative one never has `0` after the sign); IntStringRoundTrip and IntStringInjective say it loses nothing |
| `Decimal.Digits` | src/pages/Index.tsx:66 | an integer prints as a non-empty string of digits without a leading zero |
| `Decimal.DigitsRoundTrip` | src/pages/Index.tsx:66 | the printed digits of n read back as n |
| `Decimal.IntStringRoundTrip` | src/pages/Index.tsx:66 | a printed integer, sign included, reads back as itself |
| `Decimal.IntStringInjective` | src/pages/Index.tsx:66 | two integers print the same if and only if they are equal |
| `History.InsertFront` | src/pages/Index.tsx:85-90 | the result has 1 to 10 items, the new one at index 0, followed by the first min(9, n) old items in order; with fewer than 10 old items nothing is evicted, with 10 only the last is |
| `History.InsertKeepsUnique` | src/pages/Index.tsx:85-90 | inserting an item with a fresh id keeps the ids unique |
| `History.InsertAll` | src/pages/Index.tsx:85-90 | no contract of its own: a sequence of completions, each inserting with `[new, ...prev].slice(0, 10)`; described by InsertAllKeepsNewest and TwelveInsertsKeepLastTen |
| `History.Reversed` | src/pages/Index.tsx:85-90 | element k of the reversal is element |s|-1-k of the input: the newest-first order of the history |
| `History.TwelveInsertsKeepLastTen` | src/pages/Index.tsx:85-90 | twelve inserts into an empty history give r12, r11, ..., r3: the first two are evicted |
| `History.InsertAllKeepsNewest` | src/pages/Index.tsx:85-90 | any sequence of inserts leaves the newest items, newest first, cut to 10; twelve inserts into an empty history keep the last ten in reverse order |
| `History.RemoveById` | src/pages/Index.tsx:116 | an item survives the delete if and only if it was there and has another id; nothing grows |
| `History.RemoveByIdConcat` | src/pages/Index.tsx:116 | deleting works piece by piece, so survivors keep their original order |
| `History.RemoveByIdIdempotent` | src/pages/Index.tsx:116 | deleting the same id twice equals deleting it once |
| `History.RemoveAbsentId` | src/pages/Index.tsx:116 | deleting an id that no item has changes nothing |
| `History.RemovePresentId` | src/pages/Index.tsx:116 | with unique ids, deleting the id of item k removes exactly item k |
| `History.RemoveKeepsUnique` | src/pages/Index.tsx:116 | deleting keeps the ids unique |
| `Preview.NonCloseRun` | src/components/ResultPanel.tsx:31 | the greedy `[^}]+` run: all the characters it covers are not `}`, and it stops only at a `}` or at the end |
| `Preview.LetterRun` | src/components/ResultPanel.tsx:42 | the greedy `[a-z]+` run under the `i` flag: all letters, stopping only at a non-letter or at the end |
| `Preview.Group` | src/components/ResultPanel.tsx:31 | a recognised `{...}` group has non-empty content without `}` and really stands at the start of the text |
| `Preview.GroupOf` | src/components/ResultPanel.tsx:31 | a non-empty `{C}` with no `}` in C is always recognised, whatever follows |
| `Preview.FracAt` | src/components/ResultPanel.tsx:31 | a fraction match at the scan position has non-empty numerator and denominator free of `}` and really spells `\frac{A}{B}` at the start of the text |
| `Preview.Fracs` | src/components/ResultPanel.tsx:31 | no contract of its own: the global fraction replacement; described by FracRewrite and FracsKeepPlain |
| `Preview.SqrtAt` | src/components/ResultPanel.tsx:32 | a square-root match at the scan position has a non-empty radicand free of `}` and really spells `\sqrt{A}` at the start of the text |
| `Preview.Sqrts` | src/components/ResultPanel.tsx:32 | no contract of its own: the global square-root replacement; described by SqrtRewrite and SqrtsKeepPlain |
| `Preview.ReplaceAll` | src/components/ResultPanel.tsx:33-41 | no contract of its own: global replacement of a literal pattern; described by ReplaceRewrite and ReplaceKeepsPlain |
| `Preview.Symbols` | src/components/ResultPanel.tsx:33-38 | no contract of its own: the six symbol replacements in source order; described by ReplaceRewrite and ReplaceKeepsPlain |
| `Preview.Scripts` | src/components/ResultPanel.tsx:39-40 | no contract of its own: the superscript or subscript replacement; described by ScriptGroupRewrite, ScriptWordRewrite and ScriptsKeepPlain |
| `Preview.StripCommands` | src/components/ResultPanel.tsx:42 | no contract of its own: deletion of every backslash with its letter run; described by StripLeavesNoCommand, StripStartsWithoutLetter and StripKeepsPlain |
| `Preview.Later` | src/components/ResultPanel.tsx:33-41 | no contract of its own: steps 3 to 11 in source order; described by LaterKeepsPlain |
| `Preview.Rewritten` | src/components/ResultPanel.tsx:31-41 | no contract of its own: steps 1 to 11 in source order, the input of the last step |
| `Preview.FracRewrite` | src/components/ResultPanel.tsx:31 | `\frac{A}{B}` with A and B non-empty and free of `}` becomes `(A)/(B)`, and scanning continues after it |
| `Preview.SqrtRewrite` | src/components/ResultPanel.tsx:32 | `\sqrt{A}` with A non-empty and free of `}` becomes `√(A)` |
| `Preview.ReplaceRewrite` | src/components/ResultPanel.tsx:33-41 | a literal pattern (`\sum`, `\int`, `\alpha`, `\beta`, `\pi`, `\theta`, `\\`) at the scan position becomes its replacement (Σ, ∫, α, β, π, θ, newline) |
| `Preview.ScriptGroupRewrite` | src/components/ResultPanel.tsx:39-40 | `^{C}` and `_{C}` lose their braces and keep their content |
| `Preview.ScriptWordRewrite` | src/components/ResultPanel.tsx:39-40 | `^x` and `_x` with x a word character stay as they are |
| `Preview.WithoutBraces` | src/components/ResultPanel.tsx:39-40 | the brace-stripping leaves no `{` or `}`, and a character is in the result if and only if it is in the input and is not a brace |
| `Preview.WithoutBracesKeepsOthers` | src/components/ResultPanel.tsx:39-40 | text without braces goes through the brace-stripping unchanged |
| `Preview.WithoutBracesConcat` | src/components/ResultPanel.tsx:39-40 | the brace-stripping of two pieces joined is the two stripped pieces joined: with the membership clause, every other character is kept in its order |
| `Preview.StripStartsWithoutLetter` | src/components/ResultPanel.tsx:42 | a text that is empty or does not start with an ASCII letter still is empty or does not start with one after the command-stripping |
| `Preview.StripLeavesNoCommand` | src/components/ResultPanel.tsx:42 | after the last step no backslash is directly followed by an ASCII letter |
| `Preview.RenderPreview` | src/components/ResultPanel.tsx:29-43 | the twelve replacements in source order; no preview ever contains a backslash directly followed by an ASCII letter; the lemmas PreviewKeepsPlain, PreviewFraction and PreviewSquareRoot describe it further |
| `Preview.FracsKeepPlain` | src/components/ResultPanel.tsx:31 | text without a backslash is untouched by the fraction step |
| `Preview.SqrtsKeepPlain` | src/components/ResultPanel.tsx:32 | text without a backslash is untouched by the square-root step |
| `Preview.ReplaceKeepsPlain` | src/components/ResultPanel.tsx:33-41 | text without the first character of a literal pattern is untouched by its replacement |
| `Preview.ScriptsKeepPlain` | src/components/ResultPanel.tsx:39-40 | text without `^` (or `_`) is untouched by the superscript (or subscript) step |
| `Preview.StripKeepsPlain` | src/components/ResultPanel.tsx:42 | text without a backslash is untouched by the last step |
| `Preview.LaterKeepsPlain` | src/components/ResultPanel.tsx:33-41 | text without `\`, `^` and `_` is untouched by steps 3 to 11 |
| `Preview.PreviewKeepsPlain` | src/components/ResultPanel.tsx:29-43 | text without `\`, `^` and `_` is shown unchanged |
| `Preview.PreviewFraction` | src/components/ResultPanel.tsx:29-43 | a whole `\frac{A}{B}` with plain A and B previews as `(A)/(B)` |
| `Preview.PreviewSquareRoot` | src/components/ResultPanel.tsx:29-43 | a whole `\sqrt{A}` with plain A previews as `√(A)` |
| `Upload.IsImageType` | src/components/UploadCard.tsx:30 | no contract of its own: `type.startsWith('image/')`; DropSelection and InputAcceptsMoreThanDrop state what it decides |
| `Upload.DropSelection` | src/components/UploadCard.tsx:26-33 | a drop forwards a file if and only if there is a first file and its type starts with `image/`, and then it forwards that first file |
| `Upload.InputSelection` | src/components/UploadCard.tsx:35-40 | a selection forwards a file if and only if the list exists and is non-empty, and then its first file, whatever its type |
| `Upload.DropIgnoresLaterFiles` | src/components/UploadCard.tsx:29 | files after the first never change what a drop forwards |
| `Upload.InputIgnoresLaterFiles` | src/components/UploadCard.tsx:36 | files after the first never change what a selection forwards |
| `Upload.InputAcceptsMoreThanDrop` | src/components/UploadCard.tsx:26-40 | whatever a drop forwards, a selection of the same files forwards too; they differ exactly when the first file is not an image |
| `Upload.DropZone.constructor` | src/components/UploadCard.tsx:14 | the zone starts without the dragging highlight |
| `Upload.DropZone.DragOver` | src/components/UploadCard.tsx:16-19 | drag-over sets the dragging flag |
| `Upload.DropZone.DragLeave` | src/components/UploadCard.tsx:21-24 | drag-leave clears the dragging flag |
| `Upload.DropZone.Drop` | src/components/UploadCard.tsx:26-33 | a drop clears the dragging flag, also when it forwards nothing, and forwards what `DropSelection` decides |

## Left out

- Reading the file into a data URL (`FileReader.readAsDataURL`) is browser I/O: the data URL is a parameter of `HandleImageUpload`.
- `navigator.clipboard.writeText`, the toasts and the copied-flag timeout are browser I/O and notifications.
- `setTimeout` delays: the model fixes the order of the three timers of one run, not their timing, and does not model how the timers of two overlapping runs interleave.
- `Math.random`, `crypto.randomUUID` and `new Date()` are parameters (`result in Samples`, fresh history id, `Stamp`).
- Session.ConversionSession.HandleImageUpload: takes three stamps even when only two lines are logged; the third is then unused.
- Log ids are not required to be unique; only history ids are, because delete and uniqueness of the history depend on them.
- Time formatting with `Intl.DateTimeFormat`, the log panel's colours and auto-scroll, the history panel, the header and the info panel are display only.
- JSX rendering, CSS, the preview toggle and the latency display of the result panel.
- The settings panel is modelled only by the range of the confidence slider (`ValidConfidence`, src/components/SettingsPanel.tsx:64-69).
