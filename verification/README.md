# xclip-ocr decision layers in Dafny

xclip-ocr captures a screen region, runs the Tesseract OCR engine on it and
copies the recognised text to the clipboard. Two versions of the script
(`versions/xclip-ocr-improved.py` and `versions/xclip-ocr-enhanced.py`) make
three kinds of decisions around the engine call, and this project models those
decisions and proves what they promise.

- **Preprocessing plan** (`Preprocess.dfy`). `smart_preprocess_image` and
  `enhance_image_for_ocr` decide which image transforms run and how large the
  result is. They decide from the image mode, the brightness and contrast
  statistics, and the image size.
  - A run is a `Plan`: the list of transforms, as tags with their parameters, and the final size.
  - A failing library call is a `Fault` parameter. A call that raises before the save leaves the image file as it was. A save that raises leaves it damaged, because the save has already opened the existing file for writing.
  - The improved script's `400 // max(w, h)` raises for a 0 x 0 image. That is modelled as `DivisionByZero`.
- **Profile selection** (`Recognition.dfy`). `run_tesseract_with_options` and
  `run_ocr_with_best_settings` run the engine once per profile, in order.
  - Each keeps the best trimmed output so far, replacing it only on a strictly higher score.
  - Each stops after the first profile when that profile's output is long enough.
  - The engine is a parameter: a function from the command line to `TimedOut`, `Failed` or `Completed(stdout, stderr)`.
  - Each method also returns how many profiles it invoked, so the early exit is part of its postcondition.
  - The improved score `len * (1 - 0.1 * warnings)` is modelled exactly, as ten times that value: `len * (10 - warnings)`.
- **Text cleanup** (`Cleanup.dfy`, over the string builtins of `PyStr.dfy`).
  - `clean_ocr_text` splits the text into lines, strips each line, drops the empty ones, joins them with newlines and strips the result.
  - The improved script's post-pass collapses `\n\n`, replaces `|` by `I`, and replaces `0` by `O` when the text is upper case. It then runs the same line pass.
  - Whitespace is the ASCII set `str.isspace()` accepts. The cased letters are `A`-`Z` and `a`-`z`.

## Model

| member | source | states |
|---|---|---|
| PyStr.Strip | versions/xclip-ocr-enhanced.py:136 | `str.strip()` leaves no leading or trailing whitespace and never lengthens the string |
| PyStr.StripSlice | versions/xclip-ocr-enhanced.py:143 | the stripped string is a slice of the original with only whitespace cut off on either side |
| PyStr.Split | versions/xclip-ocr-enhanced.py:135 | `split('\n')` gives at least one piece and no piece holds a newline |
| PyStr.SplitJoin | versions/xclip-ocr-enhanced.py:140 | joining newline-free lines with `'\n'` and splitting again gives the lines back |
| PyStr.JoinSplit | versions/xclip-ocr-enhanced.py:135-140 | splitting on newlines and joining again gives the text back |
| PyStr.Join | versions/xclip-ocr-enhanced.py:140 | definition of `'\n'.join(lines)`; its properties are `SplitJoin` and `JoinSplit` |
| PyStr.ReplaceChar | versions/xclip-ocr-improved.py:213-214 | definition of single-character `replace`; its properties are `ReplaceCharRemoves`, `ReplaceCharMembers` and `ReplaceCharAbsent` |
| PyStr.ReplaceCharRemoves | versions/xclip-ocr-improved.py:213 | after replacing a character by a different one, none of it is left |
| PyStr.ReplaceCharMembers | versions/xclip-ocr-improved.py:213-214 | replacing one character by another changes the presence of no third character |
| PyStr.ReplaceCharAbsent | versions/xclip-ocr-improved.py:213-214 | replacing a character that does not occur returns the text unchanged |
| PyStr.NonSpaceStrip | versions/xclip-ocr-enhanced.py:136 | stripping removes whitespace only: the non-whitespace characters, in order, are unchanged |
| PyStr.IsUpperNonSpace | versions/xclip-ocr-improved.py:214 | `isupper()` depends only on the non-whitespace characters |
| PyStr.IsUpper | versions/xclip-ocr-improved.py:214 | definition of `isupper()`: at least one upper-case letter and no lower-case one; its property is `IsUpperNonSpace` |
| Cleanup.KeptLines | versions/xclip-ocr-enhanced.py:134-138 | every kept line is non-empty and has no leading or trailing whitespace |
| Cleanup.KeptLinesAppend | versions/xclip-ocr-enhanced.py:135-138 | keeping lines piece by piece is the same as keeping them from the whole list, which is what lets the accumulating loop work one piece at a time |
| Cleanup.Lines | versions/xclip-ocr-improved.py:217-218 | definition of the line pass; its properties are `LinesShape`, `LinesKeepsText`, `LinesIdempotent` and `LinesNoBlankLine` |
| Cleanup.CleanText | versions/xclip-ocr-enhanced.py:126-145 | definition of what `clean_ocr_text` returns; its properties are `CleanTextIsLines`, `CleanTextShape` and `CleanTextIdempotent` |
| Cleanup.CleanOcrText | versions/xclip-ocr-enhanced.py:126-145 | the loop collects exactly the stripped non-empty lines seen so far; the result is `CleanText`, whose properties are the lemmas below |
| Cleanup.CleanTextIsLines | versions/xclip-ocr-enhanced.py:130-143 | empty input is returned unchanged, and the final strip changes nothing: the result is the stripped non-empty lines joined by newlines |
| Cleanup.CleanTextShape | versions/xclip-ocr-enhanced.py:134-143 | the result has no leading or trailing whitespace; its lines are the stripped non-empty input lines in their original order, none empty or padded; its non-whitespace characters are the input's, in order |
| Cleanup.CleanTextIdempotent | versions/xclip-ocr-enhanced.py:126-145 | cleaning cleaned text changes nothing |
| Cleanup.NonSpaceKeptLines | versions/xclip-ocr-enhanced.py:134-140 | the line pass keeps every non-whitespace character, in order |
| Cleanup.LinesKeepsText | versions/xclip-ocr-improved.py:217-218 | the line pass of the post-pass keeps every non-whitespace character, in order |
| Cleanup.LinesShape | versions/xclip-ocr-improved.py:217-218 | the line pass leaves no outer whitespace; the result is empty exactly when no line survives; otherwise its lines are the kept lines, none empty or padded |
| Cleanup.LinesIdempotent | versions/xclip-ocr-improved.py:217-218 | running the line pass twice is the same as once |
| Cleanup.LinesNoBlankLine | versions/xclip-ocr-improved.py:217-218 | the line pass never leaves two newlines in a row |
| Cleanup.CollapseBlankLines | versions/xclip-ocr-improved.py:212 | definition of `replace('\n\n', '\n')`, left to right without overlap; its properties are `CollapseMembers`, `CollapseIdentity` and `CollapseIsRedundant` |
| Cleanup.FixConfusions | versions/xclip-ocr-improved.py:212-214 | definition of the three corrections in source order; its properties are `NoPipeAfterFix` and `PostProcessZeros` |
| Cleanup.PostProcess | versions/xclip-ocr-improved.py:210-218 | definition of the post-pass, run only on non-empty text; its properties are `PostProcessIsClean`, `PostProcessShape`, `PostProcessZeros` and `PostProcessIdempotent` |
| Cleanup.CollapseMembers | versions/xclip-ocr-improved.py:212 | the `'\n\n'` collapse does not add or remove any character other than newlines |
| Cleanup.CollapseIdentity | versions/xclip-ocr-improved.py:212 | text without a newline pair is left alone by the collapse |
| Cleanup.CollapseIsRedundant | versions/xclip-ocr-improved.py:212-218 | the collapse never changes what the line pass produces, since that pass drops empty lines anyway |
| Cleanup.PostProcessIsClean | versions/xclip-ocr-improved.py:210-218 | the post-pass equals `clean_ocr_text` applied to the corrected text, so the two variants clean alike |
| Cleanup.PostProcessShape | versions/xclip-ocr-improved.py:212-218 | after the post-pass there is no `'\|'`, no empty line, no line with outer whitespace and no outer whitespace; the non-whitespace characters are those of the corrected text |
| Cleanup.NoPipeAfterFix | versions/xclip-ocr-improved.py:213-214 | the corrections leave no `'\|'`, including after the `'0'` replacement |
| Cleanup.PostProcessZeros | versions/xclip-ocr-improved.py:214 | a `'0'` survives the post-pass exactly when the input had one and the text after the first two corrections is not upper case |
| Cleanup.PostProcessIdempotent | versions/xclip-ocr-improved.py:210-218 | running the post-pass on its own output changes nothing |
| Preprocess.SmartScaleFactor | versions/xclip-ocr-improved.py:75 | `max(2, 400 // max(w, h))` is at least 2. For a longer side of at most 200 it brings that side to at most 400, and to more than 400 minus that side. Otherwise it is 2 |
| Preprocess.SmartResize | versions/xclip-ocr-improved.py:73-77 | the division raises exactly for a 0 x 0 image; otherwise the resize step runs exactly when `w < 300 or h < 100` |
| Preprocess.SmartResizeSize | versions/xclip-ocr-improved.py:74-77 | the new size is exactly `(w*f, h*f)` with `f = max(2, 400 // max(w, h))` when upscaling, and the size is unchanged otherwise; the aspect ratio is kept |
| Preprocess.SmartFront | versions/xclip-ocr-improved.py:33-70 | definition of the transforms before the upscaling; its properties are `SmartFrontRanked`, `SmartFrontChoices`, `SmartFrontContrast` and `SmartFrontKinds` |
| Preprocess.SmartFrontRanked | versions/xclip-ocr-improved.py:33-70 | the transforms before the upscaling run in source order, each at most once |
| Preprocess.SmartFrontChoices | versions/xclip-ocr-improved.py:34-70 | RGB conversion happens exactly for a non-RGB image; grey conversion always happens. Inversion happens exactly when brightness is below 100. The median filter runs exactly when contrast is above 60. Both use the statistics measured after the RGB conversion and before the contrast branch |
| Preprocess.SmartFrontContrast | versions/xclip-ocr-improved.py:48-54 | contrast enhancement happens exactly below contrast 30, smoothing exactly above 80 |
| Preprocess.SmartFrontKinds | versions/xclip-ocr-improved.py:33-70 | nothing before the upscaling step resizes |
| Preprocess.SmartPlan | versions/xclip-ocr-improved.py:25-83 | the plan fails exactly for a 0 x 0 image |
| Preprocess.SmartPlanOrder | versions/xclip-ocr-improved.py:33-81 | the transforms run in source order, each at most once, and the unsharp mask (1, 120, 3) is always last |
| Preprocess.SmartPlanChoices | versions/xclip-ocr-improved.py:34-70 | each conditional transform runs exactly when its threshold says. Contrast enhancement and smoothing never both run. Inversion and the median filter use the statistics measured before the contrast branch |
| Preprocess.SmartPlanResizes | versions/xclip-ocr-improved.py:73-77 | the plan resizes exactly when `w < 300 or h < 100` |
| Preprocess.SmartPlanSize | versions/xclip-ocr-improved.py:73-77 | when upscaling, the plan's size is `(w*f, h*f)` with `f = max(2, 400 // max(w, h))`; each positive side grows; a longer side of at most 200 ends at most 400. Otherwise the size is unchanged |
| Preprocess.Run | versions/xclip-ocr-improved.py:29-90 | definition of the try/except around the plan's library calls and the save; its properties are stated by `SmartPreprocessImage`, `EnhanceImageForOcr`, `FaultBeforeSaveKeepsFile` and `SaveFaultDamagesFile` |
| Preprocess.FaultBeforeSaveKeepsFile | versions/xclip-ocr-improved.py:87-90 | a library call that raises before the save makes the function return False and leaves the image file as it was |
| Preprocess.SaveFaultDamagesFile | versions/xclip-ocr-improved.py:83-90 | a save that raises makes the function return False, and the file may already be damaged |
| Preprocess.SmartPreprocessImage | versions/xclip-ocr-improved.py:25-90 | True exactly when there is a plan and every call and the save succeed, so False whenever a call raises; the result is `Run` of the plan. True only with a plan, and then the file holds that plan's output, which differs from the original. The file is unchanged exactly when the function returns False without the save raising. It is damaged exactly when the save raises. Without a failing call the result is True exactly for a non-empty image |
| Preprocess.EnhanceResize | versions/xclip-ocr-enhanced.py:39-44 | the resize runs exactly when `w < 400 or h < 200`. It doubles when `min(w, h) < 200`, and otherwise each side becomes `int(side * 1.5)`, the floor of 1.5 times it. The size never shrinks, is strictly larger on both sides for a positive image, and is unchanged without the resize |
| Preprocess.EnhanceResizeAspect | versions/xclip-ocr-enhanced.py:41-42 | the aspect ratio is kept exactly when doubling, and up to half the longer side when `int(w * 1.5)` truncates |
| Preprocess.AspectAfterTruncation | versions/xclip-ocr-enhanced.py:41-42 | truncating 1.5 times each side moves `w'*h - h'*w` by at most half the longer side |
| Preprocess.TwiceTruncated | versions/xclip-ocr-enhanced.py:42 | `2 * int(x * 1.5) * y` lies between `3xy - y` and `3xy` |
| Preprocess.EnhancedPlanOrder | versions/xclip-ocr-enhanced.py:32-60 | the transforms run in source order, each at most once, and the unsharp mask (1, 100, 3) is always last |
| Preprocess.EnhancedPlanChoices | versions/xclip-ocr-enhanced.py:32-57 | grey conversion happens exactly for an image not already in mode L. The median filter always runs. Contrast x1.3 happens exactly when the contrast measured after the filter and resize is below 40 |
| Preprocess.EnhancedPlanSize | versions/xclip-ocr-enhanced.py:37-44 | the plan resizes exactly when `w < 400 or h < 200`, doubling when `min(w, h) < 200` and otherwise taking the floor of 1.5 times each side; the size never shrinks, grows strictly for a positive image and is unchanged otherwise |
| Preprocess.EnhancedPlan | versions/xclip-ocr-enhanced.py:32-60 | definition of the transforms and the final size; its properties are `EnhancedPlanOrder`, `EnhancedPlanChoices` and `EnhancedPlanSize` |
| Preprocess.EnhanceImageForOcr | versions/xclip-ocr-enhanced.py:24-70 | True exactly when every call and the save succeed, so False whenever a call raises; the result is `Run` of the plan. On True the file holds the plan's output, which differs from the original. The file is unchanged exactly when the function returns False without the save raising. It is damaged exactly when the save raises. Without a failing call the result is always True |
| Recognition.Command | versions/xclip-ocr-improved.py:129-137 | definition of the engine command line for one profile: the image path, `stdout`, the page segmentation and engine modes, then any extra options; its property is `ProfileCommands` |
| Recognition.ProfileCommands | versions/xclip-ocr-improved.py:97-137 | only the first improved profile carries the character whitelist; the enhanced commands are exactly the four literal command lists of `versions/xclip-ocr-enhanced.py` |
| Recognition.CountWarnings | versions/xclip-ocr-improved.py:153 | `stderr.count('WARNING')` finds at most one occurrence per seven characters |
| Recognition.CountWarningsCountsAll | versions/xclip-ocr-improved.py:153 | the left-to-right scan for non-overlapping occurrences counts exactly the positions `i` with `stderr[i:i+7] == 'WARNING'`, since the word cannot overlap itself |
| Recognition.Read | versions/xclip-ocr-improved.py:149-171 | definition of what one engine run yields: the stripped output and the number of `WARNING`s in its error stream, or nothing for a timeout or an exception; its properties are `CountWarningsCountsAll` and `SkippedRunIsInert` |
| Recognition.Attempts | versions/xclip-ocr-improved.py:127-147 | definition of the readings of one engine run per profile, in the order of the profile list; its properties are stated by `RunTesseractWithOptions` and `RunOcrWithBestSettings` |
| Recognition.RunTesseractWithOptions | versions/xclip-ocr-improved.py:124-173 | one profile is invoked when the first trimmed output exceeds 10 characters, all four otherwise; the result is the selection over the profiles invoked |
| Recognition.RunOcrWithBestSettings | versions/xclip-ocr-enhanced.py:91-124 | one profile is invoked when the first trimmed output exceeds 5 characters, all four otherwise; the result is the selection over the profiles invoked |
| Recognition.Score | versions/xclip-ocr-improved.py:153 | definition of the score: `len * (10 - warnings)` for the improved script, the length for the enhanced one; its property is `ScoreIsTenfoldConfidence` |
| Recognition.Consider | versions/xclip-ocr-improved.py:151-160 | definition of one step of the search: a non-empty output replaces the best only on a strictly higher score |
| Recognition.Selection | versions/xclip-ocr-improved.py:124-171 | definition of the search over the readings in order; its properties are `SelectionIsBest`, `SelectionIsFirst`, `SelectionFindsText`, `SkippedRunIsInert` and `LongestWins` |
| Recognition.Invoked | versions/xclip-ocr-improved.py:162-164 | definition of the number of profiles run: one when the first output exceeds the threshold, all otherwise |
| Recognition.SelectionIsBest | versions/xclip-ocr-improved.py:124-160 | the selected score is never negative, is 0 exactly when the selected text is `""`, and no run scores higher |
| Recognition.SelectionIsFirst | versions/xclip-ocr-improved.py:158-160 | a non-empty selection is the trimmed output of a run with that score, and every earlier run scores strictly less, so ties go to the earlier profile |
| Recognition.SelectionFindsText | versions/xclip-ocr-improved.py:151-160 | the selected text is non-empty exactly when some run has a non-empty output with a positive score |
| Recognition.SkippedRunIsInert | versions/xclip-ocr-improved.py:166-171 | a run that times out, raises or prints only whitespace leaves the selection unchanged, wherever it falls |
| Recognition.LongestWins | versions/xclip-ocr-enhanced.py:106-110 | the enhanced selection is `""` or the first longest trimmed output: none is longer, every earlier one is shorter |
| Recognition.Confidence | versions/xclip-ocr-improved.py:153 | definition of the script's confidence `len(text) * (1 - warnings * 0.1)` in exact reals; its property is `ScoreIsTenfoldConfidence` |
| Recognition.ScoreIsTenfoldConfidence | versions/xclip-ocr-improved.py:153 | the integer score is exactly ten times the script's confidence, so both order outputs alike |
| Recognition.EarlyExitDropsLaterText | versions/xclip-ocr-improved.py:151-164 | as written, a first output over 10 characters with a score of 0 or less stops the search after one profile, and the result is `""` |
| Recognition.CorrectedFindsText | versions/xclip-ocr-improved.py:158-164 | with the exit taken only for an accepted first output, the result is non-empty exactly when some profile's output has a positive score |

## Findings

| source | as written | input that shows it | evidently intended | confidence | as-written member | corrected member |
|---|---|---|---|---|---|---|
| versions/xclip-ocr-improved.py:162-164 | the early exit after the first profile tests only the length of its output, not whether it was accepted | the first profile prints 11 or more characters with 10 or more `WARNING`s on stderr (confidence 0 or below), and the second prints `hello` with no warning: the function returns `""` and the second profile is never run | stop early only when the first output was good enough to be kept, as the comment "If we get good results with first config" says | medium (not executed) | Recognition.EarlyExitDropsLaterText | Recognition.CorrectedFindsText |

## Left out

- Pixel work (`convert`, contrast enhancement, blur, invert, median filter, LANCZOS resize, unsharp mask, save) is foreign library code. Transforms are tags in a plan, and a failing call is the `Fault` parameter. Opening the image and computing the statistics are not separate failure points.
- `np.mean` and `np.std` are taken as given `real` inputs. Only the threshold comparisons are modelled.
- Every subprocess is outside the model: the screenshot tool, the clipboard tools with the xclip-to-xsel fallback, and notifications. Tesseract itself is a parameter, a function from the command line to the outcome of the run.
- `main` is outside the model: temporary files, logs, the empty-capture check and the try/finally. So are the other scripts, the installers and the test harness.
- Recognition.ScoreIsTenfoldConfidence: the script computes the confidence in binary floating point. The model uses exact arithmetic, so near-ties may order differently in the script: 5 characters with 8 warnings give 0.9999999999999998 there, below the 1.0 of one character with no warnings, while the exact values are equal.
- `strip()` and `isupper()` are modelled over ASCII only: the whitespace characters `str.isspace()` accepts below 128, and the letters `A`-`Z` and `a`-`z`. Other Unicode whitespace and cased letters are not modelled.
- Preprocess.SmartPreprocessImage, Preprocess.EnhanceImageForOcr, Preprocess.EnhanceResize: whether the imaging library opens an image with a zero side, or resizes to one, is left to the `Fault` parameter. With `NoFault` the contracts treat those calls as succeeding, for example `(0, h*f)` for a 0 x h image.
- Preprocess.Run: a damaged file is not described further. What the OCR stage then reads from it is not modelled.
- The interpretation of the engine flags (`--psm`, `--oem`, the whitelist) is left out. Profiles appear only as the command lines they produce.
