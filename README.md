# Task list page — a Dafny model

This project models the state kept by the home page of a small Ionic/Angular
task-list app (`HomePage` in `src/app/pages/home/home.page.ts`). The page has
two fields. `tasks` is the ordered list of task texts. `task` is the text
being typed. Two texts count as the same task when their comparison keys
agree. The key is the text upper-cased and then trimmed
(`toUpperCase().trim()`).

- `wrappers.dfy` (module `Wrappers`): `Option`, for the `string | undefined`
  results of the searches.
- `normalization.dfy` (module `Normalization`): the comparison key.
  Upper-casing is modelled on ASCII letters. Trimming strips the WhiteSpace
  and LineTerminator code points of ECMA-262 (sections 12.2 and 12.3). The
  lemmas prove what the key means: idempotence, insensitivity to surrounding
  white space and to ASCII case, and that `trim` removes white space at the
  ends and nothing else.
- `task_list.dfy` (module `TaskList`): `find` and `findIndex` with the key
  comparison, the duplicate test, and the "no two tasks share a key" property
  with the lemmas showing that adding and removing keep it.
- `home_page.dfy` (module `Home`): the class `HomePage`. It has the fields
  `task` and `tasks`, and a ghost field `stored` holding the list last written
  to the key-value store. Its methods are the page's operations. They update
  the fields in place and state the whole new state in terms of the old one.

Uniqueness of keys is not a class invariant. Loading replaces the list
without checking it. So "no duplicates" appears as a hypothesis: `AddTask`
and `RemoveTask` promise to keep it when it held before.

Loading follows the code. An absent or empty stored value leaves `tasks` as
it was, and so does a parsed value that is not an array. On a fresh page
that list is `[]`. An unparseable value makes `JSON.parse` throw, and nothing
catches it. The add is modelled twice: once as written (`AddTaskAsWritten`)
and once with the intended duplicate test (`AddTask`); see "## Findings".

## Model

| member | source | states |
|---|---|---|
| `Normalization.UpperChar` | src/app/pages/home/home.page.ts:111 | `toUpperCase` on one character: the result is never a lower-case ASCII letter, any other character is left alone, and white space stays white space |
| `Normalization.Upper` | src/app/pages/home/home.page.ts:111 | `toUpperCase()` keeps the length of the text |
| `Normalization.TrimStartIndex` | src/app/pages/home/home.page.ts:111 | the scan from the front stops within the text, at a character that is not white space or at the end |
| `Normalization.TrimEndIndex` | src/app/pages/home/home.page.ts:111 | the scan from the back stops within its range, just after a character that is not white space or at the lower bound |
| `Normalization.Trim` | src/app/pages/home/home.page.ts:111 | `trim()` never lengthens the text, and its result has no white space at either end |
| `Normalization.Normalize` | src/app/pages/home/home.page.ts:111 | the key `toUpperCase().trim()` has no white space at either end |
| `Normalization.UpperChars` | src/app/pages/home/home.page.ts:111 | upper-casing maps each character on its own, so the key keeps the text's length and order before trimming |
| `Normalization.UpperHasNoLower` | src/app/pages/home/home.page.ts:111 | `toUpperCase()` leaves no lower-case ASCII letter |
| `Normalization.UpperKeepsUpper` | src/app/pages/home/home.page.ts:111 | upper-casing text with no lower-case ASCII letter returns it unchanged |
| `Normalization.TrimStartIndexSpan` | src/app/pages/home/home.page.ts:111 | the scan from the front passes over white space only |
| `Normalization.TrimEndIndexSpan` | src/app/pages/home/home.page.ts:111 | the scan from the back passes over white space only |
| `Normalization.TrimStartIndexAt` | src/app/pages/home/home.page.ts:111 | the scan from the front stops exactly at the end of a leading white-space run |
| `Normalization.TrimEndIndexAt` | src/app/pages/home/home.page.ts:111 | the scan from the back stops exactly at the start of a trailing white-space run |
| `Normalization.TrimIgnoresSurroundingWhitespace` | src/app/pages/home/home.page.ts:111 | white space added around a text does not change what `trim()` returns |
| `Normalization.TrimParts` | src/app/pages/home/home.page.ts:111 | `trim()` returns the text minus white space at both ends, and the result has no white space at either end |
| `Normalization.TrimExact` | src/app/pages/home/home.page.ts:111 | a trimmed text with any white space around it trims back to exactly that text (with TrimParts, `trim` is fully characterised) |
| `Normalization.NormalizeShape` | src/app/pages/home/home.page.ts:111 | a key has no white space at either end and no lower-case ASCII letter |
| `Normalization.NormalizeIdempotent` | src/app/pages/home/home.page.ts:111 | normalizing a key gives the key back |
| `Normalization.NormalizeIgnoresSurroundingWhitespace` | src/app/pages/home/home.page.ts:111 | white space added before or after a text never changes its key |
| `Normalization.NormalizeIgnoresCase` | src/app/pages/home/home.page.ts:111 | texts that differ only in the case of ASCII letters have the same key |
| `Normalization.NormalizeTrimFirst` | src/app/pages/home/home.page.ts:111 | in this model, upper-casing then trimming equals trimming then upper-casing |
| `TaskList.Matches` | src/app/pages/home/home.page.ts:127 | the callback given to `find` and `findIndex` compares keys, so every text matches itself |
| `TaskList.FirstMatchFrom` | src/app/pages/home/home.page.ts:126-128 | the scan from index `from` on returns -1 exactly when no task from there matches; otherwise a matching index at or after `from` with no match between |
| `TaskList.FirstMatchIndex` | src/app/pages/home/home.page.ts:126-128 | `findIndex` returns -1 exactly when no task has the target's key; otherwise the index of a matching task with no match before it |
| `TaskList.FirstMatchIsUnique` | src/app/pages/home/home.page.ts:126-128 | a matching index with no match before it is the one `findIndex` returns |
| `TaskList.Find` | src/app/pages/home/home.page.ts:109-113 | `existsTask` returns a task exactly when some task has the candidate's key; it returns the first such task, which is an element of the list |
| `TaskList.ExistsTask` | src/app/pages/home/home.page.ts:109-113 | the intended duplicate test holds exactly when some task's key equals the candidate's key |
| `TaskList.Truthy` | src/app/pages/home/home.page.ts:85 | the `!` test on the `find` result (and, in `IonViewWillEnter`, the `if` on the stored value at line 69): an absent value and "" are falsy, any non-empty string is truthy |
| `TaskList.ExistsTaskAsWritten` | src/app/pages/home/home.page.ts:85 | the truthiness test `addTask` actually applies reports a duplicate only when one exists |
| `TaskList.AsWrittenAgreesOnNonBlank` | src/app/pages/home/home.page.ts:85 | for a candidate whose key is non-empty, the truthiness test and the intended test agree |
| `TaskList.AsWrittenAdmitsBlankDuplicate` | src/app/pages/home/home.page.ts:85-87 | in a duplicate-free list holding "", the as-written test misses "" and appending it creates a duplicate |
| `TaskList.ExistsTaskIgnoresSurroundingWhitespace` | src/app/pages/home/home.page.ts:110-112 | the duplicate test gives the same answer with white space added around the candidate |
| `TaskList.AddKeepsNoDuplicates` | src/app/pages/home/home.page.ts:85-87 | appending a candidate whose key is absent keeps all keys distinct |
| `TaskList.RemoveKeepsNoDuplicates` | src/app/pages/home/home.page.ts:134 | deleting one element (`splice(i, 1)`) keeps all keys distinct |
| `TaskList.RemoveLeavesNoMatch` | src/app/pages/home/home.page.ts:126-134 | with distinct keys, after the first match is deleted no task matches the target |
| `TaskList.RemoveUndoesAdd` | src/app/pages/home/home.page.ts:85-134 | removing a text right after it was added (when absent) finds it at the end and restores the old list |
| `Home.HomePage.constructor` | src/app/pages/home/home.page.ts:50-51 | a new page has `task == ""`, `tasks == []` and has stored nothing |
| `Home.HomePage.SaveTasks` | src/app/pages/home/home.page.ts:151-158 | the stored snapshot becomes the whole current list |
| `Home.HomePage.IonViewWillEnter` | src/app/pages/home/home.page.ts:65-79 | `tasks` is replaced by the parsed array exactly when the stored value is a non-empty string and `JSON.parse` gives an array (the `Json` case `JsonArray`, the `Array.isArray` split at lines 72-75); otherwise it is unchanged |
| `Home.HomePage.AddTask` | src/app/pages/home/home.page.ts:81-105 | when no task shares the key of `task`: `tasks` is the old list with `task` appended unchanged, `task` is cleared and the snapshot equals the new list. Otherwise `tasks`, `task` and the snapshot are unchanged. Distinct keys are kept |
| `Home.HomePage.AddTaskAsWritten` | src/app/pages/home/home.page.ts:81-105 | the same two branches as `AddTask` and the same new state in each, but the branch is chosen by the truthiness test at line 85 (`ExistsTaskAsWritten`). Distinct keys are not promised; see "## Findings" |
| `Home.BlankTaskTwice` | src/app/pages/home/home.page.ts:81-93 | from a fresh page, adding the empty input twice stores `["", ""]` (a duplicate) as written, and `[""]` with the intended test |
| `Home.HomePage.FindTaskIndex` | src/app/pages/home/home.page.ts:126-128 | the scan returns the first index whose task matches the target, or -1 exactly when none does |
| `Home.HomePage.RemoveTask` | src/app/pages/home/home.page.ts:123-137 | with no match, `tasks` and the snapshot are unchanged. Otherwise the first match `i` is deleted (`tasks[..i] + tasks[i+1..]`) and the snapshot is updated. `task` is untouched and distinct keys are kept |
| `Home.HomePage.OrderTasks` | src/app/pages/home/home.page.ts:139-146 | `tasks` becomes the list the reorder event hands back and is saved; `task` is untouched |

## Findings

| source | as written | input that shows it | evidently intended | confidence | as-written member | corrected member |
|---|---|---|---|---|---|---|
| src/app/pages/home/home.page.ts:85 | `addTask` treats the task as new when the value `existsTask` returns is falsy. `find` returns the matching task itself, and "" is falsy | `tasks == [""]`, `task == ""`: `find` returns "", so "" is pushed again, giving `["", ""]` | a duplicate is detected whenever some task matches (`find(...) !== undefined`), so keys stay distinct | high, not executed | `TaskList.AsWrittenAdmitsBlankDuplicate` | `TaskList.AddKeepsNoDuplicates` |

`Home.BlankTaskTwice` replays that input on both versions. The rest of the
model uses the corrected test `TaskList.ExistsTask`. That
includes `Home.HomePage.AddTask`. `Home.HomePage.AddTaskAsWritten` keeps the
behaviour as written.

## Left out

- `toUpperCase` is modelled on ASCII letters only. Full Unicode case mapping is not modelled. That includes mappings that change length (`ß` to `SS`) and non-ASCII letters (`é` to `É`).
- The alert service (`src/app/services/alert-service.ts`) and the confirmation dialog in `confirmDelete` are UI plumbing. The `added` result of `AddTask` only says which of the two alerts is shown.
- The store itself (Capacitor `Preferences`) is external I/O, and so is its key `ddr_key_tasks`. Its asynchronous, fire-and-forget writes are not modelled. The awaited read in `ionViewWillEnter` is treated as atomic too. So the model does not capture an `addTask` or `removeTask` that runs while the read is pending and is then lost when the loaded array overwrites `tasks`. Saving is an assignment to the ghost snapshot `stored`. Loading receives the stored value as a parameter.
- `JSON.parse` and `JSON.stringify` are library code. Parsing is a caller-supplied total function. No round trip between saving and loading is claimed.
- Home.HomePage.IonViewWillEnter: does not model the exception `JSON.parse` throws on an unparseable value, which the code leaves uncaught. It also does not model arrays whose elements are not strings.
- Home.HomePage.OrderTasks: makes no permutation promise. The new order comes from the UI toolkit's `complete`, which is not part of this model.
- `console.log`, `addIcons`, the Angular decorators and dependency injection have no logic to model. The build configuration `capacitor.config.ts` is not part of this model.
