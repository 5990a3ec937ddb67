# unarchive.py in Dafny

`unarchive.py` restores archived (GLACIER or ACCELERATED) objects of an IBM Cloud Object
Storage bucket. It lists the bucket page by page. Each eligible object gets a running
index and is handed to a thread pool, which calls `restore_object`. Every call yields a
`Status` with one counter set, and the counters are added into the job's `Status`. Each
outcome is written to a log file, one line per object. With `--resume`, the script reads
the last lines of `unarchive.log`, looks for an object it logged there with
`LOG_RE_PATTERN`, and starts the listing after that object, at the next index. Which
object that is depends on the log's length, as the defects below describe: the latest
logged object for a long log, the earliest for a short one.

This project models that logic in Dafny. The storage service, the thread pool and the
file system are abstracted away. The modules follow the script:

- `Status` (status.dfy): the `Status` class with its three `increment_*` methods, and
  the value `Tally` of one result. Sums of tallies, in submission order and in any
  completion order.
- `Listing` (listing.dfy): the eligibility filter, the `get_object_list` loop over
  truncated responses, and the page-count arithmetic.
- `Restore` (restore.dfy): `restore_object` over an abstract `head_object` result and an
  abstract outcome of the restore request, with the log record it writes.
- `Dispatch` (dispatch.dfy): the page loop of `restore_objects`: index assignment,
  submission, and the fold of results into the status in completion order.
- `Text` and `LogFormat` (text.dfy, logformat.dfy): decimal numerals, the `{index:010}`
  format, `asctime`, and the line format `%(asctime)s - %(levelname)s - %(message)s`.
- `LogTail` (logtail.dfy): `get_last_n_lines`, a backward scan of the file.
- `LogPattern` (logpattern.dfy): a matcher for `LOG_RE_PATTERN` alone, with
  `re.search` semantics: leftmost start, lazy key group, greedy `.*` before the index tag.
- `RoundTrip` (roundtrip.dfy): what the pattern reads back from the lines
  `restore_object` writes.
- `Resume` (resume.dfy): `get_last_object` and the start point `main` derives from it.

Defects of the script are modelled as written:

- The fall-through return of `get_last_n_lines` does not reverse its list. A log with
  fewer than 100 newlines therefore comes back newest first, and `get_last_object`
  then picks the earliest matching line (`ShortLogPicksEarliest`).
- A trailing newline yields an empty line, the first one collected: last on the early
  return, first on the fall-through return (`TrailingNewlineGivesEmptyLine`).
- `get_last_object` ignores its file name and line count (`ArgumentsIgnored`).
- `main` unpacks `None` when no line matches; `StartPoint` reports that as a crash.

Without a start key, the code computes the page count as `ceil(object_count / max_keys)`,
which is not `ceil((object_count - start_index) / max_keys)` with `start_index = -1`.
`PageCountExamples` shows 2000 objects in pages of 1000 giving 2 pages.

## Model

| member | source | states |
|---|---|---|
| Status.Status.constructor | unarchive.py:35-38 | A new Status holds the three counters it is given. |
| Status.Status.IncrementError | unarchive.py:40-41 | Adds the increment to `error` and leaves the other two counters unchanged. |
| Status.Status.IncrementRestored | unarchive.py:43-44 | Adds the increment to `restored` and leaves the other two counters unchanged. |
| Status.Status.IncrementAlreadyRestored | unarchive.py:46-47 | Adds the increment to `already_restored` and leaves the other two counters unchanged. |
| Status.Status.Add | unarchive.py:191-193 | The three increments for one result add that result's tally to the status. |
| Status.SumAppend | unarchive.py:189-193 | Summing two runs of results one after the other gives the sum of their sums. |
| Status.SumOfOutcomes | unarchive.py:189-193 | If every result has exactly one counter at 1, the totals are non-negative and add up to the number of results. |
| Status.SumInSubmissionOrder | unarchive.py:184-193 | Adding results in submission order gives their sum. |
| Status.OrderIrrelevant | unarchive.py:189-193 | Any two orders that add each position equally often give the same totals. |
| Status.CompletionOrderIrrelevant | unarchive.py:189-193 | Adding the results in any completion order (a permutation of the positions) gives the submission-order totals. |
| Listing.Eligible | unarchive.py:118-121 | Definition: the StorageClass test of the filter lambdas (again at 172-175); EligiblePositions characterises it. |
| Listing.Archived | unarchive.py:116-124 | Definition: the filter over one page; ArchivedSelectsEligible states what it keeps. |
| Listing.Keys | unarchive.py:170 | The comprehension over `object["Key"]`: one key per entry, the j-th key that of the j-th entry (also line 132). |
| Listing.EligiblePositions | unarchive.py:170-178 | Lists, in increasing order, exactly the positions whose StorageClass is "GLACIER" or "ACCELERATED". |
| Listing.ArchivedSelectsEligible | unarchive.py:170-178 | The filter keeps exactly the eligible entries in listing order: its j-th entry is the entry at the j-th eligible position. |
| Listing.ArchivedAppend | unarchive.py:116-125 | Filtering two listings one after the other equals filtering their concatenation. |
| Listing.AllArchived | unarchive.py:116-125 | Definition: `object_list += archived_objects` page after page; AllArchivedIsArchivedListing characterises it. |
| Listing.AllArchivedIsArchivedListing | unarchive.py:116-125 | Filtering page by page and accumulating selects the eligible entries of the whole listing, in order. |
| Listing.GetObjectList | unarchive.py:91-132 | Calls list_objects_v2 until a response is not truncated. The first token is empty and each later one is the previous NextContinuationToken. Returns the keys of the eligible entries of all pages, in order. |
| Listing.PageCount | unarchive.py:158-161 | Definition: the two branches of the page count; PageCountCovers states what it computes. |
| Listing.CeilDiv | unarchive.py:159-161 | The exact ceiling of a / b for b > 0, standing for math.ceil(a / b): the least r with a <= r * b, including for negative a. Float rounding is not modelled. |
| Listing.PageCountCovers | unarchive.py:158-161 | The page count is the least number of pages of max_keys covering object_count, or object_count - start_index when a start key is given. |
| Listing.PageCountExamples | unarchive.py:158-161 | 2500 objects in pages of 1000 give 3 pages, and 2 after start index 999; 2000 objects give 2. |
| Restore.Truthy | unarchive.py:211-213 | Definition: Python truthiness of the "Restore" value (present and not empty); StatusOf and RestoreObject state its effect. |
| Restore.ObjectMessage | unarchive.py:215 | Definition: the f-string "Object '{key}' (index={index:010})" and the outcome's text (also 218, 225, 229); RoundTrip.ObjectLineRoundTrip reads it back. |
| Restore.FailureMessage | unarchive.py:233 | Definition: the exception message, with the index not zero-padded; RoundTrip.ErrorLineNeverMatches states when its line is never found. |
| Restore.StatusOf | unarchive.py:208-234 | Exactly one counter is 1 on every path. Already restored exactly when the head has a truthy Restore value. Restored exactly when it has none and the request returns. Error for a raised head_object, a falsy head, or a raised request. |
| Restore.RestoreObject | unarchive.py:208-234 | The request is made exactly for a head without a truthy Restore value. The record is ERROR exactly for the error outcome and WARNING exactly for already restored. |
| Restore.RestoreValueOnlyChangesMessage | unarchive.py:212-220 | For any two truthy Restore values, whatever the request would do: already restored, no request, WARNING. The result differs only where exactly one of the values contains ongoing-request="false", that is, in the message. |
| Dispatch.FirstIndex | unarchive.py:167 | The first index is 0 when start_index is -1 and start_index + 1 otherwise. |
| Dispatch.Numbered | unarchive.py:184-187 | The j-th key gets index first + j. |
| Dispatch.Submit | unarchive.py:184-187 | The page's keys are submitted in order with consecutive indices from the running index, which ends one past the last. |
| Dispatch.Collect | unarchive.py:189-193 | Adding the results in the page's completion order increases the status by the sum of the page's results. |
| Dispatch.RestorePage | unarchive.py:169-194 | One page: its eligible keys are numbered from the running index, and the status grows by the sum of their outcomes. |
| Dispatch.Dispatched | unarchive.py:167-187 | Definition: the submitted tasks of all pages, in order; DispatchedNumbersListing and DispatchedIndices characterise it. |
| Dispatch.Outcome | unarchive.py:189-190 | Definition: the Status restore_object returns for one task, from its key's head and call; OutcomesAreOutcomes states it is one-hot. |
| Dispatch.Outcomes | unarchive.py:189-193 | One result per submitted task, in submission order: the j-th is the Status restore_object returns for task j. OutcomesAppend and TotalsCountTasks relate them to the tasks. |
| Dispatch.DispatchedStep | unarchive.py:168-187 | One more page appends its eligible keys, numbered on from the tasks before it. |
| Dispatch.DispatchedNumbersListing | unarchive.py:167-187 | Across pages, the tasks are the eligible keys of the whole listing in listing order, with consecutive indices and no gap or repeat at page boundaries. |
| Dispatch.DispatchedIndices | unarchive.py:167-187 | Task j carries the key of the j-th eligible object of the listing and index first + j. |
| Dispatch.OutcomesAreOutcomes | unarchive.py:189-193 | Every task's result has exactly one counter at 1. |
| Dispatch.OutcomesAppend | unarchive.py:189-193 | The results of two runs of tasks are the results of each run, in order. |
| Dispatch.TotalsCountTasks | unarchive.py:184-193 | error + restored + already_restored equals the number of dispatched tasks, and each counter is non-negative. |
| Dispatch.RestoreObjects | unarchive.py:141-199 | The tasks are the whole listing's eligible keys, numbered from the first index. The returned status is their summed outcomes, whatever the completion orders. The page count is computed as the code does. |
| Text.Decimal | unarchive.py:233 | str(n): digits only, no leading zero. |
| Text.ValueOfDecimal | unarchive.py:279 | int() of a decimal numeral without leading zeros is its value: the step behind Pad10RoundTrip, which reads back the padded index. |
| Text.Pad10 | unarchive.py:215 | The {index:010} format: digits only, at least ten characters. |
| Text.Pad10RoundTrip | unarchive.py:279 | int() reads back what the {index:010} format wrote. |
| Text.LeadingZerosIgnored | unarchive.py:279 | int() ignores leading zeros. |
| Text.Fixed | unarchive.py:354 | A fixed-width zero-padded numeral: exactly w digits. |
| LogFormat.Date | unarchive.py:354 | asctime's date: ten characters, digits except the two hyphens. |
| LogFormat.Clock | unarchive.py:354 | asctime's time: eight characters, digits except the two colons. |
| LogFormat.Asctime | unarchive.py:354 | asctime: 23 characters "YYYY-MM-DD HH:MM:SS,mmm". |
| LogFormat.Line | unarchive.py:354 | A log line is asctime, then " - ", the level name, " - " and the message. |
| LogPattern.KeyStart | unarchive.py:27 | Group 1 opens exactly when the time stamp matches and is followed by " - INFO - Object '" or " - WARNING - Object '", and it opens right after that tag. |
| LogPattern.LineEnd | unarchive.py:27 | A run of `.` stops at the first newline or at the end. |
| LogPattern.DigitsEnd | unarchive.py:27 | The run of digits from a position stops at the first non-digit. |
| LogPattern.LastIndex | unarchive.py:27 | A found index tag lies in the range and matches `\(index=(\d+?)\)`. |
| LogPattern.LastIndexIsLast | unarchive.py:27 | The greedy `.*` settles on the last index tag in range, and finds none only when none matches. |
| LogPattern.KeyEnd | unarchive.py:27 | A found end of group 1 is a quote after which the rest of the pattern matches. |
| LogPattern.KeyEndIsFirst | unarchive.py:27 | The lazy group ends at the first such quote, with no newline before it. None is found only when no quote before the newline qualifies. |
| LogPattern.MatchAt | unarchive.py:27 | A match at a position has a time stamp there, followed by an INFO or a WARNING tag. |
| LogPattern.Matches | unarchive.py:277 | For each start position, whether the pattern matches there. |
| LogPattern.FirstFound | unarchive.py:277 | A found start position is marked. |
| LogPattern.FirstFoundIsFirst | unarchive.py:277 | The search takes the first marked start, and none is marked when it finds nothing. |
| LogPattern.Search | unarchive.py:277 | Definition: `re.search` as the match at the first start position that matches; SearchFindsNothing and SearchFindsLeftmost characterise it. |
| LogPattern.SearchFindsNothing | unarchive.py:277-278 | re.search returns nothing exactly when the pattern matches at no position. |
| LogPattern.SearchFindsLeftmost | unarchive.py:277-279 | re.search returns the match at the leftmost matching position. |
| LogTail.Reverse | unarchive.py:258 | `[::-1]`: same length, element i is element n-1-i. |
| LogTail.ReverseReverse | unarchive.py:261 | Reversing twice gives the list back. |
| LogTail.SplitCount | unarchive.py:256-263 | A file has one more newline-separated segment than it has newlines. |
| LogTail.SplitNoNewline | unarchive.py:256-266 | No segment holds a newline. |
| LogTail.JoinSplit | unarchive.py:256-270 | Joining the segments with newlines gives the file back. |
| LogTail.SplitAtNewline | unarchive.py:256-258 | A newline ends the last segment of the text before it. |
| LogTail.LastLines | unarchive.py:236-273 | Definition: the reference for get_last_n_lines over the newline segments; GetLastNLines is proved equal to it, and LastLinesBounded, LastLinesLong, LastLinesInFileOrder and ShortLogNewestFirst characterise it. |
| LogTail.GetLastNLines | unarchive.py:236-273 | The backward scan returns LastLines(file, N): the last N segments in file order if N newlines are met, otherwise every segment newest first, without an empty first segment. |
| LogTail.NewlineStep | unarchive.py:256-263 | Reading a newline moves the buffered segment onto the collected lines. |
| LogTail.CharacterStep | unarchive.py:264-266 | Reading another character puts it in front of the buffered segment. |
| LogTail.EarlyReturn | unarchive.py:260-261 | When N lines are collected, reversing them gives the last N segments of the file. |
| LogTail.FallThrough | unarchive.py:268-273 | At the start of the file, the fall-through return gives the remaining segments newest first. |
| LogTail.LastLinesBounded | unarchive.py:248-273 | At most N lines for N >= 1, and no line holds a newline. |
| LogTail.LastLinesLong | unarchive.py:256-261 | With at least N >= 1 newlines, the result is the last N segments. |
| LogTail.LastLinesInFileOrder | unarchive.py:256-261 | With at least N >= 1 newlines, exactly N lines come back, and joined they are the file after one of its newlines. |
| LogTail.NewlineBefore | unarchive.py:256-261 | The N-th newline from the end exists, and the segments after it are the file's last N. |
| LogTail.ShortLogNewestFirst | unarchive.py:268-273 | With fewer than N newlines and text before the first, the lines come back in reverse file order. |
| LogTail.TrailingNewlineGivesEmptyLine | unarchive.py:256-258 | A file ending in a newline yields an empty line: last in file order on the early return, first on the fall-through return. |
| RoundTrip.AsctimeIsStamp | unarchive.py:27 | The pattern's `\d{4}-\d{2}-\d{2} \d{2}:\d{2}:\d{2}.\d{3}` matches asctime, the comma included. |
| RoundTrip.ObjectLineParts | unarchive.py:215-225 | An INFO or WARNING object line is asctime, the level tag, the key, then "' (index=", the ten digits, ")" and the text. |
| RoundTrip.KeyStartAfterTag | unarchive.py:27 | On such a line, group 1 opens right after the level tag. |
| RoundTrip.QuoteTail | unarchive.py:215 | After the key's closing quote: the index tag, digits, ")", and no later newline or parenthesis. |
| RoundTrip.TagAfterQuote | unarchive.py:27 | The index tag after the key's quote is the last one, and group 2 is read back as the index. |
| RoundTrip.KeyEndAfterKey | unarchive.py:27 | With no quote or newline in the key, group 1 ends at the quote after the key. |
| RoundTrip.MatchAtStart | unarchive.py:27 | At the start of such a line the pattern captures the key and the value of the digits. |
| RoundTrip.ObjectLineRoundTrip | unarchive.py:215-225 | An INFO or WARNING line with an object message is found, and yields the key and the index it was written with. |
| RoundTrip.LoggedText | unarchive.py:213-226 | Definition: the outcome text restore_object appends for an INFO or WARNING record; RestoreRecordMessage ties it to RestoreObject. |
| RoundTrip.RestoreRecordMessage | unarchive.py:213-226 | Every record restore_object logs at INFO or WARNING carries one of the three object messages. |
| RoundTrip.RestoreRecordRoundTrip | unarchive.py:213-226 | Every INFO or WARNING record of restore_object reads back as that object's key and index. |
| RoundTrip.NoTagAfterLaterStamp | unarchive.py:27 | In an ERROR line, no time stamp after the line's own is followed by a level tag unless the message holds one. |
| RoundTrip.NoLevelTagAt | unarchive.py:27 | An 'E' where the level name starts excludes both tags the pattern accepts. |
| RoundTrip.ErrorLayoutNoMatch | unarchive.py:27 | In an ERROR line whose message holds no INFO or WARNING tag, the pattern matches at no position. |
| RoundTrip.ErrorLineNeverMatches | unarchive.py:229-233 | An ERROR line is never found, provided its message does not itself hold the text " - INFO - Object '" or " - WARNING - Object '". |
| RoundTrip.NoSpacedHyphenAppend | unarchive.py:229 | Joining two strings without " - " gives none when one character at the seam is neither blank nor hyphen. |
| RoundTrip.NotFoundLineNeverMatches | unarchive.py:229 | The "not found." ERROR line of restore_object is never found for any key that holds no " - ". |
| RoundTrip.DatedKeyAdmitted | unarchive.py:229 | A dated key such as logs/2024-05-01.gz, with digits before hyphens, holds no " - ". |
| Resume.FirstMatch | unarchive.py:276-281 | Definition: the loop returning the groups of the first line that matches; FirstMatchNone, FirstMatchPosition and FirstMatchAt characterise it. |
| Resume.FirstMatchNone | unarchive.py:276-281 | The loop returns None exactly when no line matches. |
| Resume.FirstMatchPosition | unarchive.py:276-279 | A returned match is that of a line with no matching line before it. |
| Resume.FirstMatchAt | unarchive.py:276-279 | The first matching line gives the result, whatever follows it. |
| Resume.LastMatchPosition | unarchive.py:276-279 | Scanning the reversed list returns the match of the highest-position matching line, with no match after it. |
| Resume.LastMatchAt | unarchive.py:276-279 | Conversely, the highest-position matching line gives the result of the reversed scan. |
| Resume.LastMatchInWindow | unarchive.py:276-279 | The last matching segment among the last N gives the result of scanning those N back to front. |
| Resume.GetLastObject | unarchive.py:275-281 | Reads "unarchive.log" and fails exactly when it is missing. Otherwise it scans get_last_n_lines(…, 100) back to front for the first match. |
| Resume.ArgumentsIgnored | unarchive.py:275-276 | The file name and N passed in make no difference. |
| Resume.ShortLogPicksEarliest | unarchive.py:268-276 | A short log (fewer than 100 newlines, text before the first) resumes from its earliest matching line. |
| Resume.LatestMatchFound | unarchive.py:256-279 | A long log resumes from its latest matching line among the last 100 segments. |
| Resume.EmptyLineNeverMatches | unarchive.py:27 | The empty line a trailing newline produces never matches. |
| Resume.StartPoint | unarchive.py:339-349 | More threads than size is a usage error. Without --resume the start is ("", -1). With it: a missing log or no match crashes, an empty key ends with "Resume is not possible", otherwise the found key and index. |
| Resume.ResumeFromRestoreLine | unarchive.py:344-345 | A long log whose latest match in the last 100 lines is a restore_object record resumes after that object, and dispatch goes on at its index + 1. |

## Left out

- The `cos_cli` calls (`list_objects_v2`, the paginator, `head_object`, the restore
  request) are inputs: pages, responses, and head and call outcomes per key.
- `get_object_count` and `get_page_count` are I/O only; with a prefix, the page count is
  taken to be the number of pages listed.
- The thread pool is not modelled as concurrency. Each page's completion order is an
  input permutation, and the totals are proved independent of it.
- The exceptions `restore_objects` and `get_object_list` catch and print (they return
  None) are not modelled. `RestoreObjects` requires `maxKeys > 0` for this reason.
  `main` rejects more threads than the page size, so a size of 0 or less leaves 0 or
  fewer threads. `ThreadPoolExecutor(max_workers=threads)` then raises ValueError,
  unless a size of 0 without a prefix raises ZeroDivisionError first in the page count.
  `restore_objects` catches either one and returns None.
- `tqdm` progress bars, `colorama` output, `argparse` parsing, the `--verbose` level and
  `logging.basicConfig` are left out. `Status.__str__` is left out too.
- The log file is a string of characters. Byte-level reads and UTF-8 `decode()` are not
  modelled, and `\d` is taken to match ASCII digits only.
- Time stamps are abstract field values; the local clock is a parameter.
- `main` between the start point and `restore_objects` is left out: the
  `logging.basicConfig` set-up, the login, and `get_object_count` with its `exit(1)` when
  the count is below 1 and no prefix is given. The final print is left out too.
- A listing page without `"Contents"` (an empty listing, a prefix that matches nothing,
  or a resume after the bucket's last key) raises `KeyError` in `get_object_list` and
  `restore_objects`, which then print the error and return None. The model treats every
  page as holding its list of entries, possibly empty.
- `get_last_n_lines` decodes each line's bytes in reverse order, so a multi-byte UTF-8
  character in the scanned lines makes `decode()` raise and `--resume` crash.
  `GetLastNLines` works on characters and returns lines for any string.
- RoundTrip.ErrorLineNeverMatches: holds only for a message that does not itself hold
  " - INFO - Object '" or " - WARNING - Object '". A key or an exception text that embeds
  such a log record can make an ERROR line match, after its own time stamp.
- RoundTrip.NotFoundLineNeverMatches: stated for keys without " - ", a sufficient
  condition for ErrorLineNeverMatches. Keys holding " - " but no level tag are covered
  by ErrorLineNeverMatches alone.
- RoundTrip.ObjectLineRoundTrip: requires a key with no quote and no newline. With a
  quote, the lazy group can end inside the key; a newline splits the line.
- RoundTrip.RestoreRecordRoundTrip: requires a key with no quote and no newline, as above.
- Listing.CeilDiv: computes the exact integer ceiling. The source takes `math.ceil` of
  the float quotient `object_count / max_keys`, which can differ once the operands reach
  2^53. Float rounding is not modelled; the page count only sizes the progress bar.
- Resume.ResumeFromRestoreLine: stated for logs with at least 100 newlines. Short logs
  are covered by Resume.ShortLogPicksEarliest.
