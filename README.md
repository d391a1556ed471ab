# dmutils core, modelled in Dafny

This project models the self-contained logic inside the two utility modules
of dmutils, `dmutils.py` and `daemontool.py`, and proves what that logic
promises. The rest of those modules wraps the file system, subprocesses,
logging, zip files, spreadsheets and argparse.

| file | module | what it models |
|---|---|---|
| `wrappers.dfy` | `Wrappers` | `Option` and `Result`, for Python's `None` and raised exceptions |
| `strs.dfy` | `Strs` | the `str` methods the core calls: `strip`, `rstrip(c)`, `split(c)`, `in`, `replace(pat, "")`, `ljust`, `str(int)` |
| `calendar.dfy` | `Calendar` | `datetime.strptime(s, "%Y%m%d")`, `isocalendar()` and `isoweekday()` as CPython computes them; week 1 is checked against the ISO 8601 rule (section 4.1.4 of ISO 8601:2004: the week holding January 4) |
| `dates.dfy` | `Dates` | `DateTrans` (dmutils.py) and `gettime` and `DateTransformer` (daemontool.py) |
| `dictmerge.dfy` | `DictMerge` | `merge_dicts` and `merge_all_dicts` |
| `progress.dfy` | `Progress` | the accounting of `_progress_bar`: the polling loop, the catch-up loop, the `_progress_bar` keyword injection and the built-in print handle |
| `nuitka.dfy` | `Nuitka` | `NuitkaMake.__init__` and `ADD_ARG`, which build the command string |
| `treezip.dfy` | `TreeZip` | the filter of `read_treezip` over the entries of a tree zip |
| `formatters.dfy` | `Formatters` | `print_aligned`, `print_k_v_aligned` and `xlsxMaker._get_num_colnum_dict` |
| `daemon.dfy` | `DaemonTool` | the path clean-up in `mkdir` and the key check in `parserinit` |

Modelling choices:

- A function that returns a value or raises becomes a function returning a
  `Result`, and its failure case is the exception.
- The two date classes only compute attributes in `__init__`, so each becomes
  a function from the date string to a record of those attributes.
- `NuitkaMake` keeps its command in a field that `ADD_ARG` reassigns, so it
  is a class. `NuitkaMake.AddArg` states the new command exactly. The class
  invariant `Valid` says two things:
  - the command ends with `" " + main` once an argument is in;
  - the command is `base --a0 ... --an main` while `main` has no space and
    no argument or base command contains `" " + main`.
- The loops of `_progress_bar`, `merge_all_dicts`, `read_treezip` and
  `_get_num_colnum_dict` are methods with loops. Each is proved against a
  function, and that function's properties are proved as lemmas.

Code and documentation disagree in a few places. The model follows the code:

- The `DateTrans` docstring builds a `DateTransformer` but lists
  `DateTrans`'s attributes. `DateTransformer` does not pad, so its month
  label for 2023-07-27 is `2023M7`, not `2023M07`
  (`Dates.DateTransformerExample`).
- The quarter is `month // 4 + 1`, as written. This puts months 1-3 in
  quarter 1, 4-7 in 2, 8-11 in 3 and 12 in 4 (`Dates.QuarterTable`).
- The guard `'param' and 'help' in arg.keys()` of `parserinit` tests only
  for `'help'`. A spec with `help` but no `param` fails at `arg['param']`.
- When `0 < estimated_time < tstep`, the first poll's first update moves
  the bar to `tstep`, past the estimate. The same poll's second update is
  then the negative `estimated_time - tstep`. `Progress.PollNProps` states
  this overshoot.
- The `DateTrans` docstring calls `year` the year of the input date. The
  code takes the ISO year from `isocalendar()`, and `yearmonth` and
  `yearquarter` use it too. So 30 December 2024 gives `year` 2025 and
  `yearmonth` `2025M12` (`Dates.DateTransIsoYear`).

## Model

| member | source | states |
|---|---|---|
| Strs.Strip | daemontool.py:197 | the result is `s` with its leading and trailing white space removed: a slice of `s` that neither starts nor ends with white space, with only white space around it |
| Strs.StripUnique | daemontool.py:197 | two strings that are both strips of `s` are equal |
| Strs.StripUnpadded | daemontool.py:197 | a string with no white space at either end is its own strip |
| Strs.StripIdempotent | dmutils.py:2773 | stripping twice is stripping once |
| Strs.TrimRightChar | daemontool.py:197 | `rstrip(c)` returns a prefix; everything it removed is `c`, and what is left does not end in `c` |
| Strs.Split | dmutils.py:2784 | `split(c)` gives a non-empty list of pieces without `c` that joins back to the string |
| Strs.SplitJoin | dmutils.py:2802 | splitting the join of `c`-free pieces gives those pieces back |
| Strs.SplitAfterPiece | dmutils.py:2784 | a `c`-free piece followed by `c` is the first field of the split |
| Strs.Contains | dmutils.py:2776 | the substring test holds iff the pattern occurs at some index |
| Strs.ContainsChar | dmutils.py:1761 | containing the one-character string `[c]` is containing `c` |
| Strs.RemoveAll | dmutils.py:1761 | `replace(pat, "")` never lengthens the string |
| Strs.RemoveAllAbsent | dmutils.py:2059 | deleting a pattern that does not occur changes nothing |
| Strs.RemoveAllChar | dmutils.py:1761 | `replace(c, "")` for one character takes out every `c`: the result is the input filtered of `c`, in order, with no `c` left and every other character's count unchanged |
| Strs.RemoveAllTrailing | dmutils.py:2059 | deleting a space-led pattern from `p + pat + rest`, where `p` does not contain the pattern, keeps `p` and drops that copy |
| Strs.LJust | dmutils.py:2446 | `ljust(w)` keeps the string and pads it with spaces up to `w`, never cutting it |
| Strs.NatToString | dmutils.py:1771-1779 | `str(n)` is a non-empty run of digits with no leading zero |
| Strs.NatToStringRoundTrip | dmutils.py:1771-1779 | reading the digits of `str(n)` back gives `n` |
| Strs.NatToStringLength | dmutils.py:1771-1776 | `len(str(n))` is 1 exactly below 10 and 2 exactly from 10 to 99 |
| Calendar.IsoWeekday | dmutils.py:1770 | `isoweekday()` is in 1..7 and agrees with the day ordinal modulo 7 |
| Calendar.Week1Monday | dmutils.py:1763 | CPython's `_isoweek1monday`: a Monday within three days of January 1 |
| Calendar.IsoCalendar | dmutils.py:1763 | CPython's `isocalendar()` algorithm: the ISO year is the calendar year or a neighbour, and the weekday is `isoweekday()` |
| Calendar.Week1MondayIsWeekOneMonday | dmutils.py:1763 | CPython's week-1 Monday is the ISO 8601 Monday of the week holding January 4 |
| Calendar.Week1MondayGap | dmutils.py:1763 | consecutive ISO years are 52 or 53 weeks long |
| Calendar.IsoYearsOrdered | dmutils.py:1763 | ISO years do not overlap: every day of an earlier ISO year comes before every day of a later one |
| Calendar.IsoWeekDateUnique | dmutils.py:1763 | a day has only one ISO week date |
| Calendar.IsoCalendarCorrect | dmutils.py:1763-1767 | `isocalendar()` of a valid date is its ISO 8601 week date, its weekday is `isoweekday()`, and the week is at most 53 |
| Calendar.IsoCalendarYearEnd | dmutils.py:1763 | 30 December 2024 is the Monday of week 1 of ISO year 2025 |
| Calendar.IsoCalendarExample | dmutils.py:1735-1753 | 27 July 2023 is the Thursday of ISO week 30 of 2023 |
| Calendar.Strptime | dmutils.py:1762 | a successful parse is a valid date of years 1..9999 |
| Calendar.StrptimeFormat8 | daemontool.py:251 | every valid date written as zero-padded `YYYYMMDD` parses back to itself |
| Calendar.StrptimeExample | dmutils.py:1762 | `"20230727"` parses to 27 July 2023 |
| Calendar.StrptimeSevenDigits | daemontool.py:251 | `"2023111"` parses to 1 November 2023: the month takes two digits first |
| Calendar.StrptimeMonthThirteen | daemontool.py:251 | `"20231301"` fails with unconverted data left over |
| Calendar.StrptimeNotLeap | daemontool.py:251 | `"20230229"` fails because the day is out of range |
| Dates.Quarter | dmutils.py:1769 | `month // 4 + 1` is between 1 and 4 |
| Dates.QuarterTable | daemontool.py:304 | the formula puts months 1-3, 4-7, 8-11 and 12 in quarters 1, 2, 3 and 4, each iff |
| Dates.ZeroPad2 | dmutils.py:1771-1778 | the padded label of `n < 100` is two digits that read back as `n` |
| Dates.IsoOf | dmutils.py:1763-1770 | the ISO calendar of a parsed date is its ISO week date with the ISO weekday and a week of at most 53 |
| Dates.DateTrans | dmutils.py:1755-1779 | succeeds iff `strptime` succeeds on the string without `-`, raising the same error otherwise; the year, week and weekday are the ISO week date; the month is the parsed one and the quarter is `Quarter(month)`; the three labels are the year, a letter and the zero-padded week, zero-padded month or quarter |
| Dates.DateTransformer | daemontool.py:296-307 | the same parse, ISO year and week, month and quarter, with unpadded labels |
| Dates.GetTime | daemontool.py:239-264 | no `-` removal; the failure of `strptime`; otherwise `"{year}W{week}"` with no flag, the week under `onlyweek`, the year under `onlyyear`, and 0 under both |
| Dates.DateTransAgreesWithTransformer | dmutils.py:1761-1779 | the two classes succeed on the same strings and agree on every number and on the quarter label, and on the week and month labels once those have two digits |
| Dates.GetTimeAgreesWithTransformer | daemontool.py:251-263 | on a string without `-`, `gettime` fails iff `DateTransformer` fails; its default result is that class's `yearweek`, and its one-flag results are that class's week and year |
| Dates.DateTransIsoYear | dmutils.py:1761-1779 | `DateTrans("20241230")` has the ISO year 2025, week 1, month 12, quarter 4, weekday 1 and labels `2025W01`, `2025M12`, `2025Q4`: the year and the labels follow the ISO year |
| Dates.DateTransExample | dmutils.py:1735-1753 | `DateTrans("2023-07-27")` has year 2023, week 30, month 7, quarter 2, weekday 4 and labels `2023W30`, `2023M07`, `2023Q2` |
| Dates.DateTransformerExample | daemontool.py:297-307 | `DateTransformer("2023-07-27")` has the labels `2023W30`, `2023M7`, `2023Q2` |
| Dates.GetTimeDashed | daemontool.py:251 | `gettime("2023-07-27")` fails: the dashes do not match the pattern |
| DictMerge.Merge | dmutils.py:2350-2363 | the keys are the union of both key sets; a key on one side keeps that side's value; a key on both sides takes the second value unless both are dictionaries, which merge |
| DictMerge.MergeEmptyLeft | dmutils.py:2350-2363 | merging into `{}` gives the second dictionary |
| DictMerge.MergeEmptyRight | dmutils.py:2350-2363 | merging `{}` in gives the first dictionary |
| DictMerge.MergeIdempotent | dmutils.py:2350-2363 | merging a dictionary with itself gives it back, at every depth |
| DictMerge.NoInventedPaths | dmutils.py:2350-2363 | the merge adds no path: every path of the result is a path of the first or the second dictionary |
| DictMerge.SecondDictWins | dmutils.py:2352-2358 | every path of the second dictionary survives the merge, and every leaf at the end of such a path is kept |
| DictMerge.FirstOnlyKept | dmutils.py:2350-2363 | a path of the first dictionary keeps its value when every key on it that both dictionaries hold is a dictionary on both sides, down to a key the second one lacks: shared dictionaries merge recursively |
| DictMerge.NestedKept | dmutils.py:2320-2344 | the nested case of the docstring example: `{b: {x: 2}}` merged with `{b: {y: 3}}` keeps `b.x` |
| DictMerge.MergeExample | dmutils.py:2336-2341 | the docstring example, `{a: 1, b: {x: 2}}` merged with `{b: {y: 3}, c: 4}`, for any distinct keys and any leaves |
| DictMerge.MergeNotAssociative | dmutils.py:2390-2398 | the merge is not associative, so the left-fold order of `merge_all_dicts` matters |
| DictMerge.MergeLeftSingle | dmutils.py:2399-2400 | the fold of one dictionary is that dictionary |
| DictMerge.MergeLeft | dmutils.py:2390-2398 | the fold of `merge_all_dicts`: every dictionary's keys are in the result |
| DictMerge.MergeLeftKeys | dmutils.py:2390-2398 | a key is in the result iff some dictionary of the list has it |
| DictMerge.MergeLeftLastLeaf | dmutils.py:2390-2398 | a key that the last dictionary maps to a leaf ends with that leaf |
| DictMerge.MergeAllDicts | dmutils.py:2390-2402 | `{}` for an empty list, the one dictionary for a single one, otherwise the left fold `merge(...merge(d0, d1)..., dn)` |
| Progress.MonotoneMeans | dmutils.py:2230-2246 | the recursive `Monotone` holds iff every increment is non-negative and every running total lies in `[0, hi]` |
| Progress.SumNonNegative | dmutils.py:2230-2246 | the total of a monotone run lies in `[0, hi]` |
| Progress.StillAfterMeans | dmutils.py:2236-2239 | the recursive `StillAfter` holds iff every increment after a running total equal to the estimate is 0 |
| Progress.InjectHandle | dmutils.py:2223-2224 | the injected keyword arguments have the same keys; `_progress_bar`, when present, becomes the handle, and every other value stays |
| Progress.PollOnce | dmutils.py:2230-2240 | one poll keeps the earlier updates and adds at most two |
| Progress.PollN | dmutils.py:2229-2240 | `p` polls make at most `2 * p` updates |
| Progress.PollOnceKeeps | dmutils.py:2230-2240 | one poll that finds the worker alive keeps every property below: the total is the sum of the increments, within a non-negative estimate, monotone, with nothing but 0 after reaching the estimate |
| Progress.PollNProps | dmutils.py:2227-2240 | after any number of polls the total is the sum of the increments; for a non-negative estimate the total stays within it, and the bar is monotone when `tstep` is at most the estimate; no increment other than 0 follows reaching the estimate; a negative estimate makes one update `[estimated]`; an estimate below `tstep` is overshot by `tstep - estimated` and corrected within the same first poll, by its second update |
| Progress.PollWhileAlive | dmutils.py:2227-2240 | the loop's increments, total and step are the state after `polls` applications of one poll (`PollN`), so `PollNProps` holds of them |
| Progress.CatchUp | dmutils.py:2242-2246 | a bar short of the estimate ends exactly on it; a bar at or past the estimate is left alone; the earlier increments are kept as a prefix, and monotonicity and the "0 once reached" property are preserved |
| Progress.RunWithProgress | dmutils.py:2205-2249 | a keyword argument named `function` or `ret` clashes with `return_save`'s parameters, so the result is `None`; otherwise the result is the worker's result on the injected keyword arguments; for any non-negative estimate the increments sum to exactly the estimate, for any number of polls; they are monotone when `0 < tstep <= estimated`; and no non-zero increment follows reaching the estimate |
| Progress.ProgressBar.constructor | dmutils.py:2206 | the bar keeps the `tqdm_kwargs` it is built from and starts with their `bar_format`, if any, and no written lines |
| Progress.ProgressBar.PrintWithBar | dmutils.py:2206-2216 | the bar format becomes the `bar_format` of the bar's own `tqdm_kwargs` followed by the message; without `bar_format` it is a KeyError and nothing changes |
| Progress.ProgressBar.PrintInLine | dmutils.py:2218-2219 | the message is appended to the written lines and the bar format is unchanged |
| Nuitka.BaseCommand | dmutils.py:2048-2054 | `python -m nuitka` on Windows, `python3 -m nuitka` on Linux, and the `Unsupported system` TypeError on anything else |
| Nuitka.AddArgStep | dmutils.py:2059-2060 | on a clean command, one `ADD_ARG` turns the command for `args` into the command for `args + [a]` |
| Nuitka.DeleteMain | dmutils.py:2059 | the deletion takes a clean command back to its base and flags |
| Nuitka.FlaggedOrder | dmutils.py:2060 | the arguments appear in insertion order: the command for `args` is a prefix of the command for any extension of `args` |
| Nuitka.ArgEndingInMain | dmutils.py:2059-2060 | an argument ending in `" " + main` loses that ending at the next `ADD_ARG` |
| Nuitka.SecondCopyDeleted | dmutils.py:2059 | the deletion removes every copy of `" " + main`, not only the last |
| Nuitka.NuitkaMake.constructor | dmutils.py:2048-2056 | the command is the platform's base command, `main` is stored, and nothing has been printed |
| Nuitka.NuitkaMake.AddArg | dmutils.py:2058-2061 | the new command is the old one with every `" " + main` deleted, then `" --" + arg + " " + main`; the message `Adding arg: --arg` is printed; the invariant `Valid` is kept |
| Nuitka.Create | dmutils.py:2048-2056 | returns a fresh object with the base command iff the platform is supported, and otherwise the `Unsupported system` error |
| TreeZip.ChooseScenario | dmutils.py:2751-2766 | the chosen scenario uses the factory, product or station filter iff that list is non-empty |
| TreeZip.ScenarioExactlyOne | dmutils.py:2751-2766 | each of the eight scenarios is chosen by exactly one pattern of empty and non-empty lists |
| TreeZip.EntryPasses | dmutils.py:2784-2785 | without a factory filter every entry passes; with an empty factory list none passes a factory scenario |
| TreeZip.PathPasses | dmutils.py:2800-2822 | a name with too few fields fails the product or station test its scenario makes; a scenario with no path filter and no types keeps every path |
| TreeZip.FieldsOfPath | dmutils.py:2802 | `path.split(sep)[-1].split("_")` gives back the `_`-separated fields of the file name |
| TreeZip.FactoryOfName | dmutils.py:2784-2785 | an entry `f + "_" + rest` passes the factory test iff the scenario has no factory filter or `f` is in the factory list, by exact membership |
| TreeZip.PathOfFields | dmutils.py:2800-2822 | the product test reads field 2 and the station test field 5, both by substring; a name with too few fields is skipped; a non-empty type list keeps only paths that contain a type |
| TreeZip.ReadTreeZip | dmutils.py:2768-2906 | the result is the paths collected from the entries, last entry first, each line stripped, under the chosen scenario's tests |
| TreeZip.Collect | dmutils.py:2768-2903 | every collected path passes the path tests, and no path comes from entries that all fail the factory test |
| TreeZip.KeptMembers | dmutils.py:2773-2779 | a path is kept from a file iff it is the stripped form of one of its lines and passes the tests |
| TreeZip.CollectMembers | dmutils.py:2768-2903 | a path is in the result iff it passes the path tests and is the stripped form of a line of an entry that passes the factory test |
| TreeZip.CollectLastFirst | dmutils.py:2771 | entries are read in reverse: the paths of a later entry come before those of every earlier one |
| Formatters.PrintAligned | dmutils.py:2426 | a negative width is a ValueError; otherwise the line is `string1`, padded with spaces to the width and never cut, followed by `string2` |
| Formatters.AlignedColumn | dmutils.py:2426 | strings no longer than the width are kept whole, and the second string starts at the width |
| Formatters.MaxLen | dmutils.py:2444 | the result is the length of some key, and no key is longer |
| Formatters.PrintKVAligned | dmutils.py:2444-2446 | an empty dictionary is the ValueError of `max`; otherwise there is one line per item, `key.ljust(longest) + " : " + value` |
| Formatters.KVAlignedColumns | dmutils.py:2444-2446 | every line starts with its key, has `" : "` at the column of the longest key, and ends with its value |
| Formatters.ColumnNameRoundTrip | dmutils.py:1913-1915 | reading a column name back as letters gives its number, so no two columns share a name |
| Formatters.ColumnNameInjective | dmutils.py:1913-1915 | different column numbers have different names |
| Formatters.NumColnumDict | dmutils.py:1911-1918 | the keys are exactly 1..52, and key `n` maps to the `n`-th name, `A`..`Z` then `AA`..`AZ` |
| DaemonTool.NormalisePath | daemontool.py:197 | the clean path is a prefix of the stripped path; everything it drops is backslashes; it does not end in a backslash or start with white space |
| DaemonTool.NormalisePathStable | daemontool.py:197 | cleaning again changes nothing when the clean path does not end in white space |
| DaemonTool.NormalisePathNotIdempotent | daemontool.py:197 | `x + " \\"` cleans to `x + " "`, which cleans to `x`: the clean-up is not idempotent |
| DaemonTool.SpecGuardIsHelp | daemontool.py:233 | the guard holds iff the spec has `help` |
| DaemonTool.ParserInit | daemontool.py:222-236 | `parserinit` raises only `Wrong arguments` or the KeyError of `param`, and on success registers one argument per spec |
| DaemonTool.ParserInitSuccess | daemontool.py:232-236 | `parserinit` succeeds iff every spec has both keys, registering `(param, help)` for each spec in order |
| DaemonTool.ParserInitFailure | daemontool.py:232-236 | otherwise the first incomplete spec raises `Wrong arguments` when it lacks `help` and the KeyError of `param` when it has `help` but no `param` |

## Left out

- Threads and `tqdm` drawing in `_progress_bar`. The worker's lifetime is the number of polls that find it alive, and the bar is the sequence of increments passed to `update`. `pbar.close` and the description are not modelled.
- Float rounding in `_progress_bar`. Times are exact reals, so the model does not show a float bar that lands a rounding error away from the estimate.
- Progress.PollNProps and Progress.RunWithProgress require `tstep > 0` or `estimated_time <= 0`. Otherwise the catch-up loop never ends: it adds a non-positive step to a total below the estimate forever.
- Progress.RunWithProgress: a worker that raises in its thread leaves `None` in `ret[0]`. The worker is a function to `Option`, and the exception's output is not modelled. The same holds for the TypeError of a keyword argument named `function` or `ret`, which the contract does state.
- Progress.InjectHandle: when `_progress_bar` is a key, the source overwrites that entry in the caller's own `kwargs` dictionary. The model returns a new map, so the caller does not see the change.
- Progress.ProgressBar: `print`/`write` as class aliases of the two handle methods are not separate members.
- `DateTrans.timestamp`, because `time.mktime` depends on the local time zone.
- `DateTrans.to_Tdate` is not a field of the result record. The date it holds is the `Calendar.Date` that `Calendar.Strptime` returns in `DateTrans`'s contract.
- Dates.DateTrans: the success case also needs `time.mktime` to accept the date, since `__init__` computes `timestamp` (dmutils.py:1780). Where the platform's `mktime` rejects a date, such as before 1970 on Windows, the source raises OverflowError and the model still succeeds.
- Dates.GetTime: when both flags are set, `gettime` prints `can't make onlyweek and onlyyear all true!` before it returns 0. The model returns the 0 only.
- Calendar.Strptime: `strptime`'s `\d` also matches non-ASCII digits. The model accepts ASCII digits only.
- `mkdir`'s `os.path.exists`, `os.makedirs` and messages, which are file-system I/O. Only the path clean-up is modelled.
- `parserinit`'s argparse parser and `parse_args`. The model returns the registrations, or the key-check error.
- DaemonTool.ParserInitSuccess: success means only that the key check passes. The errors of argparse itself are not modelled: `add_argument` raises `argparse.ArgumentError` for a repeated option string (daemontool.py:234), and `parse_args` can raise `SystemExit` (daemontool.py:237).
- `NuitkaMake.MAKE`, `HELP` and `quickmake`, which run a process or print fixed text. The global-variables object is reduced to its platform name.
- Nuitka.NuitkaMake.AddArg: the invariant `Valid` names the exact command only while `main` has no space and no argument or base command contains `" " + main`. For other arguments, `AddArg` still states the exact new command, and `ArgEndingInMain` shows what goes wrong.
- I/O in `read_treezip`: the copy and removal of the temporary zip, reading the entries, decoding the bytes, and the messages. The zip is a list of entries, each a name and its decoded lines.
- TreeZip.ReadTreeZip: the source repeats its loop once per scenario. The model runs one loop that applies the scenario's tests. `FactoryOfName` and `PathOfFields` state what those tests check in each scenario.
- The output of `print_aligned` and `print_k_v_aligned` goes through `print_func`. The model returns the line(s) instead. The dictionary of `print_k_v_aligned` is its list of items in insertion order.
- Dictionary insertion order in `merge_dicts` and `merge_all_dicts`. The model uses maps, so it does not keep order. It also does not model aliasing: `merge_all_dicts` of one dictionary returns that same object.
- Merge values: a dictionary value is a nested map and anything else is a leaf. A dictionary subclass or a non-string key gets no special treatment.
