# jogseq journal core in Dafny

This project models the core of `jogseq/utils.py`, which reads one day's
outline journal and reconciles its time-tracking tasks. It has three parts:

- **The duration codec** (`duration.dfy`, `logbook.dfy`). It reads `H:M:S`
  timestamps and free-form `Xh Ym` input, rounds to five-minute units with a
  90-second threshold, renders `1h 1m`-style text, and writes and reads the
  `CLOCK: [...]--[...] => HH:MM:SS` logbook entries.
- **The outline parser** (`blocks.dfy`, `tree.dfy`, `parser.dfy`, and
  `journal.dfy` for the methods). The loop of `parse_journal` moves a cursor
  block, walks it up the parent links to the right level, and appends each
  bullet as the last child of its parent. Continuation lines go to the
  current block's `add_line`, which sorts them into properties, logbook
  lines, dropped lines and extra text. `Task.__init__` splits off the keyword
  and the optional `[A-Z]+-\d+` task id. A block tagged `[CATCH-ALL]` is
  registered, and a second, different one is a ParseError.
- **The reconciliation** (`reconcile.dfy`, and `journal.dfy` for the
  methods). `find_tasks` collects tasks in pre-order. `Task.validate` checks
  five rules and groups the errors by type. `get_total_duration` sums and
  rounds a task's logbook. `process_tasks` charges the switching cost to the
  catch-all task, turns `time::` properties into logbook entries at the front,
  logs each task's errors and totals the rounded durations.

The journal is a class, `Journals.Journal`. It holds all blocks of the
outline in one list: the journal itself at position 0, then every block after
its parent. Parents and children are positions in that list. Methods update
the list in place, as the program updates its objects. The methods are
proved equal to pure specifications:
- `Parser.Run` folds `Parser.Step` over the lines;
- `Reconciliation.Reconcile` describes `process_tasks`.

The properties the program promises are proved about those specifications:
rounding bounds and idempotence, the codec round trips, the tree shape kept
by every line, the catch-all rule, the order of the errors, the totals and
the switching cost.

`Wrappers.Failure` holds the exceptions the code can raise:
- `ParseError` with its message;
- `ValueError`, from `int()` or tuple unpacking;
- `AttributeError`, from `add_to_logbook` on a catch-all block that is no task.

The code catches only ParseError, and only around `parse_duration_input`.
Every other failure escapes, and the model propagates it the same way.

The indent of a line is `line.count('\t')`, which counts every tab in the
line, not only leading ones; the model follows the code (`Parser.Indent`).

Whitespace, for `strip()` and `split()`, is the full set of characters
Python's `str.isspace()` accepts (`Text.IsSpace`).

## Model

| member | source | states |
|---|---|---|
| Text.LStrip | jogseq/utils.py:20 | the result is a suffix of the input, everything dropped is whitespace, and it does not start with whitespace |
| Text.RStrip | jogseq/utils.py:20 | the result is a prefix of the input, everything dropped is whitespace, and it does not end with whitespace |
| Text.StripIdempotent | jogseq/utils.py:202 | stripping an already stripped line changes nothing, so the second strip in `add_line` is harmless |
| Text.Split | jogseq/utils.py:59 | `split(':')` gives at least one field, no field holds the separator, and joining the fields with it gives back the text |
| Text.SplitMax | jogseq/utils.py:218 | `split(' ', 2)` gives one to three pieces, only the last may hold a space, and joining them gives back the text |
| Text.ParseNat | jogseq/utils.py:59 | `int()` on a magnitude succeeds exactly on a non-empty string of digits |
| Duration.ParseTimestamp | jogseq/utils.py:55-62 | reading `H:M:S` fails only with ValueError, and succeeds exactly when there are three colon-separated fields and each reads as an integer |
| Duration.ParseTimestampOf | jogseq/utils.py:59-62 | three colon-free fields that read as h, m and s give h*3600 + m*60 + s |
| Duration.TimestampRoundTrip | jogseq/utils.py:55-62 | zero-padded `HH:MM:SS` text reads back as h*3600 + m*60 + s |
| Duration.ReadToken | jogseq/utils.py:71-77 | a token ending in `h` whose magnitude reads as n sets the hours to n, one ending in `m` adds n minutes, and these are the only tokens that do. A ValueError comes exactly from an `h` or `m` token whose magnitude is no integer, and a ParseError exactly from a token ending in neither unit |
| Duration.FirstFailure | jogseq/utils.py:71-77 | the only failures a token can raise are ValueError and the format ParseError |
| Duration.DurationInput | jogseq/utils.py:65-80 | reading free-form input fails only with ValueError or ParseError with the format message |
| Duration.FailureAt | jogseq/utils.py:71-77 | an invalid token after valid ones decides the outcome of the whole input, since the raise leaves the loop |
| Duration.FirstFailureSticks | jogseq/utils.py:71-77 | tokens after the first failure do not change the failure |
| Duration.ParseDurationInput | jogseq/utils.py:65-80 | the token loop with its `hours` and `minutes` variables returns exactly what DurationInput describes, the error included |
| Duration.HoursThenMinutes | jogseq/utils.py:65-80 | `<h>h <m>m` reads as h*3600 + m*60 |
| Duration.LaterHoursOverride | jogseq/utils.py:72-73 | of two `h` tokens the later one wins, because hours are assigned, not added |
| Duration.MinutesAddUp | jogseq/utils.py:74-75 | two `m` tokens add up |
| Duration.MinutesOnly | jogseq/utils.py:65-80 | a single `<n>m` token reads as n minutes |
| Duration.ValidPair | jogseq/utils.py:69-80 | two valid tokens give the later hours (or the earlier, or 0) and the sum of their minutes |
| Duration.BadUnitRefused | jogseq/utils.py:76-77 | a token with another unit after a valid token raises the format ParseError |
| Duration.DurationInputEmpty | jogseq/utils.py:69-80 | the empty string reads as 0 |
| Duration.RoundDuration | jogseq/utils.py:83-103 | the result is a multiple of 300; it is 0 exactly for 0; it is 300 below 300; otherwise it lies between s - 90 and s + 210 |
| Duration.RoundDurationDetermined | jogseq/utils.py:95-103 | only one multiple of 300 lies in that window, so the contract of RoundDuration determines its result |
| Duration.RoundDurationIdempotent | jogseq/utils.py:83-103 | rounding a rounded duration changes nothing |
| Duration.RoundDurationMonotonic | jogseq/utils.py:83-103 | a longer duration never rounds to less |
| Duration.RoundDurationThreshold | jogseq/utils.py:99-101 | 390 rounds to 300 and 391 to 600; 1 rounds to 300 and 0 to 0 |
| Duration.FormatDuration | jogseq/utils.py:106-121 | definition of format_duration: the parts joined by single spaces. Its meaning is given by DurationPartsSum, DurationParts, FormatDurationZero, FormatDurationSeconds, FormatDurationHoursMinutes and FormatThenParse |
| Duration.DurationPartsSum | jogseq/utils.py:109-110 | the hours, minutes and seconds of the two divmods put the duration back together |
| Duration.DurationParts | jogseq/utils.py:106-121 | format_duration writes one to three parts, none holding whitespace |
| Duration.FormatDurationZero | jogseq/utils.py:118-121 | zero is written `0s` |
| Duration.FormatDurationSeconds | jogseq/utils.py:106-121 | 45 seconds are written `45s` |
| Duration.FormatDurationHoursMinutes | jogseq/utils.py:106-121 | 3660 seconds are written `1h 1m`, with zero seconds left out |
| Duration.ReadWrittenParts | jogseq/utils.py:106-121 | written parts read back as hours and minutes when no seconds part is written; otherwise they are refused with the format ParseError |
| Duration.FormatThenParse | jogseq/utils.py:106-121 | reading a formatted duration gives it back when it is a positive whole number of minutes, and is the format ParseError otherwise |
| Logbook.ArrowField | jogseq/utils.py:164 | `split('=>')[1]` exists exactly when the entry holds an arrow. Which text it is, ArrowFieldText states |
| Logbook.ArrowFieldText | jogseq/utils.py:164 | the field is the text after the first arrow, up to the next arrow or to the end when there is none, and holds no arrow |
| Logbook.EntryDuration | jogseq/utils.py:160-167 | reading the duration of an entry holding an arrow, as every logged entry does, fails only with ValueError |
| Logbook.ClockText | jogseq/utils.py:150-153 | the `HH:MM:SS` tail holds no `=` and starts and ends with a digit |
| Logbook.FromDuration | jogseq/utils.py:139-153 | a written entry is a `CLOCK:` line |
| Logbook.ArrowFieldOfEntry | jogseq/utils.py:153-164 | the field after the arrow of a written entry is a space and its clock text |
| Logbook.ClockTextRoundTrip | jogseq/utils.py:150-153 | the clock text of d reads back as d |
| Logbook.FromDurationRoundTrip | jogseq/utils.py:139-167 | an entry written for d records a duration, and that duration reads back as d |
| Blocks.TaskHeader | jogseq/utils.py:212-237 | the keyword is the text before the first space. The task id is present exactly when the next word matches TASK_ID_RE, and is that word with its colons stripped. The description is what follows the id, or all text after the keyword when there is no id |
| Blocks.TaskHeaderWithId | jogseq/utils.py:223-237 | `<keyword> <id> <description>` with a matching id splits into exactly those three |
| Blocks.TaskHeaderIdOnly | jogseq/utils.py:223-237 | a header ending in its id has an empty description |
| Blocks.TaskHeaderWithoutId | jogseq/utils.py:229-233 | a non-matching first word leaves all text after the keyword as the description |
| Blocks.TicketKeyParts | jogseq/utils.py:7 | text split at its first dash is `[A-Z]+-\d+` exactly when both sides are non-empty, all capitals before the dash and all digits after it |
| Blocks.PlainTaskId | jogseq/utils.py:7 | text ending in neither a newline nor a colon matches the regex exactly when it is a ticket key |
| Blocks.TaskIdForms | jogseq/utils.py:7 | `<x>-<digits>` is a task id exactly when x is non-empty capitals and the digits are non-empty, and one trailing colon is also accepted |
| Blocks.SplitProperty | jogseq/utils.py:190-195 | the key is the text before the first occurrence of `::` (its position is the key's length), and the value is the rest stripped |
| Blocks.Classify | jogseq/utils.py:186-257 | a line is a property exactly when its first word ends in `::`. Otherwise, on a task, it is logged exactly when it is a `CLOCK:` line holding `=>`, and dropped exactly when it is `:LOGBOOK:`, `:END:` or another `CLOCK:` line. It is extra text, stripped, exactly in the remaining cases, blank lines included, so a plain block never logs or drops |
| Blocks.Record | jogseq/utils.py:192-207 | recording fails exactly on a key already present, with the duplicate-property message. Otherwise a property is stored under its key with its value, a logged entry goes to the end of the logbook, extra text to the end of the extra lines, and a dropped line changes nothing |
| Blocks.RecordExtends | jogseq/utils.py:192-207 | a recorded line keeps every property already there and adds at most one property, extra line or logbook entry at the end |
| Blocks.WithLine | jogseq/utils.py:200-207 | definition of add_line: the line is classified for the block, then recorded in it. Its meaning is given by Classify, Record, WithLineSpec, WithLineEffect and WithLineClosed |
| Blocks.WithLineSpec | jogseq/utils.py:200-207 | add_line fails exactly on a repeated property key; otherwise it keeps the header and the properties and adds at most one item |
| Blocks.WithLineEffect | jogseq/utils.py:186-257 | add_line, case by case, on the line stripped. A new property key is stored with its stripped value. On a task, a `CLOCK:` line with `=>` is appended to the logbook, and drawer and other `CLOCK:` lines leave the block as it was. Any other line is appended to the extra lines |
| Blocks.WithLineClosed | jogseq/utils.py:252-253 | add_line logs only entries that hold an arrow |
| Blocks.ClassifyStripped | jogseq/utils.py:200-204 | sorting a stripped line is sorting the line |
| Blocks.NewBlock | jogseq/utils.py:172-184 | a new block has the given indent and parent, the bullet's content without its dash, nothing collected yet, and is a task exactly for a `- NOW ` or `- LATER ` line |
| Blocks.NewTaskHeader | jogseq/utils.py:212-239 | a new task's keyword, task id and description are those TaskHeader gives for its content, and its logbook starts empty |
| Blocks.BulletContent | jogseq/utils.py:177 | the content of `- x…` is `x…` when the text ends in a non-space character |
| Blocks.TaskLineHasSpace | jogseq/utils.py:220-223 | the content of a stripped task line keeps a space after its keyword, so the id candidate always exists |
| Tree.ChildrenIn | jogseq/utils.py:181-184 | a block's children are exactly the blocks naming it as parent, in increasing position |
| Tree.AddChild | jogseq/utils.py:183-184 | adding a block makes the list one longer with the block last. Its parent changes only in gaining the block as its last child, and every other block is unchanged |
| Tree.AddChildParents | jogseq/utils.py:183-184 | adding a block adds only its own parent link |
| Tree.AddChildChildren | jogseq/utils.py:183-184 | after adding a leaf, each block's children are still the blocks naming it as parent |
| Tree.AddChildWellFormed | jogseq/utils.py:172-184 | a fresh leaf keeps the journal a well-formed tree, and becomes the last child of its parent |
| Tree.UpdateWellFormed | jogseq/utils.py:200-207 | changing a block's collected lines keeps the journal well formed and every parent link |
| Tree.Attach | jogseq/utils.py:31-45 | the chosen parent is the cursor or an ancestor of it, is shallower than the bullet, and is the nearest such block on the walk up |
| Tree.RootAboveAll | jogseq/utils.py:42-43 | every walk up the parent links reaches the journal, so the walk stops |
| Tree.TaskAbove | jogseq/utils.py:279-285 | definition of the nested-task walk of Task.validate. Its meaning is given by TaskAboveMeans, and Journal.HasTaskAbove is proved equal to it |
| Tree.TaskAboveMeans | jogseq/utils.py:279-285 | the nested-task walk finds a task exactly when a proper ancestor is a task |
| Tree.TasksUnder | jogseq/utils.py:124-133 | find_tasks lists only tasks that descend from the block |
| Tree.TasksIn | jogseq/utils.py:127-131 | the loop over children lists only tasks below the block |
| Tree.TasksInHas | jogseq/utils.py:127-131 | each child contributes itself when it is a task, and every task below it |
| Tree.TasksUnderComplete | jogseq/utils.py:124-133 | every task below a block is listed, tasks under tasks included |
| Tree.TasksUnderDistinct | jogseq/utils.py:124-133 | in any journal, find_tasks lists no task twice |
| Tree.TasksInDistinct | jogseq/utils.py:128-131 | the loop over children without repeats lists no task twice: the tasks below one child never lie below another |
| Tree.TasksUnderOrdered | jogseq/utils.py:124-133 | in an outline whose subtrees are contiguous, the tasks come in increasing position |
| Tree.TasksInOrdered | jogseq/utils.py:127-131 | the loop over increasing children lists tasks in increasing position, none before the first child |
| Tree.TaskPositions | jogseq/utils.py:124-133 | reference list: exactly the tasks of the journal, in line order |
| Tree.TasksInDocumentOrder | jogseq/utils.py:124-133 | in a contiguous outline, find_tasks from the journal lists exactly its tasks, in line order, each once |
| Parser.SetCatchAll | jogseq/utils.py:323-331 | registering fails, with the single-catch-all ParseError, exactly when a different block is registered; otherwise the block is registered |
| Parser.SetCatchAllAgain | jogseq/utils.py:326-331 | registering the registered block again changes nothing |
| Parser.Indent | jogseq/utils.py:19 | definition of `line.count('\t')`: every tab of the line counts towards the indent |
| Parser.Step | jogseq/utils.py:18-50 | definition of one iteration of the line loop: a bullet line opens a block, any other line continues the current block. Its meaning is given by StepKeeps, ContinuationLine, BulletLine, BulletFrame, BulletFails and RunStep |
| Parser.Continue | jogseq/utils.py:22-25 | definition of a continuation line: the current block's add_line. Its meaning is given by ContinuationLine and ContinuationKeeps |
| Parser.Open | jogseq/utils.py:27-50 | definition of a bullet line: a block under the parent Attach finds, registered when tagged. Its meaning is given by BulletStep, OpenFails, BulletLine, BulletFrame and BulletKeeps |
| Parser.Run | jogseq/utils.py:10-52 | after any lines read without failure, the journal is a well-formed tree. Each block is deeper than its parent and subtrees are contiguous. The registered catch-all block is the one block tagged `[CATCH-ALL]` |
| Parser.StartGood | jogseq/utils.py:309-316 | the journal alone meets the loop's invariant |
| Parser.StepKeeps | jogseq/utils.py:18-50 | each line that is read without failure keeps the invariant |
| Parser.ContinuationKeeps | jogseq/utils.py:22-25 | a continuation line keeps the invariant |
| Parser.BulletKeeps | jogseq/utils.py:27-50 | a bullet line keeps the invariant |
| Parser.BulletStep | jogseq/utils.py:47-50 | a bullet that succeeds adds its block under the walked-to parent and registers it when tagged, which only happens when nothing is registered yet |
| Parser.GrowCatchAll | jogseq/utils.py:49-50 | after a bullet, the registered block is still the one block carrying the tag |
| Parser.GrowKeeps | jogseq/utils.py:31-47 | a leaf added under the walked-to parent keeps the tree, indents and contiguity |
| Parser.ContiguousAppend | jogseq/utils.py:31-47 | a block added under an ancestor of the last block keeps subtrees contiguous |
| Parser.IndentsAppend | jogseq/utils.py:31-47 | a block deeper than its parent keeps indents increasing |
| Parser.ContinuationLine | jogseq/utils.py:22-25 | a line that is no bullet creates no block, goes to the current block's add_line, fails only when add_line fails, and changes nothing else |
| Parser.BulletFails | jogseq/utils.py:47-50 | a bullet line fails exactly when its content carries `[CATCH-ALL]` and a catch-all block is registered, and then with the single-catch-all message |
| Parser.OpenFails | jogseq/utils.py:49-50 | opening a tagged block fails exactly when a catch-all block is registered |
| Parser.BulletFrame | jogseq/utils.py:47 | a bullet line leaves every earlier block as it was, except that the parent Attach finds gains the new block as its last child |
| Parser.BulletLine | jogseq/utils.py:27-50 | a bullet adds one block with the line's tab count as indent, its content and its task kind. The block is the last child of the nearest block at or above the cursor with a smaller indent, and is registered when tagged. A task's keyword, task id and description are those TaskHeader gives for its content, with an empty logbook |
| Parser.RunBlockCount | jogseq/utils.py:18-47 | the parsed journal has one block per bullet line besides the journal |
| Parser.RunFailureSticks | jogseq/utils.py:17-52 | once a line fails, no later line is read |
| Parser.RunStep | jogseq/utils.py:18-47 | reading one more line is one more step of the loop |
| Parser.ParsedTasksInOrder | jogseq/utils.py:124-133 | on a parsed journal, find_tasks lists every task once, in the order of their lines |
| Reconciliation.AddError | jogseq/utils.py:269-272 | definition of add_error on a dictionary that keeps its keys in insertion order. Its meaning is given by FlattenAppend and AddErrorKeys |
| Reconciliation.Grouped | jogseq/utils.py:267-272 | definition of the errors dictionary after a run of add_error calls. Its meaning is given by GroupedInOrder and GroupedRules |
| Reconciliation.Violations | jogseq/utils.py:274-296 | definition of the rules Task.validate checks, as pairs of error type and message in checking order. Its meaning is given by GroupedRules and ErrorsInRuleOrder |
| Reconciliation.ValidationErrors | jogseq/utils.py:265-298 | definition of Task.validate's result. Its meaning is given by ErrorsInRuleOrder, and Journal.Validate is proved equal to it |
| Reconciliation.FlattenAppend | jogseq/utils.py:269-272 | add_error on a new or the last key puts the message after all earlier ones |
| Reconciliation.AddErrorKeys | jogseq/utils.py:269-272 | add_error keeps keys distinct, adds its key, and leaves that key's group last |
| Reconciliation.GroupedInOrder | jogseq/utils.py:267-272 | when equal error types stand together, the dictionary keeps the messages in the order added, with distinct keys |
| Reconciliation.GroupedRules | jogseq/utils.py:265-298 | the five rules grouped by `keyword`, `task_id` and `duration` keep their messages in rule order |
| Reconciliation.ErrorsInRuleOrder | jogseq/utils.py:265-298 | a task's messages are, in this order and each only when broken: running timer, nested task, no task ID, no duration, invalid `time` |
| Reconciliation.ErrorLine | jogseq/utils.py:386 | definition of the error line `{msg} for line "{content}"`. Its meaning is given by ErrorLines |
| Reconciliation.ErrorLines | jogseq/utils.py:384-386 | one error line per message, in order, each naming the task's content |
| Reconciliation.LogFront | jogseq/utils.py:259-263 | add_to_logbook puts the entry first and keeps everything else |
| Reconciliation.LogFrontClosed | jogseq/utils.py:259-263 | a written entry keeps every logbook entry readable |
| Reconciliation.LoggedDurationCounted | jogseq/utils.py:259-263 | an entry written for d adds d to the task's logged time, and a logbook that could not be summed still cannot |
| Reconciliation.ConvertTime | jogseq/utils.py:363-381 | without `time` the task is unchanged; conversion fails exactly when the value raises something other than ParseError, with that failure; a converted task keeps its header |
| Reconciliation.TimeConverted | jogseq/utils.py:363-381 | a readable `time` value is removed and its rounded duration heads the logbook; an unreadable one stays, leaving the task unchanged |
| Reconciliation.ReadableTimeConverted | jogseq/utils.py:374-381 | a readable value is deleted first, then its rounded duration is logged in front |
| Reconciliation.ConvertTimeClosed | jogseq/utils.py:374-381 | conversion keeps every logbook entry readable |
| Reconciliation.CheckTask | jogseq/utils.py:362-386 | one loop iteration changes only its own task, keeps the journal's shape, and fails only with ValueError, changing nothing |
| Reconciliation.CheckTasks | jogseq/utils.py:362-386 | the task loop keeps the journal's shape and fails only with ValueError |
| Reconciliation.TaskErrors | jogseq/utils.py:383-386 | definition of the lines one task logs: ErrorLines over the flattened validate dictionary. Its meaning is given by CheckTaskSpec, CheckTasksLog and CheckTasksErrorLines |
| Reconciliation.CheckTaskSpec | jogseq/utils.py:362-386 | an iteration succeeds exactly when conversion does, and then leaves the converted task and logs its errors |
| Reconciliation.CheckTasksOutside | jogseq/utils.py:362-386 | blocks that are not among the loop's tasks are left alone |
| Reconciliation.CheckTasksClosed | jogseq/utils.py:362-386 | the loop logs only readable entries |
| Reconciliation.CheckTasksWellFormed | jogseq/utils.py:362-386 | the loop keeps the journal well formed |
| Reconciliation.CheckTasksKeepsEntries | jogseq/utils.py:362-386 | an entry a task had stays in its logbook |
| Reconciliation.CheckTasksErrorLines | jogseq/utils.py:383-386 | the loop logs only error lines |
| Reconciliation.CheckTasksStops | jogseq/utils.py:362-386 | once a task fails, no later task is read |
| Reconciliation.CheckTasksVisits | jogseq/utils.py:362-381 | a loop over tasks without repeats that runs to the end converts each task exactly once |
| Reconciliation.CheckTasksLog | jogseq/utils.py:383-386 | such a loop logs each task's errors, task after task, as the task was left |
| Reconciliation.SumAll | jogseq/utils.py:302 | `sum` over values that may raise fails exactly when one of them does |
| Reconciliation.SumAllCounts | jogseq/utils.py:389 | each value counts towards a sum that succeeds |
| Reconciliation.SumAllMultiple | jogseq/utils.py:389 | a sum of multiples of 300 is one |
| Reconciliation.LogbookSumFront | jogseq/utils.py:302 | an entry in front adds its duration to the logbook's sum |
| Reconciliation.LogbookSum | jogseq/utils.py:302 | summing a logbook fails only with ValueError |
| Reconciliation.TaskTotal | jogseq/utils.py:300-304 | a task's total fails only with ValueError and is a multiple of 300 |
| Reconciliation.TaskTotalCovers | jogseq/utils.py:300-304 | a task reports at least any rounded duration written in its logbook |
| Reconciliation.TaskTotals | jogseq/utils.py:389 | one total per collated task, each that task's get_total_duration |
| Reconciliation.Totals | jogseq/utils.py:389 | the total duration fails only with ValueError and is a multiple of 300 |
| Reconciliation.TotalsCount | jogseq/utils.py:389 | each task's total is at most the total duration |
| Reconciliation.TotalsCover | jogseq/utils.py:389 | the total covers every rounded entry written in any collated task |
| Reconciliation.FoundTasks | jogseq/utils.py:346 | find_tasks lists tasks of the journal |
| Reconciliation.TaskFound | jogseq/utils.py:346 | every task of the journal is listed by find_tasks |
| Reconciliation.SwitchingCost | jogseq/utils.py:350 | the switching cost is a multiple of 300, and zero exactly when there are no tasks or no minutes per task |
| Reconciliation.SwitchingCostRounded | jogseq/utils.py:350 | rounding the switching cost again changes nothing |
| Reconciliation.Charge | jogseq/utils.py:351-358 | charging fails with AttributeError exactly when the catch-all block is no task. Otherwise the cost's entry heads the catch-all task's logbook and no other block changes. Without a catch-all block, a positive cost is a warning |
| Reconciliation.ChargeTask | jogseq/utils.py:352-353 | the cost's entry heads the catch-all task's logbook, no other block changes, and the journal stays well formed |
| Reconciliation.ChargedTask | jogseq/utils.py:351-353 | charging keeps every task's properties and content |
| Reconciliation.PlainCatchAllFails | jogseq/utils.py:351-353 | process_tasks raises AttributeError exactly when the catch-all block is no task, and then changes no block |
| Reconciliation.CostCharged | jogseq/utils.py:351-353 | the catch-all task keeps the entry for the switching cost, whatever the outcome |
| Reconciliation.Finish | jogseq/utils.py:362-396 | the rest of process_tasks keeps the journal's shape, collates the given tasks, and fails only with ValueError |
| Reconciliation.Reconcile | jogseq/utils.py:341-396 | process_tasks keeps the journal's shape and fails only with AttributeError or ValueError |
| Reconciliation.ReconcileCharged | jogseq/utils.py:341-358 | once the cost is charged, process_tasks is the task loop and totals over the tasks find_tasks lists |
| Reconciliation.ReconcileWellFormed | jogseq/utils.py:341-396 | process_tasks keeps the journal well formed, whatever its outcome |
| Reconciliation.ReconcileTasks | jogseq/utils.py:346 | process_tasks collates the tasks find_tasks lists |
| Reconciliation.ReconcileTasksInOrder | jogseq/utils.py:346 | on a contiguous outline it collates every task once, in line order |
| Reconciliation.FinishReport | jogseq/utils.py:389-396 | a report gives the totals of the converted tasks, the cost, and the warnings followed by the loop's errors |
| Reconciliation.ReconcileReturned | jogseq/utils.py:341-396 | process_tasks returns only when the cost was charged and the loop ran to the end. Its log is then the warnings followed by the loop's lines |
| Reconciliation.ReconcileTotals | jogseq/utils.py:389-394 | the reported switching cost is that of the tasks collated, and the total duration is a multiple of 300 |
| Reconciliation.ReconcileWarning | jogseq/utils.py:354-358 | the log opens with the warning exactly when a positive cost has no catch-all block, and every other line is an error |
| Reconciliation.ReconcileErrors | jogseq/utils.py:383-386 | the log is the optional warning, then every task's errors, task after task |
| Reconciliation.CostIncluded | jogseq/utils.py:389 | with a catch-all task, the total duration includes the switching cost |
| Reconciliation.ReconciledTask | jogseq/utils.py:362-381 | each task ends up as converting its `time` property made it, after the cost was charged |
| Reconciliation.TimeReplaced | jogseq/utils.py:374-381 | a readable `time` property is gone, and its rounded duration heads the task's logbook |
| Reconciliation.TimeRejected | jogseq/utils.py:366-373 | an invalid `time` property stays with its value, and the invalid-format error is logged for the task |
| Reconciliation.TimeFormatLogged | jogseq/utils.py:295-296 | a task that keeps a `time` property gets the invalid-format error |
| Reconciliation.TaskErrorsLogged | jogseq/utils.py:383-386 | every error line of every task reaches the returned log |
| Reconciliation.TimeValueError | jogseq/utils.py:370-373 | a `time` value whose magnitude is no integer makes process_tasks raise ValueError, because only ParseError is caught |
| Journals.Journal.constructor | jogseq/utils.py:309-316 | a new journal is the journal block alone, with no catch-all block and no tasks |
| Journals.Journal.AddLine | jogseq/utils.py:200-207 | add_line on block k leaves the block WithLine describes, or fails and changes nothing |
| Journals.Journal.AddBlock | jogseq/utils.py:181-184 | the new block goes last in the list and last among its parent's children, and the journal stays well formed |
| Journals.Journal.SetCatchAllBlock | jogseq/utils.py:323-331 | the setter raises on a second, different block and registers the block otherwise |
| Journals.Journal.AddToLogbook | jogseq/utils.py:259-263 | the entry for d goes in front of the task's logbook and nothing else changes |
| Journals.Journal.Validate | jogseq/utils.py:265-298 | the dictionary built with add_error is the one ValidationErrors describes |
| Journals.Journal.HasTaskAbove | jogseq/utils.py:279-285 | the walk up the parents answers whether a task lies above |
| Journals.Journal.ConvertTimeProperty | jogseq/utils.py:363-381 | the task becomes what ConvertTime makes of it, or the failure escapes and nothing changes |
| Journals.Journal.ReplaceTimeProperty | jogseq/utils.py:374-381 | a readable `time` property is deleted and its rounded duration logged in front, as ConvertTime describes |
| Journals.Journal.ChargeSwitchingCost | jogseq/utils.py:351-358 | the journal and result are those Charge describes |
| Journals.Journal.CheckTaskStep | jogseq/utils.py:362-386 | one iteration leaves the journal and lines CheckTask describes |
| Journals.Journal.CheckAllTasks | jogseq/utils.py:362-386 | the loop leaves the journal and log CheckTasks describes, stopping at the first failure |
| Journals.Journal.ProcessTasks | jogseq/utils.py:341-396 | the journal, the collated tasks and the result or failure are those Reconcile describes |
| Journals.AddErrorWhen | jogseq/utils.py:269-272 | add_error on a broken rule keeps the dictionary equal to the grouping of the rules broken so far |
| Journals.ErrorLog | jogseq/utils.py:384-386 | the nested loop logs one error line per message, group after group |
| Journals.ParseJournal | jogseq/utils.py:10-52 | the journal built, or the failure raised, is the one Run describes for the lines |
| Journals.ReadLine | jogseq/utils.py:18-50 | one iteration of the line loop leaves the state Step describes, with the cursor on the last block |
| Journals.ReadContinuation | jogseq/utils.py:22-25 | a continuation line updates the current block as Continue describes |
| Journals.ReadBullet | jogseq/utils.py:27-50 | a bullet adds and registers its block as Open describes, and becomes the cursor |
| Journals.FindParent | jogseq/utils.py:31-45 | the three-way choice and the upward walk find the parent Attach describes |

## Left out

- Opening the journal file and building its path (`os.path.join`, `open`, `readlines`) are left out. ParseJournal takes the lines as a parameter.
- `datetime`, `timedelta` and `strftime` are not modelled. The journal carries a `Stamps` value with the rendered start text and an end text for each duration, required to hold no `=>`. Only the `=> HH:MM:SS` tail is modelled exactly.
- TASK_ID_RE is written as a predicate over characters. `\d` is limited to ASCII digits.
- `int()` accepts only non-empty ASCII digit strings. Signs, surrounding whitespace, underscores and other Unicode digits are not modelled.
- The switching cost per task is a natural number of minutes. A float `switching_cost` is not modelled.
- The lazy `_duration` cache of LogbookEntry is left out: it only avoids reading an entry twice. Each read in the model gives the same value.
- The `tasks` getter and its "not collated" exception are left out. The collated tasks are the `tasks` field, which is `None` until ProcessTasks sets it.
- `ParseError` comes from `jogseq/exceptions.py`, which is not part of this model. It is a `Failure` carrying its message.
- Blocks are positions in one list, not objects with references. The model has no aliasing, and a block added twice cannot happen.
- Journals.Journal.ReplaceTimeProperty: the deletion of the property and the new logbook entry are made in one update of the task, not in two steps.
