/**
 * Journal.process_tasks as a function of the parsed journal: switching cost
 * charged to the catch-all task, `time::` properties turned into logbook
 * entries, each task validated, and the rounded per-task durations summed.
 */
module Reconciliation {
  import opened Wrappers
  import opened Duration
  import opened Logbook
  import opened Blocks
  import opened Tree

  const RunningMessage := "Running timer detected"
  const NestedMessage := "Nested task detected"
  const NoIdMessage := "No task ID"
  const NoDurationMessage := "No duration recorded"
  const TimeFormatMessage := "Invalid format for \"time\" property"
  const NoCatchAllMessage :=
    "No CATCH-ALL task found to log context switching cost against. Not included in total duration."

  /** The property a manually entered duration is given in. */
  const TimeKey := "time"

  /** Task.validate's rules that a task breaks, as (error type, message), in the order they are checked. */
  function Violations(bs: seq<Block>, k: nat): (vs: seq<(string, string)>)
    requires IsTree(Parents(bs)) && k < |bs| && bs[k].kind.Task?
  {
    var t := bs[k].kind;
    (if t.keyword == "NOW" then [("keyword", RunningMessage)] else []) +
    (if TaskAbove(bs, k) then [("keyword", NestedMessage)] else []) +
    (if t.taskId.None? || t.taskId.value == "" then [("task_id", NoIdMessage)] else []) +
    (if t.logbook == [] then [("duration", NoDurationMessage)] else []) +
    (if TimeKey in bs[k].properties then [("duration", TimeFormatMessage)] else [])
  }

  /** The messages of some violations, in order. */
  function Messages(vs: seq<(string, string)>): seq<string> {
    if vs == [] then [] else Messages(vs[..|vs| - 1]) + [vs[|vs| - 1].1]
  }

  /** The position of the group for `key`, if there is one. */
  function GroupOf(groups: seq<(string, seq<string>)>, key: string): (r: Option<nat>)
    ensures r.Some? ==> r.value < |groups| && groups[r.value].0 == key
    ensures r.None? ==> forall i :: 0 <= i < |groups| ==> groups[i].0 != key
  {
    if groups == [] then None
    else if groups[0].0 == key then Some(0)
    else match GroupOf(groups[1..], key)
      case None => None
      case Some(i) => Some(i + 1)
  }

  /** `errors.setdefault(key, []).append(msg)` on a dictionary that keeps its keys in insertion order. */
  function AddError(groups: seq<(string, seq<string>)>, key: string, msg: string): seq<(string, seq<string>)> {
    match GroupOf(groups, key)
    case Some(i) => groups[i := (key, groups[i].1 + [msg])]
    case None => groups + [(key, [msg])]
  }

  /** The dictionary Task.validate returns for some violations. */
  function Grouped(vs: seq<(string, string)>): seq<(string, seq<string>)> {
    if vs == [] then []
    else
      var v := vs[|vs| - 1];
      AddError(Grouped(vs[..|vs| - 1]), v.0, v.1)
  }

  /** The messages of a dictionary of errors, group after group. */
  function Flatten(groups: seq<(string, seq<string>)>): seq<string> {
    if groups == [] then [] else Flatten(groups[..|groups| - 1]) + groups[|groups| - 1].1
  }

  /** Task.validate. */
  function ValidationErrors(bs: seq<Block>, k: nat): seq<(string, seq<string>)>
    requires IsTree(Parents(bs)) && k < |bs| && bs[k].kind.Task?
  {
    Grouped(Violations(bs, k))
  }

  /** Violations whose equal error types stand next to each other. */
  predicate KeysTogether(vs: seq<(string, string)>) {
    forall i, j, l :: 0 <= i < j < l < |vs| && vs[i].0 == vs[l].0 ==> vs[j].0 == vs[i].0
  }

  /** The keys of a dictionary of errors. */
  function Keys(groups: seq<(string, seq<string>)>): set<string> {
    set i | 0 <= i < |groups| :: groups[i].0
  }

  /** Distinct keys, as in a dictionary. */
  predicate DistinctKeys(groups: seq<(string, seq<string>)>) {
    forall i, j :: 0 <= i < j < |groups| ==> groups[i].0 != groups[j].0
  }

  /** The messages of a dictionary with one more message in its last group, or in a new group. */
  lemma FlattenAppend(groups: seq<(string, seq<string>)>, key: string, msg: string)
    requires DistinctKeys(groups)
    requires GroupOf(groups, key).Some? ==> GroupOf(groups, key).value == |groups| - 1
    ensures Flatten(AddError(groups, key, msg)) == Flatten(groups) + [msg]
  {
    var added := AddError(groups, key, msg);
    if GroupOf(groups, key).Some? {
      var i := |groups| - 1;
      assert added[..i] == groups[..i];
    } else {
      assert added[..|groups|] == groups;
    }
  }

  /** The error types of some violations. */
  function TypesOf(vs: seq<(string, string)>): set<string> {
    set i | 0 <= i < |vs| :: vs[i].0
  }

  /** Adding a message keeps the keys distinct, adds its key, and leaves its group last when the key was last. */
  lemma AddErrorKeys(groups: seq<(string, seq<string>)>, key: string, msg: string)
    requires DistinctKeys(groups)
    requires GroupOf(groups, key).Some? ==> GroupOf(groups, key).value == |groups| - 1
    ensures DistinctKeys(AddError(groups, key, msg))
    ensures Keys(AddError(groups, key, msg)) == Keys(groups) + {key}
    ensures var added := AddError(groups, key, msg); added != [] && added[|added| - 1].0 == key
  {
    var added := AddError(groups, key, msg);
    if GroupOf(groups, key).Some? {
      assert forall i :: 0 <= i < |groups| ==> added[i].0 == groups[i].0;
    } else {
      assert forall i :: 0 <= i < |groups| ==> added[i].0 == groups[i].0;
      assert added[|groups|].0 == key;
    }
  }

  /** When equal types stand together, a type seen before the last violation is the type just before it. */
  lemma LastTypeRepeats(vs: seq<(string, string)>)
    requires KeysTogether(vs) && |vs| >= 2
    requires vs[|vs| - 1].0 in TypesOf(vs[..|vs| - 1])
    ensures vs[|vs| - 2].0 == vs[|vs| - 1].0
  {
    var front := vs[..|vs| - 1];
    var a :| 0 <= a < |front| && front[a].0 == vs[|vs| - 1].0;
    assert vs[a].0 == vs[|vs| - 1].0;
  }

  /**
   * When equal error types stand together, the dictionary keeps the
   * messages in the order they were added, has distinct keys, and its last
   * group is the type of the last message.
   */
  lemma {:induction false} GroupedInOrder(vs: seq<(string, string)>)
    requires KeysTogether(vs)
    ensures Flatten(Grouped(vs)) == Messages(vs)
    ensures DistinctKeys(Grouped(vs))
    ensures Keys(Grouped(vs)) == TypesOf(vs)
    ensures vs != [] ==> Grouped(vs) != [] && Grouped(vs)[|Grouped(vs)| - 1].0 == vs[|vs| - 1].0
    decreases |vs|
  {
    if vs != [] {
      var front, v := vs[..|vs| - 1], vs[|vs| - 1];
      KeysTogetherFront(vs);
      var g := Grouped(front);
      GroupedInOrder(front);
      if GroupOf(g, v.0).Some? {
        var i := GroupOf(g, v.0).value;
        assert g[i].0 in Keys(g);
        LastTypeRepeats(vs);
        assert front[|front| - 1].0 == v.0;
      }
      FlattenAppend(g, v.0, v.1);
      AddErrorKeys(g, v.0, v.1);
      TypesOfSnoc(vs);
    }
  }

  /** Dropping the last violation keeps equal types together. */
  lemma KeysTogetherFront(vs: seq<(string, string)>)
    requires KeysTogether(vs) && vs != []
    ensures KeysTogether(vs[..|vs| - 1])
  {
    var front := vs[..|vs| - 1];
    forall i, j, l | 0 <= i < j < l < |front| && front[i].0 == front[l].0
      ensures front[j].0 == front[i].0
    {
      assert vs[i] == front[i] && vs[j] == front[j] && vs[l] == front[l];
    }
  }

  /** The types of some violations are those before the last one and the last one's. */
  lemma TypesOfSnoc(vs: seq<(string, string)>)
    requires vs != []
    ensures TypesOf(vs) == TypesOf(vs[..|vs| - 1]) + {vs[|vs| - 1].0}
  {
    var front := vs[..|vs| - 1];
    assert forall i :: 0 <= i < |front| ==> vs[i] == front[i];
  }

  /** Three runs of violations with one error type each, the types distinct, keep equal types together. */
  lemma {:induction false} ThreeRuns(a: seq<(string, string)>, b: seq<(string, string)>, c: seq<(string, string)>, ka: string, kb: string, kc: string)
    requires ka != kb && kb != kc && ka != kc
    requires forall i :: 0 <= i < |a| ==> a[i].0 == ka
    requires forall i :: 0 <= i < |b| ==> b[i].0 == kb
    requires forall i :: 0 <= i < |c| ==> c[i].0 == kc
    ensures KeysTogether(a + b + c)
  {
    var vs := a + b + c;
    assert forall i :: 0 <= i < |vs| ==>
      vs[i].0 == if i < |a| then ka else if i < |a| + |b| then kb else kc;
  }

  /** The messages of a list with one more violation at the end. */
  lemma {:induction false} MessagesAppend(vs: seq<(string, string)>, ws: seq<(string, string)>)
    ensures Messages(vs + ws) == Messages(vs) + Messages(ws)
    decreases |ws|
  {
    if ws == [] {
      assert vs + ws == vs;
    } else {
      var front := ws[..|ws| - 1];
      MessagesAppend(vs, front);
      assert (vs + ws)[..|vs + ws| - 1] == vs + front;
    }
  }

  /** Five rules with at most one violation each, grouped as Task.validate groups them. */
  lemma {:induction false} GroupedRules(r1: seq<(string, string)>, r2: seq<(string, string)>, r3: seq<(string, string)>,
                     r4: seq<(string, string)>, r5: seq<(string, string)>)
    requires forall i :: 0 <= i < |r1| ==> r1[i].0 == "keyword"
    requires forall i :: 0 <= i < |r2| ==> r2[i].0 == "keyword"
    requires forall i :: 0 <= i < |r3| ==> r3[i].0 == "task_id"
    requires forall i :: 0 <= i < |r4| ==> r4[i].0 == "duration"
    requires forall i :: 0 <= i < |r5| ==> r5[i].0 == "duration"
    ensures Flatten(Grouped(r1 + r2 + r3 + r4 + r5)) ==
      Messages(r1) + Messages(r2) + Messages(r3) + Messages(r4) + Messages(r5)
  {
    var a, c := r1 + r2, r4 + r5;
    assert r1 + r2 + r3 + r4 + r5 == a + r3 + c;
    ThreeRuns(a, r3, c, "keyword", "task_id", "duration");
    GroupedInOrder(a + r3 + c);
    MessagesAppend(r1, r2);
    MessagesAppend(r4, r5);
    MessagesAppend(a, r3);
    MessagesAppend(a + r3, c);
  }

  /**
   * process_tasks logs a task's errors rule by rule: a running timer, a
   * nested task, a missing task id, a missing duration, an invalid `time`
   * property, each when broken and in that order.
   */
  lemma {:induction false} ErrorsInRuleOrder(bs: seq<Block>, k: nat)
    requires IsTree(Parents(bs)) && k < |bs| && bs[k].kind.Task?
    ensures var t := bs[k].kind;
      Flatten(ValidationErrors(bs, k)) ==
        (if t.keyword == "NOW" then [RunningMessage] else []) +
        (if TaskAbove(bs, k) then [NestedMessage] else []) +
        (if t.taskId.None? || t.taskId.value == "" then [NoIdMessage] else []) +
        (if t.logbook == [] then [NoDurationMessage] else []) +
        (if TimeKey in bs[k].properties then [TimeFormatMessage] else [])
  {
    var t := bs[k].kind;
    var r1 := if t.keyword == "NOW" then [("keyword", RunningMessage)] else [];
    var r2 := if TaskAbove(bs, k) then [("keyword", NestedMessage)] else [];
    var r3 := if t.taskId.None? || t.taskId.value == "" then [("task_id", NoIdMessage)] else [];
    var r4 := if t.logbook == [] then [("duration", NoDurationMessage)] else [];
    var r5 := if TimeKey in bs[k].properties then [("duration", TimeFormatMessage)] else [];
    GroupedRules(r1, r2, r3, r4, r5);
    assert Messages(r1) == (if t.keyword == "NOW" then [RunningMessage] else []);
    assert Messages(r2) == (if TaskAbove(bs, k) then [NestedMessage] else []);
    assert Messages(r3) == (if t.taskId.None? || t.taskId.value == "" then [NoIdMessage] else []);
    assert Messages(r4) == (if t.logbook == [] then [NoDurationMessage] else []);
    assert Messages(r5) == (if TimeKey in bs[k].properties then [TimeFormatMessage] else []);
  }

  /** One line of the log process_tasks returns: a warning or an error. */
  datatype LogLine = Warning(message: string) | Error(message: string)

  /** The error line logged for one message of a task. */
  function ErrorLine(msg: string, content: string): LogLine {
    Error(msg + " for line \"" + content + "\"")
  }

  /** The error lines logged for the messages of a task, in order. */
  function ErrorLines(msgs: seq<string>, content: string): (lines: seq<LogLine>)
    ensures |lines| == |msgs|
    ensures forall i :: 0 <= i < |msgs| ==> lines[i] == ErrorLine(msgs[i], content)
  {
    seq(|msgs|, i requires 0 <= i < |msgs| => ErrorLine(msgs[i], content))
  }

  /** Task.add_to_logbook: the entry goes first in the task's logbook. */
  function LogFront(b: Block, e: LogbookEntry): (c: Block)
    requires b.kind.Task?
    ensures SameHeader(b, c) && c.properties == b.properties && c.extraLines == b.extraLines
    ensures c.kind.logbook == [e] + b.kind.logbook
  {
    b.(kind := b.kind.(logbook := [e] + b.kind.logbook))
  }

  /** An entry written for a duration keeps a task's logbook closed. */
  lemma LogFrontClosed(b: Block, st: Stamps, d: nat)
    requires b.kind.Task? && ClosedLogbook(b) && ValidStamps(st)
    ensures ClosedLogbook(LogFront(b, FromDuration(st, d)))
  {
    FromDurationRoundTrip(st, d);
  }

  /**
   * The `time::` step of process_tasks for one task: a valid duration
   * replaces the property by a logbook entry for the rounded duration; an
   * invalid format (a ParseError) leaves the property in place; any other
   * failure escapes.
   */
  function ConvertTime(b: Block, st: Stamps): (r: Result<Block, Failure>)
    requires b.kind.Task?
    ensures TimeKey !in b.properties ==> r == Ok(b)
    ensures r.Err? <==>
      TimeKey in b.properties && DurationInput(b.properties[TimeKey]).Err? &&
      !DurationInput(b.properties[TimeKey]).error.ParseError?
    ensures r.Err? ==> r == Err(DurationInput(b.properties[TimeKey]).error)
    ensures r.Ok? ==> SameHeader(b, r.value) && r.value.extraLines == b.extraLines
  {
    if TimeKey !in b.properties then Ok(b)
    else
      match DurationInput(b.properties[TimeKey])
      case Err(ParseError(_)) => Ok(b)
      case Err(e) => Err(e)
      case Ok(seconds) =>
        Ok(LogFront(b, FromDuration(st, RoundDuration(seconds))).(properties := b.properties - {TimeKey}))
  }

  /** What a valid or invalid `time::` property turns into. */
  lemma TimeConverted(b: Block, st: Stamps)
    requires b.kind.Task? && TimeKey in b.properties
    ensures var v := DurationInput(b.properties[TimeKey]);
      (v.Ok? ==>
        ConvertTime(b, st).Ok? &&
        ConvertTime(b, st).value.properties == b.properties - {TimeKey} &&
        ConvertTime(b, st).value.kind.logbook == [FromDuration(st, RoundDuration(v.value))] + b.kind.logbook) &&
      (v.Err? && v.error.ParseError? ==> ConvertTime(b, st) == Ok(b))
  {
  }

  /** A readable `time::` property is taken out first, then its rounded duration is logged in front. */
  lemma ReadableTimeConverted(b: Block, st: Stamps, seconds: nat)
    requires b.kind.Task? && TimeKey in b.properties && DurationInput(b.properties[TimeKey]) == Ok(seconds)
    ensures ConvertTime(b, st) == Ok(LogFront(b.(properties := b.properties - {TimeKey}), FromDuration(st, RoundDuration(seconds))))
  {
  }

  /** Converting a `time::` property keeps the logbook closed. */
  lemma ConvertTimeClosed(b: Block, st: Stamps)
    requires b.kind.Task? && ClosedLogbook(b) && ValidStamps(st) && ConvertTime(b, st).Ok?
    ensures ClosedLogbook(ConvertTime(b, st).value)
  {
    if TimeKey in b.properties && DurationInput(b.properties[TimeKey]).Ok? {
      LogFrontClosed(b, st, RoundDuration(DurationInput(b.properties[TimeKey]).value));
    }
  }

  /** The position of a task in a journal, other than the journal itself. */
  predicate TaskAt(bs: seq<Block>, t: nat) {
    0 < t < |bs| && bs[t].kind.Task?
  }

  /** Positions of tasks in a journal. */
  predicate TaskList(bs: seq<Block>, ts: seq<nat>) {
    forall i :: 0 <= i < |ts| ==> TaskAt(bs, ts[i])
  }

  /** The journal as the loop of process_tasks leaves it: the blocks, the lines logged, and the failure that ended it. */
  datatype Pass = Pass(blocks: seq<Block>, log: seq<LogLine>, failure: Option<Failure>)

  /** Two journals with the same blocks in the same places, each keeping its links and header. */
  predicate SameShape(bs: seq<Block>, cs: seq<Block>) {
    |cs| == |bs| && Parents(cs) == Parents(bs) && forall k :: 0 <= k < |bs| ==> SameHeader(bs[k], cs[k])
  }

  /** Replacing a task by a converted version keeps the journal in shape. */
  lemma ReplaceTask(bs: seq<Block>, t: nat, b: Block)
    requires TaskAt(bs, t) && SameHeader(bs[t], b)
    ensures SameShape(bs, bs[t := b]) && TaskAt(bs[t := b], t)
  {
    assert Parents(bs[t := b]) == Parents(bs);
  }

  /** Having the same shape is transitive. */
  lemma SameShapeTrans(bs0: seq<Block>, bs1: seq<Block>, bs2: seq<Block>)
    requires SameShape(bs0, bs1) && SameShape(bs1, bs2)
    ensures SameShape(bs0, bs2)
  {
  }

  /** Journals of the same shape have their tasks in the same places. */
  lemma SameShapeTasks(bs: seq<Block>, cs: seq<Block>, ts: seq<nat>)
    requires SameShape(bs, cs) && TaskList(bs, ts)
    ensures TaskList(cs, ts)
  {
    forall i | 0 <= i < |ts| ensures TaskAt(cs, ts[i]) {
      assert SameHeader(bs[ts[i]], cs[ts[i]]);
    }
  }

  /** A journal of the same shape as a well-formed one, with closed logbooks, is well formed. */
  lemma SameShapeWellFormed(bs: seq<Block>, cs: seq<Block>)
    requires WellFormed(bs) && SameShape(bs, cs) && forall k :: 0 <= k < |cs| ==> ClosedLogbook(cs[k])
    ensures WellFormed(cs)
  {
    assert SameHeader(bs[0], cs[0]);
    forall k | 0 <= k < |cs| ensures cs[k].children == ChildrenIn(Parents(cs), k) {
      assert SameHeader(bs[k], cs[k]);
    }
  }

  /** The errors one task logs, once its `time::` property is converted. */
  function TaskErrors(bs: seq<Block>, t: nat): seq<LogLine>
    requires IsTree(Parents(bs)) && TaskAt(bs, t)
  {
    ErrorLines(Flatten(ValidationErrors(bs, t)), bs[t].content)
  }

  /** One iteration of the task loop of process_tasks: convert `time::`, then log the task's errors. */
  function CheckTask(bs: seq<Block>, t: nat, st: Stamps): (r: Pass)
    requires IsTree(Parents(bs)) && TaskAt(bs, t)
    ensures SameShape(bs, r.blocks)
    ensures r.failure.Some? ==> r.failure.value == ValueError && r.blocks == bs && r.log == []
    ensures forall k :: 0 <= k < |bs| && k != t ==> r.blocks[k] == bs[k]
  {
    match ConvertTime(bs[t], st)
    case Err(e) => Pass(bs, [], Some(e))
    case Ok(b) =>
      ReplaceTask(bs, t, b);
      Pass(bs[t := b], TaskErrors(bs[t := b], t), None)
  }

  /** The task loop of process_tasks over `ts`, stopping at the first failure. */
  function CheckTasks(bs: seq<Block>, ts: seq<nat>, st: Stamps): (r: Pass)
    requires IsTree(Parents(bs)) && TaskList(bs, ts)
    ensures SameShape(bs, r.blocks)
    ensures r.failure.Some? ==> r.failure.value == ValueError
  {
    if ts == [] then Pass(bs, [], None)
    else
      var front, t := ts[..|ts| - 1], ts[|ts| - 1];
      var prev := CheckTasks(bs, front, st);
      if prev.failure.Some? then prev
      else
        assert TaskAt(bs, t);
        SameShapeTasks(bs, prev.blocks, [t]);
        var next := CheckTask(prev.blocks, t, st);
        SameShapeTrans(bs, prev.blocks, next.blocks);
        Pass(next.blocks, prev.log + next.log, next.failure)
  }

  /** The task loop leaves every block that is not one of its tasks as it was. */
  lemma {:induction false} CheckTasksOutside(bs: seq<Block>, ts: seq<nat>, st: Stamps, k: nat)
    requires IsTree(Parents(bs)) && TaskList(bs, ts)
    requires k < |bs| && k !in ts
    ensures CheckTasks(bs, ts, st).blocks[k] == bs[k]
  {
    if ts != [] {
      var front := ts[..|ts| - 1];
      CheckTasksOutside(bs, front, st, k);
    }
  }

  /** The task loop only ever logs entries that record a duration. */
  lemma {:induction false} CheckTasksClosed(bs: seq<Block>, ts: seq<nat>, st: Stamps)
    requires ValidStamps(st) && IsTree(Parents(bs)) && TaskList(bs, ts)
    requires forall k :: 0 <= k < |bs| ==> ClosedLogbook(bs[k])
    ensures forall k :: 0 <= k < |bs| ==> ClosedLogbook(CheckTasks(bs, ts, st).blocks[k])
  {
    if ts != [] {
      var front, t := ts[..|ts| - 1], ts[|ts| - 1];
      CheckTasksClosed(bs, front, st);
      var prev := CheckTasks(bs, front, st);
      if prev.failure.None? {
        assert TaskAt(bs, t);
        SameShapeTasks(bs, prev.blocks, [t]);
        if ConvertTime(prev.blocks[t], st).Ok? {
          ConvertTimeClosed(prev.blocks[t], st);
        }
      }
    }
  }

  /** The task loop keeps a well-formed journal well formed. */
  lemma CheckTasksWellFormed(bs: seq<Block>, ts: seq<nat>, st: Stamps)
    requires ValidStamps(st) && WellFormed(bs) && TaskList(bs, ts)
    ensures WellFormed(CheckTasks(bs, ts, st).blocks)
  {
    CheckTasksClosed(bs, ts, st);
    SameShapeWellFormed(bs, CheckTasks(bs, ts, st).blocks);
  }

  /** The task loop only adds entries to logbooks: an entry a task had stays. */
  lemma {:induction false} CheckTasksKeepsEntries(bs: seq<Block>, ts: seq<nat>, st: Stamps, k: nat, e: LogbookEntry)
    requires IsTree(Parents(bs)) && TaskList(bs, ts)
    requires k < |bs| && bs[k].kind.Task? && e in bs[k].kind.logbook
    ensures CheckTasks(bs, ts, st).blocks[k].kind.Task? && e in CheckTasks(bs, ts, st).blocks[k].kind.logbook
  {
    if ts != [] {
      var front, t := ts[..|ts| - 1], ts[|ts| - 1];
      CheckTasksKeepsEntries(bs, front, st, k, e);
      var prev := CheckTasks(bs, front, st);
      assert SameHeader(bs[k], prev.blocks[k]);
      if prev.failure.None? {
        assert TaskAt(bs, t);
        SameShapeTasks(bs, prev.blocks, [t]);
        if ConvertTime(prev.blocks[t], st).Ok? && k == t && TimeKey in prev.blocks[t].properties {
          TimeConverted(prev.blocks[t], st);
        }
      }
    }
  }

  /** The task loop logs only error lines. */
  lemma {:induction false} CheckTasksErrorLines(bs: seq<Block>, ts: seq<nat>, st: Stamps)
    requires IsTree(Parents(bs)) && TaskList(bs, ts)
    ensures forall i :: 0 <= i < |CheckTasks(bs, ts, st).log| ==> CheckTasks(bs, ts, st).log[i].Error?
  {
    if ts != [] {
      var front, t := ts[..|ts| - 1], ts[|ts| - 1];
      CheckTasksErrorLines(bs, front, st);
    }
  }

  /** Python's `sum` over values that may each raise: the first failure escapes. */
  function SumAll(rs: seq<Result<nat, Failure>>): (r: Result<nat, Failure>)
    ensures r.Err? <==> exists i :: 0 <= i < |rs| && rs[i].Err?
  {
    if rs == [] then Ok(0)
    else
      match SumAll(rs[..|rs| - 1])
      case Err(e) => Err(e)
      case Ok(total) =>
        match rs[|rs| - 1]
        case Err(e) => Err(e)
        case Ok(d) => Ok(total + d)
  }

  /** One more value in front adds to the sum. */
  lemma {:induction false} SumAllFront(d: nat, rs: seq<Result<nat, Failure>>)
    ensures SumAll([Ok(d)] + rs).Ok? <==> SumAll(rs).Ok?
    ensures SumAll(rs).Ok? ==> SumAll([Ok(d)] + rs).value == d + SumAll(rs).value
    decreases |rs|
  {
    if rs == [] {
      assert ([Ok(d)] + rs)[..0] == [];
    } else {
      var front := rs[..|rs| - 1];
      assert ([Ok(d)] + rs)[..|rs|] == [Ok(d)] + front;
      SumAllFront(d, front);
    }
  }

  /** Each value counts towards a sum that succeeds. */
  lemma {:induction false} SumAllCounts(rs: seq<Result<nat, Failure>>, i: nat)
    requires i < |rs| && SumAll(rs).Ok?
    ensures rs[i].Ok? && rs[i].value <= SumAll(rs).value
    decreases |rs|
  {
    if i < |rs| - 1 {
      SumAllCounts(rs[..|rs| - 1], i);
    }
  }

  /** A sum of multiples of the rounding interval is one. */
  lemma {:induction false} SumAllMultiple(rs: seq<Result<nat, Failure>>)
    requires forall i :: 0 <= i < |rs| && rs[i].Ok? ==> rs[i].value % Interval == 0
    ensures SumAll(rs).Ok? ==> SumAll(rs).value % Interval == 0
    decreases |rs|
  {
    if rs != [] {
      SumAllMultiple(rs[..|rs| - 1]);
    }
  }

  /** The failures SumAll can report are those of its values. */
  lemma {:induction false} SumAllFailure(rs: seq<Result<nat, Failure>>, f: Failure)
    requires forall i :: 0 <= i < |rs| && rs[i].Err? ==> rs[i].error == f
    ensures SumAll(rs).Err? ==> SumAll(rs).error == f
    decreases |rs|
  {
    if rs != [] {
      SumAllFailure(rs[..|rs| - 1], f);
    }
  }

  /** The durations of the entries of a logbook, in order. */
  function Durations(es: seq<LogbookEntry>): (ds: seq<Result<nat, Failure>>)
    requires forall e :: e in es ==> Closed(e)
    ensures |ds| == |es| && forall i :: 0 <= i < |es| ==> ds[i] == EntryDuration(es[i])
  {
    if es == [] then [] else [EntryDuration(es[0])] + Durations(es[1..])
  }

  /** `sum(log.duration for log in logbook)`: an unreadable entry is a ValueError. */
  function LogbookSum(es: seq<LogbookEntry>): (r: Result<nat, Failure>)
    requires forall e :: e in es ==> Closed(e)
    ensures r.Err? ==> r.error == ValueError
  {
    var ds := Durations(es);
    SumAllFailure(ds, ValueError);
    SumAll(ds)
  }

  /** Task.get_total_duration: the rounded sum of the logbook. */
  function TaskTotal(b: Block): (r: Result<nat, Failure>)
    requires b.kind.Task? && ClosedLogbook(b)
    ensures r.Err? ==> r.error == ValueError
    ensures r.Ok? ==> r.value % Interval == 0
  {
    match LogbookSum(b.kind.logbook)
    case Err(e) => Err(e)
    case Ok(total) => Ok(RoundDuration(total))
  }

  /** A logbook with one more readable entry in front sums to that entry's duration more. */
  lemma {:induction false} LogbookSumFront(e: LogbookEntry, d: nat, es: seq<LogbookEntry>)
    requires Closed(e) && EntryDuration(e) == Ok(d) && forall x :: x in es ==> Closed(x)
    ensures LogbookSum([e] + es).Ok? <==> LogbookSum(es).Ok?
    ensures LogbookSum(es).Ok? ==> LogbookSum([e] + es).value == d + LogbookSum(es).value
  {
    DurationsFront(e, es);
    SumAllFront(d, Durations(es));
  }

  /** The durations of a logbook with one more entry in front. */
  lemma {:induction false} DurationsFront(e: LogbookEntry, es: seq<LogbookEntry>)
    requires Closed(e) && forall x :: x in es ==> Closed(x)
    ensures Durations([e] + es) == [EntryDuration(e)] + Durations(es)
  {
    assert ([e] + es)[1..] == es;
  }

  /** An entry written for `d` adds `d` to the task's logged time, and a task that could not be summed still cannot. */
  lemma LoggedDurationCounted(b: Block, st: Stamps, d: nat)
    requires b.kind.Task? && ClosedLogbook(b) && ValidStamps(st)
    ensures ClosedLogbook(LogFront(b, FromDuration(st, d)))
    ensures var es, es' := b.kind.logbook, LogFront(b, FromDuration(st, d)).kind.logbook;
      (LogbookSum(es').Ok? <==> LogbookSum(es).Ok?) &&
      (LogbookSum(es).Ok? ==> LogbookSum(es').value == d + LogbookSum(es).value)
  {
    FromDurationRoundTrip(st, d);
    LogbookSumFront(FromDuration(st, d), d, b.kind.logbook);
  }

  /** A task whose logbook holds an entry written for a rounded duration reports at least that duration. */
  lemma TaskTotalCovers(b: Block, st: Stamps, d: nat)
    requires b.kind.Task? && ClosedLogbook(b) && ValidStamps(st) && RoundDuration(d) == d
    requires FromDuration(st, d) in b.kind.logbook && TaskTotal(b).Ok?
    ensures TaskTotal(b).value >= d
  {
    var es := b.kind.logbook;
    var i :| 0 <= i < |es| && es[i] == FromDuration(st, d);
    FromDurationRoundTrip(st, d);
    SumAllCounts(Durations(es), i);
    RoundDurationMonotonic(d, LogbookSum(es).value);
  }

  /** The rounded durations of the tasks at `ts`. */
  function TaskTotals(bs: seq<Block>, ts: seq<nat>): (ds: seq<Result<nat, Failure>>)
    requires TaskList(bs, ts) && forall k :: 0 <= k < |bs| ==> ClosedLogbook(bs[k])
    ensures |ds| == |ts| && forall i :: 0 <= i < |ts| ==> TaskAt(bs, ts[i]) && ds[i] == TaskTotal(bs[ts[i]])
  {
    seq(|ts|, i requires 0 <= i < |ts| => assert TaskAt(bs, ts[i]); TaskTotal(bs[ts[i]]))
  }

  /** `sum(t.get_total_duration() for t in tasks)`: an unreadable entry is a ValueError. */
  function Totals(bs: seq<Block>, ts: seq<nat>): (r: Result<nat, Failure>)
    requires TaskList(bs, ts) && forall k :: 0 <= k < |bs| ==> ClosedLogbook(bs[k])
    ensures r.Err? ==> r.error == ValueError
    ensures r.Ok? ==> r.value % Interval == 0
  {
    var ds := TaskTotals(bs, ts);
    SumAllFailure(ds, ValueError);
    SumAllMultiple(ds);
    SumAll(ds)
  }

  /** Each task counted in a total that adds up reports at most that total. */
  lemma TotalsCount(bs: seq<Block>, ts: seq<nat>, i: nat)
    requires TaskList(bs, ts) && forall k :: 0 <= k < |bs| ==> ClosedLogbook(bs[k])
    requires i < |ts| && Totals(bs, ts).Ok?
    ensures TaskAt(bs, ts[i]) && TaskTotal(bs[ts[i]]).Ok?
    ensures TaskTotal(bs[ts[i]]).value <= Totals(bs, ts).value
  {
    SumAllCounts(TaskTotals(bs, ts), i);
  }

  /** Whether a nested task is found depends only on the shape of the journal. */
  lemma {:induction false} TaskAboveShape(bs: seq<Block>, cs: seq<Block>, k: nat)
    requires IsTree(Parents(bs)) && SameShape(bs, cs) && k < |bs|
    ensures TaskAbove(bs, k) == TaskAbove(cs, k)
    decreases k
  {
    assert SameHeader(bs[k], cs[k]);
    if k > 0 {
      var p := bs[k].parent.value;
      assert SameHeader(bs[p], cs[p]);
      TaskAboveShape(bs, cs, p);
    }
  }

  /** A task logs the same errors in journals of the same shape where it is the same. */
  lemma TaskErrorsShape(bs: seq<Block>, cs: seq<Block>, t: nat)
    requires IsTree(Parents(bs)) && SameShape(bs, cs) && TaskAt(bs, t) && cs[t] == bs[t]
    ensures TaskAt(cs, t) && TaskErrors(cs, t) == TaskErrors(bs, t)
  {
    TaskAboveShape(bs, cs, t);
  }

  /** The error lines the tasks at `ts` log, task after task. */
  function AllTaskErrors(bs: seq<Block>, ts: seq<nat>): seq<LogLine>
    requires IsTree(Parents(bs)) && TaskList(bs, ts)
  {
    if ts == [] then []
    else
      assert TaskAt(bs, ts[|ts| - 1]);
      AllTaskErrors(bs, ts[..|ts| - 1]) + TaskErrors(bs, ts[|ts| - 1])
  }

  /** The error lines of some tasks are the same in journals of the same shape where those tasks are the same. */
  lemma {:induction false} AllTaskErrorsShape(bs: seq<Block>, cs: seq<Block>, ts: seq<nat>)
    requires IsTree(Parents(bs)) && SameShape(bs, cs) && TaskList(bs, ts)
    requires forall i :: 0 <= i < |ts| ==> cs[ts[i]] == bs[ts[i]]
    ensures TaskList(cs, ts) && AllTaskErrors(cs, ts) == AllTaskErrors(bs, ts)
    decreases |ts|
  {
    SameShapeTasks(bs, cs, ts);
    if ts != [] {
      var t := ts[|ts| - 1];
      assert TaskAt(bs, t) && cs[t] == bs[t];
      TaskErrorsShape(bs, cs, t);
      AllTaskErrorsShape(bs, cs, ts[..|ts| - 1]);
    }
  }

  /** A task's error lines are among those of a list of tasks holding it. */
  lemma {:induction false} AllTaskErrorsHas(bs: seq<Block>, ts: seq<nat>, i: nat, line: LogLine)
    requires IsTree(Parents(bs)) && TaskList(bs, ts) && i < |ts|
    requires TaskAt(bs, ts[i]) && line in TaskErrors(bs, ts[i])
    ensures line in AllTaskErrors(bs, ts)
    decreases |ts|
  {
    if i < |ts| - 1 {
      AllTaskErrorsHas(bs, ts[..|ts| - 1], i, line);
    }
  }

  /** One iteration of the task loop that succeeds converts its task and logs its errors. */
  lemma CheckTaskSpec(bs: seq<Block>, t: nat, st: Stamps)
    requires IsTree(Parents(bs)) && TaskAt(bs, t)
    ensures CheckTask(bs, t, st).failure.None? <==> ConvertTime(bs[t], st).Ok?
    ensures CheckTask(bs, t, st).failure.None? ==>
      CheckTask(bs, t, st).blocks == bs[t := ConvertTime(bs[t], st).value] &&
      TaskAt(CheckTask(bs, t, st).blocks, t) &&
      CheckTask(bs, t, st).log == TaskErrors(CheckTask(bs, t, st).blocks, t)
  {
  }

  /** The loop over tasks with one more task at the end, when the loop before it ran to the end. */
  lemma CheckTasksLast(bs: seq<Block>, ts: seq<nat>, st: Stamps)
    requires IsTree(Parents(bs)) && TaskList(bs, ts) && ts != []
    requires CheckTasks(bs, ts[..|ts| - 1], st).failure.None?
    ensures var prev := CheckTasks(bs, ts[..|ts| - 1], st);
      TaskAt(prev.blocks, ts[|ts| - 1]) &&
      CheckTasks(bs, ts, st) ==
        var next := CheckTask(prev.blocks, ts[|ts| - 1], st);
        Pass(next.blocks, prev.log + next.log, next.failure)
  {
    var prev := CheckTasks(bs, ts[..|ts| - 1], st);
    assert TaskAt(bs, ts[|ts| - 1]);
    SameShapeTasks(bs, prev.blocks, [ts[|ts| - 1]]);
  }

  /** The loop over the first `i + 1` tasks is the loop over the first `i` followed by one more iteration. */
  lemma CheckTasksStep(bs: seq<Block>, ts: seq<nat>, st: Stamps, i: nat)
    requires IsTree(Parents(bs)) && TaskList(bs, ts) && i < |ts|
    requires CheckTasks(bs, ts[..i], st).failure.None?
    ensures var prev := CheckTasks(bs, ts[..i], st);
      TaskAt(prev.blocks, ts[i]) &&
      var next := CheckTask(prev.blocks, ts[i], st);
      CheckTasks(bs, ts[..i + 1], st) == Pass(next.blocks, prev.log + next.log, next.failure)
  {
    assert ts[..i + 1][..i] == ts[..i] && ts[..i + 1][i] == ts[i];
    CheckTasksLast(bs, ts[..i + 1], st);
  }

  /** Once a task fails, the loop reads no further task: the journal and the log stay as the failure left them. */
  lemma {:induction false} CheckTasksStops(bs: seq<Block>, ts: seq<nat>, st: Stamps, j: nat)
    requires IsTree(Parents(bs)) && TaskList(bs, ts) && j <= |ts|
    requires TaskList(bs, ts[..j]) && CheckTasks(bs, ts[..j], st).failure.Some?
    ensures CheckTasks(bs, ts, st) == CheckTasks(bs, ts[..j], st)
    decreases |ts|
  {
    if j == |ts| {
      assert ts[..j] == ts;
    } else {
      var front := ts[..|ts| - 1];
      assert front[..j] == ts[..j];
      CheckTasksStops(bs, front, st, j);
    }
  }

  /** In a loop over tasks without repeats that ran to the end, the last task ends up converted. */
  lemma CheckTasksVisitsLast(bs: seq<Block>, ts: seq<nat>, st: Stamps)
    requires IsTree(Parents(bs)) && TaskList(bs, ts) && Distinct(ts)
    requires ts != [] && CheckTasks(bs, ts, st).failure.None?
    ensures TaskAt(bs, ts[|ts| - 1]) && ConvertTime(bs[ts[|ts| - 1]], st).Ok?
    ensures CheckTasks(bs, ts, st).blocks[ts[|ts| - 1]] == ConvertTime(bs[ts[|ts| - 1]], st).value
  {
    var front, t := ts[..|ts| - 1], ts[|ts| - 1];
    assert TaskAt(bs, t);
    var prev := CheckTasks(bs, front, st);
    assert prev.failure.None?;
    CheckTasksLast(bs, ts, st);
    assert t !in front;
    CheckTasksOutside(bs, front, st, t);
    CheckTaskSpec(prev.blocks, t, st);
  }

  /** In a loop over tasks without repeats that ran to the end, each task ends up converted once. */
  lemma {:induction false} CheckTasksVisits(bs: seq<Block>, ts: seq<nat>, st: Stamps, i: nat)
    requires IsTree(Parents(bs)) && TaskList(bs, ts) && Distinct(ts)
    requires i < |ts| && CheckTasks(bs, ts, st).failure.None?
    ensures TaskAt(bs, ts[i]) && ConvertTime(bs[ts[i]], st).Ok?
    ensures CheckTasks(bs, ts, st).blocks[ts[i]] == ConvertTime(bs[ts[i]], st).value
    decreases |ts|
  {
    if i == |ts| - 1 {
      CheckTasksVisitsLast(bs, ts, st);
    } else {
      var front, t := ts[..|ts| - 1], ts[|ts| - 1];
      var prev := CheckTasks(bs, front, st);
      assert prev.failure.None?;
      CheckTasksVisits(bs, front, st, i);
      CheckTasksLast(bs, ts, st);
      assert ts[i] != t;
    }
  }

  /** A loop over tasks without repeats that ran to the end logged each task's errors, task after task. */
  lemma {:induction false} CheckTasksLog(bs: seq<Block>, ts: seq<nat>, st: Stamps)
    requires IsTree(Parents(bs)) && TaskList(bs, ts) && Distinct(ts)
    requires CheckTasks(bs, ts, st).failure.None?
    ensures TaskList(CheckTasks(bs, ts, st).blocks, ts)
    ensures CheckTasks(bs, ts, st).log == AllTaskErrors(CheckTasks(bs, ts, st).blocks, ts)
    decreases |ts|
  {
    var r := CheckTasks(bs, ts, st);
    SameShapeTasks(bs, r.blocks, ts);
    if ts != [] {
      var front, t := ts[..|ts| - 1], ts[|ts| - 1];
      var prev := CheckTasks(bs, front, st);
      assert prev.failure.None?;
      CheckTasksLog(bs, front, st);
      CheckTasksLast(bs, ts, st);
      CheckTaskSpec(prev.blocks, t, st);
      assert forall j :: 0 <= j < |front| ==> front[j] != t;
      AllTaskErrorsShape(prev.blocks, r.blocks, front);
    }
  }

  /** find_tasks lists tasks of the journal. */
  lemma FoundTasks(bs: seq<Block>)
    requires WellFormed(bs)
    ensures TaskList(bs, TasksUnder(bs, 0))
  {
    var ts := TasksUnder(bs, 0);
    forall i | 0 <= i < |ts| ensures TaskAt(bs, ts[i]) {
      assert ts[i] in ts;
    }
  }

  /** `round_duration((num_tasks * switching_cost) * 60)`, the switching cost being in whole minutes. */
  function SwitchingCost(tasks: nat, minutes: nat): (r: nat)
    ensures r % Interval == 0
    ensures r == 0 <==> tasks == 0 || minutes == 0
  {
    RoundDuration(tasks * minutes * 60)
  }

  /** The switching cost is already rounded. */
  lemma SwitchingCostRounded(tasks: nat, minutes: nat)
    ensures RoundDuration(SwitchingCost(tasks, minutes)) == SwitchingCost(tasks, minutes)
  {
    RoundDurationIdempotent(tasks * minutes * 60);
  }

  /**
   * The first step of process_tasks: the switching cost goes to the front of
   * the catch-all block's logbook (AttributeError when that block is no
   * task); without a catch-all block a cost above zero is a warning.
   */
  function Charge(bs: seq<Block>, catchAll: Option<nat>, st: Stamps, cost: nat): (r: Result<(seq<Block>, seq<LogLine>), Failure>)
    requires ValidStamps(st) && WellFormed(bs) && (catchAll.Some? ==> 0 < catchAll.value < |bs|)
    ensures r.Err? <==> catchAll.Some? && bs[catchAll.value].kind.Plain?
    ensures r.Err? ==> r.error == AttributeError
    ensures r.Ok? ==> WellFormed(r.value.0) && SameShape(bs, r.value.0)
    ensures r.Ok? ==> r.value.1 == if catchAll.None? && cost > 0 then [Warning(NoCatchAllMessage)] else []
    ensures r.Ok? ==> forall k :: 0 <= k < |bs| && catchAll != Some(k) ==> r.value.0[k] == bs[k]
    ensures r.Ok? && catchAll.Some? ==>
      var c := catchAll.value;
      r.value.0[c].properties == bs[c].properties &&
      r.value.0[c].kind.logbook == [FromDuration(st, cost)] + bs[c].kind.logbook
  {
    match catchAll
    case None => Ok((bs, if cost > 0 then [Warning(NoCatchAllMessage)] else []))
    case Some(c) =>
      if bs[c].kind.Plain? then Err(AttributeError)
      else Ok((ChargeTask(bs, c, st, cost), []))
  }

  /** The catch-all task `c` with an entry for `cost` seconds in front of its logbook. */
  function ChargeTask(bs: seq<Block>, c: nat, st: Stamps, cost: nat): (r: seq<Block>)
    requires ValidStamps(st) && WellFormed(bs) && 0 < c < |bs| && bs[c].kind.Task?
    ensures WellFormed(r) && SameShape(bs, r)
    ensures forall k :: 0 <= k < |bs| && k != c ==> r[k] == bs[k]
    ensures r[c].properties == bs[c].properties && r[c].kind.logbook == [FromDuration(st, cost)] + bs[c].kind.logbook
  {
    var b := LogFront(bs[c], FromDuration(st, cost));
    LogFrontClosed(bs[c], st, cost);
    ReplaceTask(bs, c, b);
    bs[c := b]
  }

  /** What process_tasks returns. */
  datatype Report = Report(totalDuration: nat, totalSwitchingCost: nat, log: seq<LogLine>)

  /** The journal after process_tasks, the tasks it collated, and what it returned or raised. */
  datatype Reconciled = Reconciled(blocks: seq<Block>, tasks: seq<nat>, outcome: Result<Report, Failure>)

  /** Every task's logbook holds only entries that record a duration. */
  predicate AllClosed(bs: seq<Block>) {
    forall k :: 0 <= k < |bs| ==> ClosedLogbook(bs[k])
  }

  /**
   * The rest of process_tasks once the switching cost is charged: the task
   * loop, then the totals, reported with the warnings logged so far.
   */
  function Finish(bs: seq<Block>, ts: seq<nat>, st: Stamps, cost: nat, warnings: seq<LogLine>): (r: Reconciled)
    requires ValidStamps(st) && IsTree(Parents(bs)) && TaskList(bs, ts) && AllClosed(bs)
    ensures SameShape(bs, r.blocks) && r.tasks == ts
    ensures r.outcome.Err? ==> r.outcome.error == ValueError
  {
    var pass := CheckTasks(bs, ts, st);
    if pass.failure.Some? then Reconciled(pass.blocks, ts, Err(pass.failure.value))
    else
      CheckTasksClosed(bs, ts, st);
      SameShapeTasks(bs, pass.blocks, ts);
      match Totals(pass.blocks, ts)
      case Err(e) => Reconciled(pass.blocks, ts, Err(e))
      case Ok(total) => Reconciled(pass.blocks, ts, Ok(Report(total, cost, warnings + pass.log)))
  }

  /**
   * Journal.process_tasks on a journal with blocks `bs` and catch-all block
   * `catchAll`, writing dates with `st` and charging `switchingMinutes` per
   * task.
   */
  function Reconcile(bs: seq<Block>, catchAll: Option<nat>, st: Stamps, switchingMinutes: nat): (r: Reconciled)
    requires ValidStamps(st) && WellFormed(bs) && (catchAll.Some? ==> 0 < catchAll.value < |bs|)
    ensures SameShape(bs, r.blocks)
    ensures r.outcome.Err? ==> r.outcome.error == AttributeError || r.outcome.error == ValueError
  {
    var ts := TasksUnder(bs, 0);
    var cost := SwitchingCost(|ts|, switchingMinutes);
    match Charge(bs, catchAll, st, cost)
    case Err(e) => Reconciled(bs, ts, Err(e))
    case Ok((charged, warnings)) =>
      FoundTasks(bs);
      SameShapeTasks(bs, charged, ts);
      var r := Finish(charged, ts, st, cost, warnings);
      SameShapeTrans(bs, charged, r.blocks);
      r
  }

  /** The journal the rest of process_tasks leaves is the one its task loop leaves. */
  lemma FinishBlocks(bs: seq<Block>, ts: seq<nat>, st: Stamps, cost: nat, warnings: seq<LogLine>)
    requires ValidStamps(st) && IsTree(Parents(bs)) && TaskList(bs, ts) && AllClosed(bs)
    ensures Finish(bs, ts, st, cost, warnings).blocks == CheckTasks(bs, ts, st).blocks
  {
  }

  /** How process_tasks proceeds once the cost is charged. */
  lemma ReconcileCharged(bs: seq<Block>, catchAll: Option<nat>, st: Stamps, switchingMinutes: nat)
    requires ValidStamps(st) && WellFormed(bs) && (catchAll.Some? ==> 0 < catchAll.value < |bs|)
    ensures var ts := TasksUnder(bs, 0);
      var cost := SwitchingCost(|ts|, switchingMinutes);
      var charge := Charge(bs, catchAll, st, cost);
      charge.Ok? ==>
        TaskList(charge.value.0, ts) && AllClosed(charge.value.0) &&
        Reconcile(bs, catchAll, st, switchingMinutes) == Finish(charge.value.0, ts, st, cost, charge.value.1)
  {
    var ts := TasksUnder(bs, 0);
    var charge := Charge(bs, catchAll, st, SwitchingCost(|ts|, switchingMinutes));
    if charge.Ok? {
      FoundTasks(bs);
      SameShapeTasks(bs, charge.value.0, ts);
    }
  }

  /** process_tasks keeps the journal well formed, whatever its outcome. */
  lemma ReconcileWellFormed(bs: seq<Block>, catchAll: Option<nat>, st: Stamps, switchingMinutes: nat)
    requires ValidStamps(st) && WellFormed(bs) && (catchAll.Some? ==> 0 < catchAll.value < |bs|)
    ensures WellFormed(Reconcile(bs, catchAll, st, switchingMinutes).blocks)
  {
    var ts := TasksUnder(bs, 0);
    var cost := SwitchingCost(|ts|, switchingMinutes);
    var charge := Charge(bs, catchAll, st, cost);
    ReconcileCharged(bs, catchAll, st, switchingMinutes);
    if charge.Ok? {
      FinishBlocks(charge.value.0, ts, st, cost, charge.value.1);
      CheckTasksWellFormed(charge.value.0, ts, st);
    }
  }

  /** process_tasks collates the tasks find_tasks lists. */
  lemma {:induction false} ReconcileTasks(bs: seq<Block>, catchAll: Option<nat>, st: Stamps, switchingMinutes: nat)
    requires ValidStamps(st) && WellFormed(bs) && (catchAll.Some? ==> 0 < catchAll.value < |bs|)
    ensures Reconcile(bs, catchAll, st, switchingMinutes).tasks == TasksUnder(bs, 0)
  {
    ReconcileCharged(bs, catchAll, st, switchingMinutes);
  }

  /** On a contiguous outline, process_tasks collates every task once, in line order. */
  lemma ReconcileTasksInOrder(bs: seq<Block>, catchAll: Option<nat>, st: Stamps, switchingMinutes: nat)
    requires ValidStamps(st) && WellFormed(bs) && Contiguous(Parents(bs))
    requires catchAll.Some? ==> 0 < catchAll.value < |bs|
    ensures Reconcile(bs, catchAll, st, switchingMinutes).tasks == TaskPositions(bs)
  {
    ReconcileTasks(bs, catchAll, st, switchingMinutes);
    TasksInDocumentOrder(bs);
  }

  /** A catch-all block that is no task makes process_tasks raise AttributeError before it changes anything. */
  lemma PlainCatchAllFails(bs: seq<Block>, catchAll: Option<nat>, st: Stamps, switchingMinutes: nat)
    requires ValidStamps(st) && WellFormed(bs) && (catchAll.Some? ==> 0 < catchAll.value < |bs|)
    ensures var r := Reconcile(bs, catchAll, st, switchingMinutes);
      (r.outcome == Err(AttributeError) <==> catchAll.Some? && bs[catchAll.value].kind.Plain?) &&
      (r.outcome == Err(AttributeError) ==> r.blocks == bs)
  {
  }

  /** What the rest of process_tasks reports when it runs to the end. */
  lemma FinishReport(bs: seq<Block>, ts: seq<nat>, st: Stamps, cost: nat, warnings: seq<LogLine>)
    requires ValidStamps(st) && IsTree(Parents(bs)) && TaskList(bs, ts) && AllClosed(bs)
    requires Finish(bs, ts, st, cost, warnings).outcome.Ok?
    ensures var r := Finish(bs, ts, st, cost, warnings);
      var report := r.outcome.value;
      CheckTasks(bs, ts, st).failure.None? && r.blocks == CheckTasks(bs, ts, st).blocks &&
      TaskList(r.blocks, ts) && AllClosed(r.blocks) &&
      Totals(r.blocks, ts) == Ok(report.totalDuration) &&
      report.totalSwitchingCost == cost &&
      report.log == warnings + CheckTasks(bs, ts, st).log
  {
    CheckTasksClosed(bs, ts, st);
    SameShapeTasks(bs, CheckTasks(bs, ts, st).blocks, ts);
  }

  /** process_tasks returns only when the cost could be charged; what it returns then comes from the rest of it. */
  lemma ReconcileReturned(bs: seq<Block>, catchAll: Option<nat>, st: Stamps, switchingMinutes: nat)
    requires ValidStamps(st) && WellFormed(bs) && (catchAll.Some? ==> 0 < catchAll.value < |bs|)
    requires Reconcile(bs, catchAll, st, switchingMinutes).outcome.Ok?
    ensures var ts := TasksUnder(bs, 0);
      var cost := SwitchingCost(|ts|, switchingMinutes);
      var charge := Charge(bs, catchAll, st, cost);
      var r := Reconcile(bs, catchAll, st, switchingMinutes);
      charge.Ok? && TaskList(charge.value.0, ts) && AllClosed(charge.value.0) &&
      r.tasks == ts && r == Finish(charge.value.0, ts, st, cost, charge.value.1) &&
      r.blocks == CheckTasks(charge.value.0, ts, st).blocks &&
      CheckTasks(charge.value.0, ts, st).failure.None? &&
      r.outcome.value.totalSwitchingCost == cost &&
      r.outcome.value.log == charge.value.1 + CheckTasks(charge.value.0, ts, st).log
  {
    var ts := TasksUnder(bs, 0);
    var cost := SwitchingCost(|ts|, switchingMinutes);
    var charge := Charge(bs, catchAll, st, cost);
    ReconcileCharged(bs, catchAll, st, switchingMinutes);
    FinishReport(charge.value.0, ts, st, cost, charge.value.1);
  }

  /** When process_tasks returns, it reports the switching cost for the tasks found, and a total in 5-minute steps. */
  lemma ReconcileTotals(bs: seq<Block>, catchAll: Option<nat>, st: Stamps, switchingMinutes: nat)
    requires ValidStamps(st) && WellFormed(bs) && (catchAll.Some? ==> 0 < catchAll.value < |bs|)
    requires Reconcile(bs, catchAll, st, switchingMinutes).outcome.Ok?
    ensures var r := Reconcile(bs, catchAll, st, switchingMinutes);
      r.outcome.value.totalSwitchingCost == SwitchingCost(|r.tasks|, switchingMinutes) &&
      r.outcome.value.totalDuration % Interval == 0
  {
    ReconcileReturned(bs, catchAll, st, switchingMinutes);
  }

  /** A log made of an optional warning followed by error lines opens with the warning exactly when there is one. */
  lemma WarningThenErrors(warned: bool, errors: seq<LogLine>)
    requires forall i :: 0 <= i < |errors| ==> errors[i].Error?
    ensures var log := (if warned then [Warning(NoCatchAllMessage)] else []) + errors;
      (|log| > 0 && log[0] == Warning(NoCatchAllMessage) <==> warned) &&
      (forall i :: (if warned then 1 else 0) <= i < |log| ==> log[i].Error?)
  {
    if !warned {
      assert (if warned then [Warning(NoCatchAllMessage)] else []) + errors == errors;
    }
  }

  /**
   * When process_tasks returns, its log opens with a warning exactly when a
   * positive switching cost has no catch-all block to go to, and every
   * other line is an error.
   */
  lemma ReconcileWarning(bs: seq<Block>, catchAll: Option<nat>, st: Stamps, switchingMinutes: nat)
    requires ValidStamps(st) && WellFormed(bs) && (catchAll.Some? ==> 0 < catchAll.value < |bs|)
    requires Reconcile(bs, catchAll, st, switchingMinutes).outcome.Ok?
    ensures var report := Reconcile(bs, catchAll, st, switchingMinutes).outcome.value;
      var warned := catchAll.None? && report.totalSwitchingCost > 0;
      (|report.log| > 0 && report.log[0] == Warning(NoCatchAllMessage) <==> warned) &&
      (forall i :: (if warned then 1 else 0) <= i < |report.log| ==> report.log[i].Error?)
  {
    var ts := TasksUnder(bs, 0);
    var cost := SwitchingCost(|ts|, switchingMinutes);
    var charged := Charge(bs, catchAll, st, cost).value.0;
    ReconcileReturned(bs, catchAll, st, switchingMinutes);
    CheckTasksErrorLines(charged, ts, st);
    WarningThenErrors(catchAll.None? && cost > 0, CheckTasks(charged, ts, st).log);
  }

  /** The errors process_tasks logs are those of each task in turn, each as it was left. */
  lemma ReconcileErrors(bs: seq<Block>, catchAll: Option<nat>, st: Stamps, switchingMinutes: nat)
    requires ValidStamps(st) && WellFormed(bs)
    requires catchAll.Some? ==> 0 < catchAll.value < |bs|
    requires Reconcile(bs, catchAll, st, switchingMinutes).outcome.Ok?
    ensures var r := Reconcile(bs, catchAll, st, switchingMinutes);
      var report := r.outcome.value;
      var warned := catchAll.None? && report.totalSwitchingCost > 0;
      IsTree(Parents(r.blocks)) && TaskList(r.blocks, r.tasks) &&
      report.log == (if warned then [Warning(NoCatchAllMessage)] else []) + AllTaskErrors(r.blocks, r.tasks)
  {
    var ts := TasksUnder(bs, 0);
    var charged := Charge(bs, catchAll, st, SwitchingCost(|ts|, switchingMinutes)).value.0;
    ReconcileReturned(bs, catchAll, st, switchingMinutes);
    TasksUnderDistinct(bs, 0);
    CheckTasksLog(charged, ts, st);
  }

  /** The catch-all task's logbook keeps the entry charged with the switching cost, whatever the outcome. */
  lemma CostCharged(bs: seq<Block>, c: nat, st: Stamps, switchingMinutes: nat)
    requires ValidStamps(st) && WellFormed(bs) && 0 < c < |bs| && bs[c].kind.Task?
    ensures var r := Reconcile(bs, Some(c), st, switchingMinutes);
      r.blocks[c].kind.Task? &&
      FromDuration(st, SwitchingCost(|r.tasks|, switchingMinutes)) in r.blocks[c].kind.logbook
  {
    var ts := TasksUnder(bs, 0);
    var cost := SwitchingCost(|ts|, switchingMinutes);
    var charge := Charge(bs, Some(c), st, cost);
    ReconcileCharged(bs, Some(c), st, switchingMinutes);
    ReconcileTasks(bs, Some(c), st, switchingMinutes);
    FinishBlocks(charge.value.0, ts, st, cost, charge.value.1);
    CheckTasksKeepsEntries(charge.value.0, ts, st, c, FromDuration(st, cost));
  }

  /** A task of the journal is among those find_tasks lists. */
  lemma TaskFound(bs: seq<Block>, t: nat) returns (i: nat)
    requires WellFormed(bs) && TaskAt(bs, t)
    ensures i < |TasksUnder(bs, 0)| && TasksUnder(bs, 0)[i] == t
  {
    RootAboveAll(Parents(bs), t);
    TasksUnderComplete(bs, 0, t);
    var ts := TasksUnder(bs, 0);
    i :| 0 <= i < |ts| && ts[i] == t;
  }

  /** A total that adds up covers every entry written for a rounded duration in one of its tasks. */
  lemma TotalsCover(bs: seq<Block>, ts: seq<nat>, st: Stamps, i: nat, d: nat)
    requires ValidStamps(st) && TaskList(bs, ts) && AllClosed(bs) && i < |ts| && Totals(bs, ts).Ok?
    requires RoundDuration(d) == d && TaskAt(bs, ts[i]) && FromDuration(st, d) in bs[ts[i]].kind.logbook
    ensures Totals(bs, ts).value >= d
  {
    TotalsCount(bs, ts, i);
    assert ClosedLogbook(bs[ts[i]]);
    TaskTotalCovers(bs[ts[i]], st, d);
  }

  /** With a catch-all task, the total duration process_tasks reports includes the switching cost. */
  lemma CostIncluded(bs: seq<Block>, c: nat, st: Stamps, switchingMinutes: nat)
    requires ValidStamps(st) && WellFormed(bs) && 0 < c < |bs| && bs[c].kind.Task?
    requires Reconcile(bs, Some(c), st, switchingMinutes).outcome.Ok?
    ensures var report := Reconcile(bs, Some(c), st, switchingMinutes).outcome.value;
      report.totalDuration >= report.totalSwitchingCost
  {
    var r := Reconcile(bs, Some(c), st, switchingMinutes);
    var ts := TasksUnder(bs, 0);
    var cost := SwitchingCost(|ts|, switchingMinutes);
    var charge := Charge(bs, Some(c), st, cost);
    ReconcileReturned(bs, Some(c), st, switchingMinutes);
    FinishReport(charge.value.0, ts, st, cost, charge.value.1);
    CostCharged(bs, c, st, switchingMinutes);
    var i := TaskFound(bs, c);
    SwitchingCostRounded(|ts|, switchingMinutes);
    TotalsCover(r.blocks, ts, st, i, cost);
  }

  /**
   * When process_tasks returns, each task is what converting its `time::`
   * property made of it, after the switching cost was charged.
   */
  lemma ReconciledTask(bs: seq<Block>, catchAll: Option<nat>, st: Stamps, switchingMinutes: nat, t: nat)
    requires ValidStamps(st) && WellFormed(bs) && TaskAt(bs, t)
    requires catchAll.Some? ==> 0 < catchAll.value < |bs|
    requires Reconcile(bs, catchAll, st, switchingMinutes).outcome.Ok?
    ensures var ts := TasksUnder(bs, 0);
      var charged := Charge(bs, catchAll, st, SwitchingCost(|ts|, switchingMinutes));
      charged.Ok? && TaskAt(charged.value.0, t) &&
      var c := charged.value.0[t];
      c.properties == bs[t].properties && c.content == bs[t].content &&
      ConvertTime(c, st).Ok? &&
      Reconcile(bs, catchAll, st, switchingMinutes).blocks[t] == ConvertTime(c, st).value
  {
    var ts := TasksUnder(bs, 0);
    var cost := SwitchingCost(|ts|, switchingMinutes);
    ReconcileReturned(bs, catchAll, st, switchingMinutes);
    ChargedTask(bs, catchAll, st, cost, t);
    var charged := Charge(bs, catchAll, st, cost).value.0;
    var i := TaskFound(bs, t);
    TasksUnderDistinct(bs, 0);
    CheckTasksVisits(charged, ts, st, i);
  }

  /** Charging the switching cost leaves the properties and content of every task as they were. */
  lemma ChargedTask(bs: seq<Block>, catchAll: Option<nat>, st: Stamps, cost: nat, t: nat)
    requires ValidStamps(st) && WellFormed(bs) && TaskAt(bs, t)
    requires catchAll.Some? ==> 0 < catchAll.value < |bs|
    requires Charge(bs, catchAll, st, cost).Ok?
    ensures var charged := Charge(bs, catchAll, st, cost).value.0;
      TaskAt(charged, t) && charged[t].properties == bs[t].properties && charged[t].content == bs[t].content
  {
  }

  /** A valid `time::` property is gone once process_tasks returns, and its rounded duration heads the task's logbook. */
  lemma TimeReplaced(bs: seq<Block>, catchAll: Option<nat>, st: Stamps, switchingMinutes: nat, t: nat)
    requires ValidStamps(st) && WellFormed(bs) && TaskAt(bs, t)
    requires catchAll.Some? ==> 0 < catchAll.value < |bs|
    requires Reconcile(bs, catchAll, st, switchingMinutes).outcome.Ok?
    requires TimeKey in bs[t].properties && DurationInput(bs[t].properties[TimeKey]).Ok?
    ensures var b := Reconcile(bs, catchAll, st, switchingMinutes).blocks[t];
      TimeKey !in b.properties && b.properties == bs[t].properties - {TimeKey} &&
      b.kind.Task? && b.kind.logbook != [] &&
      b.kind.logbook[0] == FromDuration(st, RoundDuration(DurationInput(bs[t].properties[TimeKey]).value))
  {
    var ts := TasksUnder(bs, 0);
    var charged := Charge(bs, catchAll, st, SwitchingCost(|ts|, switchingMinutes)).value.0;
    ReconciledTask(bs, catchAll, st, switchingMinutes, t);
    TimeConverted(charged[t], st);
  }

  /**
   * An invalid `time::` property stays in place once process_tasks returns,
   * and the task's errors end with the invalid-format error.
   */
  lemma TimeRejected(bs: seq<Block>, catchAll: Option<nat>, st: Stamps, switchingMinutes: nat, t: nat)
    requires ValidStamps(st) && WellFormed(bs) && TaskAt(bs, t)
    requires catchAll.Some? ==> 0 < catchAll.value < |bs|
    requires Reconcile(bs, catchAll, st, switchingMinutes).outcome.Ok?
    requires TimeKey in bs[t].properties && DurationInput(bs[t].properties[TimeKey]).Err?
    ensures var r := Reconcile(bs, catchAll, st, switchingMinutes);
      TimeKey in r.blocks[t].properties && r.blocks[t].properties[TimeKey] == bs[t].properties[TimeKey] &&
      ErrorLine(TimeFormatMessage, bs[t].content) in r.outcome.value.log
  {
    var r := Reconcile(bs, catchAll, st, switchingMinutes);
    var ts := TasksUnder(bs, 0);
    var charged := Charge(bs, catchAll, st, SwitchingCost(|ts|, switchingMinutes)).value.0;
    ReconciledTask(bs, catchAll, st, switchingMinutes, t);
    TimeConverted(charged[t], st);
    assert r.blocks[t] == charged[t];
    ReconcileReturned(bs, catchAll, st, switchingMinutes);
    TimeFormatLogged(r.blocks, t);
    TaskErrorsLogged(bs, catchAll, st, switchingMinutes, t, ErrorLine(TimeFormatMessage, bs[t].content));
  }

  /** A task that keeps a `time::` property gets the invalid-format error. */
  lemma TimeFormatLogged(bs: seq<Block>, t: nat)
    requires IsTree(Parents(bs)) && TaskAt(bs, t) && TimeKey in bs[t].properties
    ensures ErrorLine(TimeFormatMessage, bs[t].content) in TaskErrors(bs, t)
  {
    ErrorsInRuleOrder(bs, t);
    var msgs := Flatten(ValidationErrors(bs, t));
    assert msgs[|msgs| - 1] == TimeFormatMessage;
  }

  /** Every error line of every task reaches the log process_tasks returns. */
  lemma TaskErrorsLogged(bs: seq<Block>, catchAll: Option<nat>, st: Stamps, switchingMinutes: nat, t: nat, line: LogLine)
    requires ValidStamps(st) && WellFormed(bs) && TaskAt(bs, t)
    requires catchAll.Some? ==> 0 < catchAll.value < |bs|
    requires Reconcile(bs, catchAll, st, switchingMinutes).outcome.Ok?
    requires var r := Reconcile(bs, catchAll, st, switchingMinutes);
      IsTree(Parents(r.blocks)) && TaskAt(r.blocks, t) && line in TaskErrors(r.blocks, t)
    ensures line in Reconcile(bs, catchAll, st, switchingMinutes).outcome.value.log
  {
    var r := Reconcile(bs, catchAll, st, switchingMinutes);
    ReconcileErrors(bs, catchAll, st, switchingMinutes);
    ReconcileTasks(bs, catchAll, st, switchingMinutes);
    var i := TaskFound(bs, t);
    AllTaskErrorsHas(r.blocks, r.tasks, i, line);
  }

  /**
   * A `time::` property whose magnitude is no integer makes process_tasks
   * raise ValueError, unless the catch-all block is no task.
   */
  lemma TimeValueError(bs: seq<Block>, catchAll: Option<nat>, st: Stamps, switchingMinutes: nat, t: nat)
    requires ValidStamps(st) && WellFormed(bs) && TaskAt(bs, t)
    requires catchAll.Some? ==> 0 < catchAll.value < |bs| && bs[catchAll.value].kind.Task?
    requires TimeKey in bs[t].properties && DurationInput(bs[t].properties[TimeKey]) == Err(ValueError)
    ensures Reconcile(bs, catchAll, st, switchingMinutes).outcome == Err(ValueError)
  {
    PlainCatchAllFails(bs, catchAll, st, switchingMinutes);
    if Reconcile(bs, catchAll, st, switchingMinutes).outcome.Ok? {
      ReconciledTask(bs, catchAll, st, switchingMinutes, t);
      assert false;
    }
  }
}
