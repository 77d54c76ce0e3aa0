/**
 * The journal as the program holds it: an object whose blocks, catch-all
 * block and collated tasks are updated in place by parse_journal's line
 * loop and by process_tasks. Each method is proved to leave the state the
 * corresponding function of the parser or of the reconciliation describes.
 */
module Journals {
  import opened Wrappers
  import opened Text
  import opened Duration
  import opened Logbook
  import opened Blocks
  import opened Tree
  import opened Parser
  import opened Reconciliation

  /**
   * A journal. Its blocks are kept in line order, the journal itself first;
   * parents and children are positions in that list.
   */
  class Journal {
    var blocks: seq<Block>
    /** `_catch_all_block`, as a position. */
    var catchAll: Option<nat>
    /** `_tasks`: absent until process_tasks collates them. */
    var tasks: Option<seq<nat>>
    /** The journal's date, as the rendered timestamps of the entries written for it. */
    const stamps: Stamps

    /** The blocks form a tree whose children lists match the parent links, and the catch-all block is one of them. */
    ghost predicate Valid()
      reads this
    {
      ValidStamps(stamps) && WellFormed(blocks) && (catchAll.Some? ==> 0 < catchAll.value < |blocks|)
    }

    /** Journal.__init__: the journal block alone, at indent -1, with no catch-all block and no tasks. */
    constructor(stamps: Stamps)
      requires ValidStamps(stamps)
      ensures Valid() && this.stamps == stamps
      ensures blocks == Start().blocks && catchAll == Start().catchAll && tasks == None
    {
      this.stamps := stamps;
      blocks := [Root()];
      catchAll := None;
      tasks := None;
      new;
      assert Parents(blocks) == [None];
    }

    /**
     * Block.add_line on block `k`: the block takes the line as WithLine
     * sorts and records it; a repeated property key fails and changes nothing.
     */
    method AddLine(k: nat, line: string) returns (r: Result<(), Failure>)
      requires Valid() && k < |blocks|
      modifies this
      ensures Valid() && catchAll == old(catchAll) && tasks == old(tasks)
      ensures match WithLine(old(blocks)[k], line)
        case Err(e) => r == Err(e) && blocks == old(blocks)
        case Ok(b) => r == Ok(()) && blocks == old(blocks)[k := b]
    {
      var processed := WithLine(blocks[k], line);
      if processed.Err? {
        return Err(processed.error);
      }
      WithLineSpec(blocks[k], line);
      WithLineClosed(blocks[k], line);
      UpdateWellFormed(blocks, k, processed.value);
      blocks := blocks[k := processed.value];
      r := Ok(());
    }

    /**
     * The end of Block.__init__ with a parent: the new block `b` is appended
     * to the journal and, as the last child, to its parent's children.
     */
    method AddBlock(b: Block) returns (k: nat)
      requires Valid() && b.parent.Some? && b.parent.value < |blocks|
      requires b.children == [] && ClosedLogbook(b)
      modifies this
      ensures Valid() && catchAll == old(catchAll) && tasks == old(tasks)
      ensures k == |old(blocks)| && blocks == AddChild(old(blocks), b) && blocks[k] == b
      ensures blocks[b.parent.value].children == old(blocks)[b.parent.value].children + [k]
    {
      AddChildWellFormed(blocks, b);
      k := |blocks|;
      blocks := AddChild(blocks, b);
    }

    /** The catch_all_block setter: registering a second, different block is a ParseError. */
    method SetCatchAllBlock(k: nat) returns (r: Result<(), Failure>)
      requires Valid() && 0 < k < |blocks|
      modifies this
      ensures Valid() && blocks == old(blocks) && tasks == old(tasks)
      ensures match SetCatchAll(old(catchAll), k)
        case Err(e) => r == Err(e) && catchAll == old(catchAll)
        case Ok(c) => r == Ok(()) && catchAll == c
    {
      if catchAll.Some? && catchAll.value != k {
        return Err(ParseError(CatchAllMessage));
      }
      catchAll := Some(k);
      r := Ok(());
    }

    /** Task.add_to_logbook: an entry for `d` seconds goes in front of the task's logbook. */
    method AddToLogbook(t: nat, d: nat)
      requires Valid() && TaskAt(blocks, t)
      modifies this
      ensures Valid() && catchAll == old(catchAll) && tasks == old(tasks)
      ensures blocks == old(blocks)[t := LogFront(old(blocks)[t], FromDuration(stamps, d))]
    {
      var entry := FromDuration(stamps, d);
      LogFrontClosed(blocks[t], stamps, d);
      UpdateWellFormed(blocks, t, LogFront(blocks[t], entry));
      blocks := blocks[t := blocks[t].(kind := blocks[t].kind.(logbook := [entry] + blocks[t].kind.logbook))];
    }

    /**
     * Task.validate: the broken rules of task `t` grouped by error type,
     * the types in the order they first occur.
     */
    method Validate(t: nat) returns (errors: seq<(string, seq<string>)>)
      requires IsTree(Parents(blocks)) && TaskAt(blocks, t)
      ensures errors == ValidationErrors(blocks, t)
    {
      var task := blocks[t].kind;
      ghost var rules := Violations(blocks, t);
      ghost var broken: seq<(string, string)> := [];
      errors := [];
      errors, broken := AddErrorWhen(task.keyword == "NOW", errors, broken, "keyword", RunningMessage);
      var nested := HasTaskAbove(t);
      errors, broken := AddErrorWhen(nested, errors, broken, "keyword", NestedMessage);
      errors, broken := AddErrorWhen(task.taskId.None? || task.taskId.value == "", errors, broken, "task_id", NoIdMessage);
      errors, broken := AddErrorWhen(task.logbook == [], errors, broken, "duration", NoDurationMessage);
      errors, broken := AddErrorWhen(TimeKey in blocks[t].properties, errors, broken, "duration", TimeFormatMessage);
      assert broken == rules;
    }

    /** Task.validate's nested-task check: walks the parent links up to the journal, stopping at the first task. */
    method HasTaskAbove(t: nat) returns (found: bool)
      requires IsTree(Parents(blocks)) && t < |blocks|
      ensures found == TaskAbove(blocks, t)
    {
      var ps := Parents(blocks);
      var p: Option<nat> := blocks[t].parent;
      assert p == ps[t];
      while p.Some?
        invariant p.Some? ==> p.value < |blocks|
        invariant TaskAbove(blocks, t) <==> p.Some? && (blocks[p.value].kind.Task? || TaskAbove(blocks, p.value))
        decreases if p.Some? then p.value + 1 else 0
      {
        if blocks[p.value].kind.Task? {
          return true;
        }
        assert ps[p.value] == blocks[p.value].parent;
        p := blocks[p.value].parent;
      }
      return false;
    }

    /**
     * The `time::` step of process_tasks' loop on task `t`: a property
     * that reads as a duration is deleted and its rounded duration logged
     * in front; one that raises ParseError stays; any other failure
     * propagates and changes nothing.
     */
    method ConvertTimeProperty(t: nat) returns (r: Result<(), Failure>)
      requires Valid() && TaskAt(blocks, t)
      modifies this
      ensures Valid() && catchAll == old(catchAll) && tasks == old(tasks)
      ensures match ConvertTime(old(blocks)[t], stamps)
        case Err(e) => r == Err(e) && blocks == old(blocks)
        case Ok(b) => r == Ok(()) && blocks == old(blocks)[t := b]
    {
      r := Ok(());
      if TimeKey in blocks[t].properties {
        var seconds := ParseDurationInput(blocks[t].properties[TimeKey]);
        match seconds
        case Err(ParseError(_)) =>
        case Err(e) => r := Err(e);
        case Ok(s) => ReplaceTimeProperty(t, s);
      }
    }

    /** A readable `time::` property is removed and its rounded duration logged in front. */
    method ReplaceTimeProperty(t: nat, seconds: nat)
      requires Valid() && TaskAt(blocks, t) && TimeKey in blocks[t].properties
      requires DurationInput(blocks[t].properties[TimeKey]) == Ok(seconds)
      modifies this
      ensures Valid() && catchAll == old(catchAll) && tasks == old(tasks)
      ensures ConvertTime(old(blocks)[t], stamps).Ok?
      ensures blocks == old(blocks)[t := ConvertTime(old(blocks)[t], stamps).value]
    {
      ReadableTimeConverted(blocks[t], stamps, seconds);
      ConvertTimeClosed(blocks[t], stamps);
      var b := blocks[t].(properties := blocks[t].properties - {TimeKey});
      var converted := LogFront(b, FromDuration(stamps, RoundDuration(seconds)));
      UpdateWellFormed(blocks, t, converted);
      blocks := blocks[t := converted];
    }

    /**
     * The first step of process_tasks: the switching cost is logged in
     * front of the catch-all task's logbook, which fails when the
     * catch-all block is no task, or becomes a warning when there is no
     * catch-all block and the cost is not zero.
     */
    method ChargeSwitchingCost(cost: nat) returns (r: Result<seq<LogLine>, Failure>)
      requires Valid()
      modifies this
      ensures Valid() && catchAll == old(catchAll) && tasks == old(tasks)
      ensures match Charge(old(blocks), catchAll, stamps, cost)
        case Err(e) => r == Err(e) && blocks == old(blocks)
        case Ok((charged, warnings)) => r == Ok(warnings) && blocks == charged
    {
      if catchAll.Some? {
        if blocks[catchAll.value].kind.Plain? {
          return Err(AttributeError);
        }
        AddToLogbook(catchAll.value, cost);
        return Ok([]);
      }
      r := Ok(if cost > 0 then [Warning(NoCatchAllMessage)] else []);
    }

    /**
     * One iteration of process_tasks' task loop on task `t`: its `time::`
     * property is converted, then its errors are validated and logged.
     */
    method CheckTaskStep(t: nat) returns (r: Result<seq<LogLine>, Failure>)
      requires Valid() && TaskAt(blocks, t)
      modifies this
      ensures Valid() && catchAll == old(catchAll) && tasks == old(tasks)
      ensures var pass := CheckTask(old(blocks), t, stamps);
        blocks == pass.blocks &&
        match pass.failure
        case Some(e) => r == Err(e)
        case None => r == Ok(pass.log)
    {
      CheckTaskSpec(blocks, t, stamps);
      var converted := ConvertTimeProperty(t);
      if converted.Err? {
        return Err(converted.error);
      }
      var errors := Validate(t);
      var lines := ErrorLog(errors, blocks[t].content);
      r := Ok(lines);
    }

    /**
     * The task loop of process_tasks over `ts`: each task in turn is
     * converted and validated, its error lines logged; the first failure
     * ends the loop.
     */
    method CheckAllTasks(ts: seq<nat>) returns (r: Result<seq<LogLine>, Failure>)
      requires Valid() && TaskList(blocks, ts)
      modifies this
      ensures Valid() && catchAll == old(catchAll) && tasks == old(tasks)
      ensures var pass := CheckTasks(old(blocks), ts, stamps);
        blocks == pass.blocks &&
        match pass.failure
        case Some(e) => r == Err(e)
        case None => r == Ok(pass.log)
    {
      ghost var start := blocks;
      var log := [];
      for i := 0 to |ts|
        invariant Valid() && catchAll == old(catchAll) && tasks == old(tasks)
        invariant CheckTasks(start, ts[..i], stamps) == Pass(blocks, log, None)
      {
        CheckTasksStep(start, ts, stamps, i);
        var step := CheckTaskStep(ts[i]);
        if step.Err? {
          CheckTasksStops(start, ts, stamps, i + 1);
          return Err(step.error);
        }
        log := log + step.value;
      }
      assert ts[..|ts|] == ts;
      r := Ok(log);
    }

    /**
     * Journal.process_tasks: collates the tasks, charges the switching cost,
     * runs the task loop and sums the rounded task durations. The journal is
     * left as the reconciliation describes it, also when a failure
     * interrupts it.
     */
    method ProcessTasks(switchingMinutes: nat) returns (r: Result<Report, Failure>)
      requires Valid()
      modifies this
      ensures Valid() && catchAll == old(catchAll)
      ensures var expected := Reconcile(old(blocks), old(catchAll), stamps, switchingMinutes);
        blocks == expected.blocks && tasks == Some(expected.tasks) && r == expected.outcome
    {
      ghost var original := blocks;
      var ts := TasksUnder(blocks, 0);
      tasks := Some(ts);
      var cost := RoundDuration((|ts| * switchingMinutes) * 60);
      var charged := ChargeSwitchingCost(cost);
      if charged.Err? {
        return Err(charged.error);
      }
      ReconcileCharged(original, catchAll, stamps, switchingMinutes);
      ghost var start := blocks;
      var checked := CheckAllTasks(ts);
      if checked.Err? {
        return Err(checked.error);
      }
      CheckTasksClosed(start, ts, stamps);
      SameShapeTasks(start, blocks, ts);
      match Totals(blocks, ts)
      case Err(e) => r := Err(e);
      case Ok(total) => r := Ok(Report(total, cost, charged.value + checked.value));
    }
  }

  /**
   * Task.validate's `add_error`, called when a rule is broken: the message
   * joins the list of its error type, which is created when missing.
   */
  method AddErrorWhen(broken: bool, errors: seq<(string, seq<string>)>, ghost found: seq<(string, string)>,
                      key: string, msg: string)
    returns (errors': seq<(string, seq<string>)>, ghost found': seq<(string, string)>)
    requires errors == Grouped(found)
    ensures found' == found + (if broken then [(key, msg)] else [])
    ensures errors' == Grouped(found')
  {
    if broken {
      GroupedSnoc(found, (key, msg));
      errors', found' := AddError(errors, key, msg), found + [(key, msg)];
    } else {
      errors', found' := errors, found;
    }
  }

  /** Adding one more violation adds it to the dictionary of errors. */
  lemma GroupedSnoc(vs: seq<(string, string)>, v: (string, string))
    ensures Grouped(vs + [v]) == AddError(Grouped(vs), v.0, v.1)
  {
    assert (vs + [v])[..|vs|] == vs;
  }

  /**
   * The logging in process_tasks of a task's errors: one error line per
   * message, group after group, each naming the task's content.
   */
  method ErrorLog(groups: seq<(string, seq<string>)>, content: string) returns (lines: seq<LogLine>)
    ensures lines == ErrorLines(Flatten(groups), content)
  {
    lines := [];
    for i := 0 to |groups|
      invariant lines == ErrorLines(Flatten(groups[..i]), content)
    {
      var messages := groups[i].1;
      for j := 0 to |messages|
        invariant lines == ErrorLines(Flatten(groups[..i]) + messages[..j], content)
      {
        assert messages[..j + 1] == messages[..j] + [messages[j]];
        lines := lines + [ErrorLine(messages[j], content)];
      }
      assert groups[..i + 1][..i] == groups[..i];
      assert messages[..|messages|] == messages;
    }
    assert groups[..|groups|] == groups;
  }

  /**
   * parse_journal over the lines of a journal file. The journal built, or
   * the failure raised, is the one the parser's fold over the lines
   * describes.
   */
  method ParseJournal(lines: seq<string>, stamps: Stamps) returns (r: Result<Journal, Failure>)
    requires ValidStamps(stamps)
    ensures r.Err? ==> Run(lines) == Err(r.error)
    ensures r.Ok? ==>
      fresh(r.value) && r.value.Valid() && r.value.stamps == stamps && r.value.tasks == None &&
      Run(lines) == Ok(ParseState(r.value.blocks, r.value.catchAll))
  {
    var journal := new Journal(stamps);
    var current: nat := 0;
    for i := 0 to |lines|
      invariant fresh(journal) && journal.Valid() && journal.stamps == stamps && journal.tasks == None
      invariant Run(lines[..i]) == Ok(ParseState(journal.blocks, journal.catchAll))
      invariant journal.blocks[0].content == "" && current == |journal.blocks| - 1
    {
      RunStep(lines, i);
      var next := ReadLine(journal, current, lines[i]);
      if next.Err? {
        RunFailureSticks(lines, i + 1);
        return Err(next.error);
      }
      current := next.value;
    }
    assert lines[..|lines|] == lines;
    return Ok(journal);
  }

  /**
   * One iteration of parse_journal's line loop with the cursor at the
   * last block: a line that is no bullet goes to the current block's
   * add_line, and a bullet opens a new current block.
   */
  method ReadLine(journal: Journal, current: nat, line: string) returns (r: Result<nat, Failure>)
    requires journal.Valid() && IndentsIncrease(journal.blocks)
    requires journal.blocks[0].content == "" && current == |journal.blocks| - 1
    modifies journal
    ensures journal.tasks == old(journal.tasks)
    ensures match Step(old(ParseState(journal.blocks, journal.catchAll)), line)
      case Err(e) => r == Err(e)
      case Ok(st) =>
        r == Ok(|journal.blocks| - 1) && st == ParseState(journal.blocks, journal.catchAll) &&
        journal.Valid() && journal.blocks[0].content == ""
  {
    var content := Strip(line);
    if StartsWith(content, "-") {
      r := ReadBullet(journal, current, line);
    } else {
      r := ReadContinuation(journal, current, content);
    }
  }

  /** A line that is no bullet: it goes to the current block's add_line and the cursor stays. */
  method ReadContinuation(journal: Journal, current: nat, content: string) returns (r: Result<nat, Failure>)
    requires journal.Valid() && journal.blocks[0].content == "" && current == |journal.blocks| - 1
    modifies journal
    ensures journal.tasks == old(journal.tasks)
    ensures match Continue(old(ParseState(journal.blocks, journal.catchAll)), content)
      case Err(e) => r == Err(e)
      case Ok(st) =>
        r == Ok(|journal.blocks| - 1) && st == ParseState(journal.blocks, journal.catchAll) &&
        journal.Valid() && journal.blocks[0].content == ""
  {
    WithLineSpec(journal.blocks[current], content);
    var added := journal.AddLine(current, content);
    if added.Err? {
      return Err(added.error);
    }
    r := Ok(current);
  }

  /**
   * A bullet line: the new block goes under the block the cursor walks up
   * to, becomes the current block, and is registered when it carries the
   * catch-all tag.
   */
  method ReadBullet(journal: Journal, current: nat, line: string) returns (r: Result<nat, Failure>)
    requires journal.Valid() && IndentsIncrease(journal.blocks)
    requires journal.blocks[0].content == "" && current == |journal.blocks| - 1
    modifies journal
    ensures journal.tasks == old(journal.tasks)
    ensures match Open(old(ParseState(journal.blocks, journal.catchAll)), line)
      case Err(e) => r == Err(e)
      case Ok(st) =>
        r == Ok(|journal.blocks| - 1) && st == ParseState(journal.blocks, journal.catchAll) &&
        journal.Valid() && journal.blocks[0].content == ""
  {
    ghost var st := ParseState(journal.blocks, journal.catchAll);
    var indent := CountChar(line, '\t');
    var content := Strip(line);
    var parent := FindParent(journal.blocks, current, indent);
    TaskLineHasSpace(line);
    var b := NewBlock(indent, content, parent);
    assert b == Opened(line, parent);
    var k := journal.AddBlock(b);
    if Contains(journal.blocks[k].content, CatchAllTag) {
      var registered := journal.SetCatchAllBlock(k);
      if registered.Err? {
        assert Open(st, line) == Err(registered.error);
        return Err(registered.error);
      }
    }
    assert Open(st, line) == Ok(ParseState(journal.blocks, journal.catchAll));
    r := Ok(k);
  }

  /**
   * The cursor step of parse_journal for a bullet at `indent`: a deeper
   * bullet goes under the current block, one at the same indent under its
   * parent, and a shallower one under the block reached by walking up
   * while the indent is not below the bullet's.
   */
  method FindParent(bs: seq<Block>, current: nat, indent: nat) returns (parent: nat)
    requires IsTree(Parents(bs)) && bs[0].indent == -1 && IndentsIncrease(bs) && current == |bs| - 1
    ensures parent == Attach(bs, current, indent)
  {
    if indent > bs[current].indent {
      parent := current;
    } else if indent == bs[current].indent {
      assert Parents(bs)[current] == bs[current].parent;
      parent := bs[current].parent.value;
    } else {
      var cursor: nat := current;
      while indent <= bs[cursor].indent
        invariant cursor < |bs| && Attach(bs, cursor, indent) == Attach(bs, current, indent)
        decreases cursor
      {
        assert Parents(bs)[cursor] == bs[cursor].parent;
        cursor := bs[cursor].parent.value;
      }
      parent := cursor;
    }
  }
}
