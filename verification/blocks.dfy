/**
 * Blocks of a journal outline: the content of a bullet line, the header of a
 * task (keyword, optional task id, description), and how a continuation line
 * is sorted into a property, a logbook entry, a dropped line or extra text.
 */
module Blocks {
  import opened Wrappers
  import opened Text
  import opened Logbook

  /** What a task holds beyond a plain block. */
  datatype Kind =
    | Plain
    | Task(keyword: string, taskId: Option<string>, description: string, logbook: seq<LogbookEntry>)

  /**
   * One block of the outline. `parent` and `children` are positions in the
   * journal's list of blocks; the journal itself is the block at position 0.
   */
  datatype Block = Block(
    indent: int,
    content: string,
    parent: Option<nat>,
    children: seq<nat>,
    properties: map<string, string>,
    extraLines: seq<string>,
    kind: Kind)

  /** A stripped line that opens a task: `- NOW ` or `- LATER `. */
  predicate IsTaskLine(content: string) {
    StartsWith(content, "- NOW ") || StartsWith(content, "- LATER ")
  }

  /** Block.__init__: the text without its first `-`, stripped. */
  function BlockContent(line: string): string {
    Strip(RemoveFirst(line, '-'))
  }

  /** `[A-Z]+-\d+`: one or more capitals, a dash and one or more digits. */
  predicate IsTicketKey(s: string) {
    match IndexOf(s, '-')
    case None => false
    case Some(i) =>
      0 < i < |s| - 1 && (forall k :: 0 <= k < i ==> IsUpper(s[k])) && AllDigits(s[i + 1..])
  }

  /**
   * TASK_ID_RE.match: a ticket key, an optional colon, and then the end of
   * the text or a final newline (before which `$` also matches).
   */
  predicate MatchesTaskId(t: string) {
    var u := if EndsWith(t, "\n") then t[..|t| - 1] else t;
    IsTicketKey(u) || (EndsWith(u, ":") && IsTicketKey(u[..|u| - 1]))
  }

  /** The parts of a task's header. */
  datatype Header = Header(keyword: string, taskId: Option<string>, description: string)

  /** The text after a task's keyword. */
  function AfterKeyword(content: string): string
    requires ' ' in content
  {
    FieldAfter(content, ' ').value
  }

  /**
   * Task.__init__: `content.split(' ', 2)` gives the keyword, a candidate
   * task id and the rest. The id is kept, colons stripped, when it matches
   * TASK_ID_RE; the description is the space-join of what follows the id,
   * or of everything after the keyword when there is no id.
   */
  function TaskHeader(content: string): (h: Header)
    requires ' ' in content
    ensures h.keyword == FieldBefore(content, ' ')
    ensures h.taskId.Some? <==> MatchesTaskId(FieldBefore(AfterKeyword(content), ' '))
    ensures h.taskId.Some? ==>
      h.taskId.value == TrimChar(FieldBefore(AfterKeyword(content), ' '), ':') &&
      h.description == match FieldAfter(AfterKeyword(content), ' ') case None => "" case Some(t) => t
    ensures h.taskId.None? ==> h.description == AfterKeyword(content)
  {
    var pieces := SplitMax(content, ' ', 2);
    var keyword, remainder := pieces[0], pieces[1..];
    if MatchesTaskId(remainder[0]) then
      Header(keyword, Some(TrimChar(remainder[0], ':')), Join(remainder[1..], " "))
    else
      Header(keyword, None, Join(remainder, " "))
  }

  /** A header whose first word after the keyword is a task id. */
  lemma TaskHeaderWithId(keyword: string, id: string, description: string)
    requires ' ' !in keyword && ' ' !in id && MatchesTaskId(id)
    ensures TaskHeader(keyword + " " + id + " " + description) ==
      Header(keyword, Some(TrimChar(id, ':')), description)
  {
    var rest := id + " " + description;
    assert keyword + " " + id + " " + description == keyword + [' '] + rest;
    FieldsAround(keyword, ' ', rest);
    FieldsAround(id, ' ', description);
  }

  /** A header whose id is the last word: the description is empty. */
  lemma TaskHeaderIdOnly(keyword: string, id: string)
    requires ' ' !in keyword && ' ' !in id && MatchesTaskId(id)
    ensures TaskHeader(keyword + " " + id) == Header(keyword, Some(TrimChar(id, ':')), "")
  {
    FieldsAround(keyword, ' ', id);
    FieldsWithout(id, ' ');
  }

  /** A header whose first word after the keyword is no task id: all of it is the description. */
  lemma TaskHeaderWithoutId(keyword: string, rest: string)
    requires ' ' !in keyword && !MatchesTaskId(FieldBefore(rest, ' '))
    ensures TaskHeader(keyword + " " + rest) == Header(keyword, None, rest)
  {
    FieldsAround(keyword, ' ', rest);
  }

  /** Text split at its first dash is a ticket key exactly when capitals come before it and digits after it. */
  lemma TicketKeyParts(x: string, y: string)
    requires '-' !in x
    ensures IsTicketKey(x + "-" + y) <==>
      x != [] && y != [] && (forall k :: 0 <= k < |x| ==> IsUpper(x[k])) && AllDigits(y)
  {
    var s := x + "-" + y;
    assert s == x + ['-'] + y;
    IndexOfAfter(x, '-', y);
    assert s[|x| + 1..] == y;
    assert forall k :: 0 <= k < |x| ==> s[k] == x[k];
  }

  /** Text ending in neither a newline nor a colon is a task id exactly when it is a ticket key. */
  lemma PlainTaskId(t: string)
    requires t != [] && t[|t| - 1] != '\n' && t[|t| - 1] != ':'
    ensures MatchesTaskId(t) <==> IsTicketKey(t)
  {
    assert t[|t| - 1..] == [t[|t| - 1]];
  }

  /**
   * TASK_ID_RE on `<x>-<y>` with digits after the dash: a task id exactly
   * when the letters are capitals and neither part is empty (so `ABC-12` is
   * one, while `abc-12`, `ABC-` and `-12` are not), with or without one
   * trailing colon.
   */
  lemma TaskIdForms(x: string, y: string)
    requires '-' !in x && AllDigits(y)
    ensures MatchesTaskId(x + "-" + y) <==>
      x != [] && y != [] && forall k :: 0 <= k < |x| ==> IsUpper(x[k])
    ensures MatchesTaskId(x + "-" + y) ==> MatchesTaskId(x + "-" + y + ":")
  {
    var t := x + "-" + y;
    assert t[|t| - 1] == if y == [] then '-' else y[|y| - 1];
    PlainTaskId(t);
    TicketKeyParts(x, y);
    var u := t + ":";
    assert u[|u| - 1..] == ":" && u[..|u| - 1] == t;
  }

  /** What a continuation line becomes in its block. */
  datatype LineClass =
    | Property(key: string, value: string)
    | Logged(entry: LogbookEntry)
    | Dropped
    | Extra(text: string)

  /** A stripped line whose first word ends in `::`. */
  predicate IsPropertyLine(content: string) {
    content != [] && EndsWith(LeadingWord(content), "::")
  }

  /** `content.split('::', 1)` of a property line, the value stripped. */
  function SplitProperty(c: string): (kv: (string, string))
    requires IsPropertyLine(c)
    ensures StartsWith(c, kv.0 + "::") && !Contains(kv.0, "::")
    ensures Find(c, "::") == Some(|kv.0|)
    ensures kv.1 == Strip(c[|kv.0| + 2..])
  {
    var w := LeadingWord(c);
    assert OccursAt(c, "::", |w| - 2) by {
      assert c[|w| - 2..|w|] == w[|w| - 2..];
    }
    var i := Find(c, "::").value;
    PrefixBeforeFind(c, "::");
    assert c[..i + 2] == c[..i] + "::";
    (c[..i], Strip(c[i + 2..]))
  }

  /** A `CLOCK:` line of a task's logbook. */
  predicate IsClockLine(c: string) {
    StartsWith(c, "CLOCK:")
  }

  /** The lines that open and close a logbook drawer. */
  predicate IsDrawerLine(c: string) {
    c == ":LOGBOOK:" || c == ":END:"
  }

  /** A drawer line does not start with `CLOCK:`. */
  lemma DrawerNotClock(c: string)
    requires IsDrawerLine(c)
    ensures !IsClockLine(c)
  {
    assert c[0] == ':';
  }

  /**
   * add_line's sorting of a line (Block._process_new_line, and on a task
   * Task._process_new_line): a property line is split at its first `::`;
   * on a task, `:LOGBOOK:` and `:END:` are dropped and a `CLOCK:` line is
   * logged when it holds `=>` and dropped otherwise; anything else, blank
   * lines included, is extra text.
   */
  function Classify(kind: Kind, line: string): (r: LineClass)
    ensures r.Property? <==> IsPropertyLine(Strip(line))
    ensures r.Property? ==> (r.key, r.value) == SplitProperty(Strip(line))
    ensures r.Logged? <==>
      kind.Task? && !IsPropertyLine(Strip(line)) && !IsDrawerLine(Strip(line)) &&
      IsClockLine(Strip(line)) && Contains(Strip(line), "=>")
    ensures r.Logged? ==> r.entry.content == Strip(line) && Closed(r.entry)
    ensures r.Dropped? <==>
      kind.Task? && !IsPropertyLine(Strip(line)) &&
      (IsDrawerLine(Strip(line)) || (IsClockLine(Strip(line)) && !Contains(Strip(line), "=>")))
    ensures r.Extra? <==>
      !IsPropertyLine(Strip(line)) && !(kind.Task? && (IsDrawerLine(Strip(line)) || IsClockLine(Strip(line))))
    ensures r.Extra? ==> r.text == Strip(line)
    ensures kind.Plain? ==> r.Property? || r.Extra?
  {
    var c := Strip(line);
    if IsPropertyLine(c) then
      var kv := SplitProperty(c);
      Property(kv.0, kv.1)
    else if kind.Task? && IsDrawerLine(c) then Dropped
    else if kind.Task? && IsClockLine(c) then
      if Contains(c, "=>") then Logged(LogbookEntry(c)) else Dropped
    else Extra(c)
  }

  /** The ParseError message for a property key given twice. */
  function DuplicateMessage(key: string, content: string): string {
    "Duplicate property \"" + key + "\" for block \"" + content + "\"."
  }

  /** Whether a sorted line may go to the block: only tasks have a logbook. */
  predicate Fits(b: Block, cl: LineClass) {
    cl.Logged? ==> b.kind.Task?
  }

  /**
   * The block after taking one sorted line: a new property is recorded and
   * a repeated key is a ParseError; a logged line goes to the end of the
   * task's logbook and extra text to the end of the extra lines.
   */
  function Record(b: Block, cl: LineClass): (r: Result<Block, Failure>)
    requires Fits(b, cl)
    ensures r.Err? <==> cl.Property? && cl.key in b.properties
    ensures r.Err? ==> r.error == ParseError(DuplicateMessage(cl.key, b.content))
    ensures r.Ok? ==> SameHeader(b, r.value)
    ensures cl.Property? && r.Ok? ==> r.value == b.(properties := b.properties[cl.key := cl.value])
    ensures cl.Logged? ==> r == Ok(b.(kind := b.kind.(logbook := b.kind.logbook + [cl.entry])))
    ensures cl.Dropped? ==> r == Ok(b)
    ensures cl.Extra? ==> r == Ok(b.(extraLines := b.extraLines + [cl.text]))
  {
    match cl
    case Property(key, value) =>
      if key in b.properties then Err(ParseError(DuplicateMessage(key, b.content)))
      else Ok(b.(properties := b.properties[key := value]))
    case Logged(entry) => Ok(b.(kind := b.kind.(logbook := b.kind.logbook + [entry])))
    case Dropped => Ok(b)
    case Extra(text) => Ok(b.(extraLines := b.extraLines + [text]))
  }

  /** add_line: the line, sorted for this block, recorded in it. */
  function WithLine(b: Block, line: string): Result<Block, Failure> {
    Record(b, Classify(b.kind, line))
  }

  /** Two versions of a block that agree on everything a line cannot change. */
  predicate SameHeader(b: Block, c: Block) {
    c.indent == b.indent && c.content == b.content && c.parent == b.parent && c.children == b.children &&
    c.kind.Task? == b.kind.Task? &&
    (b.kind.Task? ==>
      c.kind.keyword == b.kind.keyword && c.kind.taskId == b.kind.taskId && c.kind.description == b.kind.description)
  }

  /** `n` holds every key of `m` with the same value. */
  predicate MapExtends(m: map<string, string>, n: map<string, string>) {
    forall k :: k in m ==> k in n && n[k] == m[k]
  }

  /** The number of things a block has collected from its lines. */
  function Collected(b: Block): nat {
    |b.properties| + |b.extraLines| + if b.kind.Task? then |b.kind.logbook| else 0
  }

  /**
   * A line never overwrites a property already recorded, and it adds at
   * most one property, extra line or logbook entry, after those already
   * there.
   */
  lemma RecordExtends(b: Block, cl: LineClass)
    requires Fits(b, cl) && Record(b, cl).Ok?
    ensures var c := Record(b, cl).value;
      MapExtends(b.properties, c.properties) &&
      b.extraLines <= c.extraLines &&
      (b.kind.Task? ==> b.kind.logbook <= c.kind.logbook) &&
      Collected(c) == Collected(b) + (if cl.Dropped? then 0 else 1)
  {
    if cl.Property? {
      assert Record(b, cl).value.properties.Keys == b.properties.Keys + {cl.key};
    }
  }

  /** add_line fails exactly on a repeated property key, and otherwise keeps what the block had. */
  lemma WithLineSpec(b: Block, line: string)
    ensures Fits(b, Classify(b.kind, line))
    ensures WithLine(b, line).Err? <==>
      IsPropertyLine(Strip(line)) && SplitProperty(Strip(line)).0 in b.properties
    ensures WithLine(b, line).Err? ==>
      WithLine(b, line).error == ParseError(DuplicateMessage(SplitProperty(Strip(line)).0, b.content))
    ensures WithLine(b, line).Ok? ==>
      SameHeader(b, WithLine(b, line).value) &&
      MapExtends(b.properties, WithLine(b, line).value.properties) &&
      Collected(WithLine(b, line).value) <= Collected(b) + 1
  {
    var cl := Classify(b.kind, line);
    if Record(b, cl).Ok? {
      RecordExtends(b, cl);
    }
  }

  /**
   * What add_line leaves in the block, line by line: a new property is
   * recorded with its stripped value; on a task, a `CLOCK:` line holding
   * `=>` goes to the end of the logbook, and drawer lines and other `CLOCK:`
   * lines change nothing; any other line goes, stripped, to the end of the
   * extra lines.
   */
  lemma WithLineEffect(b: Block, line: string)
    ensures var c := Strip(line);
      IsPropertyLine(c) && SplitProperty(c).0 !in b.properties ==>
        WithLine(b, line) == Ok(b.(properties := b.properties[SplitProperty(c).0 := SplitProperty(c).1]))
    ensures var c := Strip(line);
      !IsPropertyLine(c) && b.kind.Task? && IsClockLine(c) && Contains(c, "=>") ==>
        WithLine(b, line) == Ok(b.(kind := b.kind.(logbook := b.kind.logbook + [LogbookEntry(c)])))
    ensures var c := Strip(line);
      !IsPropertyLine(c) && b.kind.Task? && (IsDrawerLine(c) || (IsClockLine(c) && !Contains(c, "=>"))) ==>
        WithLine(b, line) == Ok(b)
    ensures var c := Strip(line);
      !IsPropertyLine(c) && !(b.kind.Task? && (IsDrawerLine(c) || IsClockLine(c))) ==>
        WithLine(b, line) == Ok(b.(extraLines := b.extraLines + [c]))
  {
    var c := Strip(line);
    var cl := Classify(b.kind, line);
    if IsPropertyLine(c) {
      assert cl == Property(SplitProperty(c).0, SplitProperty(c).1);
    } else if b.kind.Task? && IsDrawerLine(c) {
      DrawerNotClock(c);
      assert cl == Dropped;
    } else if b.kind.Task? && IsClockLine(c) {
      assert cl == if Contains(c, "=>") then Logged(LogbookEntry(c)) else Dropped;
    } else {
      assert cl == Extra(c);
    }
  }

  /** Every entry in a task's logbook records a duration. */
  predicate ClosedLogbook(b: Block) {
    b.kind.Task? ==> forall e :: e in b.kind.logbook ==> Closed(e)
  }

  /** add_line only ever logs entries that record a duration. */
  lemma WithLineClosed(b: Block, line: string)
    requires ClosedLogbook(b) && WithLine(b, line).Ok?
    ensures ClosedLogbook(WithLine(b, line).value)
  {
  }

  /** The sorting does not depend on whitespace around the line, so add_line's second strip changes nothing. */
  lemma ClassifyStripped(kind: Kind, line: string)
    ensures Classify(kind, Strip(line)) == Classify(kind, line)
  {
    StripIdempotent(line);
  }

  /**
   * Block.__init__ (and Task.__init__ for a `- NOW ` or `- LATER ` line):
   * a fresh block under `parent` with the line's content and nothing
   * collected yet.
   */
  function NewBlock(indent: nat, content: string, parent: nat): (b: Block)
    requires IsTaskLine(content) ==> ' ' in BlockContent(content)
    ensures b.indent == indent && b.parent == Some(parent) && b.content == BlockContent(content)
    ensures b.children == [] && b.properties == map[] && b.extraLines == []
    ensures b.kind.Task? <==> IsTaskLine(content)
    ensures b.kind.Task? ==> b.kind.logbook == [] && ' ' in b.content
  {
    var c := BlockContent(content);
    var kind :=
      if IsTaskLine(content) then
        var h := TaskHeader(c);
        Task(h.keyword, h.taskId, h.description, [])
      else Plain;
    Block(indent, c, Some(parent), [], map[], [], kind)
  }

  /**
   * Task.__init__: a new task's keyword, task id and description are the
   * header of its content, and its logbook starts empty.
   */
  lemma NewTaskHeader(indent: nat, content: string, parent: nat)
    requires IsTaskLine(content) ==> ' ' in BlockContent(content)
    ensures var b := NewBlock(indent, content, parent);
      b.kind.Task? ==>
        ' ' in b.content &&
        var h := TaskHeader(b.content);
        b.kind == Task(h.keyword, h.taskId, h.description, [])
  {
  }

  /** A bullet `- x…` whose text ends in a non-space character has content `x…`. */
  lemma BulletContent(c: string)
    requires |c| > 2 && c[0] == '-' && c[1] == ' ' && !IsSpace(c[2]) && !IsSpace(c[|c| - 1])
    ensures BlockContent(c) == c[2..]
  {
    var t := c[1..];
    assert t[1..] == c[2..];
    StripUnchanged(c[2..]);
  }

  /** The text of a stripped line ends in a non-space character. */
  lemma StripEnds(line: string)
    requires Strip(line) != []
    ensures !IsSpace(Strip(line)[|Strip(line)| - 1])
  {
  }

  /** A stripped `- NOW ` or `- LATER ` line keeps a space after its keyword, as Task.__init__ relies on. */
  lemma {:induction false} TaskLineHasSpace(line: string)
    ensures IsTaskLine(Strip(line)) ==> ' ' in BlockContent(Strip(line))
  {
    var c := Strip(line);
    if IsTaskLine(c) {
      StripEnds(line);
      TaskContentHasSpace(c);
    }
  }

  /** A task line ending in a non-space character keeps the space after its keyword in its content. */
  lemma TaskContentHasSpace(c: string)
    requires IsTaskLine(c) && !IsSpace(c[|c| - 1])
    ensures ' ' in BlockContent(c)
  {
    var k: nat;
    if StartsWith(c, "- NOW ") {
      assert c[..6] == "- NOW ";
      assert c[0] == '-' && c[1] == ' ' && c[2] == 'N' && c[5] == ' ';
      k := 5;
    } else {
      assert c[..8] == "- LATER ";
      assert c[0] == '-' && c[1] == ' ' && c[2] == 'L' && c[7] == ' ';
      k := 7;
    }
    BulletContent(c);
    assert c[2..][k - 2] == ' ';
  }
}
