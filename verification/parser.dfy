/**
 * The line loop of parse_journal as a function of the lines read so far:
 * each line either continues the current block or opens a new block,
 * placed under the nearest shallower block above the current one.
 */
module Parser {
  import opened Wrappers
  import opened Text
  import opened Blocks
  import opened Tree

  /** The marker of the block that collects context switching cost. */
  const CatchAllTag := "[CATCH-ALL]"

  /** The ParseError raised for a second catch-all block. */
  const CatchAllMessage := "Only a single CATCH-ALL block is supported per journal."

  /** Journal.__init__ as a block: indent -1, no content, no parent. */
  function Root(): Block {
    Block(-1, "", None, [], map[], [], Plain)
  }

  /** What parse_journal keeps between lines: the blocks (the current block is the last) and the catch-all block. */
  datatype ParseState = ParseState(blocks: seq<Block>, catchAll: Option<nat>)

  /** The journal before the first line. */
  function Start(): ParseState {
    ParseState([Root()], None)
  }

  /**
   * The catch_all_block setter: registering a block when a different one is
   * registered is a ParseError; otherwise the block is registered.
   */
  function SetCatchAll(current: Option<nat>, k: nat): (r: Result<Option<nat>, Failure>)
    ensures r.Err? <==> current.Some? && current.value != k
    ensures r.Err? ==> r.error == ParseError(CatchAllMessage)
    ensures r.Ok? ==> r.value == Some(k)
  {
    if current.Some? && current.value != k then Err(ParseError(CatchAllMessage))
    else Ok(Some(k))
  }

  /** Registering the registered block again changes nothing. */
  lemma SetCatchAllAgain(current: Option<nat>, k: nat)
    requires SetCatchAll(current, k).Ok?
    ensures SetCatchAll(SetCatchAll(current, k).value, k) == SetCatchAll(current, k)
  {
  }

  /** A stripped line that opens a block. */
  predicate IsBullet(content: string) {
    StartsWith(content, "-")
  }

  /** `line.count('\t')`: every tab of the line counts towards its indent. */
  function Indent(line: string): nat {
    CountChar(line, '\t')
  }

  /** The block a bullet line opens under `p`: a task for `- NOW ` and `- LATER `. */
  function Opened(line: string, p: nat): Block {
    TaskLineHasSpace(line);
    NewBlock(Indent(line), Strip(line), p)
  }

  /** One iteration of the line loop. The current block is the last block. */
  function Step(st: ParseState, line: string): Result<ParseState, Failure>
    requires WellFormed(st.blocks)
  {
    if IsBullet(Strip(line)) then Open(st, line) else Continue(st, Strip(line))
  }

  /** A line that is no bullet goes to the current block's add_line. */
  function Continue(st: ParseState, content: string): Result<ParseState, Failure>
    requires WellFormed(st.blocks)
  {
    var cur := |st.blocks| - 1;
    match WithLine(st.blocks[cur], content)
    case Err(e) => Err(e)
    case Ok(b) => Ok(st.(blocks := st.blocks[cur := b]))
  }

  /**
   * A bullet line opens a block under the parent Attach finds from the
   * current block; a block whose content carries the catch-all tag is
   * registered as the catch-all block.
   */
  function Open(st: ParseState, line: string): Result<ParseState, Failure>
    requires WellFormed(st.blocks)
  {
    var bs := st.blocks;
    var b := Opened(line, Attach(bs, |bs| - 1, Indent(line)));
    var grown := AddChild(bs, b);
    if Contains(b.content, CatchAllTag) then
      match SetCatchAll(st.catchAll, |bs|)
      case Err(e) => Err(e)
      case Ok(c) => Ok(ParseState(grown, c))
    else Ok(ParseState(grown, st.catchAll))
  }

  /** The registered catch-all block is the one block whose content carries the tag. */
  predicate CatchAllUnique(st: ParseState) {
    var bs := st.blocks;
    match st.catchAll
    case None => forall j :: 0 <= j < |bs| ==> !Contains(bs[j].content, CatchAllTag)
    case Some(c) =>
      c < |bs| && Contains(bs[c].content, CatchAllTag) &&
      forall j :: 0 <= j < |bs| && Contains(bs[j].content, CatchAllTag) ==> j == c
  }

  /** What the loop keeps after every line. */
  predicate Good(st: ParseState) {
    WellFormed(st.blocks) && IndentsIncrease(st.blocks) && Contiguous(Parents(st.blocks)) &&
    CatchAllUnique(st)
  }

  /** parse_journal over the lines read so far. */
  function Run(lines: seq<string>): (r: Result<ParseState, Failure>)
    ensures r.Ok? ==> Good(r.value)
  {
    if lines == [] then
      StartGood();
      Ok(Start())
    else
      match Run(lines[..|lines| - 1])
      case Err(e) => Err(e)
      case Ok(st) =>
        StepKeeps(st, lines[|lines| - 1]);
        Step(st, lines[|lines| - 1])
  }

  /** The journal before the first line meets the loop's invariant. */
  lemma StartGood()
    ensures Good(Start())
  {
    assert Parents([Root()]) == [None];
  }

  /** A step keeps the loop's invariant. */
  lemma StepKeeps(st: ParseState, line: string)
    requires Good(st)
    ensures Step(st, line).Ok? ==> Good(Step(st, line).value)
  {
    if Step(st, line).Ok? {
      if IsBullet(Strip(line)) {
        BulletKeeps(st, line);
      } else {
        ContinuationKeeps(st, line);
      }
    }
  }

  /** A continuation line keeps the invariant: it changes no link, indent or content. */
  lemma ContinuationKeeps(st: ParseState, line: string)
    requires Good(st) && !IsBullet(Strip(line)) && Step(st, line).Ok?
    ensures Good(Step(st, line).value)
  {
    var bs := st.blocks;
    var cur := |bs| - 1;
    var b := WithLine(bs[cur], Strip(line)).value;
    assert Step(st, line).value == ParseState(bs[cur := b], st.catchAll);
    WithLineSpec(bs[cur], Strip(line));
    WithLineClosed(bs[cur], Strip(line));
    UpdateKeeps(st, cur, b);
  }

  /** Replacing a block by one with the same header and closed logbook keeps the invariant. */
  lemma UpdateKeeps(st: ParseState, k: nat, b: Block)
    requires Good(st) && k < |st.blocks| && SameHeader(st.blocks[k], b) && ClosedLogbook(b)
    ensures Good(ParseState(st.blocks[k := b], st.catchAll))
  {
    UpdateWellFormed(st.blocks, k, b);
    UpdateIndents(st.blocks, k, b);
    UpdateCatchAll(st, k, b);
  }

  /** Replacing a block by one at the same place and indent keeps indents increasing. */
  lemma UpdateIndents(bs: seq<Block>, k: nat, b: Block)
    requires IsTree(Parents(bs)) && IndentsIncrease(bs) && k < |bs|
    requires b.indent == bs[k].indent && b.parent == bs[k].parent
    ensures IsTree(Parents(bs[k := b])) && IndentsIncrease(bs[k := b])
  {
    var bs' := bs[k := b];
    assert Parents(bs') == Parents(bs);
    forall j | 0 < j < |bs'|
      ensures 0 <= bs'[j].indent && bs'[bs'[j].parent.value].indent < bs'[j].indent
    {
      assert bs'[j].indent == bs[j].indent && bs'[j].parent == bs[j].parent;
    }
  }

  /** Replacing a block by one with the same content keeps the catch-all registration. */
  lemma UpdateCatchAll(st: ParseState, k: nat, b: Block)
    requires CatchAllUnique(st) && k < |st.blocks| && b.content == st.blocks[k].content
    ensures CatchAllUnique(ParseState(st.blocks[k := b], st.catchAll))
  {
    var bs' := st.blocks[k := b];
    assert forall j :: 0 <= j < |bs'| ==> bs'[j].content == st.blocks[j].content;
  }

  /** A bullet line keeps the invariant. */
  lemma BulletKeeps(st: ParseState, line: string)
    requires Good(st) && IsBullet(Strip(line)) && Step(st, line).Ok?
    ensures Good(Step(st, line).value)
  {
    var bs := st.blocks;
    var cur := |bs| - 1;
    var p := Attach(bs, cur, Indent(line));
    var b := Opened(line, p);
    TaskLineHasSpace(line);
    assert b == NewBlock(Indent(line), Strip(line), p);
    var c := if Contains(b.content, CatchAllTag) then Some(|bs|) else st.catchAll;
    BulletStep(st, line);
    assert Step(st, line) == Open(st, line);
    GrowCatchAll(st, b, c);
    GrowKeeps(st, b, c);
  }

  /** The state after a bullet line that succeeds. */
  lemma BulletStep(st: ParseState, line: string)
    requires WellFormed(st.blocks) && Open(st, line).Ok?
    requires st.catchAll.Some? ==> st.catchAll.value < |st.blocks|
    ensures var b := Opened(line, Attach(st.blocks, |st.blocks| - 1, Indent(line)));
      Open(st, line).value ==
        ParseState(AddChild(st.blocks, b), if Contains(b.content, CatchAllTag) then Some(|st.blocks|) else st.catchAll)
    ensures Contains(Opened(line, Attach(st.blocks, |st.blocks| - 1, Indent(line))).content, CatchAllTag) ==>
      st.catchAll.None?
  {
    var b := Opened(line, Attach(st.blocks, |st.blocks| - 1, Indent(line)));
    if Contains(b.content, CatchAllTag) {
      assert SetCatchAll(st.catchAll, |st.blocks|).Ok?;
    }
  }

  /** After a bullet line, the registered catch-all block is still the one block carrying the tag. */
  lemma GrowCatchAll(st: ParseState, b: Block, c: Option<nat>)
    requires CatchAllUnique(st) && b.parent.Some? && b.parent.value < |st.blocks|
    requires Contains(b.content, CatchAllTag) ==> st.catchAll.None? && c == Some(|st.blocks|)
    requires !Contains(b.content, CatchAllTag) ==> c == st.catchAll
    ensures CatchAllUnique(ParseState(AddChild(st.blocks, b), c))
  {
    var bs := st.blocks;
    var grown := AddChild(bs, b);
    assert forall j :: 0 <= j < |bs| ==> grown[j].content == bs[j].content;
  }

  /** A leaf added under the block Attach chooses keeps the invariant. */
  lemma GrowKeeps(st: ParseState, b: Block, c: Option<nat>)
    requires Good(st) && b.parent.Some? && b.parent.value < |st.blocks|
    requires AncestorOrSelf(Parents(st.blocks), |st.blocks| - 1, b.parent.value)
    requires 0 <= b.indent && st.blocks[b.parent.value].indent < b.indent
    requires b.children == [] && ClosedLogbook(b)
    requires CatchAllUnique(ParseState(AddChild(st.blocks, b), c))
    ensures Good(ParseState(AddChild(st.blocks, b), c))
  {
    var bs := st.blocks;
    AddChildWellFormed(bs, b);
    AddChildParents(bs, b);
    ContiguousAppend(Parents(bs), b.parent);
    IndentsAppend(bs, b);
  }

  /** A block added under an ancestor of the last block keeps subtrees contiguous. */
  lemma ContiguousAppend(ps: seq<Option<nat>>, q: Option<nat>)
    requires IsTree(ps) && Contiguous(ps) && q.Some? && AncestorOrSelf(ps, |ps| - 1, q.value)
    ensures Contiguous(ps + [q])
  {
    var n := |ps|;
    var ps' := ps + [q];
    forall i, j, l | 0 <= i < j < l < |ps'| && AncestorOrSelf(ps', l, i)
      ensures AncestorOrSelf(ps', j, i)
    {
      AncestorAppend(ps, q, j, i);
      if l < n {
        AncestorAppend(ps, q, l, i);
      } else {
        AncestorAppend(ps, q, q.value, i);
        AncestorTrans(ps, n - 1, q.value, i);
      }
    }
  }

  /** A block added under a shallower block at indent 0 or more keeps indents increasing. */
  lemma IndentsAppend(bs: seq<Block>, b: Block)
    requires IsTree(Parents(bs)) && IndentsIncrease(bs)
    requires b.parent.Some? && b.parent.value < |bs| && 0 <= b.indent && bs[b.parent.value].indent < b.indent
    ensures IsTree(Parents(AddChild(bs, b))) && IndentsIncrease(AddChild(bs, b))
  {
    var bs' := AddChild(bs, b);
    AddChildParents(bs, b);
    forall k | 0 < k < |bs'|
      ensures 0 <= bs'[k].indent && bs'[bs'[k].parent.value].indent < bs'[k].indent
    {
      assert bs'[k].indent == (bs + [b])[k].indent && bs'[k].parent == (bs + [b])[k].parent;
      var q := bs'[k].parent.value;
      assert bs'[q].indent == (bs + [b])[q].indent;
    }
  }

  /**
   * A line that is no bullet creates no block: it goes to the current
   * block's add_line, which fails only on a repeated property key, and
   * nothing else changes.
   */
  lemma ContinuationLine(st: ParseState, line: string)
    requires WellFormed(st.blocks) && !IsBullet(Strip(line))
    ensures Step(st, line) == Continue(st, Strip(line))
    ensures var cur := |st.blocks| - 1;
      var r, added := Continue(st, Strip(line)), WithLine(st.blocks[cur], Strip(line));
      (added.Err? ==> r == Err(added.error)) &&
      (added.Ok? ==>
        r.Ok? && r.value.catchAll == st.catchAll &&
        r.value.blocks == st.blocks[cur := added.value] &&
        Parents(r.value.blocks) == Parents(st.blocks))
  {
    var cur := |st.blocks| - 1;
    var added := WithLine(st.blocks[cur], Strip(line));
    if added.Ok? {
      WithLineSpec(st.blocks[cur], Strip(line));
      ParentsUpdate(st.blocks, cur, added.value);
    }
  }

  /** Replacing a block by one with the same parent keeps every parent link. */
  lemma ParentsUpdate(bs: seq<Block>, k: nat, b: Block)
    requires k < |bs| && b.parent == bs[k].parent
    ensures Parents(bs[k := b]) == Parents(bs)
  {
  }

  /** A bullet line fails exactly when it carries the catch-all tag and a catch-all block is already registered. */
  lemma BulletFails(st: ParseState, line: string)
    requires WellFormed(st.blocks) && IsBullet(Strip(line))
    requires st.catchAll.Some? ==> st.catchAll.value < |st.blocks|
    ensures Step(st, line).Err? <==> Contains(BlockContent(Strip(line)), CatchAllTag) && st.catchAll.Some?
    ensures Step(st, line).Err? ==> Step(st, line).error == ParseError(CatchAllMessage)
  {
    var p := Attach(st.blocks, |st.blocks| - 1, Indent(line));
    OpenFails(st, line);
    TaskLineHasSpace(line);
    assert Opened(line, p).content == BlockContent(Strip(line));
  }

  /** A block opened with the catch-all tag fails exactly when a catch-all block is registered. */
  lemma OpenFails(st: ParseState, line: string)
    requires WellFormed(st.blocks)
    requires st.catchAll.Some? ==> st.catchAll.value < |st.blocks|
    ensures var b := Opened(line, Attach(st.blocks, |st.blocks| - 1, Indent(line)));
      (Open(st, line).Err? <==> Contains(b.content, CatchAllTag) && st.catchAll.Some?) &&
      (Open(st, line).Err? ==> Open(st, line).error == ParseError(CatchAllMessage))
  {
    var bs := st.blocks;
    var b := Opened(line, Attach(bs, |bs| - 1, Indent(line)));
    if Contains(b.content, CatchAllTag) {
      assert SetCatchAll(st.catchAll, |bs|).Err? <==> st.catchAll.Some?;
    } else {
      assert Open(st, line).Ok?;
    }
  }

  /**
   * A bullet line that succeeds adds one block at its line's indent, as the
   * last child of the nearest block at or above the current block whose
   * indent is smaller, and registers it when it carries the catch-all tag.
   * A task's keyword, task id and description are those of its content.
   */
  lemma BulletLine(st: ParseState, line: string)
    requires Good(st) && IsBullet(Strip(line)) && Step(st, line).Ok?
    ensures var bs, bs' := st.blocks, Step(st, line).value.blocks;
      var n := |bs|;
      |bs'| == n + 1 &&
      bs'[n].parent.Some? && bs'[n].parent.value < n &&
      var p := bs'[n].parent.value;
      bs'[n].indent == Indent(line) &&
      bs'[n].content == BlockContent(Strip(line)) &&
      (bs'[n].kind.Task? <==> IsTaskLine(Strip(line))) &&
      bs[p].indent < Indent(line) &&
      AncestorOrSelf(Parents(bs), n - 1, p) &&
      (forall a: nat :: p < a <= n - 1 && AncestorOrSelf(Parents(bs), n - 1, a) ==> Indent(line) <= bs[a].indent) &&
      bs'[p].children == bs[p].children + [n] &&
      Step(st, line).value.catchAll ==
        if Contains(bs'[n].content, CatchAllTag) then Some(n) else st.catchAll
    ensures var b := Step(st, line).value.blocks[|st.blocks|];
      b.kind.Task? ==>
        ' ' in b.content &&
        var h := TaskHeader(b.content);
        b.kind == Task(h.keyword, h.taskId, h.description, [])
  {
    var bs := st.blocks;
    var p := Attach(bs, |bs| - 1, Indent(line));
    var b := Opened(line, p);
    TaskLineHasSpace(line);
    assert b == NewBlock(Indent(line), Strip(line), p);
    NewTaskHeader(Indent(line), Strip(line), p);
    BulletStep(st, line);
    assert Step(st, line) == Open(st, line);
    AddChildWellFormed(bs, b);
  }

  /**
   * A bullet line changes no earlier block but its parent, the block Attach
   * finds, and the parent gains only the new block as its last child.
   */
  lemma BulletFrame(st: ParseState, line: string)
    requires Good(st) && IsBullet(Strip(line)) && Step(st, line).Ok?
    ensures var bs, bs' := st.blocks, Step(st, line).value.blocks;
      var p := Attach(bs, |bs| - 1, Indent(line));
      |bs'| == |bs| + 1 && bs'[|bs|].parent == Some(p) &&
      bs'[p] == bs[p].(children := bs[p].children + [|bs|]) &&
      forall k :: 0 <= k < |bs| && k != p ==> bs'[k] == bs[k]
  {
    BulletStep(st, line);
    assert Step(st, line) == Open(st, line);
  }

  /** The number of lines that open a block. */
  function Bullets(lines: seq<string>): nat {
    if lines == [] then 0
    else Bullets(lines[..|lines| - 1]) + if IsBullet(Strip(lines[|lines| - 1])) then 1 else 0
  }

  /** The parsed journal has one block per bullet line besides the root. */
  lemma {:induction false} RunBlockCount(lines: seq<string>)
    requires Run(lines).Ok?
    ensures |Run(lines).value.blocks| == 1 + Bullets(lines)
  {
    if lines != [] {
      var front, line := lines[..|lines| - 1], lines[|lines| - 1];
      RunBlockCount(front);
      var st := Run(front).value;
      assert Run(lines) == Step(st, line);
      if IsBullet(Strip(line)) {
        BulletLine(st, line);
      } else {
        ContinuationLine(st, line);
      }
    }
  }

  /** Once a line fails, the lines after it are not read. */
  lemma {:induction false} RunFailureSticks(lines: seq<string>, i: nat)
    requires i <= |lines| && Run(lines[..i]).Err?
    ensures Run(lines) == Run(lines[..i])
    decreases |lines|
  {
    if i == |lines| {
      assert lines[..i] == lines;
    } else {
      var front := lines[..|lines| - 1];
      assert front[..i] == lines[..i];
      RunFailureSticks(front, i);
    }
  }

  /** Reading one more line is one more step of the loop. */
  lemma {:induction false} RunStep(lines: seq<string>, i: nat)
    requires i < |lines| && Run(lines[..i]).Ok?
    ensures Run(lines[..i + 1]) == Step(Run(lines[..i]).value, lines[i])
  {
    PrefixSnoc(lines, i);
    RunSnoc(lines[..i], lines[i]);
  }

  /** The first i + 1 lines are the first i lines and line i. */
  lemma PrefixSnoc(lines: seq<string>, i: nat)
    requires i < |lines|
    ensures lines[..i + 1] == lines[..i] + [lines[i]]
  {
  }

  /** Run over the lines read so far and one more line. */
  lemma RunSnoc(front: seq<string>, line: string)
    requires Run(front).Ok?
    ensures Run(front + [line]) == Step(Run(front).value, line)
  {
    var read := front + [line];
    assert read[..|read| - 1] == front;
  }

  /** On the parsed journal, find_tasks lists every task once, in the order of their lines. */
  lemma ParsedTasksInOrder(lines: seq<string>)
    requires Run(lines).Ok?
    ensures TasksUnder(Run(lines).value.blocks, 0) == TaskPositions(Run(lines).value.blocks)
  {
    TasksInDocumentOrder(Run(lines).value.blocks);
  }
}
