/**
 * The outline as a tree held in one list of blocks. A block names its
 * parent and its children by their positions in the list; position 0 is the
 * journal itself, and every other block comes after its parent.
 */
module Tree {
  import opened Wrappers
  import opened Blocks

  /** The parent link of every block, in list order. */
  function Parents(bs: seq<Block>): (ps: seq<Option<nat>>)
    ensures |ps| == |bs|
    ensures forall k :: 0 <= k < |bs| ==> ps[k] == bs[k].parent
  {
    seq(|bs|, k requires 0 <= k < |bs| => bs[k].parent)
  }

  /** The first block has no parent; every other one has an earlier block as parent. */
  predicate IsTree(ps: seq<Option<nat>>) {
    |ps| > 0 && ps[0].None? &&
    forall k :: 0 < k < |ps| ==> ps[k].Some? && ps[k].value < k
  }

  /** The blocks whose parent is `k`, in the order they were added. */
  function ChildrenIn(ps: seq<Option<nat>>, k: nat): (cs: seq<nat>)
    ensures forall j :: j in cs <==> 0 <= j < |ps| && ps[j] == Some(k)
    ensures Increasing(cs)
  {
    if ps == [] then []
    else
      var n := |ps| - 1;
      var front := ChildrenIn(ps[..n], k);
      IncreasingSnoc(front, n);
      front + if ps[n] == Some(k) then [n] else []
  }

  /** A position after all others extends an increasing list. */
  lemma IncreasingSnoc(s: seq<nat>, n: nat)
    requires Increasing(s) && forall j :: j in s ==> j < n
    ensures Increasing(s + [n])
  {
    forall i, j | 0 <= i < j < |s| + 1
      ensures (s + [n])[i] < (s + [n])[j]
    {
      assert (s + [n])[i] == s[i];
      if j == |s| {
        assert s[i] in s;
      }
    }
  }

  /** The children of each block after adding one more link. */
  lemma ChildrenInSnoc(ps: seq<Option<nat>>, q: Option<nat>, k: nat)
    ensures ChildrenIn(ps + [q], k) == ChildrenIn(ps, k) + if q == Some(k) then [|ps|] else []
  {
    assert (ps + [q])[..|ps|] == ps;
  }

  /** The last block of a tree has no children. */
  lemma ChildrenInLast(ps: seq<Option<nat>>, k: nat)
    requires IsTree(ps) && |ps| - 1 <= k
    ensures ChildrenIn(ps, k) == []
  {
    var cs := ChildrenIn(ps, k);
    assert forall j :: j !in cs;
  }

  /** Strictly increasing positions. */
  predicate Increasing(s: seq<nat>) {
    forall i, j :: 0 <= i < j < |s| ==> s[i] < s[j]
  }

  /** `a` is `x` itself or lies on the chain of parents above `x`. */
  predicate AncestorOrSelf(ps: seq<Option<nat>>, x: nat, a: nat)
    decreases x
  {
    x == a || (x < |ps| && ps[x].Some? && ps[x].value < x && AncestorOrSelf(ps, ps[x].value, a))
  }

  /**
   * The shape every journal keeps: a root without parent at indent -1 that
   * is no task, parents before children, each block's children exactly the
   * blocks naming it as parent in list order, and closed logbook entries.
   */
  predicate WellFormed(bs: seq<Block>) {
    IsTree(Parents(bs)) && bs[0].indent == -1 && bs[0].kind.Plain? &&
    (forall k :: 0 <= k < |bs| ==> bs[k].children == ChildrenIn(Parents(bs), k)) &&
    (forall k :: 0 <= k < |bs| ==> ClosedLogbook(bs[k]))
  }

  /** Each block sits deeper than its parent, and every block but the root at indent 0 or more. */
  predicate IndentsIncrease(bs: seq<Block>)
    requires IsTree(Parents(bs))
  {
    forall k :: 0 < k < |bs| ==> 0 <= bs[k].indent && bs[bs[k].parent.value].indent < bs[k].indent
  }

  /**
   * Subtrees occupy consecutive positions: a block lying between a block
   * and one of its descendants is a descendant too.
   */
  predicate Contiguous(ps: seq<Option<nat>>) {
    forall i, j, l :: 0 <= i < j < l < |ps| && AncestorOrSelf(ps, l, i) ==> AncestorOrSelf(ps, j, i)
  }

  /** No position twice. */
  predicate Distinct(s: seq<nat>) {
    forall i, j :: 0 <= i < j < |s| ==> s[i] != s[j]
  }

  /** Ancestors come earlier in the list. */
  lemma {:induction false} AncestorBefore(ps: seq<Option<nat>>, x: nat, a: nat)
    requires AncestorOrSelf(ps, x, a)
    ensures a <= x
    decreases x
  {
    if x != a {
      AncestorBefore(ps, ps[x].value, a);
    }
  }

  /** Ancestry is transitive. */
  lemma {:induction false} AncestorTrans(ps: seq<Option<nat>>, x: nat, y: nat, z: nat)
    requires AncestorOrSelf(ps, x, y) && AncestorOrSelf(ps, y, z)
    ensures AncestorOrSelf(ps, x, z)
    decreases x
  {
    if x != y {
      AncestorTrans(ps, ps[x].value, y, z);
    }
  }

  /** Every descendant of a descendant of `y` descends from the ancestors of `y`. */
  lemma AncestorTransAll(ps: seq<Option<nat>>, y: nat, z: nat)
    requires AncestorOrSelf(ps, y, z)
    ensures forall x :: AncestorOrSelf(ps, x, y) ==> AncestorOrSelf(ps, x, z)
  {
    forall x | AncestorOrSelf(ps, x, y) {
      AncestorTrans(ps, x, y, z);
    }
  }

  /** Adding a block at the end leaves the ancestry of earlier blocks alone. */
  lemma {:induction false} AncestorAppend(ps: seq<Option<nat>>, q: Option<nat>, x: nat, a: nat)
    requires x < |ps|
    ensures AncestorOrSelf(ps + [q], x, a) == AncestorOrSelf(ps, x, a)
    decreases x
  {
    if x != a && ps[x].Some? && ps[x].value < x {
      AncestorAppend(ps, q, ps[x].value, a);
    }
  }

  /** The chain of parents from any block ends at the root: the parser's upward walk always stops. */
  lemma {:induction false} RootAboveAll(ps: seq<Option<nat>>, x: nat)
    requires IsTree(ps) && x < |ps|
    ensures AncestorOrSelf(ps, x, 0)
    decreases x
  {
    if x != 0 {
      RootAboveAll(ps, ps[x].value);
    }
  }

  /** Two ancestors of one block: one is an ancestor of the other. */
  lemma {:induction false} AncestorsOrdered(ps: seq<Option<nat>>, x: nat, a: nat, b: nat)
    requires AncestorOrSelf(ps, x, a) && AncestorOrSelf(ps, x, b) && a <= b
    ensures AncestorOrSelf(ps, b, a)
    decreases x
  {
    if x == b {
    } else if x == a {
      AncestorBefore(ps, x, b);
    } else {
      AncestorsOrdered(ps, ps[x].value, a, b);
    }
  }

  /** Below a proper ancestor `k` of `t`, the chain from `t` passes through a child of `k`. */
  lemma {:induction false} ChildOnPath(ps: seq<Option<nat>>, t: nat, k: nat) returns (c: nat)
    requires AncestorOrSelf(ps, t, k) && t != k
    ensures c < |ps| && ps[c] == Some(k) && AncestorOrSelf(ps, t, c)
    decreases t
  {
    var p := ps[t].value;
    if p == k {
      c := t;
    } else {
      c := ChildOnPath(ps, p, k);
    }
  }

  /** Block.__init__ with a parent: the new block goes last in the list and last among its parent's children. */
  function AddChild(bs: seq<Block>, b: Block): (r: seq<Block>)
    requires b.parent.Some? && b.parent.value < |bs|
    ensures |r| == |bs| + 1 && r[|bs|] == b
    ensures r[b.parent.value] == bs[b.parent.value].(children := bs[b.parent.value].children + [|bs|])
    ensures forall k {:trigger r[k]} :: 0 <= k < |bs| && k != b.parent.value ==> r[k] == bs[k]
  {
    var p := b.parent.value;
    (bs + [b])[p := bs[p].(children := bs[p].children + [|bs|])]
  }

  /** Adding a block records only its parent link, after the others. */
  lemma AddChildParents(bs: seq<Block>, b: Block)
    requires b.parent.Some? && b.parent.value < |bs|
    ensures Parents(AddChild(bs, b)) == Parents(bs) + [b.parent]
  {
  }

  /** After adding a leaf, each block's children are still the blocks naming it as parent. */
  lemma {:induction false} AddChildChildren(bs: seq<Block>, b: Block, k: nat)
    requires WellFormed(bs) && b.parent.Some? && b.parent.value < |bs|
    requires b.children == [] && k <= |bs|
    ensures AddChild(bs, b)[k].children == ChildrenIn(Parents(bs) + [b.parent], k)
  {
    var p, r := b.parent.value, AddChild(bs, b);
    ChildrenInSnoc(Parents(bs), b.parent, k);
    if k == |bs| {
      assert r[k] == b;
      ChildrenInLast(Parents(bs), k);
    } else if k == p {
      assert r[k].children == bs[k].children + [|bs|];
    } else {
      assert r[k] == bs[k];
    }
  }

  /** A fresh leaf with closed logbook under an existing block keeps the journal well formed. */
  lemma AddChildWellFormed(bs: seq<Block>, b: Block)
    requires WellFormed(bs) && b.parent.Some? && b.parent.value < |bs|
    requires b.children == [] && ClosedLogbook(b)
    ensures WellFormed(AddChild(bs, b))
    ensures AddChild(bs, b)[b.parent.value].children == bs[b.parent.value].children + [|bs|]
  {
    var r := AddChild(bs, b);
    AddChildParents(bs, b);
    forall k | 0 <= k < |r|
      ensures r[k].children == ChildrenIn(Parents(r), k)
    {
      AddChildChildren(bs, b, k);
    }
    AddChildClosed(bs, b);
  }

  /** Adding a leaf with closed logbook keeps every logbook closed and the root as it was. */
  lemma AddChildClosed(bs: seq<Block>, b: Block)
    requires WellFormed(bs) && b.parent.Some? && b.parent.value < |bs| && ClosedLogbook(b)
    ensures forall k :: 0 <= k < |AddChild(bs, b)| ==> ClosedLogbook(AddChild(bs, b)[k])
    ensures AddChild(bs, b)[0].indent == -1 && AddChild(bs, b)[0].kind.Plain?
  {
    var r := AddChild(bs, b);
    forall k | 0 <= k < |r|
      ensures ClosedLogbook(r[k])
    {
      if k < |bs| {
        assert r[k].kind == bs[k].kind;
      }
    }
  }

  /** Replacing a block by one with the same links and closed logbook keeps the journal well formed. */
  lemma UpdateWellFormed(bs: seq<Block>, k: nat, b: Block)
    requires WellFormed(bs) && k < |bs| && SameHeader(bs[k], b) && ClosedLogbook(b)
    requires k == 0 ==> b.kind.Plain?
    ensures Parents(bs[k := b]) == Parents(bs)
    ensures WellFormed(bs[k := b])
  {
  }

  /**
   * The parser's choice of parent for a bullet at `indent` with the cursor
   * at `cur`: walking up from the cursor, the first block shallower than the
   * bullet. It is the nearest such ancestor of the cursor.
   */
  function Attach(bs: seq<Block>, cur: nat, indent: nat): (p: nat)
    requires IsTree(Parents(bs)) && bs[0].indent == -1 && cur < |bs|
    ensures p <= cur && bs[p].indent < indent
    ensures AncestorOrSelf(Parents(bs), cur, p)
    ensures forall a: nat :: p < a <= cur && AncestorOrSelf(Parents(bs), cur, a) ==> indent <= bs[a].indent
    decreases cur
  {
    if bs[cur].indent < indent then cur
    else
      var q := bs[cur].parent.value;
      assert forall a: nat :: a < cur && AncestorOrSelf(Parents(bs), cur, a) ==> a <= q by {
        forall a: nat | a < cur && AncestorOrSelf(Parents(bs), cur, a) {
          AncestorBefore(Parents(bs), q, a);
        }
      }
      Attach(bs, q, indent)
  }

  /** Some block on the chain of parents above `k` is a task (Task.validate's nested-task walk). */
  predicate TaskAbove(bs: seq<Block>, k: nat)
    requires IsTree(Parents(bs)) && k < |bs|
    decreases k
  {
    k > 0 && (bs[bs[k].parent.value].kind.Task? || TaskAbove(bs, bs[k].parent.value))
  }

  /** The walk finds a task exactly when a proper ancestor is one. */
  lemma {:induction false} TaskAboveMeans(bs: seq<Block>, k: nat)
    requires IsTree(Parents(bs)) && k < |bs|
    ensures TaskAbove(bs, k) <==>
      exists a: nat :: a < k && AncestorOrSelf(Parents(bs), k, a) && bs[a].kind.Task?
    decreases k
  {
    var ps := Parents(bs);
    if k > 0 {
      var p := bs[k].parent.value;
      TaskAboveMeans(bs, p);
      if exists a: nat :: a < k && AncestorOrSelf(ps, k, a) && bs[a].kind.Task? {
        var a: nat :| a < k && AncestorOrSelf(ps, k, a) && bs[a].kind.Task?;
        if a != p {
          AncestorBefore(ps, p, a);
          assert a < p;
        }
      }
      if bs[p].kind.Task? {
        assert AncestorOrSelf(ps, k, p);
      } else if TaskAbove(bs, p) {
        var a: nat :| a < p && AncestorOrSelf(ps, p, a) && bs[a].kind.Task?;
        assert AncestorOrSelf(ps, k, a);
      }
    }
  }

  /** Blocks after `k` that name `k` as parent. */
  predicate ChildList(bs: seq<Block>, k: nat, cs: seq<nat>) {
    forall j :: 0 <= j < |cs| ==> k < cs[j] < |bs| && Parents(bs)[cs[j]] == Some(k)
  }

  /** The children of a block in a well-formed journal come after it. */
  lemma {:induction false} ChildrenAfter(bs: seq<Block>, k: nat)
    requires WellFormed(bs) && k < |bs|
    ensures ChildList(bs, k, bs[k].children)
    ensures Increasing(bs[k].children)
  {
    var cs := bs[k].children;
    assert cs == ChildrenIn(Parents(bs), k);
    forall j | 0 <= j < |cs|
      ensures k < cs[j] < |bs| && Parents(bs)[cs[j]] == Some(k)
    {
      assert cs[j] in cs;
    }
  }

  /** find_tasks: the tasks below `k`, each before the tasks below it, children in order. */
  function TasksUnder(bs: seq<Block>, k: nat): (ts: seq<nat>)
    requires WellFormed(bs) && k < |bs|
    ensures forall t :: t in ts ==> k < t < |bs| && bs[t].kind.Task? && AncestorOrSelf(Parents(bs), t, k)
    decreases |bs| - k, 1
  {
    ChildrenAfter(bs, k);
    TasksIn(bs, k, bs[k].children)
  }

  /** The loop of find_tasks over some children `cs` of `k`. */
  function TasksIn(bs: seq<Block>, k: nat, cs: seq<nat>): (ts: seq<nat>)
    requires WellFormed(bs) && k < |bs|
    requires ChildList(bs, k, cs)
    ensures forall t :: t in ts ==> k < t < |bs| && bs[t].kind.Task? && AncestorOrSelf(Parents(bs), t, k)
    decreases |bs| - k, 0, |cs|
  {
    if cs == [] then []
    else
      var c := cs[0];
      assert AncestorOrSelf(Parents(bs), c, k);
      AncestorTransAll(Parents(bs), c, k);
      (if bs[c].kind.Task? then [c] else []) + TasksUnder(bs, c) + TasksIn(bs, k, cs[1..])
  }

  /** A child of `k` at position `i` of `cs` contributes itself, when a task, and the tasks below it. */
  lemma {:induction false} TasksInHas(bs: seq<Block>, k: nat, cs: seq<nat>, i: nat)
    requires WellFormed(bs) && k < |bs| && i < |cs|
    requires ChildList(bs, k, cs)
    ensures bs[cs[i]].kind.Task? ==> cs[i] in TasksIn(bs, k, cs)
    ensures forall t :: t in TasksUnder(bs, cs[i]) ==> t in TasksIn(bs, k, cs)
    decreases i
  {
    if i > 0 {
      TasksInHas(bs, k, cs[1..], i - 1);
    }
  }

  /** find_tasks misses no task: every task below `k` is listed. */
  lemma {:induction false} TasksUnderComplete(bs: seq<Block>, k: nat, t: nat)
    requires WellFormed(bs) && k < t < |bs| && bs[t].kind.Task? && AncestorOrSelf(Parents(bs), t, k)
    ensures t in TasksUnder(bs, k)
    decreases |bs| - k
  {
    var c := ChildOnPath(Parents(bs), t, k);
    ChildrenAfter(bs, k);
    var cs := bs[k].children;
    assert c in cs;
    var i :| 0 <= i < |cs| && cs[i] == c;
    TasksInHas(bs, k, cs, i);
    if t != c {
      AncestorBefore(Parents(bs), t, c);
      TasksUnderComplete(bs, c, t);
    }
  }

  /** No block descends from two different children of one block. */
  lemma NotUnderSibling(ps: seq<Option<nat>>, x: nat, c: nat, d: nat)
    requires IsTree(ps) && c < |ps| && d < |ps| && c != d && ps[c] == ps[d]
    requires AncestorOrSelf(ps, x, c)
    ensures !AncestorOrSelf(ps, x, d)
  {
    if AncestorOrSelf(ps, x, d) {
      var lo, hi := if c < d then c else d, if c < d then d else c;
      AncestorsOrdered(ps, x, lo, hi);
      AncestorBefore(ps, ps[hi].value, lo);
    }
  }

  /** No task that the loop of find_tasks lists for the children `cs` lies below a sibling `c` outside `cs`. */
  lemma {:induction false} TasksInOutside(bs: seq<Block>, k: nat, cs: seq<nat>, c: nat)
    requires WellFormed(bs) && k < |bs| && ChildList(bs, k, cs)
    requires c < |bs| && Parents(bs)[c] == Some(k) && c !in cs
    ensures forall t :: t in TasksIn(bs, k, cs) ==> !AncestorOrSelf(Parents(bs), t, c)
    decreases |cs|
  {
    var ps := Parents(bs);
    if cs != [] {
      var d := cs[0];
      NotUnderSibling(ps, d, d, c);
      forall t | t in TasksUnder(bs, d) ensures !AncestorOrSelf(ps, t, c) {
        NotUnderSibling(ps, t, d, c);
      }
      TasksInOutside(bs, k, cs[1..], c);
    }
  }

  /** Two lists without repeats and without common positions make a list without repeats. */
  lemma DistinctConcat(a: seq<nat>, b: seq<nat>)
    requires Distinct(a) && Distinct(b)
    requires forall x :: x in a ==> x !in b
    ensures Distinct(a + b)
  {
    forall i, j | 0 <= i < j < |a + b|
      ensures (a + b)[i] != (a + b)[j]
    {
      if i < |a| && |a| <= j {
        assert (a + b)[i] in a && (a + b)[j] in b;
      }
    }
  }

  /** find_tasks lists no task twice, in any journal. */
  lemma {:induction false} TasksUnderDistinct(bs: seq<Block>, k: nat)
    requires WellFormed(bs) && k < |bs|
    ensures Distinct(TasksUnder(bs, k))
    decreases |bs| - k, 1
  {
    ChildrenAfter(bs, k);
    TasksInDistinct(bs, k, bs[k].children);
  }

  /** The loop of find_tasks over children without repeats lists no task twice. */
  lemma {:induction false} TasksInDistinct(bs: seq<Block>, k: nat, cs: seq<nat>)
    requires WellFormed(bs) && k < |bs| && ChildList(bs, k, cs) && Distinct(cs)
    ensures Distinct(TasksIn(bs, k, cs))
    decreases |bs| - k, 0, |cs|
  {
    if cs != [] {
      var c, rest := cs[0], cs[1..];
      var own := if bs[c].kind.Task? then [c] else [];
      var below := TasksUnder(bs, c);
      var later := TasksIn(bs, k, rest);
      assert c !in rest by {
        forall i | 0 <= i < |rest| ensures rest[i] != c {
          assert rest[i] == cs[i + 1];
        }
      }
      assert Distinct(rest) by {
        forall i, j | 0 <= i < j < |rest| ensures rest[i] != rest[j] {
          assert rest[i] == cs[i + 1] && rest[j] == cs[j + 1];
        }
      }
      TasksUnderDistinct(bs, c);
      TasksInDistinct(bs, k, rest);
      TasksInOutside(bs, k, rest, c);
      DistinctConcat(own, below);
      DistinctConcat(own + below, later);
      assert TasksIn(bs, k, cs) == own + below + later;
    }
  }

  /** Two increasing lists, the second wholly after the first, make an increasing list. */
  lemma IncreasingConcat(a: seq<nat>, b: seq<nat>)
    requires Increasing(a) && Increasing(b)
    requires forall x, y :: x in a && y in b ==> x < y
    ensures Increasing(a + b)
  {
    forall i, j | 0 <= i < j < |a + b|
      ensures (a + b)[i] < (a + b)[j]
    {
      if i < |a| && |a| <= j {
        assert (a + b)[i] in a && (a + b)[j] in b;
      }
    }
  }

  /**
   * In a journal whose subtrees are contiguous, find_tasks lists the tasks
   * below `k` in increasing position, that is in the order of their lines.
   */
  lemma {:induction false} TasksUnderOrdered(bs: seq<Block>, k: nat)
    requires WellFormed(bs) && Contiguous(Parents(bs)) && k < |bs|
    ensures Increasing(TasksUnder(bs, k))
    decreases |bs| - k, 1
  {
    ChildrenAfter(bs, k);
    if bs[k].children != [] {
      TasksInOrdered(bs, k, bs[k].children);
    }
  }

  /** In a contiguous journal the tasks below a child come before its next sibling. */
  lemma BelowBeforeSibling(bs: seq<Block>, c: nat, d: nat)
    requires WellFormed(bs) && Contiguous(Parents(bs)) && c < d < |bs|
    requires Parents(bs)[c] == Parents(bs)[d]
    ensures forall t :: t in TasksUnder(bs, c) ==> c < t < d
  {
    var ps := Parents(bs);
    NotUnderSibling(ps, d, d, c);
    forall t | t in TasksUnder(bs, c) ensures t < d {
      assert AncestorOrSelf(ps, t, c);
    }
  }

  /** The loop of find_tasks over increasing children lists tasks in increasing position, from the first child on. */
  lemma {:induction false} TasksInOrdered(bs: seq<Block>, k: nat, cs: seq<nat>)
    requires WellFormed(bs) && Contiguous(Parents(bs)) && k < |bs| && cs != []
    requires ChildList(bs, k, cs)
    requires Increasing(cs)
    ensures Increasing(TasksIn(bs, k, cs))
    ensures forall t :: t in TasksIn(bs, k, cs) ==> cs[0] <= t
    decreases |bs| - k, 0, |cs|
  {
    var c, rest := cs[0], cs[1..];
    var own := if bs[c].kind.Task? then [c] else [];
    var below := TasksUnder(bs, c);
    var later := TasksIn(bs, k, rest);
    TasksUnderOrdered(bs, c);
    var d := if rest != [] then rest[0] else |bs|;
    if rest != [] {
      TasksInOrdered(bs, k, rest);
      BelowBeforeSibling(bs, c, d);
    }
    IncreasingParts(c, d, own, below, later);
  }

  /** A block, the increasing tasks below it, then increasing tasks from `d` on, make an increasing list from the block on. */
  lemma IncreasingParts(c: nat, d: nat, own: seq<nat>, below: seq<nat>, later: seq<nat>)
    requires own == [] || own == [c]
    requires Increasing(below) && Increasing(later) && c < d
    requires forall t :: t in below ==> c < t < d
    requires forall t :: t in later ==> d <= t
    ensures Increasing(own + below + later)
    ensures forall t :: t in own + below + later ==> c <= t
  {
    IncreasingConcat(own, below);
    if later != [] {
      IncreasingConcat(own + below, later);
    } else {
      assert own + below + later == own + below;
    }
  }

  /** The tasks of a journal, in list order. */
  function TaskPositions(bs: seq<Block>): (ts: seq<nat>)
    ensures forall t :: t in ts <==> 0 <= t < |bs| && bs[t].kind.Task?
    ensures Increasing(ts)
  {
    if bs == [] then []
    else
      var n := |bs| - 1;
      var front := TaskPositions(bs[..n]);
      IncreasingSnoc(front, n);
      front + if bs[n].kind.Task? then [n] else []
  }

  /** Two increasing lists with the same elements are equal. */
  lemma {:induction false} IncreasingUnique(a: seq<nat>, b: seq<nat>)
    requires Increasing(a) && Increasing(b)
    requires forall x :: x in a <==> x in b
    ensures a == b
    decreases |a|
  {
    if a != [] {
      assert a[0] in b;
    }
    if b != [] {
      assert b[0] in a;
    }
    if a != [] && b != [] {
      assert a[0] == b[0];
      forall x ensures x in a[1..] <==> x in b[1..] {
        if x in a[1..] {
          assert x in b && x != b[0];
        }
        if x in b[1..] {
          assert x in a && x != a[0];
        }
      }
      IncreasingUnique(a[1..], b[1..]);
      assert a == [a[0]] + a[1..] && b == [b[0]] + b[1..];
    }
  }

  /**
   * find_tasks on the journal of a contiguous outline lists exactly its
   * tasks, in the order their lines appear, each once.
   */
  lemma TasksInDocumentOrder(bs: seq<Block>)
    requires WellFormed(bs) && Contiguous(Parents(bs))
    ensures TasksUnder(bs, 0) == TaskPositions(bs)
  {
    TasksUnderOrdered(bs, 0);
    forall t ensures t in TasksUnder(bs, 0) <==> t in TaskPositions(bs) {
      if 0 <= t < |bs| && bs[t].kind.Task? {
        RootAboveAll(Parents(bs), t);
        TasksUnderComplete(bs, 0, t);
      }
    }
    IncreasingUnique(TasksUnder(bs, 0), TaskPositions(bs));
  }
}
