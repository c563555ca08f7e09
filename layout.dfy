/** What ConstituentStructure.changeStringRepMessageToParent computes for one
    node R: a traversal of R's subtree driven by an explicit stack of
    (node, row) pairs, stated as the effect of one popped pair (Pop) and the
    run of the stack machine until the stack is empty (Run, Traversal); and a
    closed form of the same diagram (Preorder offsets, Width, DrawAll). */
module ConstituentLayout {
  import opened Outcomes
  import opened ConstituentForest

  /** A frontier entry, Pair<ConstituentStructure, Integer>: a node and a row. */
  type Entry = (nat, nat)

  /** The first visit of a node: the node, the row it is drawn on, the column
      it is drawn at, and what the drawing reads of the node (its fragment, its
      childNumber when it has a parent and 0 otherwise, its number of children). */
  datatype Visit = Visit(id: nat, depth: nat, offset: int, fragment: string, shelf: nat, kids: nat)

  /** The renderer's working state: the draws made so far, in order (the rows
      of stringRepLines are those draws applied one after the other, see
      DrawAll), and the three identity-keyed maps nodeToInheritedLeftOffset,
      nodeToChildOffset and nodeToNumBacktracks. */
  datatype State = State(
    drawn: seq<Visit>,
    inherited: map<nat, int>,
    childOffset: map<nat, int>,
    backtracks: map<nat, int>)

  const Empty: State := State([], map[], map[], map[])

  function Max(a: int, b: int): int
  {
    if a < b then b else a
  }

  /** `line` extended with copies of `c` up to length `n` (one append per missing column). */
  function Pad(line: string, n: int, c: char): (r: string)
    ensures |line| < n ==> |r| == n
    ensures |line| >= n ==> r == line
    decreases n - |line|
  {
    if |line| < n then Pad(line + [c], n, c) else line
  }

  /** `k` vertical bars. */
  function Bars(k: nat): string
  {
    if k == 0 then [] else Bars(k - 1) + "|"
  }

  /** Rows extended with empty rows until there are at least `k`. */
  function EnsureRows(rows: seq<string>, k: nat): (r: seq<string>)
    ensures |r| == Max(|rows|, k)
    decreases k - |rows|
  {
    if |rows| < k then EnsureRows(rows + [[]], k) else rows
  }

  /** Rows i..d-1 each padded with spaces to column `tot` and given a bar. */
  function VerticalBars(rows: seq<string>, i: nat, d: nat, tot: int): (r: seq<string>)
    requires d <= |rows|
    ensures |r| == |rows|
    decreases d - i
  {
    if i >= d then rows
    else VerticalBars(rows[i := Pad(rows[i], tot, ' ') + "|"], i + 1, d, tot)
  }

  /** The connector of a k-th child drawn on row d at column tot: dashes on
      the shelf row d-k, then a bar on each of rows d-k..d-1. A negative shelf
      row is `stringRepLines.get` out of range. */
  function Connect(rows: seq<string>, d: nat, k: nat, tot: int): (r: Result<seq<string>>)
    requires d < |rows|
    ensures r.Ok? ==> |r.value| == |rows|
  {
    if d - k < 0 then Throw(IndexOutOfBounds)
    else
      var c := d - k;
      Ok(VerticalBars(rows[c := Pad(rows[c], tot, '-')], c, d, tot))
  }

  /** The downward staircase: for i = n down to 1 on rows d+1..d+n, either a
      fresh row receives i bars, or, when that row already exists, the bars go
      to the row held in `cur` (initially the node's own row d). */
  function Stairs(rows: seq<string>, cur: nat, idx: nat, i: nat): (r: seq<string>)
    requires cur < |rows|
    ensures |r| >= |rows|
    decreases i
  {
    if i == 0 then rows
    else if |rows| <= idx then Stairs(rows + [Bars(i)], |rows|, idx + 1, i - 1)
    else Stairs(rows[cur := rows[cur] + Bars(i)], cur, idx + 1, i - 1)
  }

  /** The visit of node x at row d and column o. */
  ghost function VisitOf(f: Forest, x: nat, d: nat, o: int): Visit
    requires x < |f.nodes|
  {
    var n := f.nodes[x];
    Visit(x, d, o, n.fragment, if n.parent.Some? then n.childNumber else 0, |n.children|)
  }

  /** Everything one first visit adds to the rows: the fragment padded to its
      column on its row, the connector of a later sibling, the staircase of a parent. */
  function Draw(rows: seq<string>, v: Visit): (r: Result<seq<string>>)
  {
    var d := v.depth;
    var r1 := EnsureRows(rows, d + 1);
    var r2 := r1[d := Pad(r1[d], v.offset, ' ') + v.fragment];
    if v.shelf > 1 then
      match Connect(r2, d, v.shelf, v.offset)
      case Throw(e) => Throw(e)
      case Ok(r3) => Ok(if v.kids > 0 then Stairs(r3, d, d + 1, v.kids) else r3)
    else
      Ok(if v.kids > 0 then Stairs(r2, d, d + 1, v.kids) else r2)
  }

  /** The row the children of x drawn on row d are drawn on: below its n staircase rows (line 296). */
  function ChildRow(f: Forest, x: nat, d: nat): nat
    requires x < |f.nodes|
  {
    d + |f.nodes[x].children| + 1
  }

  /** The entries name nodes of the arena. */
  ghost predicate EntriesIn(f: Forest, es: seq<Entry>)
  {
    forall i | 0 <= i < |es| :: es[i].0 < |f.nodes|
  }

  /** The entries pushed for node x drawn on row d, from its i-th child on, top
      first: each child on row d+n+1 above a backtrack entry for x (lines 320-326). */
  ghost function KidEntries(f: Forest, x: nat, i: nat, d: nat): (es: seq<Entry>)
    requires Wf(f) && x < |f.nodes|
    ensures EntriesIn(f, es)
    decreases |f.nodes[x].children| - i
  {
    if i >= |f.nodes[x].children| then []
    else
      KidFacts(f, x, i);
      [(f.nodes[x].children[i], ChildRow(f, x, d)), (x, d)] + KidEntries(f, x, i + 1, d)
  }

  /** The effect of popping (x, d) (lines 165-364): the new state and the
      entries pushed. A node absent from nodeToInheritedLeftOffset is visited
      for the first time; otherwise the entry is a backtrack. The first visit
      of a node that has a parent and is not its first child reads the shelf
      row d - childNumber, which is out of range when negative (line 260). */
  ghost function Pop(f: Forest, s: State, x: nat, d: nat): (r: Result<(State, seq<Entry>)>)
    requires Wf(f) && x < |f.nodes|
  {
    var n := f.nodes[x];
    if x !in s.inherited then
      var bt := s.backtracks[x := 0];
      var (tot, co) :=
        if n.parent.Some? then
          var p := n.parent.value;
          var pco := GetOrZero(s.childOffset, p);
          var t := GetOrZero(s.inherited, p) + pco;
          (t, if n.numChildren == 0
              then s.childOffset[p := |n.fragment| + (if n.childNumber > 1 then 1 else 0) + pco]
              else s.childOffset)
        else (0, s.childOffset);
      if n.parent.Some? && n.childNumber > 1 && d - n.childNumber < 0 then Throw(IndexOutOfBounds)
      else Ok((State(s.drawn + [VisitOf(f, x, d, tot)], s.inherited[x := tot], co, bt), KidEntries(f, x, 0, d)))
    else if x !in s.backtracks then Throw(NullPointer)
    else
      var b := s.backtracks[x] + 1;
      var s1 := s.(backtracks := s.backtracks[x := b]);
      if b == n.numChildren && n.parent.Some? then
        if x !in s.childOffset then Throw(NullPointer)
        else
          var p := n.parent.value;
          var w := Max(n.ownWidth, s.childOffset[x]);
          Ok((s1.(childOffset := s.childOffset[p := GetOrZero(s.childOffset, p) + w]), []))
      else Ok((s1, []))
  }

  /** The number of nodes of the arena below `n` that are not in `keys`. */
  function Unvisited(keys: set<nat>, n: nat): nat
  {
    if n == 0 then 0 else Unvisited(keys, n - 1) + (if n - 1 in keys then 0 else 1)
  }

  lemma {:induction false} UnvisitedDrop(keys: set<nat>, x: nat, n: nat)
    requires x < n && x !in keys
    ensures Unvisited(keys + {x}, n) < Unvisited(keys, n)
  {
    if n - 1 != x {
      UnvisitedDrop(keys, x, n - 1);
      UnvisitedMono(keys, x, n - 1);
    } else {
      UnvisitedMono(keys, x, n - 1);
    }
  }

  lemma {:induction false} UnvisitedMono(keys: set<nat>, x: nat, n: nat)
    ensures Unvisited(keys + {x}, n) <= Unvisited(keys, n)
  {
    if n > 0 {
      UnvisitedMono(keys, x, n - 1);
    }
  }

  lemma EntriesAppend(f: Forest, a: seq<Entry>, b: seq<Entry>)
    requires EntriesIn(f, a) && EntriesIn(f, b)
    ensures EntriesIn(f, a + b)
  {
    forall i | 0 <= i < |a + b| ensures (a + b)[i].0 < |f.nodes| {
      if i < |a| { assert (a + b)[i] == a[i]; } else { assert (a + b)[i] == b[i - |a|]; }
    }
  }

  /** The loop of lines 162-365: pop entries until the frontier is empty; the
      first exception ends the run. Each first visit adds a node to
      nodeToInheritedLeftOffset and each backtrack shrinks the stack. */
  ghost function Run(f: Forest, s: State, stack: seq<Entry>): Result<State>
    requires Wf(f) && EntriesIn(f, stack)
    decreases Unvisited(s.inherited.Keys, |f.nodes|), |stack|
  {
    if stack == [] then Ok(s)
    else
      var (x, d) := stack[0];
      match Pop(f, s, x, d)
      case Throw(e) => Throw(e)
      case Ok((t, pushed)) =>
        assert EntriesIn(f, pushed) by {
          if x !in s.inherited {
            assert pushed == KidEntries(f, x, 0, d);
          } else {
            assert pushed == [];
          }
        }
        EntriesAppend(f, pushed, stack[1..]);
        if x !in s.inherited then
          assert t.inherited.Keys == s.inherited.Keys + {x};
          UnvisitedDrop(s.inherited.Keys, x, |f.nodes|);
          Run(f, t, pushed + stack[1..])
        else
          assert t.inherited == s.inherited && pushed == [];
          Run(f, t, pushed + stack[1..])
  }

  /** The rows joined by line breaks, with no trailing break (lines 368-383). */
  function Join(rows: seq<string>): string
  {
    if |rows| == 0 then []
    else if |rows| == 1 then rows[0]
    else Join(rows[..|rows| - 1]) + "\n" + rows[|rows| - 1]
  }

  /** What the stack algorithm leaves in totalStringRep for node x, or the exception it throws. */
  ghost function Traversal(f: Forest, x: nat): Result<string>
    requires Wf(f) && x < |f.nodes|
  {
    match Run(f, Empty, [(x, 0)])
    case Throw(e) => Throw(e)
    case Ok(s) =>
      match DrawAll([], s.drawn)
      case Throw(e) => Throw(e)
      case Ok(rows) => Ok(Join(rows))
  }

  // ---------------------------------------------------------------------
  // The closed form

  /** The width node x reports to its parent: a leaf its fragment length
      (plus one when it is not the first child), an inner node the larger of
      its own-width field and the widths its children reported. */
  ghost function Width(f: Forest, x: nat): int
    requires Wf(f) && x < |f.nodes|
    decreases f.rank[x], 1
  {
    var n := f.nodes[x];
    if |n.children| == 0 then |n.fragment| + (if n.childNumber > 1 then 1 else 0)
    else Max(n.ownWidth, KidWidths(f, x, 0))
  }

  /** The widths of the children from the i-th on, summed. */
  ghost function KidWidths(f: Forest, x: nat, i: nat): int
    requires Wf(f) && x < |f.nodes|
    decreases f.rank[x], 0, |f.nodes[x].children| - i
  {
    if i >= |f.nodes[x].children| then 0
    else
      KidFacts(f, x, i);
      Width(f, f.nodes[x].children[i]) + KidWidths(f, x, i + 1)
  }

  /** The first visits in order: x at row d, column o; its children on row
      d+n+1, the first at column o and each next one right after the widths
      its earlier siblings reported. */
  ghost function Preorder(f: Forest, x: nat, d: nat, o: int): seq<Visit>
    requires Wf(f) && x < |f.nodes|
    decreases f.rank[x], 1
  {
    [VisitOf(f, x, d, o)] + KidVisits(f, x, 0, ChildRow(f, x, d), o)
  }

  ghost function KidVisits(f: Forest, x: nat, i: nat, dk: nat, o: int): seq<Visit>
    requires Wf(f) && x < |f.nodes|
    decreases f.rank[x], 0, |f.nodes[x].children| - i
  {
    if i >= |f.nodes[x].children| then []
    else
      KidFacts(f, x, i);
      var c := f.nodes[x].children[i];
      Preorder(f, c, dk, o) + KidVisits(f, x, i + 1, dk, o + Width(f, c))
  }

  /** The visits drawn one after the other. */
  function DrawAll(rows: seq<string>, vs: seq<Visit>): Result<seq<string>>
    decreases |vs|
  {
    if vs == [] then Ok(rows)
    else
      match Draw(rows, vs[0])
      case Throw(e) => Throw(e)
      case Ok(r) => DrawAll(r, vs[1..])
  }

  /** The diagram in closed form: rendering a node that has a parent and is
      not its first child throws at the connector of line 260; otherwise the
      preorder visits are drawn into initially empty rows and joined. */
  ghost function Diagram(f: Forest, x: nat): Result<string>
    requires Wf(f) && x < |f.nodes|
  {
    var n := f.nodes[x];
    if n.parent.Some? && n.childNumber > 1 then Throw(IndexOutOfBounds)
    else
      match DrawAll([], Preorder(f, x, 0, 0))
      case Throw(e) => Throw(e)
      case Ok(rows) => Ok(Join(rows))
  }
}
