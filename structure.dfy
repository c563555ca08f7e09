/** The ConstituentStructure class: a node of a constituent tree that caches
    an ASCII diagram of its subtree. All nodes ever constructed live in one
    arena; a node is its hashCode, the value of the static counter when it
    was constructed (lines 14, 398-400). */
module ConstituentStructure {
  import opened Outcomes
  import opened ConstituentForest
  import opened ConstituentLayout
  import opened LayoutCorrectness

  // ---------------------------------------------------------------------
  // The inner loops of changeStringRepMessageToParent, on the row list

  /** Appends `c` to `line` until it reaches column `n` (lines 246-249, 265-268, 278-281). */
  method PadLine(line: string, n: int, c: char) returns (r: string)
    ensures r == Pad(line, n, c)
  {
    r := line;
    var i := |line|;
    while i < n
      invariant i == |r| && Pad(r, n, c) == Pad(line, n, c)
      decreases n - i
    {
      r := r + [c];
      i := i + 1;
    }
  }

  /** Adds empty rows until row `d` exists (lines 235-241). */
  method AddRows(rows: seq<string>, d: nat) returns (r: seq<string>)
    ensures r == EnsureRows(rows, d + 1)
  {
    r := rows;
    var i := |rows|;
    while i <= d
      invariant i == |r| && EnsureRows(r, d + 1) == EnsureRows(rows, d + 1)
      decreases d + 1 - i
    {
      r := r + [[]];
      i := i + 1;
    }
  }

  /** The connector of the k-th child drawn on row d at column tot (lines 256-286). */
  method Connector(rows: seq<string>, d: nat, k: nat, tot: int) returns (r: Result<seq<string>>)
    requires d < |rows|
    ensures r == Connect(rows, d, k, tot)
  {
    var shelf := d - k;
    if shelf < 0 {
      return Throw(IndexOutOfBounds);
    }
    var line := PadLine(rows[shelf], tot, '-');
    var rs := rows[shelf := line];
    var i := shelf;
    while i < d
      invariant shelf <= i <= d && |rs| == |rows|
      invariant VerticalBars(rs, i, d, tot) == VerticalBars(rows[shelf := Pad(rows[shelf], tot, '-')], shelf, d, tot)
      decreases d - i
    {
      var padded := PadLine(rs[i], tot, ' ');
      rs := rs[i := padded + "|"];
      i := i + 1;
    }
    return Ok(rs);
  }

  /** The downward staircase below a node on row d with n children (lines
      296-317); `cur` plays curStringRepLine, the row the bars go to. */
  method Staircase(rows: seq<string>, d: nat, n: nat) returns (r: seq<string>)
    requires d < |rows|
    ensures r == Stairs(rows, d, d + 1, n)
  {
    r := rows;
    var cur: nat := d;
    var idx: nat := d + 1;
    var i: nat := n;
    while i >= 1
      invariant cur < |r| && Stairs(r, cur, idx, i) == Stairs(rows, d, d + 1, n)
      decreases i
    {
      ghost var before, old_cur := r, cur;
      if |r| <= idx {
        r := r + [[]];
        cur := |r| - 1;
      }
      assert before[old_cur] + [] == before[old_cur];
      assert Bars(0) == [] && before[old_cur := before[old_cur] + []] == before;
      var k := 0;
      while k < i
        invariant 0 <= k <= i && cur < |r| && old_cur < |before|
        invariant cur == (if |before| <= idx then |before| else old_cur)
        invariant r == (if |before| <= idx then before + [Bars(k)] else before[cur := before[cur] + Bars(k)])
        decreases i - k
      {
        assert Bars(k + 1) == Bars(k) + "|";
        assert |before| > idx ==> before[cur] + Bars(k) + "|" == before[cur] + Bars(k + 1);
        r := r[cur := r[cur] + "|"];
        k := k + 1;
      }
      idx := idx + 1;
      i := i - 1;
    }
  }

  /** The entries pushed for node x on row d, top first (lines 319-326). */
  method PushChildren(ghost f: Forest, kids: seq<nat>, x: nat, d: nat, stack: seq<Entry>) returns (st: seq<Entry>)
    requires Wf(f) && x < |f.nodes| && kids == f.nodes[x].children
    ensures st == KidEntries(f, x, 0, d) + stack
  {
    st := stack;
    var dk := d + |kids| + 1;
    var i := |kids|;
    while i > 0
      invariant 0 <= i <= |kids| && st == KidEntries(f, x, i, d) + stack
      decreases i
    {
      i := i - 1;
      KidEntriesStep(f, x, i, d, stack);
      st := [(x, d)] + st;
      st := [(kids[i], dk)] + st;
    }
  }

  /** The rows joined with a line break after every row but the last (lines 368-383). */
  method JoinRows(rows: seq<string>) returns (t: string)
    ensures t == Join(rows)
  {
    t := "";
    var i := 0;
    while i < |rows|
      invariant 0 <= i <= |rows|
      invariant t == if i == 0 then "" else Join(rows[..i]) + (if i < |rows| then "\n" else "")
      decreases |rows| - i
    {
      assert rows[..i + 1][..i] == rows[..i];
      t := t + rows[i];
      if i + 1 < |rows| {
        t := t + "\n";
      }
      i := i + 1;
    }
    assert rows[..|rows|] == rows;
  }

  /** Everything the first visit of one node adds to the rows (lines 235-317). */
  method DrawNode(rows: seq<string>, ghost id: nat, d: nat, tot: int, fragment: string, shelf: nat, kids: nat)
    returns (r: Result<seq<string>>)
    ensures r == Draw(rows, Visit(id, d, tot, fragment, shelf, kids))
  {
    var rs := AddRows(rows, d);
    var line := PadLine(rs[d], tot, ' ');
    rs := rs[d := line + fragment];
    if shelf > 1 {
      var c := Connector(rs, d, shelf, tot);
      if c.Throw? {
        return Throw(c.exc);
      }
      rs := c.value;
    }
    if kids > 0 {
      rs := Staircase(rs, d, kids);
    }
    return Ok(rs);
  }

  // ---------------------------------------------------------------------
  // What the mutators and the propagation do to the arena

  /** StringBuilder.insert(length - 1, w) on a fragment: the word goes just
      before the closing parenthesis (line 415). */
  function InsertWord(fragment: string, w: string): string
    requires |fragment| >= 1
  {
    fragment[..|fragment| - 1] + w + fragment[|fragment| - 1..]
  }

  /** Inserting a word into the fragment of some words gives the fragment of those words and then it. */
  lemma InsertWordFragment(ctype: string, ws: seq<string>, w: string)
    ensures |Fragment(ctype, ws)| >= 2
    ensures InsertWord(Fragment(ctype, ws), w) == Fragment(ctype, ws + [w])
  {
    var frag := Fragment(ctype, ws);
    assert (ws + [w])[..|ws|] == ws;
    assert frag[..|frag| - 1] == "(" + ctype + Concat(ws);
    assert frag[|frag| - 1..] == ")";
  }

  /** The arena with word w added to node x (lines 411-417). */
  ghost function WithWord(f: Forest, x: nat, w: string): Forest
    requires x < |f.nodes|
  {
    var n := f.nodes[x];
    f.(nodes := f.nodes[x := n.(words := n.words + [w], fragment := Fragment(n.constituentType, n.words + [w]))])
  }

  lemma WithWordWf(f: Forest, x: nat, w: string)
    requires Wf(f) && x < |f.nodes|
    ensures Wf(WithWord(f, x, w))
  {
    var g := WithWord(f, x, w);
    forall y | 0 <= y < |g.nodes|
      ensures NodeOk(g, y)
    {
      assert NodeOk(f, y);
      var n := g.nodes[y];
      forall i | 0 <= i < |n.children|
        ensures ChildOk(g, y, i)
      {
        assert ChildOk(f, y, i);
      }
      if n.parent.Some? {
        assert ParentOk(f, y);
      }
    }
  }

  /** The arena with a new parentless, childless node of type ctype (lines 391-409). */
  ghost function WithNode(f: Forest, ctype: string): Forest
  {
    Forest(f.nodes + [Node(ctype, [], "(" + ctype + ")", 0, [], 0, None, 0, |f.nodes|)], f.rank + [0], f.hi)
  }

  lemma WithNodeWf(f: Forest, ctype: string)
    requires Wf(f)
    ensures Wf(WithNode(f, ctype))
  {
    var g := WithNode(f, ctype);
    assert Concat([]) == [];
    forall y | 0 <= y < |g.nodes|
      ensures NodeOk(g, y)
    {
      if y < |f.nodes| {
        assert NodeOk(f, y);
        var n := g.nodes[y];
        forall i | 0 <= i < |n.children|
          ensures ChildOk(g, y, i)
        {
          assert ChildOk(f, y, i);
        }
        if n.parent.Some? {
          assert ParentOk(f, y);
        }
      }
    }
  }

  /** Ranks after hanging the tree of root c below x: the tree of c keeps its
      ranks and every other node is lifted above the rank of c. */
  ghost function Lift(f: Forest, c: nat): (r: seq<nat>)
    requires Wf(f) && c < |f.nodes|
    ensures |r| == |f.nodes|
    ensures forall y | 0 <= y < |f.nodes| :: r[y] == if AncOrSelf(f, c, y) then f.rank[y] else f.rank[y] + f.rank[c] + 1
  {
    seq(|f.nodes|, y requires 0 <= y < |f.nodes| => if AncOrSelf(f, c, y) then f.rank[y] else f.rank[y] + f.rank[c] + 1)
  }

  /** The arena after x.addConstituentStructureChild(c) (lines 422-431): c
      points to x and is numbered after x's existing children, and x lists c
      last. Nothing else changes. */
  ghost function Attach(f: Forest, x: nat, c: nat): Forest
    requires Wf(f) && x < |f.nodes| && c < |f.nodes|
  {
    var n := f.nodes[x];
    var nodes := f.nodes[c := f.nodes[c].(parent := Some(x), childNumber := |n.children| + 1)];
    Forest(nodes[x := nodes[x].(children := n.children + [c], numChildren := n.numChildren + 1)],
           Lift(f, c), f.hi + f.rank[c] + 1)
  }

  /** Attaching an unattached node that is not x or above it keeps the arena
      well formed: in particular every child still carries its 1-based
      position and numChildren is still the size of the child list. */
  lemma AttachWf(f: Forest, x: nat, c: nat)
    requires Wf(f) && x < |f.nodes| && c < |f.nodes|
    requires f.nodes[c].parent.None? && !AncOrSelf(f, c, x)
    ensures Wf(Attach(f, x, c))
  {
    var g := Attach(f, x, c);
    assert NodeOk(f, x);
    assert NodeOk(f, c);
    forall y | 0 <= y < |g.nodes|
      ensures NodeOk(g, y)
    {
      assert NodeOk(f, y);
      AttachKids(f, x, c, y);
      if g.nodes[y].parent.Some? && y != c {
        assert ParentOk(f, y);
      }
    }
  }

  lemma AttachKids(f: Forest, x: nat, c: nat, y: nat)
    requires Wf(f) && x < |f.nodes| && c < |f.nodes| && y < |f.nodes|
    requires f.nodes[c].parent.None? && !AncOrSelf(f, c, x)
    ensures forall i | 0 <= i < |Attach(f, x, c).nodes[y].children| :: ChildOk(Attach(f, x, c), y, i)
  {
    var g := Attach(f, x, c);
    assert NodeOk(f, y);
    forall i | 0 <= i < |g.nodes[y].children|
      ensures ChildOk(g, y, i)
    {
      if y == x && i == |f.nodes[x].children| {
        assert AncOrSelf(f, c, c);
      } else {
        assert ChildOk(f, y, i);
        var z := f.nodes[y].children[i];
        assert z != c;
        assert AncOrSelf(f, c, z) == AncOrSelf(f, c, y);
      }
    }
  }

  /** The cached renderings after changeStringRepMessageToParent on x (lines
      45-383): the parent is brought up to date first, the root first and x
      last (lines 51-54); then totalStringRep of x is the traversal of its
      subtree. The first exception propagates out and leaves the nodes below
      it on the path as they were. */
  ghost function Refreshed(f: Forest, reps: seq<string>, x: nat): (r: (Option<Exception>, seq<string>))
    requires Wf(f) && x < |f.nodes| && |reps| == |f.nodes|
    ensures |r.1| == |reps|
    decreases f.hi - f.rank[x]
  {
    var (e, before) :=
      if f.nodes[x].parent.Some? then
        ParentRank(f, x);
        Refreshed(f, reps, f.nodes[x].parent.value)
      else (None, reps);
    if e.Some? then (e, before)
    else
      match Traversal(f, x)
      case Throw(thrown) => (Some(thrown), before)
      case Ok(text) => (None, before[x := text])
  }

  /** The argument of equals: null, an object of another class, or a ConstituentStructure. */
  datatype Obj = Null | Other | Ref(id: nat)

  /** ConstituentStructure.equals (lines 472-519). Unequal types or a
      non-ConstituentStructure argument give false; otherwise the parents are
      compared, which dereferences the receiver's null parent at a root. The
      comparisons after that one (contents words, then children) are the
      parameter `later`. */
  function Equals(f: Forest, x: nat, obj: Obj, later: (nat, nat) -> Result<bool>): Result<bool>
    requires Wf(f) && x < |f.nodes| && (obj.Ref? ==> obj.id < |f.nodes|)
    decreases f.hi - f.rank[x]
  {
    if !obj.Ref? then Ok(false)
    else
      var y := obj.id;
      if f.nodes[x].constituentType != f.nodes[y].constituentType then Ok(false)
      else if f.nodes[x].parent.None? then Throw(NullPointer)
      else
        ParentRank(f, x);
        var q := f.nodes[y].parent;
        var arg := if q.Some? then (ParentRank(f, y); Ref(q.value)) else Null;
        match Equals(f, f.nodes[x].parent.value, arg, later)
        case Throw(e) => Throw(e)
        case Ok(same) => if same then later(x, y) else Ok(false)
  }

  // ---------------------------------------------------------------------
  // The arena of ConstituentStructure objects

  class Arena {
    /** The objects, indexed by hashCode. */
    var nodes: seq<Node>
    /** totalStringRep of each object. */
    var reps: seq<string>
    ghost var rank: seq<nat>
    ghost var hi: nat

    ghost function Snapshot(): Forest
      reads this
    {
      Forest(nodes, rank, hi)
    }

    /** The object graph is well formed and every object's hashCode is its index. */
    ghost predicate Valid()
      reads this
    {
      && Wf(Snapshot())
      && |reps| == |nodes|
      && forall y | 0 <= y < |nodes| :: nodes[y].hash == y
    }

    constructor ()
      ensures Valid() && nodes == [] && reps == []
    {
      nodes, reps, rank, hi := [], [], [], 0;
    }

    /** new ConstituentStructure(ctype) (lines 391-409): a parentless node
        with no words and no children, whose hashCode is the next counter
        value, and whose fragment and cached rendering are "(" + ctype + ")". */
    method New(ctype: string) returns (id: nat)
      requires Valid()
      modifies this
      ensures Valid()
      ensures id == old(|nodes|)
      ensures nodes == old(nodes) + [Node(ctype, [], "(" + ctype + ")", 0, [], 0, None, 0, id)]
      ensures reps == old(reps) + ["(" + ctype + ")"]
    {
      WithNodeWf(Snapshot(), ctype);
      id := |nodes|;
      var fragment := "(" + ctype + ")";
      nodes := nodes + [Node(ctype, [], fragment, 0, [], 0, None, 0, id)];
      reps := reps + [fragment];
      rank := rank + [0];
    }

    /** x.addContentWord(w) (lines 411-420): the word is appended to the
        words and inserted before the closing parenthesis of the fragment, then
        x and its ancestors are re-rendered. */
    method AddContentWord(x: nat, w: string) returns (thrown: Option<Exception>)
      requires Valid() && x < |nodes|
      modifies this
      ensures Valid()
      ensures Snapshot() == WithWord(old(Snapshot()), x, w)
      ensures (thrown, reps) == Refreshed(Snapshot(), old(reps), x)
    {
      ghost var f := Snapshot();
      WithWordWf(f, x, w);
      var n := nodes[x];
      assert NodeOk(f, x);
      InsertWordFragment(n.constituentType, n.words, w);
      nodes := nodes[x := n.(words := n.words + [w], fragment := InsertWord(n.fragment, w))];
      thrown := ChangeStringRep(x);
    }

    /** x.addConstituentStructureChild(c) (lines 422-434), then x and its
        ancestors are re-rendered. The source does not check that c is
        unattached or that c is not x or above it; the model requires both. */
    method AddChild(x: nat, c: nat) returns (thrown: Option<Exception>)
      requires Valid() && x < |nodes| && c < |nodes|
      requires nodes[c].parent.None? && !AncOrSelf(Snapshot(), c, x)
      modifies this
      ensures Valid()
      ensures Snapshot() == Attach(old(Snapshot()), x, c)
      ensures (thrown, reps) == Refreshed(Snapshot(), old(reps), x)
    {
      ghost var f := Snapshot();
      AttachWf(f, x, c);
      assert AncOrSelf(f, c, c);
      nodes := nodes[c := nodes[c].(parent := Some(x))];
      nodes := nodes[x := nodes[x].(children := nodes[x].children + [c])];
      nodes := nodes[x := nodes[x].(numChildren := nodes[x].numChildren + 1)];
      nodes := nodes[c := nodes[c].(childNumber := nodes[x].numChildren)];
      rank, hi := Lift(f, c), hi + rank[c] + 1;
      assert NodeOk(f, x);
      assert nodes[x] == Attach(f, x, c).nodes[x] && nodes[c] == Attach(f, x, c).nodes[c];
      assert nodes == Attach(f, x, c).nodes;
      thrown := ChangeStringRep(x);
    }

    /** changeStringRepMessageToParent (lines 45-383): the parent chain is
        re-rendered first, then x; an exception stops the propagation. */
    method ChangeStringRep(x: nat) returns (thrown: Option<Exception>)
      requires Valid() && x < |nodes|
      modifies this
      ensures Valid() && nodes == old(nodes) && rank == old(rank) && hi == old(hi)
      ensures (thrown, reps) == Refreshed(Snapshot(), old(reps), x)
      decreases hi - rank[x]
    {
      if nodes[x].parent.Some? {
        ParentRank(Snapshot(), x);
        thrown := ChangeStringRep(nodes[x].parent.value);
        if thrown.Some? {
          return;
        }
      }
      var r := Render(x);
      match r {
        case Throw(e) =>
          thrown := Some(e);
        case Ok(text) =>
          reps := reps[x := text];
          thrown := None;
      }
    }

    /** toString (lines 522-525): the cached rendering. */
    function ToString(x: nat): string
      reads this
      requires Valid() && x < |nodes|
    {
      reps[x]
    }

    /** hashCode (lines 466-469): the counter value taken at construction. */
    function HashCode(x: nat): (h: int)
      reads this
      requires Valid() && x < |nodes|
      ensures h == x
    {
      nodes[x].hash
    }

    /** The first visit of y popped with row d (lines 172-327): record its
        offsets, draw it and its connectors, push its children above backtrack
        entries; the outcome is the Pop of the stack machine. */
    method FirstVisit(y: nat, d: nat, rest: seq<Entry>, rows: seq<string>, ghost drawn: seq<Visit>,
                      inherited: map<nat, int>, childOffset: map<nat, int>, backtracks: map<nat, int>)
      returns (thrown: Option<Exception>, frontier': seq<Entry>, rows': seq<string>, ghost drawn': seq<Visit>,
               inherited': map<nat, int>, childOffset': map<nat, int>, backtracks': map<nat, int>)
      requires Valid() && y < |nodes| && y !in inherited && DrawAll([], drawn) == Ok(rows)
      ensures thrown.Some? ==> Pop(Snapshot(), State(drawn, inherited, childOffset, backtracks), y, d) == Throw(thrown.value)
      ensures thrown.None? ==>
        && Pop(Snapshot(), State(drawn, inherited, childOffset, backtracks), y, d)
           == Ok((State(drawn', inherited', childOffset', backtracks'), KidEntries(Snapshot(), y, 0, d)))
        && frontier' == KidEntries(Snapshot(), y, 0, d) + rest
        && DrawAll([], drawn') == Ok(rows')
    {
      ghost var f := Snapshot();
      var n := nodes[y];
      thrown, frontier', rows', drawn' := None, rest, rows, drawn;
      inherited', childOffset' := inherited, childOffset;
      backtracks' := backtracks[y := 0];
      var tot := 0;
      if n.parent.Some? {
        var p := n.parent.value;
        var pco := if p in childOffset then childOffset[p] else 0;
        tot := (if p in inherited then inherited[p] else 0) + pco;
        if n.numChildren == 0 {
          var w := |n.fragment|;
          if n.childNumber > 1 {
            w := w + 1;
          }
          childOffset' := childOffset[p := w + pco];
        }
      }
      inherited' := inherited[y := tot];
      var shelf := if n.parent.Some? then n.childNumber else 0;
      ghost var v := Visit(y, d, tot, n.fragment, shelf, |n.children|);
      assert v == VisitOf(f, y, d, tot);
      var drawnRows := DrawNode(rows, y, d, tot, n.fragment, shelf, |n.children|);
      ghost var s := State(drawn, inherited, childOffset, backtracks);
      if drawnRows.Throw? {
        assert Pop(f, s, y, d) == Throw(IndexOutOfBounds);
        thrown := Some(drawnRows.exc);
        return;
      }
      DrawAllAppend([], drawn, [v], rows);
      rows' := drawnRows.value;
      drawn' := drawn + [v];
      frontier' := PushChildren(f, n.children, y, d, rest);
      assert Pop(f, s, y, d) == Ok((State(drawn', inherited', childOffset', backtracks'), KidEntries(f, y, 0, d)));
    }

    /** A repeated visit of y (lines 329-362): count the backtrack and, once
        every child has been backtracked from, report y's width to its parent;
        the outcome is the Pop of the stack machine. */
    method Backtrack(y: nat, d: nat, ghost drawn: seq<Visit>,
                     inherited: map<nat, int>, childOffset: map<nat, int>, backtracks: map<nat, int>)
      returns (thrown: Option<Exception>, childOffset': map<nat, int>, backtracks': map<nat, int>)
      requires Valid() && y < |nodes| && y in inherited
      ensures thrown.Some? ==> Pop(Snapshot(), State(drawn, inherited, childOffset, backtracks), y, d) == Throw(thrown.value)
      ensures thrown.None? ==>
        Pop(Snapshot(), State(drawn, inherited, childOffset, backtracks), y, d)
        == Ok((State(drawn, inherited, childOffset', backtracks'), []))
    {
      var n := nodes[y];
      thrown, childOffset', backtracks' := None, childOffset, backtracks;
      if y !in backtracks {
        thrown := Some(NullPointer);
        return;
      }
      var b := backtracks[y] + 1;
      backtracks' := backtracks[y := b];
      if b == n.numChildren && n.parent.Some? {
        var p := n.parent.value;
        if y !in childOffset {
          thrown := Some(NullPointer);
          return;
        }
        var w := Max(n.ownWidth, childOffset[y]);
        var pco := if p in childOffset then childOffset[p] else 0;
        childOffset' := childOffset[p := pco + w];
      }
    }

    /** The stack renderer of changeStringRepMessageToParent (lines 121-383)
        for node x: its result is what the stack machine Traversal computes. */
    method Render(x: nat) returns (r: Result<string>)
      requires Valid() && x < |nodes|
      ensures r == Traversal(Snapshot(), x)
    {
      ghost var f := Snapshot();
      var rows: seq<string> := [];
      var frontier: seq<Entry> := [(x, 0)];
      var inherited: map<nat, int> := map[];
      var childOffset: map<nat, int> := map[];
      var backtracks: map<nat, int> := map[];
      ghost var drawn: seq<Visit> := [];
      while frontier != []
        invariant EntriesIn(f, frontier)
        invariant Run(f, State(drawn, inherited, childOffset, backtracks), frontier) == Run(f, Empty, [(x, 0)])
        invariant DrawAll([], drawn) == Ok(rows)
        decreases Unvisited(inherited.Keys, |f.nodes|), |frontier|
      {
        ghost var s := State(drawn, inherited, childOffset, backtracks);
        var (y, d) := frontier[0];
        var rest := frontier[1..];
        assert frontier == [(y, d)] + rest;
        var thrown;
        if y !in inherited {
          thrown, frontier, rows, drawn, inherited, childOffset, backtracks :=
            FirstVisit(y, d, rest, rows, drawn, inherited, childOffset, backtracks);
          if thrown.Some? {
            RunPopThrow(f, s, y, d, rest, thrown.value);
            return Throw(thrown.value);
          }
          RunPop(f, s, y, d, rest, State(drawn, inherited, childOffset, backtracks), KidEntries(f, y, 0, d));
          assert inherited.Keys == s.inherited.Keys + {y};
          UnvisitedDrop(s.inherited.Keys, y, |f.nodes|);
        } else {
          thrown, childOffset, backtracks := Backtrack(y, d, drawn, inherited, childOffset, backtracks);
          if thrown.Some? {
            RunPopThrow(f, s, y, d, rest, thrown.value);
            return Throw(thrown.value);
          }
          RunPop(f, s, y, d, rest, State(drawn, inherited, childOffset, backtracks), []);
          assert [] + rest == rest;
          frontier := rest;
        }
      }
      var text := JoinRows(rows);
      return Ok(text);
    }
  }
}
