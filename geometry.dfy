/** The geometry of the diagram: how wide each node is, where siblings sit,
    what the staircase and the connector write, and that drawing only ever
    appends to rows. */
module LayoutGeometry {
  import opened Outcomes
  import opened ConstituentForest
  import opened ConstituentLayout

  // ---------------------------------------------------------------------
  // Widths and columns

  /** Every node reports at least two columns, the parentheses of its
      fragment; an inner node reports the sum of its children's widths, since
      thisLevelStringRepWidth stays 0 (lines 24, 338-361). */
  lemma {:induction false} WidthAtLeastTwo(f: Forest, x: nat)
    requires Wf(f) && x < |f.nodes|
    ensures Width(f, x) >= 2
    ensures |f.nodes[x].children| > 0 ==> Width(f, x) == KidWidths(f, x, 0)
    decreases f.rank[x], 1
  {
    assert NodeOk(f, x);
    if |f.nodes[x].children| > 0 {
      KidWidthsAtLeast(f, x, 0);
    }
  }

  /** The children from the i-th on report at least two columns each. */
  lemma {:induction false} KidWidthsAtLeast(f: Forest, x: nat, i: nat)
    requires Wf(f) && x < |f.nodes| && i <= |f.nodes[x].children|
    ensures KidWidths(f, x, i) >= 2 * (|f.nodes[x].children| - i)
    decreases f.rank[x], 0, |f.nodes[x].children| - i
  {
    if i < |f.nodes[x].children| {
      KidFacts(f, x, i);
      WidthAtLeastTwo(f, f.nodes[x].children[i]);
      KidWidthsAtLeast(f, x, i + 1);
    }
  }

  /** The column of the i-th child of a node at column o: the parent's
      offset plus what the earlier siblings reported (lines 188-205). */
  ghost function KidColumn(f: Forest, x: nat, i: nat, o: int): int
    requires Wf(f) && x < |f.nodes|
  {
    o + KidWidths(f, x, 0) - KidWidths(f, x, i)
  }

  /** The first child sits at its parent's column, and each later sibling at
      least two columns further right than any earlier one. */
  lemma {:induction false} SiblingsLeftToRight(f: Forest, x: nat, i: nat, j: nat, o: int)
    requires Wf(f) && x < |f.nodes| && i <= j <= |f.nodes[x].children|
    ensures KidColumn(f, x, 0, o) == o
    ensures KidColumn(f, x, i, o) + 2 * (j - i) <= KidColumn(f, x, j, o)
    decreases j - i
  {
    if i < j {
      KidFacts(f, x, i);
      WidthAtLeastTwo(f, f.nodes[x].children[i]);
      SiblingsLeftToRight(f, x, i + 1, j, o);
    }
  }

  /** KidColumn is where the preorder puts the children: the visits of the
      children from the i-th on follow those of the earlier ones, starting at
      column KidColumn(i). */
  lemma {:induction false} KidVisitsAt(f: Forest, x: nat, i: nat, dk: nat, o: int)
    requires Wf(f) && x < |f.nodes| && i <= |f.nodes[x].children|
    ensures exists pre :: KidVisits(f, x, 0, dk, o) == pre + KidVisits(f, x, i, dk, KidColumn(f, x, i, o))
    decreases i
  {
    if i == 0 {
      assert KidVisits(f, x, 0, dk, o) == [] + KidVisits(f, x, 0, dk, KidColumn(f, x, 0, o));
    } else {
      KidVisitsAt(f, x, i - 1, dk, o);
      var pre :| KidVisits(f, x, 0, dk, o) == pre + KidVisits(f, x, i - 1, dk, KidColumn(f, x, i - 1, o));
      KidFacts(f, x, i - 1);
      var c := f.nodes[x].children[i - 1];
      var oc := KidColumn(f, x, i - 1, o);
      assert KidColumn(f, x, i, o) == oc + Width(f, c);
      assert KidVisits(f, x, i - 1, dk, oc) == Preorder(f, c, dk, oc) + KidVisits(f, x, i, dk, KidColumn(f, x, i, o));
      assert KidVisits(f, x, 0, dk, o) == (pre + Preorder(f, c, dk, oc)) + KidVisits(f, x, i, dk, KidColumn(f, x, i, o));
    }
  }

  /** The i-th child of x is visited on the child row at column KidColumn(i):
      the preorder of x is x's visit, the visits of the earlier children, and
      then the i-th child's visit at that row and column. */
  lemma ChildPlacement(f: Forest, x: nat, i: nat, d: nat, o: int)
    requires Wf(f) && x < |f.nodes| && i < |f.nodes[x].children|
    ensures f.nodes[x].children[i] < |f.nodes|
    ensures exists pre, post :: (Preorder(f, x, d, o) ==
      [VisitOf(f, x, d, o)] + pre + [VisitOf(f, f.nodes[x].children[i], ChildRow(f, x, d), KidColumn(f, x, i, o))] + post)
  {
    var dk := ChildRow(f, x, d);
    var oi := KidColumn(f, x, i, o);
    KidVisitsAt(f, x, i, dk, o);
    var pre :| KidVisits(f, x, 0, dk, o) == pre + KidVisits(f, x, i, dk, oi);
    KidFacts(f, x, i);
    var c := f.nodes[x].children[i];
    var rest := KidVisits(f, x, i, dk, oi);
    assert rest == Preorder(f, c, dk, oi) + KidVisits(f, x, i + 1, dk, oi + Width(f, c));
    assert rest[0] == VisitOf(f, c, dk, oi);
    var p := Preorder(f, x, d, o);
    assert p == [VisitOf(f, x, d, o)] + pre + rest;
    assert p == [VisitOf(f, x, d, o)] + pre + [VisitOf(f, c, dk, oi)] + rest[1..];
  }

  // ---------------------------------------------------------------------
  // Connector rows

  /** Every visit is of a child (its shelf is its child number), and its
      connector's shelf row is at least row r. */
  ghost predicate ShelvesFrom(vs: seq<Visit>, r: int)
  {
    forall k | 0 <= k < |vs| :: vs[k].shelf >= 1 && vs[k].depth - vs[k].shelf >= r
  }

  lemma AppendShelves(a: seq<Visit>, b: seq<Visit>, r: int)
    requires ShelvesFrom(a, r) && ShelvesFrom(b, r)
    ensures ShelvesFrom(a + b, r)
  {
    forall k | 0 <= k < |a + b|
      ensures (a + b)[k].shelf >= 1 && (a + b)[k].depth - (a + b)[k].shelf >= r
    {
      if k < |a| { assert (a + b)[k] == a[k]; } else { assert (a + b)[k] == b[k - |a|]; }
    }
  }

  /** Below a node drawn on row d, every descendant's connector starts on a
      row below d: the shelf row of the k-th of n children drawn on row
      d+n+1 is d+n+1-k > d. So inside a rendered subtree no connector reads
      above it, let alone row -1. */
  lemma {:induction false} PreorderShelves(f: Forest, x: nat, d: nat, o: int)
    requires Wf(f) && x < |f.nodes|
    ensures ShelvesFrom(Preorder(f, x, d, o)[1..], d + 1)
    decreases f.rank[x], 1
  {
    assert Preorder(f, x, d, o)[1..] == KidVisits(f, x, 0, ChildRow(f, x, d), o);
    KidVisitsShelves(f, x, 0, ChildRow(f, x, d), o);
  }

  lemma {:induction false} KidVisitsShelves(f: Forest, x: nat, i: nat, dk: nat, o: int)
    requires Wf(f) && x < |f.nodes| && |f.nodes[x].children| + 1 <= dk
    ensures ShelvesFrom(KidVisits(f, x, i, dk, o), dk - |f.nodes[x].children|)
    decreases f.rank[x], 0, |f.nodes[x].children| - i
  {
    var r := dk - |f.nodes[x].children|;
    if i < |f.nodes[x].children| {
      KidFacts(f, x, i);
      var c := f.nodes[x].children[i];
      var pc := Preorder(f, c, dk, o);
      PreorderShelves(f, c, dk, o);
      assert pc[0] == VisitOf(f, c, dk, o);
      forall k | 0 <= k < |pc|
        ensures pc[k].shelf >= 1 && pc[k].depth - pc[k].shelf >= r
      {
        if k > 0 {
          assert pc[k] == pc[1..][k - 1];
        }
      }
      KidVisitsShelves(f, x, i + 1, dk, o + Width(f, c));
      AppendShelves(pc, KidVisits(f, x, i + 1, dk, o + Width(f, c)), r);
    }
  }

  // ---------------------------------------------------------------------
  // The staircase (lines 296-317)

  /** Rows of i, i-1, ..., 1 bars. */
  function BarRows(i: nat): (r: seq<string>)
    ensures |r| == i
  {
    if i == 0 then [] else [Bars(i)] + BarRows(i - 1)
  }

  /** The first e runs of bars i, i-1, ..., i-e+1 on one line, one after the other. */
  function TopBars(i: nat, e: nat): string
    requires e <= i
  {
    if e == 0 then [] else Bars(i) + TopBars(i - 1, e - 1)
  }

  lemma {:induction false} BarsShape(k: nat)
    ensures |Bars(k)| == k
    ensures forall j | 0 <= j < k :: Bars(k)[j] == '|'
  {
    if k > 0 {
      BarsShape(k - 1);
    }
  }

  /** Row j of the bar rows holds i - j bars. */
  lemma {:induction false} BarRowsAt(i: nat, j: nat)
    requires j < i
    ensures BarRows(i)[j] == Bars(i - j)
  {
    if j > 0 {
      BarRowsAt(i - 1, j - 1);
    }
  }

  /** When the rows below the node do not exist yet, the staircase creates
      them, the first with i bars and each next one with one bar fewer, and
      touches no existing row. */
  lemma {:induction false} StairsFresh(rows: seq<string>, cur: nat, idx: nat, i: nat)
    requires cur < |rows| && |rows| == idx
    ensures Stairs(rows, cur, idx, i) == rows + BarRows(i)
    decreases i
  {
    if i > 0 {
      StairsFresh(rows + [Bars(i)], |rows|, idx + 1, i - 1);
      assert rows + [Bars(i)] + BarRows(i - 1) == rows + BarRows(i);
    }
  }

  /** When all those rows exist already, every bar goes to the line held in
      curStringRepLine, and no other row changes. */
  lemma {:induction false} StairsExisting(rows: seq<string>, cur: nat, idx: nat, i: nat)
    requires cur < |rows| && idx + i <= |rows|
    ensures Stairs(rows, cur, idx, i) == rows[cur := rows[cur] + TopBars(i, i)]
    decreases i
  {
    if i == 0 {
      assert rows[cur] + [] == rows[cur];
      assert rows[cur := rows[cur]] == rows;
    } else {
      var next := rows[cur := rows[cur] + Bars(i)];
      StairsExisting(next, cur, idx + 1, i - 1);
      assert next[cur] + TopBars(i - 1, i - 1) == rows[cur] + TopBars(i, i);
      assert next[cur := next[cur] + TopBars(i - 1, i - 1)] == rows[cur := rows[cur] + TopBars(i, i)];
    }
  }

  /** The general case: of the n rows below the node, the first e already
      exist. Their e runs of bars all go to the line held in
      curStringRepLine, and the remaining runs become new rows. */
  lemma {:induction false} StairsShape(rows: seq<string>, cur: nat, idx: nat, i: nat)
    requires cur < |rows| && idx <= |rows|
    ensures var e := if |rows| - idx < i then |rows| - idx else i;
      Stairs(rows, cur, idx, i) == rows[cur := rows[cur] + TopBars(i, e)] + BarRows(i - e)
    decreases i
  {
    var e := if |rows| - idx < i then |rows| - idx else i;
    if e == 0 {
      assert rows[cur] + [] == rows[cur];
      assert rows[cur := rows[cur]] == rows;
      if i == 0 {
        assert rows + [] == rows;
      } else {
        StairsFresh(rows, cur, idx, i);
      }
    } else {
      var next := rows[cur := rows[cur] + Bars(i)];
      StairsShape(next, cur, idx + 1, i - 1);
      assert next[cur] + TopBars(i - 1, e - 1) == rows[cur] + TopBars(i, e);
      assert next[cur := next[cur] + TopBars(i - 1, e - 1)] == rows[cur := rows[cur] + TopBars(i, e)];
    }
  }

  // ---------------------------------------------------------------------
  // The connector (lines 256-286)

  /** Rows i..d-1 are each space-padded to the column and given one bar; no other row changes. */
  lemma {:induction false} VerticalBarsShape(rows: seq<string>, i: nat, d: nat, tot: int)
    requires d <= |rows|
    ensures forall j | 0 <= j < |rows| :: VerticalBars(rows, i, d, tot)[j] == if i <= j < d then Pad(rows[j], tot, ' ') + "|" else rows[j]
    decreases d - i
  {
    if i < d {
      VerticalBarsShape(rows[i := Pad(rows[i], tot, ' ') + "|"], i + 1, d, tot);
    }
  }

  /** The connector of the k-th child on row d at column tot: the shelf row
      d-k is filled with dashes to the column and gets a bar; each row between
      it and row d is space-padded to the column and gets a bar; nothing else
      changes; and a shelf row above row 0 is an index error. */
  lemma ConnectShape(rows: seq<string>, d: nat, k: nat, tot: int)
    requires d < |rows| && k >= 1
    ensures Connect(rows, d, k, tot).Throw? <==> d < k
    ensures Connect(rows, d, k, tot).Throw? ==> Connect(rows, d, k, tot).exc == IndexOutOfBounds
    ensures Connect(rows, d, k, tot).Ok? ==>
      forall j | 0 <= j < |rows| :: Connect(rows, d, k, tot).value[j] ==
        if j == d - k then Pad(rows[j], tot, '-') + "|"
        else if d - k < j < d then Pad(rows[j], tot, ' ') + "|"
        else rows[j]
  {
    if d >= k {
      var c := d - k;
      var shelf := rows[c := Pad(rows[c], tot, '-')];
      VerticalBarsShape(shelf, c, d, tot);
      assert Pad(shelf[c], tot, ' ') == shelf[c];
    }
  }

  // ---------------------------------------------------------------------
  // Rows only grow

  /** Every row of `a` is a prefix of the same row of `b`, and `b` has at least as many rows. */
  ghost predicate Grows(a: seq<string>, b: seq<string>)
  {
    |a| <= |b| && forall j | 0 <= j < |a| :: a[j] <= b[j]
  }

  lemma {:induction false} PadGrows(line: string, n: int, c: char)
    ensures line <= Pad(line, n, c)
    decreases n - |line|
  {
    if |line| < n {
      PadGrows(line + [c], n, c);
    }
  }

  lemma {:induction false} EnsureRowsGrows(rows: seq<string>, k: nat)
    ensures Grows(rows, EnsureRows(rows, k))
    decreases k - |rows|
  {
    if |rows| < k {
      EnsureRowsGrows(rows + [[]], k);
    }
  }

  lemma {:induction false} VerticalBarsGrows(rows: seq<string>, i: nat, d: nat, tot: int)
    requires d <= |rows|
    ensures Grows(rows, VerticalBars(rows, i, d, tot))
  {
    VerticalBarsShape(rows, i, d, tot);
    forall j | i <= j < d
      ensures rows[j] <= Pad(rows[j], tot, ' ') + "|"
    {
      PadGrows(rows[j], tot, ' ');
    }
  }

  lemma {:induction false} StairsGrows(rows: seq<string>, cur: nat, idx: nat, i: nat)
    requires cur < |rows|
    ensures Grows(rows, Stairs(rows, cur, idx, i))
    decreases i
  {
    if i > 0 {
      if |rows| <= idx {
        StairsGrows(rows + [Bars(i)], |rows|, idx + 1, i - 1);
      } else {
        StairsGrows(rows[cur := rows[cur] + Bars(i)], cur, idx + 1, i - 1);
      }
    }
  }

  /** One draw only appends to rows and adds rows at the end; its own row
      starts with the old row padded with spaces to the node's column followed
      by the fragment. */
  lemma DrawGrows(rows: seq<string>, v: Visit)
    requires Draw(rows, v).Ok?
    ensures Grows(rows, Draw(rows, v).value)
    ensures v.depth < |Draw(rows, v).value|
    ensures var row := EnsureRows(rows, v.depth + 1)[v.depth];
      Pad(row, v.offset, ' ') + v.fragment <= Draw(rows, v).value[v.depth]
  {
    var d := v.depth;
    var r1 := EnsureRows(rows, d + 1);
    EnsureRowsGrows(rows, d + 1);
    PadGrows(r1[d], v.offset, ' ');
    var r2 := r1[d := Pad(r1[d], v.offset, ' ') + v.fragment];
    assert Grows(r1, r2);
    var r3 := r2;
    if v.shelf > 1 {
      r3 := Connect(r2, d, v.shelf, v.offset).value;
      VerticalBarsGrows(r2[d - v.shelf := Pad(r2[d - v.shelf], v.offset, '-')], d - v.shelf, d, v.offset);
      PadGrows(r2[d - v.shelf], v.offset, '-');
    }
    assert Grows(r2, r3);
    if v.kids > 0 {
      StairsGrows(r3, d, d + 1, v.kids);
    }
  }

  /** Drawing any number of visits only appends to rows and adds rows at the end. */
  lemma {:induction false} DrawAllGrows(rows: seq<string>, vs: seq<Visit>)
    requires DrawAll(rows, vs).Ok?
    ensures Grows(rows, DrawAll(rows, vs).value)
    decreases |vs|
  {
    if vs != [] {
      DrawGrows(rows, vs[0]);
      DrawAllGrows(Draw(rows, vs[0]).value, vs[1..]);
    }
  }
}
