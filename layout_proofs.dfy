/** The stack machine draws exactly the closed-form diagram: each node is
    drawn at the column its parent's inherited offset plus its earlier
    siblings' widths give it, and reports Width to its parent. */
module LayoutCorrectness {
  import opened Outcomes
  import opened ConstituentForest
  import opened ConstituentLayout

  /** A pop that succeeds continues the run from its state with the pushed entries on top. */
  lemma RunPop(f: Forest, s: State, x: nat, d: nat, rest: seq<Entry>, t: State, pushed: seq<Entry>)
    requires Wf(f) && x < |f.nodes| && EntriesIn(f, rest) && EntriesIn(f, pushed)
    requires Pop(f, s, x, d) == Ok((t, pushed))
    ensures EntriesIn(f, [(x, d)] + rest) && EntriesIn(f, pushed + rest)
    ensures Run(f, s, [(x, d)] + rest) == Run(f, t, pushed + rest)
  {
    EntriesAppend(f, [(x, d)], rest);
    EntriesAppend(f, pushed, rest);
    assert ([(x, d)] + rest)[0] == (x, d);
    assert ([(x, d)] + rest)[1..] == rest;
  }

  /** A pop that throws ends the run with its exception. */
  lemma RunPopThrow(f: Forest, s: State, x: nat, d: nat, rest: seq<Entry>, e: Exception)
    requires Wf(f) && x < |f.nodes| && EntriesIn(f, rest)
    requires Pop(f, s, x, d) == Throw(e)
    ensures EntriesIn(f, [(x, d)] + rest)
    ensures Run(f, s, [(x, d)] + rest) == Throw(e)
  {
    EntriesAppend(f, [(x, d)], rest);
    assert ([(x, d)] + rest)[0] == (x, d);
  }

  /** Drawing a concatenation is drawing its parts one after the other. */
  lemma {:induction false} DrawAllAppend(rows: seq<string>, a: seq<Visit>, b: seq<Visit>, r: seq<string>)
    requires DrawAll(rows, a) == Ok(r)
    ensures DrawAll(rows, a + b) == DrawAll(r, b)
    decreases |a|
  {
    if a == [] {
      assert a + b == b;
    } else {
      assert (a + b)[0] == a[0];
      assert (a + b)[1..] == a[1..] + b;
      DrawAllAppend(Draw(rows, a[0]).value, a[1..], b, r);
    }
  }

  lemma Assoc(a: seq<Visit>, b: seq<Visit>, c: seq<Visit>)
    ensures a + (b + c) == (a + b) + c
  {
  }

  /** No node of D has been entered yet: none is a key of the three maps. */
  ghost predicate Untouched(s: State, d: set<nat>)
  {
    d !! s.inherited.Keys && d !! s.childOffset.Keys && d !! s.backtracks.Keys
  }

  /** Outside D the inherited offsets and backtrack counts are unchanged, and
      outside D + E so are the child offsets. */
  ghost predicate Frame(s: State, t: State, d: set<nat>, e: set<nat>)
  {
    && s.inherited - d == t.inherited - d
    && s.backtracks - d == t.backtracks - d
    && s.childOffset - (d + e) == t.childOffset - (d + e)
  }

  lemma Restrict(m: map<nat, int>, a: set<nat>, b: set<nat>)
    requires a <= b
    ensures m - b == (m - a) - b
  {
  }

  lemma FrameTrans(a: State, b: State, c: State, d1: set<nat>, e1: set<nat>, d2: set<nat>, e2: set<nat>, d: set<nat>, e: set<nat>)
    requires Frame(a, b, d1, e1) && Frame(b, c, d2, e2)
    requires d1 <= d && d2 <= d && e1 <= d + e && e2 <= d + e
    ensures Frame(a, c, d, e)
  {
    Restrict(a.inherited, d1, d);
    Restrict(b.inherited, d1, d);
    Restrict(b.inherited, d2, d);
    Restrict(c.inherited, d2, d);
    Restrict(a.backtracks, d1, d);
    Restrict(b.backtracks, d1, d);
    Restrict(b.backtracks, d2, d);
    Restrict(c.backtracks, d2, d);
    Restrict(a.childOffset, d1 + e1, d + e);
    Restrict(b.childOffset, d1 + e1, d + e);
    Restrict(b.childOffset, d2 + e2, d + e);
    Restrict(c.childOffset, d2 + e2, d + e);
  }

  /** The parent of x, as a set. */
  ghost function ParentSet(f: Forest, x: nat): set<nat>
    requires Wf(f) && x < |f.nodes|
  {
    if f.nodes[x].parent.Some? then {f.nodes[x].parent.value} else {}
  }

  /** The column the first visit of x computes: its parent's inherited offset
      plus its parent's child offset so far (lines 188-208), or 0 at a root. */
  ghost function Base(f: Forest, s: State, x: nat): int
    requires Wf(f) && x < |f.nodes|
  {
    if f.nodes[x].parent.Some? then
      var p := f.nodes[x].parent.value;
      GetOrZero(s.inherited, p) + GetOrZero(s.childOffset, p)
    else 0
  }

  /** The shelf row of x's connector, when it has one, is a row of the diagram. */
  ghost predicate ConnOk(f: Forest, x: nat, d: nat)
    requires Wf(f) && x < |f.nodes|
  {
    f.nodes[x].parent.Some? && f.nodes[x].childNumber > 1 ==> d >= f.nodes[x].childNumber
  }

  /** The first visit of x records where it is drawn, its offset and a zero
      backtrack count, and pushes its children. */
  lemma EnterStep(f: Forest, s: State, x: nat, d: nat) returns (t: State)
    requires Wf(f) && x < |f.nodes| && x !in s.inherited && ConnOk(f, x, d)
    ensures Pop(f, s, x, d) == Ok((t, KidEntries(f, x, 0, d)))
    ensures t.drawn == s.drawn + [VisitOf(f, x, d, Base(f, s, x))]
    ensures t.inherited == s.inherited[x := Base(f, s, x)]
    ensures t.backtracks == s.backtracks[x := 0]
    ensures f.nodes[x].parent.None? || |f.nodes[x].children| > 0 ==> t.childOffset == s.childOffset
    ensures f.nodes[x].parent.Some? && |f.nodes[x].children| == 0 ==>
      t.childOffset == s.childOffset[f.nodes[x].parent.value :=
        GetOrZero(s.childOffset, f.nodes[x].parent.value) + Width(f, x)]
  {
    assert NodeOk(f, x);
    t := Pop(f, s, x, d).value.0;
  }

  /** A backtrack to x after its i-th child counts it, and after the last child reports x's width. */
  lemma BackStep(f: Forest, s: State, x: nat, d: nat, i: nat) returns (t: State)
    requires Wf(f) && x < |f.nodes| && i < |f.nodes[x].children| && x in s.inherited
    requires x in s.backtracks && s.backtracks[x] == i
    requires x in s.childOffset && s.childOffset[x] == KidWidths(f, x, 0) - KidWidths(f, x, i + 1)
    ensures Pop(f, s, x, d) == Ok((t, []))
    ensures t.drawn == s.drawn && t.inherited == s.inherited
    ensures t.backtracks == s.backtracks[x := i + 1]
    ensures i + 1 < |f.nodes[x].children| || f.nodes[x].parent.None? ==> t.childOffset == s.childOffset
    ensures i + 1 == |f.nodes[x].children| && f.nodes[x].parent.Some? ==>
      t.childOffset == s.childOffset[f.nodes[x].parent.value :=
        GetOrZero(s.childOffset, f.nodes[x].parent.value) + Width(f, x)]
  {
    assert NodeOk(f, x);
    if i + 1 == |f.nodes[x].children| {
      assert KidWidths(f, x, i + 1) == 0;
    }
    t := Pop(f, s, x, d).value.0;
  }

  /** Node x is no node of the subtree of its i-th child, and neither is x's parent. */
  lemma KidExcludes(f: Forest, x: nat, i: nat)
    requires Wf(f) && x < |f.nodes| && i < |f.nodes[x].children|
    ensures f.nodes[x].children[i] < |f.nodes|
    ensures x !in Desc(f, f.nodes[x].children[i])
    ensures forall p | p in ParentSet(f, x) :: p !in Desc(f, f.nodes[x].children[i])
  {
    KidFacts(f, x, i);
    var c := f.nodes[x].children[i];
    if x in Desc(f, c) {
      DescFacts(f, c, x);
    }
    if f.nodes[x].parent.Some? {
      var p := f.nodes[x].parent.value;
      ParentRank(f, x);
      if p in Desc(f, c) {
        DescFacts(f, c, p);
      }
    }
  }

  lemma ParentExcluded(f: Forest, x: nat)
    requires Wf(f) && x < |f.nodes|
    ensures forall p | p in ParentSet(f, x) :: p !in Desc(f, x)
  {
    if f.nodes[x].parent.Some? {
      var p := f.nodes[x].parent.value;
      ParentRank(f, x);
      if p in Desc(f, x) {
        DescFacts(f, x, p);
      }
    }
  }

  lemma KidWidthsStep(f: Forest, x: nat, i: nat)
    requires Wf(f) && x < |f.nodes| && i < |f.nodes[x].children|
    ensures f.nodes[x].children[i] < |f.nodes|
    ensures KidWidths(f, x, i) == Width(f, f.nodes[x].children[i]) + KidWidths(f, x, i + 1)
  {
    KidFacts(f, x, i);
  }

  lemma KidDescStep(f: Forest, x: nat, i: nat)
    requires Wf(f) && x < |f.nodes| && i < |f.nodes[x].children|
    ensures f.nodes[x].children[i] < |f.nodes|
    ensures KidDesc(f, x, i) == Desc(f, f.nodes[x].children[i]) + KidDesc(f, x, i + 1)
  {
    KidFacts(f, x, i);
  }

  lemma KidVisitsStep(f: Forest, x: nat, i: nat, dk: nat, oi: int, oj: int)
    requires Wf(f) && x < |f.nodes| && i < |f.nodes[x].children|
    requires f.nodes[x].children[i] < |f.nodes|
    requires oj == oi + Width(f, f.nodes[x].children[i])
    ensures KidVisits(f, x, i, dk, oi) == Preorder(f, f.nodes[x].children[i], dk, oi) + KidVisits(f, x, i + 1, dk, oj)
  {
    KidFacts(f, x, i);
  }

  /** The map entries outside both sets are the same in the two states. */
  lemma FrameAt(s: State, t: State, d: set<nat>, e: set<nat>, k: nat)
    requires Frame(s, t, d, e) && k !in d
    ensures k in s.inherited <==> k in t.inherited
    ensures k in s.backtracks <==> k in t.backtracks
    ensures k in s.inherited ==> s.inherited[k] == t.inherited[k]
    ensures k in s.backtracks ==> s.backtracks[k] == t.backtracks[k]
    ensures k !in e ==> (k in s.childOffset <==> k in t.childOffset)
    ensures k !in e ==> GetOrZero(s.childOffset, k) == GetOrZero(t.childOffset, k)
  {
    assert k in s.inherited <==> k in s.inherited - d;
    assert k in t.inherited <==> k in t.inherited - d;
    assert k in s.backtracks <==> k in s.backtracks - d;
    assert k in t.backtracks <==> k in t.backtracks - d;
    if k in s.inherited {
      assert s.inherited[k] == (s.inherited - d)[k];
      assert t.inherited[k] == (t.inherited - d)[k];
    }
    if k in s.backtracks {
      assert s.backtracks[k] == (s.backtracks - d)[k];
      assert t.backtracks[k] == (t.backtracks - d)[k];
    }
    if k !in e {
      assert k in s.childOffset <==> k in s.childOffset - (d + e);
      assert k in t.childOffset <==> k in t.childOffset - (d + e);
      if k in s.childOffset {
        assert s.childOffset[k] == (s.childOffset - (d + e))[k];
        assert t.childOffset[k] == (t.childOffset - (d + e))[k];
      }
    }
  }

  // ---------------------------------------------------------------------
  // Facts about the maps alone

  /** What the first visit of x does to the maps, stated on the maps. */
  lemma EnterFacts(f: Forest, x: nat, s: State, s1: State)
    requires Wf(f) && x < |f.nodes|
    requires Untouched(s, Desc(f, x))
    requires s1.inherited == s.inherited[x := Base(f, s, x)]
    requires s1.backtracks == s.backtracks[x := 0]
    requires f.nodes[x].parent.None? || |f.nodes[x].children| > 0 ==> s1.childOffset == s.childOffset
    requires f.nodes[x].parent.Some? && |f.nodes[x].children| == 0 ==>
      s1.childOffset == s.childOffset[f.nodes[x].parent.value :=
        GetOrZero(s.childOffset, f.nodes[x].parent.value) + Width(f, x)]
    ensures x in s1.inherited && s1.inherited[x] == Base(f, s, x)
    ensures x in s1.backtracks && s1.backtracks[x] == 0
    ensures GetOrZero(s1.childOffset, x) == KidWidths(f, x, 0) - KidWidths(f, x, 0)
    ensures Untouched(s1, KidDesc(f, x, 0))
    ensures Frame(s, s1, {x}, ParentSet(f, x))
  {
    ParentExcluded(f, x);
    KidDescExcludes(f, x, 0);
    assert x in Desc(f, x) && KidDesc(f, x, 0) <= Desc(f, x);
  }

  /** Before the traversal of x's i-th child: its subtree is untouched and it starts at its siblings' offset. */
  lemma BeforeKid(f: Forest, x: nat, i: nat, s: State, o: int)
    requires Wf(f) && x < |f.nodes| && i < |f.nodes[x].children|
    requires x in s.inherited && s.inherited[x] == o
    requires GetOrZero(s.childOffset, x) == KidWidths(f, x, 0) - KidWidths(f, x, i)
    requires Untouched(s, KidDesc(f, x, i))
    ensures f.nodes[x].children[i] < |f.nodes|
    ensures Untouched(s, Desc(f, f.nodes[x].children[i]))
    ensures Base(f, s, f.nodes[x].children[i]) == o + KidWidths(f, x, 0) - KidWidths(f, x, i)
    ensures ConnOk(f, f.nodes[x].children[i], |f.nodes[x].children| + 1)
  {
    KidFacts(f, x, i);
    KidDescStep(f, x, i);
  }

  /** After the traversal of x's i-th child, stated on the maps. */
  lemma AfterKidFacts(f: Forest, x: nat, i: nat, s: State, s1: State, o: int)
    requires Wf(f) && x < |f.nodes| && i < |f.nodes[x].children|
    requires x in s.inherited && s.inherited[x] == o
    requires x in s.backtracks && s.backtracks[x] == i
    requires GetOrZero(s.childOffset, x) == KidWidths(f, x, 0) - KidWidths(f, x, i)
    requires Untouched(s, KidDesc(f, x, i))
    requires f.nodes[x].children[i] < |f.nodes|
    requires Frame(s, s1, Desc(f, f.nodes[x].children[i]), {x})
    requires x in s1.childOffset
    requires s1.childOffset[x] == GetOrZero(s.childOffset, x) + Width(f, f.nodes[x].children[i])
    ensures x in s1.inherited && s1.inherited[x] == o
    ensures x in s1.backtracks && s1.backtracks[x] == i
    ensures s1.childOffset[x] == KidWidths(f, x, 0) - KidWidths(f, x, i + 1)
    ensures Untouched(s1, KidDesc(f, x, i + 1))
    ensures f.nodes[x].parent.Some? ==>
      GetOrZero(s1.childOffset, f.nodes[x].parent.value) == GetOrZero(s.childOffset, f.nodes[x].parent.value)
  {
    var c := f.nodes[x].children[i];
    KidExcludes(f, x, i);
    KidDescSplit(f, x, i);
    KidDescStep(f, x, i);
    KidWidthsStep(f, x, i);
    FrameAt(s, s1, Desc(f, c), {x}, x);
    if f.nodes[x].parent.Some? {
      ParentRank(f, x);
      FrameAt(s, s1, Desc(f, c), {x}, f.nodes[x].parent.value);
    }
    forall y | y in KidDesc(f, x, i + 1)
      ensures y !in s1.inherited && y !in s1.childOffset && y !in s1.backtracks
    {
      KidDescExcludes(f, x, i + 1);
      FrameAt(s, s1, Desc(f, c), {x}, y);
    }
  }

  /** A child's traversal followed by the backtrack to x, stated on the maps. */
  lemma OneKidFacts(f: Forest, x: nat, i: nat, s: State, s1: State, s2: State, o: int)
    requires Wf(f) && x < |f.nodes| && i < |f.nodes[x].children|
    requires f.nodes[x].children[i] < |f.nodes|
    requires Frame(s, s1, Desc(f, f.nodes[x].children[i]), {x})
    requires x in s1.inherited && s1.inherited[x] == o
    requires x in s1.childOffset && s1.childOffset[x] == KidWidths(f, x, 0) - KidWidths(f, x, i + 1)
    requires Untouched(s1, KidDesc(f, x, i + 1))
    requires f.nodes[x].parent.Some? ==>
      GetOrZero(s1.childOffset, f.nodes[x].parent.value) == GetOrZero(s.childOffset, f.nodes[x].parent.value)
    requires s2.inherited == s1.inherited
    requires s2.backtracks == s1.backtracks[x := i + 1]
    requires i + 1 < |f.nodes[x].children| || f.nodes[x].parent.None? ==> s2.childOffset == s1.childOffset
    requires i + 1 == |f.nodes[x].children| && f.nodes[x].parent.Some? ==>
      s2.childOffset == s1.childOffset[f.nodes[x].parent.value :=
        GetOrZero(s1.childOffset, f.nodes[x].parent.value) + Width(f, x)]
    ensures x in s2.inherited && s2.inherited[x] == o
    ensures x in s2.backtracks && s2.backtracks[x] == i + 1
    ensures GetOrZero(s2.childOffset, x) == KidWidths(f, x, 0) - KidWidths(f, x, i + 1)
    ensures Untouched(s2, KidDesc(f, x, i + 1))
    ensures Frame(s, s2, KidDesc(f, x, i) + {x}, ParentSet(f, x))
    ensures f.nodes[x].parent.Some? && i + 1 == |f.nodes[x].children| ==>
      var p := f.nodes[x].parent.value;
      p in s2.childOffset && s2.childOffset[p] == GetOrZero(s.childOffset, p) + Width(f, x)
    ensures f.nodes[x].parent.Some? && i + 1 < |f.nodes[x].children| ==>
      GetOrZero(s2.childOffset, f.nodes[x].parent.value) == GetOrZero(s.childOffset, f.nodes[x].parent.value)
  {
    var c := f.nodes[x].children[i];
    KidDescStep(f, x, i);
    KidDescExcludes(f, x, i);
    if f.nodes[x].parent.Some? {
      var p := f.nodes[x].parent.value;
      ParentRank(f, x);
      if p in KidDesc(f, x, i) {
        KidDescFacts(f, x, i, p);
      }
    }
    assert Frame(s1, s2, {x}, ParentSet(f, x));
    FrameTrans(s, s1, s2, Desc(f, c), {x}, {x}, ParentSet(f, x), KidDesc(f, x, i) + {x}, ParentSet(f, x));
  }

  /** The frames of one child step and of the later children compose. */
  lemma KidsFacts(f: Forest, x: nat, i: nat, s: State, s2: State, t: State)
    requires Wf(f) && x < |f.nodes| && i < |f.nodes[x].children|
    requires Frame(s, s2, KidDesc(f, x, i) + {x}, ParentSet(f, x))
    requires Frame(s2, t, KidDesc(f, x, i + 1) + {x}, ParentSet(f, x))
    ensures Frame(s, t, KidDesc(f, x, i) + {x}, ParentSet(f, x))
  {
    KidDescStep(f, x, i);
    FrameTrans(s, s2, t, KidDesc(f, x, i) + {x}, ParentSet(f, x), KidDesc(f, x, i + 1) + {x}, ParentSet(f, x),
               KidDesc(f, x, i) + {x}, ParentSet(f, x));
  }

  /** The frames of the first visit and of the children's traversals compose. */
  lemma SubtreeFacts(f: Forest, x: nat, s: State, s1: State, t: State)
    requires Wf(f) && x < |f.nodes|
    requires Frame(s, s1, {x}, ParentSet(f, x))
    requires Frame(s1, t, KidDesc(f, x, 0) + {x}, ParentSet(f, x))
    ensures Frame(s, t, Desc(f, x), ParentSet(f, x))
  {
    FrameTrans(s, s1, t, {x}, ParentSet(f, x), KidDesc(f, x, 0) + {x}, ParentSet(f, x), Desc(f, x), ParentSet(f, x));
  }

  // ---------------------------------------------------------------------
  // The traversal, subtree by subtree

  /** The entries for x's children from the i-th on: the i-th child, a backtrack to x, the rest. */
  lemma KidEntriesStep(f: Forest, x: nat, i: nat, d: nat, rest: seq<Entry>)
    requires Wf(f) && x < |f.nodes| && i < |f.nodes[x].children|
    ensures f.nodes[x].children[i] < |f.nodes|
    ensures KidEntries(f, x, i, d) + rest ==
      [(f.nodes[x].children[i], ChildRow(f, x, d))] + ([(x, d)] + (KidEntries(f, x, i + 1, d) + rest))
  {
    KidFacts(f, x, i);
  }

  /** The state after the first visit of x, and how the run continues from it. */
  lemma EnterPart(f: Forest, x: nat, d: nat, s: State, rest: seq<Entry>) returns (s1: State)
    requires Wf(f) && x < |f.nodes| && EntriesIn(f, rest)
    requires Untouched(s, Desc(f, x))
    requires ConnOk(f, x, d)
    ensures EntriesIn(f, [(x, d)] + rest) && EntriesIn(f, KidEntries(f, x, 0, d) + rest)
    ensures Run(f, s, [(x, d)] + rest) == Run(f, s1, KidEntries(f, x, 0, d) + rest)
    ensures s1.drawn == s.drawn + [VisitOf(f, x, d, Base(f, s, x))]
    ensures x in s1.inherited && s1.inherited[x] == Base(f, s, x)
    ensures x in s1.backtracks && s1.backtracks[x] == 0
    ensures GetOrZero(s1.childOffset, x) == KidWidths(f, x, 0) - KidWidths(f, x, 0)
    ensures Untouched(s1, KidDesc(f, x, 0))
    ensures Frame(s, s1, {x}, ParentSet(f, x))
    ensures |f.nodes[x].children| > 0 ==> s1.childOffset == s.childOffset
    ensures f.nodes[x].parent.Some? && |f.nodes[x].children| == 0 ==>
      var p := f.nodes[x].parent.value;
      p in s1.childOffset && s1.childOffset[p] == GetOrZero(s.childOffset, p) + Width(f, x)
  {
    assert x in Desc(f, x);
    s1 := EnterStep(f, s, x, d);
    RunPop(f, s, x, d, rest, s1, KidEntries(f, x, 0, d));
    EnterFacts(f, x, s, s1);
  }

  /** Running the entry (x, d) from state s until it and everything it pushes
      are popped records the preorder visits of x starting at x's base column,
      touches the maps only inside the subtree (and at x's parent's child
      offset), and adds Width(x) to that offset. */
  lemma {:induction false} RunSubtree(f: Forest, x: nat, d: nat, s: State, o: int, rest: seq<Entry>) returns (t: State)
    requires Wf(f) && x < |f.nodes| && EntriesIn(f, rest)
    requires Untouched(s, Desc(f, x))
    requires ConnOk(f, x, d)
    requires o == Base(f, s, x)
    ensures EntriesIn(f, [(x, d)] + rest)
    ensures Run(f, s, [(x, d)] + rest) == Run(f, t, rest)
    ensures t.drawn == s.drawn + Preorder(f, x, d, o)
    ensures Frame(s, t, Desc(f, x), ParentSet(f, x))
    ensures f.nodes[x].parent.Some? ==>
      var p := f.nodes[x].parent.value;
      p in t.childOffset && t.childOffset[p] == GetOrZero(s.childOffset, p) + Width(f, x)
    decreases f.rank[x], 1
  {
    var s1 := EnterPart(f, x, d, s, rest);
    assert Preorder(f, x, d, o) == [VisitOf(f, x, d, o)] + KidVisits(f, x, 0, ChildRow(f, x, d), o);
    t := RunKids(f, x, 0, d, s1, o, o, rest);
    SubtreeFacts(f, x, s, s1, t);
  }

  /** The state after the run of x's i-th child. */
  lemma AfterKid(f: Forest, x: nat, i: nat, d: nat, s: State, o: int, oi: int, rest: seq<Entry>) returns (s1: State)
    requires Wf(f) && x < |f.nodes| && i < |f.nodes[x].children| && EntriesIn(f, rest)
    requires oi == o + KidWidths(f, x, 0) - KidWidths(f, x, i)
    requires x in s.inherited && s.inherited[x] == o
    requires x in s.backtracks && s.backtracks[x] == i
    requires GetOrZero(s.childOffset, x) == KidWidths(f, x, 0) - KidWidths(f, x, i)
    requires Untouched(s, KidDesc(f, x, i))
    ensures f.nodes[x].children[i] < |f.nodes|
    ensures EntriesIn(f, KidEntries(f, x, i, d) + rest)
    ensures EntriesIn(f, [(x, d)] + (KidEntries(f, x, i + 1, d) + rest))
    ensures Run(f, s, KidEntries(f, x, i, d) + rest) == Run(f, s1, [(x, d)] + (KidEntries(f, x, i + 1, d) + rest))
    ensures s1.drawn == s.drawn + Preorder(f, f.nodes[x].children[i], ChildRow(f, x, d), oi)
    ensures Frame(s, s1, Desc(f, f.nodes[x].children[i]), {x})
    ensures x in s1.inherited && s1.inherited[x] == o
    ensures x in s1.backtracks && s1.backtracks[x] == i
    ensures x in s1.childOffset && s1.childOffset[x] == KidWidths(f, x, 0) - KidWidths(f, x, i + 1)
    ensures Untouched(s1, KidDesc(f, x, i + 1))
    ensures f.nodes[x].parent.Some? ==>
      GetOrZero(s1.childOffset, f.nodes[x].parent.value) == GetOrZero(s.childOffset, f.nodes[x].parent.value)
    decreases f.rank[x], 0, |f.nodes[x].children| - i, 0
  {
    BeforeKid(f, x, i, s, o);
    KidFacts(f, x, i);
    var later := KidEntries(f, x, i + 1, d);
    EntriesAppend(f, later, rest);
    EntriesAppend(f, [(x, d)], later + rest);
    KidEntriesStep(f, x, i, d, rest);
    s1 := RunSubtree(f, f.nodes[x].children[i], ChildRow(f, x, d), s, oi, [(x, d)] + (later + rest));
    AfterKidFacts(f, x, i, s, s1, o);
  }

  /** The visits recorded after a child's run, followed by the later children's, are the children's from that one on. */
  lemma DrawnStep(f: Forest, x: nat, i: nat, dk: nat, oi: int, oj: int, a: seq<Visit>, b: seq<Visit>)
    requires Wf(f) && x < |f.nodes| && i < |f.nodes[x].children|
    requires f.nodes[x].children[i] < |f.nodes|
    requires oj == oi + Width(f, f.nodes[x].children[i])
    requires b == a + Preorder(f, f.nodes[x].children[i], dk, oi)
    ensures a + KidVisits(f, x, i, dk, oi) == b + KidVisits(f, x, i + 1, dk, oj)
  {
    KidVisitsStep(f, x, i, dk, oi, oj);
    Assoc(a, Preorder(f, f.nodes[x].children[i], dk, oi), KidVisits(f, x, i + 1, dk, oj));
  }

  /** The state after a child's run and the backtrack to x that follows it,
      and how the run of the later children continues from it. */
  lemma OneKid(f: Forest, x: nat, i: nat, d: nat, s: State, o: int, oi: int, rest: seq<Entry>) returns (s2: State)
    requires Wf(f) && x < |f.nodes| && i < |f.nodes[x].children| && EntriesIn(f, rest)
    requires oi == o + KidWidths(f, x, 0) - KidWidths(f, x, i)
    requires x in s.inherited && s.inherited[x] == o
    requires x in s.backtracks && s.backtracks[x] == i
    requires GetOrZero(s.childOffset, x) == KidWidths(f, x, 0) - KidWidths(f, x, i)
    requires Untouched(s, KidDesc(f, x, i))
    ensures EntriesIn(f, KidEntries(f, x, i, d) + rest) && EntriesIn(f, KidEntries(f, x, i + 1, d) + rest)
    ensures Run(f, s, KidEntries(f, x, i, d) + rest) == Run(f, s2, KidEntries(f, x, i + 1, d) + rest)
    ensures f.nodes[x].children[i] < |f.nodes|
    ensures s.drawn + KidVisits(f, x, i, ChildRow(f, x, d), oi) ==
      s2.drawn + KidVisits(f, x, i + 1, ChildRow(f, x, d), oi + Width(f, f.nodes[x].children[i]))
    ensures x in s2.inherited && s2.inherited[x] == o
    ensures x in s2.backtracks && s2.backtracks[x] == i + 1
    ensures GetOrZero(s2.childOffset, x) == KidWidths(f, x, 0) - KidWidths(f, x, i + 1)
    ensures Untouched(s2, KidDesc(f, x, i + 1))
    ensures Frame(s, s2, KidDesc(f, x, i) + {x}, ParentSet(f, x))
    ensures f.nodes[x].parent.Some? && i + 1 == |f.nodes[x].children| ==>
      var p := f.nodes[x].parent.value;
      p in s2.childOffset && s2.childOffset[p] == GetOrZero(s.childOffset, p) + Width(f, x)
    ensures f.nodes[x].parent.Some? && i + 1 < |f.nodes[x].children| ==>
      GetOrZero(s2.childOffset, f.nodes[x].parent.value) == GetOrZero(s.childOffset, f.nodes[x].parent.value)
    decreases f.rank[x], 0, |f.nodes[x].children| - i, 1
  {
    var s1 := AfterKid(f, x, i, d, s, o, oi, rest);
    s2 := BackStep(f, s1, x, d, i);
    var later := KidEntries(f, x, i + 1, d) + rest;
    RunPop(f, s1, x, d, later, s2, []);
    assert [] + later == later;
    DrawnStep(f, x, i, ChildRow(f, x, d), oi, oi + Width(f, f.nodes[x].children[i]), s.drawn, s2.drawn);
    OneKidFacts(f, x, i, s, s1, s2, o);
  }

  /** Running the entries for the children of x from the i-th on, with the
      first i already done, records their preorder visits at the columns their
      earlier siblings' widths leave, and after the last one reports Width(x)
      to x's parent. */
  lemma {:induction false} RunKids(f: Forest, x: nat, i: nat, d: nat, s: State, o: int, oi: int, rest: seq<Entry>) returns (t: State)
    requires Wf(f) && x < |f.nodes| && i <= |f.nodes[x].children| && EntriesIn(f, rest)
    requires oi == o + KidWidths(f, x, 0) - KidWidths(f, x, i)
    requires x in s.inherited && s.inherited[x] == o
    requires x in s.backtracks && s.backtracks[x] == i
    requires GetOrZero(s.childOffset, x) == KidWidths(f, x, 0) - KidWidths(f, x, i)
    requires Untouched(s, KidDesc(f, x, i))
    ensures EntriesIn(f, KidEntries(f, x, i, d) + rest)
    ensures Run(f, s, KidEntries(f, x, i, d) + rest) == Run(f, t, rest)
    ensures t.drawn == s.drawn + KidVisits(f, x, i, ChildRow(f, x, d), oi)
    ensures Frame(s, t, KidDesc(f, x, i) + {x}, ParentSet(f, x))
    ensures i == |f.nodes[x].children| ==> t == s
    ensures f.nodes[x].parent.Some? && i < |f.nodes[x].children| ==>
      var p := f.nodes[x].parent.value;
      p in t.childOffset && t.childOffset[p] == GetOrZero(s.childOffset, p) + Width(f, x)
    decreases f.rank[x], 0, |f.nodes[x].children| - i, 2
  {
    if i == |f.nodes[x].children| {
      assert KidEntries(f, x, i, d) + rest == rest;
      assert KidVisits(f, x, i, ChildRow(f, x, d), oi) == [];
      t := s;
    } else {
      var s2 := OneKid(f, x, i, d, s, o, oi, rest);
      KidWidthsStep(f, x, i);
      t := RunKids(f, x, i + 1, d, s2, o, oi + Width(f, f.nodes[x].children[i]), rest);
      KidsFacts(f, x, i, s, s2, t);
    }
  }

  // ---------------------------------------------------------------------
  // The diagram

  /** The connector of a visit reads a row of the diagram. */
  predicate Fits(v: Visit)
  {
    v.shelf > 1 ==> v.shelf <= v.depth
  }

  /** Every visit of the preorder of x, drawn from a row where x's connector fits, has its connector in range. */
  lemma {:induction false} PreorderFits(f: Forest, x: nat, d: nat, o: int)
    requires Wf(f) && x < |f.nodes| && ConnOk(f, x, d)
    ensures forall k | 0 <= k < |Preorder(f, x, d, o)| :: Fits(Preorder(f, x, d, o)[k])
    decreases f.rank[x], 1
  {
    var a: seq<Visit>, b: seq<Visit> := [VisitOf(f, x, d, o)], KidVisits(f, x, 0, d + |f.nodes[x].children| + 1, o);
    KidVisitsFit(f, x, 0, d + |f.nodes[x].children| + 1, o);
    AppendFits(a, b);
  }

  lemma {:induction false} KidVisitsFit(f: Forest, x: nat, i: nat, dk: nat, o: int)
    requires Wf(f) && x < |f.nodes| && |f.nodes[x].children| + 1 <= dk
    ensures forall k | 0 <= k < |KidVisits(f, x, i, dk, o)| :: Fits(KidVisits(f, x, i, dk, o)[k])
    decreases f.rank[x], 0, |f.nodes[x].children| - i
  {
    if i < |f.nodes[x].children| {
      KidFacts(f, x, i);
      var c := f.nodes[x].children[i];
      PreorderFits(f, c, dk, o);
      KidVisitsFit(f, x, i + 1, dk, o + Width(f, c));
      AppendFits(Preorder(f, c, dk, o), KidVisits(f, x, i + 1, dk, o + Width(f, c)));
    }
  }

  lemma AppendFits(a: seq<Visit>, b: seq<Visit>)
    requires forall k | 0 <= k < |a| :: Fits(a[k])
    requires forall k | 0 <= k < |b| :: Fits(b[k])
    ensures forall k | 0 <= k < |a + b| :: Fits((a + b)[k])
  {
    forall k | 0 <= k < |a + b| ensures Fits((a + b)[k]) {
      if k < |a| { assert (a + b)[k] == a[k]; } else { assert (a + b)[k] == b[k - |a|]; }
    }
  }

  /** Visits whose connectors are in range draw without an exception. */
  lemma {:induction false} DrawAllOk(rows: seq<string>, vs: seq<Visit>)
    requires forall k | 0 <= k < |vs| :: Fits(vs[k])
    ensures DrawAll(rows, vs).Ok?
    decreases |vs|
  {
    if vs != [] {
      assert Fits(vs[0]);
      assert forall k | 0 <= k < |vs[1..]| :: Fits(vs[1..][k]) by {
        forall k | 0 <= k < |vs[1..]| ensures Fits(vs[1..][k]) {
          assert vs[1..][k] == vs[k + 1];
        }
      }
      DrawAllOk(Draw(rows, vs[0]).value, vs[1..]);
    }
  }

  /** The stack algorithm computes the closed-form diagram: it throws exactly
      when the rendered node has a parent and is not its first child, and
      otherwise leaves the joined rows of the preorder visits, drawn from column 0. */
  lemma TraversalIsDiagram(f: Forest, x: nat)
    requires Wf(f) && x < |f.nodes|
    ensures Traversal(f, x) == Diagram(f, x)
    ensures Diagram(f, x).Throw? <==> f.nodes[x].parent.Some? && f.nodes[x].childNumber > 1
    ensures Diagram(f, x).Throw? ==> Diagram(f, x).exc == IndexOutOfBounds
  {
    var n := f.nodes[x];
    assert [(x, 0)] + [] == [(x, 0)];
    if n.parent.Some? && n.childNumber > 1 {
      assert Pop(f, Empty, x, 0) == Throw(IndexOutOfBounds);
      RunPopThrow(f, Empty, x, 0, [], IndexOutOfBounds);
    } else {
      assert Untouched(Empty, Desc(f, x));
      var t := RunSubtree(f, x, 0, Empty, 0, []);
      assert t.drawn == Preorder(f, x, 0, 0);
      PreorderFits(f, x, 0, 0);
      DrawAllOk([], Preorder(f, x, 0, 0));
    }
  }
}
