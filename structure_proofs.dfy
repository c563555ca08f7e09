/** What changeStringRepMessageToParent, equals and hashCode promise about
    the arena: the re-rendered path, the untouched rest, idempotence, and an
    equals that never answers true. */
module ConstituentStructureProperties {
  import opened Outcomes
  import opened ConstituentForest
  import opened ConstituentLayout
  import opened LayoutCorrectness
  import opened ConstituentStructure

  /** The rendering of a node throws exactly when it has a parent and is not
      its first child (the connector of line 260 then reads row -childNumber). */
  ghost predicate Renders(f: Forest, a: nat)
    requires a < |f.nodes|
  {
    !(f.nodes[a].parent.Some? && f.nodes[a].childNumber > 1)
  }

  /** A node off the path from x to the root keeps its cached text. */
  lemma {:induction false} RefreshedOffPath(f: Forest, reps: seq<string>, x: nat, y: nat)
    requires Wf(f) && x < |f.nodes| && |reps| == |f.nodes| && y < |reps|
    requires !AncOrSelf(f, y, x)
    ensures Refreshed(f, reps, x).1[y] == reps[y]
    decreases f.hi - f.rank[x]
  {
    if f.nodes[x].parent.Some? {
      ParentRank(f, x);
      RefreshedOffPath(f, reps, f.nodes[x].parent.value, y);
    }
  }

  /** When no exception occurs, every node on the path from x to the root
      holds the traversal of its current subtree, which is its closed-form diagram. */
  lemma {:induction false} RefreshedOnPath(f: Forest, reps: seq<string>, x: nat, a: nat)
    requires Wf(f) && x < |f.nodes| && |reps| == |f.nodes| && a < |f.nodes|
    requires Refreshed(f, reps, x).0.None? && AncOrSelf(f, a, x)
    ensures Traversal(f, a).Ok? && Refreshed(f, reps, x).1[a] == Traversal(f, a).value
    ensures Diagram(f, a) == Traversal(f, a)
    decreases f.hi - f.rank[x]
  {
    TraversalIsDiagram(f, a);
    if a != x {
      ParentRank(f, x);
      RefreshedOnPath(f, reps, f.nodes[x].parent.value, a);
    }
  }

  /** The propagation completes exactly when every node on the path from x
      to the root renders, and what it throws otherwise is the connector's
      index error. */
  lemma {:induction false} RefreshedOk(f: Forest, reps: seq<string>, x: nat)
    requires Wf(f) && x < |f.nodes| && |reps| == |f.nodes|
    ensures Refreshed(f, reps, x).0.None? <==> forall a | 0 <= a < |f.nodes| && AncOrSelf(f, a, x) :: Renders(f, a)
    ensures Refreshed(f, reps, x).0.Some? ==> Refreshed(f, reps, x).0 == Some(IndexOutOfBounds)
    decreases f.hi - f.rank[x]
  {
    TraversalIsDiagram(f, x);
    if f.nodes[x].parent.Some? {
      var p := f.nodes[x].parent.value;
      ParentRank(f, x);
      RefreshedOk(f, reps, p);
      forall a | 0 <= a < |f.nodes|
        ensures AncOrSelf(f, a, x) <==> a == x || AncOrSelf(f, a, p)
      {
      }
      assert AncOrSelf(f, x, x);
      if Refreshed(f, reps, p).0.None? {
        assert Refreshed(f, reps, x).0.None? <==> Renders(f, x);
      }
    } else {
      forall a | 0 <= a < |f.nodes| && AncOrSelf(f, a, x)
        ensures a == x
      {
      }
      assert AncOrSelf(f, x, x);
    }
  }

  /** Overwriting the cached text of a node off the path commutes with the propagation. */
  lemma {:induction false} RefreshedUpdate(f: Forest, reps: seq<string>, x: nat, y: nat, text: string)
    requires Wf(f) && x < |f.nodes| && |reps| == |f.nodes| && y < |reps|
    requires !AncOrSelf(f, y, x)
    ensures Refreshed(f, reps[y := text], x) == (Refreshed(f, reps, x).0, Refreshed(f, reps, x).1[y := text])
    decreases f.hi - f.rank[x]
  {
    var before := reps;
    if f.nodes[x].parent.Some? {
      ParentRank(f, x);
      RefreshedUpdate(f, reps, f.nodes[x].parent.value, y, text);
      before := Refreshed(f, reps, f.nodes[x].parent.value).1;
    }
    assert y != x;
    if Traversal(f, x).Ok? {
      assert before[y := text][x := Traversal(f, x).value] == before[x := Traversal(f, x).value][y := text];
    }
  }

  /** Re-rendering an unchanged tree gives the identical texts and outcome. */
  lemma {:induction false} RefreshedIdempotent(f: Forest, reps: seq<string>, x: nat)
    requires Wf(f) && x < |f.nodes| && |reps| == |f.nodes|
    ensures Refreshed(f, Refreshed(f, reps, x).1, x) == Refreshed(f, reps, x)
    decreases f.hi - f.rank[x]
  {
    if f.nodes[x].parent.Some? {
      var p := f.nodes[x].parent.value;
      ParentRank(f, x);
      RefreshedIdempotent(f, reps, p);
      var before := Refreshed(f, reps, p).1;
      if Refreshed(f, reps, p).0.None? && Traversal(f, x).Ok? {
        var text := Traversal(f, x).value;
        if AncOrSelf(f, x, p) {
          AncRank(f, x, p);
        }
        RefreshedUpdate(f, before, p, x, text);
        assert Refreshed(f, reps, x) == (None, before[x := text]);
        assert Refreshed(f, before[x := text], p) == (None, before[x := text]);
        assert before[x := text][x := text] == before[x := text];
      }
    } else if Traversal(f, x).Ok? {
      var text := Traversal(f, x).value;
      assert reps[x := text][x := text] == reps[x := text];
    }
  }

  /** equals never answers true: it is false or it dereferences a null parent,
      whatever the comparisons after the parent's are; and it only throws when
      the argument is a ConstituentStructure of the same type. */
  lemma {:induction false} EqualsNeverTrue(f: Forest, x: nat, obj: Obj, later: (nat, nat) -> Result<bool>)
    requires Wf(f) && x < |f.nodes| && (obj.Ref? ==> obj.id < |f.nodes|)
    ensures Equals(f, x, obj, later) == Ok(false) || Equals(f, x, obj, later) == Throw(NullPointer)
    ensures Equals(f, x, obj, later).Throw? ==> obj.Ref? && f.nodes[x].constituentType == f.nodes[obj.id].constituentType
    decreases f.hi - f.rank[x]
  {
    if obj.Ref? && f.nodes[x].constituentType == f.nodes[obj.id].constituentType && f.nodes[x].parent.Some? {
      var y := obj.id;
      ParentRank(f, x);
      var q := f.nodes[y].parent;
      if q.Some? {
        ParentRank(f, y);
      }
      var arg := if q.Some? then Ref(q.value) else Null;
      EqualsNeverTrue(f, f.nodes[x].parent.value, arg, later);
    }
  }

  /** A node compared with itself throws: the comparison climbs to the root,
      whose parent is null. */
  lemma {:induction false} EqualsSelf(f: Forest, x: nat, later: (nat, nat) -> Result<bool>)
    requires Wf(f) && x < |f.nodes|
    ensures Equals(f, x, Ref(x), later) == Throw(NullPointer)
    decreases f.hi - f.rank[x]
  {
    if f.nodes[x].parent.Some? {
      ParentRank(f, x);
      EqualsSelf(f, f.nodes[x].parent.value, later);
    }
  }
}
