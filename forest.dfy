/** The object graph of ConstituentStructure nodes, as an arena: node `x` is
    the object whose (unique, construction-time) hashCode is `x`. */
module ConstituentForest {
  import opened Outcomes

  /** The fields of one ConstituentStructure object, except the cached
      `totalStringRep`, which the arena keeps apart. */
  datatype Node = Node(
    constituentType: string,
    words: seq<string>,     // contentWords
    fragment: string,       // thisLevelStringRepBuilder (and its copy thisLevelStringRep)
    ownWidth: int,          // thisLevelStringRepWidth: initialised to 0, never assigned
    children: seq<nat>,     // leftToRightChildren
    numChildren: nat,
    parent: Option<nat>,
    childNumber: nat,       // 0 without a parent, else the 1-based position among siblings
    hash: int)

  /** A snapshot of the arena. `rank` is proof bookkeeping only: every
      parent outranks its children, and no rank exceeds `hi`. */
  datatype Forest = Forest(nodes: seq<Node>, rank: seq<nat>, hi: nat)

  /** Words concatenated with no separator, as StringBuilder.insert leaves them. */
  function Concat(ws: seq<string>): string
  {
    if ws == [] then [] else Concat(ws[..|ws| - 1]) + ws[|ws| - 1]
  }

  /** The one-line fragment of a node with this constituent type and these words. */
  function Fragment(ctype: string, words: seq<string>): string
  {
    "(" + ctype + Concat(words) + ")"
  }

  ghost predicate ChildOk(f: Forest, x: nat, i: nat)
    requires |f.rank| == |f.nodes| && x < |f.nodes| && i < |f.nodes[x].children|
  {
    var c := f.nodes[x].children[i];
    && c < |f.nodes|
    && f.nodes[c].parent == Some(x)
    && f.nodes[c].childNumber == i + 1
    && f.rank[c] < f.rank[x]
  }

  ghost predicate ParentOk(f: Forest, x: nat)
    requires x < |f.nodes| && f.nodes[x].parent.Some?
  {
    var p := f.nodes[x].parent.value;
    var k := f.nodes[x].childNumber;
    && p < |f.nodes|
    && 1 <= k <= |f.nodes[p].children|
    && f.nodes[p].children[k - 1] == x
  }

  ghost predicate NodeOk(f: Forest, x: nat)
    requires |f.rank| == |f.nodes| && x < |f.nodes|
  {
    var n := f.nodes[x];
    && n.numChildren == |n.children|
    && n.ownWidth == 0
    && n.fragment == Fragment(n.constituentType, n.words)
    && f.rank[x] <= f.hi
    && (forall i | 0 <= i < |n.children| :: ChildOk(f, x, i))
    && (n.parent.None? <==> n.childNumber == 0)
    && (n.parent.Some? ==> ParentOk(f, x))
  }

  /** The arena invariant: parent and child links agree, childNumber is the
      1-based position, numChildren is the list size, and there are no cycles. */
  ghost predicate Wf(f: Forest)
  {
    && |f.rank| == |f.nodes|
    && forall x | 0 <= x < |f.nodes| :: NodeOk(f, x)
  }

  /** The parent of a node is a node of the arena and outranks it. */
  lemma ParentRank(f: Forest, y: nat)
    requires Wf(f) && y < |f.nodes| && f.nodes[y].parent.Some?
    ensures f.nodes[y].parent.value < |f.nodes|
    ensures f.rank[y] < f.rank[f.nodes[y].parent.value] <= f.hi
  {
    var p := f.nodes[y].parent.value;
    assert NodeOk(f, y);
    assert NodeOk(f, p);
    assert ChildOk(f, p, f.nodes[y].childNumber - 1);
  }

  /** The i-th child of a node is a node of the arena, knows its parent and position, and is outranked. */
  lemma KidFacts(f: Forest, x: nat, i: nat)
    requires Wf(f) && x < |f.nodes| && i < |f.nodes[x].children|
    ensures var c := f.nodes[x].children[i];
      && c < |f.nodes|
      && f.nodes[c].parent == Some(x)
      && f.nodes[c].childNumber == i + 1
      && f.rank[c] < f.rank[x]
  {
    assert NodeOk(f, x);
    assert ChildOk(f, x, i);
  }

  /** `a` is `y` or one of its ancestors (walking the parent references). */
  ghost predicate AncOrSelf(f: Forest, a: nat, y: nat)
    requires Wf(f) && y < |f.nodes|
    decreases f.hi - f.rank[y]
  {
    if y == a then true
    else if f.nodes[y].parent.None? then false
    else
      ParentRank(f, y);
      AncOrSelf(f, a, f.nodes[y].parent.value)
  }

  /** The nodes of the subtree rooted at `x`. */
  ghost function Desc(f: Forest, x: nat): set<nat>
    requires Wf(f) && x < |f.nodes|
    decreases f.rank[x], 1
  {
    {x} + KidDesc(f, x, 0)
  }

  /** The nodes of the subtrees of the children of `x` from the i-th on. */
  ghost function KidDesc(f: Forest, x: nat, i: nat): set<nat>
    requires Wf(f) && x < |f.nodes|
    decreases f.rank[x], 0, |f.nodes[x].children| - i
  {
    if i >= |f.nodes[x].children| then {}
    else
      KidFacts(f, x, i);
      Desc(f, f.nodes[x].children[i]) + KidDesc(f, x, i + 1)
  }

  /** Every node below `x` is a node of the arena, has `x` as an ancestor, and does not outrank `x`. */
  lemma {:induction false} DescFacts(f: Forest, x: nat, y: nat)
    requires Wf(f) && x < |f.nodes| && y in Desc(f, x)
    ensures y < |f.nodes| && f.rank[y] <= f.rank[x] && AncOrSelf(f, x, y)
    decreases f.rank[x], 1
  {
    if y != x {
      KidDescFacts(f, x, 0, y);
    }
  }

  lemma {:induction false} KidDescFacts(f: Forest, x: nat, i: nat, y: nat)
    requires Wf(f) && x < |f.nodes| && y in KidDesc(f, x, i)
    ensures y < |f.nodes| && f.rank[y] < f.rank[x] && AncOrSelf(f, x, y)
    ensures exists j :: i <= j < |f.nodes[x].children| && f.nodes[x].children[j] < |f.nodes| && y in Desc(f, f.nodes[x].children[j])
    decreases f.rank[x], 0, |f.nodes[x].children| - i
  {
    KidFacts(f, x, i);
    var c := f.nodes[x].children[i];
    if y in Desc(f, c) {
      DescFacts(f, c, y);
      AncStep(f, x, c, y);
    } else {
      KidDescFacts(f, x, i + 1, y);
    }
  }

  /** If `a` is an ancestor-or-self of the parent of `c`, it is one of `c` and everything below `c`. */
  lemma {:induction false} AncStep(f: Forest, x: nat, c: nat, y: nat)
    requires Wf(f) && x < |f.nodes| && c < |f.nodes| && y < |f.nodes|
    requires f.nodes[c].parent == Some(x) && AncOrSelf(f, c, y)
    ensures AncOrSelf(f, x, y)
    decreases f.hi - f.rank[y]
  {
    if y == c {
      ParentRank(f, c);
      assert AncOrSelf(f, x, x);
    } else {
      ParentRank(f, y);
      AncStep(f, x, c, f.nodes[y].parent.value);
    }
  }

  /** An ancestor never ranks below its descendant. */
  lemma {:induction false} AncRank(f: Forest, a: nat, y: nat)
    requires Wf(f) && y < |f.nodes| && AncOrSelf(f, a, y)
    ensures a < |f.nodes| && f.rank[y] <= f.rank[a]
    decreases f.hi - f.rank[y]
  {
    if y != a {
      ParentRank(f, y);
      AncRank(f, a, f.nodes[y].parent.value);
    }
  }

  /** Two ancestors of one node lie on one chain. */
  lemma {:induction false} AncComparable(f: Forest, a: nat, b: nat, y: nat)
    requires Wf(f) && y < |f.nodes| && AncOrSelf(f, a, y) && AncOrSelf(f, b, y)
    ensures a < |f.nodes| && b < |f.nodes|
    ensures AncOrSelf(f, a, b) || AncOrSelf(f, b, a)
    decreases f.hi - f.rank[y]
  {
    AncRank(f, a, y);
    AncRank(f, b, y);
    if y != a && y != b {
      ParentRank(f, y);
      AncComparable(f, a, b, f.nodes[y].parent.value);
    }
  }

  /** The subtrees of two different children of one node share no node. */
  lemma SiblingsDisjoint(f: Forest, x: nat, i: nat, j: nat)
    requires Wf(f) && x < |f.nodes| && i < j < |f.nodes[x].children|
    ensures f.nodes[x].children[i] < |f.nodes| && f.nodes[x].children[j] < |f.nodes|
    ensures Desc(f, f.nodes[x].children[i]) !! Desc(f, f.nodes[x].children[j])
  {
    KidFacts(f, x, i);
    KidFacts(f, x, j);
    var ci, cj := f.nodes[x].children[i], f.nodes[x].children[j];
    forall y | y in Desc(f, ci) && y in Desc(f, cj)
      ensures false
    {
      DescFacts(f, ci, y);
      DescFacts(f, cj, y);
      AncComparable(f, ci, cj, y);
      KidsDistinct(f, x, i, j);
      OneAboveOther(f, x, ci, cj);
      OneAboveOther(f, x, cj, ci);
    }
  }

  /** Of two distinct children of `x`, neither is an ancestor of the other. */
  lemma OneAboveOther(f: Forest, x: nat, a: nat, b: nat)
    requires Wf(f) && x < |f.nodes| && a < |f.nodes| && b < |f.nodes| && a != b
    requires f.nodes[a].parent == Some(x) && f.nodes[b].parent == Some(x)
    ensures !AncOrSelf(f, a, b)
  {
    ParentRank(f, a);
    ParentRank(f, b);
    if AncOrSelf(f, a, b) {
      assert AncOrSelf(f, a, x);
      AncRank(f, a, x);
    }
  }

  /** Two positions of one child list hold different nodes. */
  lemma KidsDistinct(f: Forest, x: nat, i: nat, j: nat)
    requires Wf(f) && x < |f.nodes| && i < |f.nodes[x].children| && j < |f.nodes[x].children| && i != j
    ensures f.nodes[x].children[i] != f.nodes[x].children[j]
  {
    KidFacts(f, x, i);
    KidFacts(f, x, j);
  }

  /** The subtrees of the children from the i-th on do not contain `x` itself. */
  lemma KidDescExcludes(f: Forest, x: nat, i: nat)
    requires Wf(f) && x < |f.nodes|
    ensures x !in KidDesc(f, x, i)
  {
    if x in KidDesc(f, x, i) {
      KidDescFacts(f, x, i, x);
    }
  }

  /** The subtree of the i-th child is disjoint from the subtrees of the later children. */
  lemma KidDescSplit(f: Forest, x: nat, i: nat)
    requires Wf(f) && x < |f.nodes| && i < |f.nodes[x].children|
    ensures f.nodes[x].children[i] < |f.nodes|
    ensures Desc(f, f.nodes[x].children[i]) !! KidDesc(f, x, i + 1)
  {
    KidFacts(f, x, i);
    var c := f.nodes[x].children[i];
    forall y | y in Desc(f, c) && y in KidDesc(f, x, i + 1)
      ensures false
    {
      KidDescFacts(f, x, i + 1, y);
      var j :| i + 1 <= j < |f.nodes[x].children| && f.nodes[x].children[j] < |f.nodes| && y in Desc(f, f.nodes[x].children[j]);
      SiblingsDisjoint(f, x, i, j);
    }
  }
}
