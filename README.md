# Constituent structures: a Dafny model

This project models the tree core of a Penn Treebank (WSJ) constituent
counter:

- `ConstituentStructure`, a node of a constituent tree. Each node holds its
  type, its content words, its children, its parent and its child number.
  It keeps a cached multi-line text rendering of its subtree. Every change
  to a node (a new word, a new child) re-renders that node and every node
  above it.
- `WSJConstituentCounter.parseContituentsFromString`, a character-by-character
  state machine. It reads bracketed constituents, creates a child of a ROOT
  node for each type, gives words to the current node and counts
  constituents per type in a statistics record.
- `Pair`, an immutable key/value pair that caches its key's hash and its
  text.
- `Holder`, a mutable box whose hash is fixed when it is built.

## How the model is organised

| file | module | contents |
|---|---|---|
| `outcomes.dfy` | `Outcomes` | `Option`, the three Java exceptions that can occur (`NullPointer`, `IndexOutOfBounds`, `ClassCast`), `Result`, and `GetOrZero` (a map read where a missing key counts as 0) |
| `forest.dfy` | `ConstituentForest` | The object graph of all constituent structures as a value, with one entry per object indexed by its `hashCode`. `Wf` says the parent and child links agree, `childNumber` is the 1-based position among the siblings, `numChildren` is the size of the child list, the fragment is the type followed by the words in parentheses, and a ghost rank decreases towards the root (no cycles). |
| `layout.dfy` | `ConstituentLayout` | The renderer's stack machine as functions. `Pop` is one iteration of the `while (!frontier.isEmpty())` loop, `Run` runs it to the end and `Traversal` is the whole rendering. `Preorder`, `Width` and `Diagram` are an independent closed form of the same picture. |
| `layout_proofs.dfy` | `LayoutCorrectness` | The proof that the stack machine draws the closed-form diagram, and exactly when it throws |
| `geometry.dfy` | `LayoutGeometry` | Widths, sibling columns, the staircase, the connector, and the fact that drawing only appends |
| `structure.dfy` | `ConstituentStructure` | The imperative renderer: loops over rows and lines, the `Arena` class holding every object's fields and cached text, the constructor and the mutators, `hashCode`, `toString` and `equals` |
| `structure_proofs.dfy` | `ConstituentStructureProperties` | What re-rendering the path to the root does, and that `equals` never answers true |
| `scenario.dfy` | `ConstituentScenario` | The demonstration tree S → NP, VP built by the class's `main` |
| `wsj.dfy` | `WSJConstituentCounter` | The parser state, one character's step, the fold over the input, the statistics class, and the imperative parsing loop |
| `wsj_proofs.dfy` | `WSJConstituentCounterProperties` | The parser invariant, when a character throws, what each character does to ROOT's children, and how the counts relate to the children |
| `pair.dfy` | `Pairs` | `Pair` and its equality |
| `holder.dfy` | `Holders` | The `Holder` class |

The object graph is an arena, `ConstituentStructure.Arena`. Its `nodes`
field holds every object's fields and `reps` holds every object's
`totalStringRep`. Object references are indices, and the index of an
object is its `hashCode`, since the hash is taken from a global counter
that the constructor increments. The renderer's hash maps
(`nodeToChildOffset`, `nodeToInheritedLeftOffset`, `nodeToNumBacktracks`)
are `map<nat, int>` fields of the stack machine's state. Its stack of
`Pair<ConstituentStructure, Integer>` entries is a sequence of
(node, row) tuples, with the top first.

### Behaviour of the code as written

The contracts state the following behaviours, which follow from the
source even where its comments suggest otherwise:

- A node re-renders its own subtree by itself. It therefore throws an
  `IndexOutOfBoundsException` whenever it has a parent and is not that
  parent's first child. Its connector then wants row `-childNumber` (line
  260). Inside a subtree rendered from higher up, every connector row
  exists.
- Every node's rendering is at least two columns wide. An inner node's
  `thisLevelStringRepWidth` stays 0, so the width an inner node reports is
  the sum of its children's widths.
- `equals` never answers `true`. It answers `false`, or it climbs to a
  null parent and throws a `NullPointerException`.
- In the parser, a word keeps only its first character. Once a word has
  started, only a space is acted on (lines 159-180).
- A word given to any child of ROOT other than the first re-renders that
  child, which throws as described above.
- The right-bracket flag is never cleared. `(` does not reset it, so after
  the first `)` in word position no node receives another word.
- After a type is created, the type builder loses as many characters from
  its front as the trimmed type has. A type preceded by blanks leaves its
  last letters behind (`\tNP` leaves `P`).
- The method always returns empty structures. Everything it reports goes
  through the statistics record.

## Model

| member | source | states |
|---|---|---|
| `ConstituentStructure.PadLine` | src/main/ConstituentStructure.java:246-249 | The append loop extends the line with the fill character to exactly column n when it is shorter, and leaves it unchanged otherwise (through `Pad`'s contract) |
| `ConstituentStructure.AddRows` | src/main/ConstituentStructure.java:235-241 | The loop adds empty rows until row d exists, giving max(rows, d+1) rows |
| `ConstituentStructure.Connector` | src/main/ConstituentStructure.java:256-286 | The dash-and-bar loops compute `Connect`, whose shape `LayoutGeometry.ConnectShape` gives |
| `ConstituentStructure.Staircase` | src/main/ConstituentStructure.java:294-317 | The nested bar loops compute `Stairs` for n children below row d, whose shape `LayoutGeometry.StairsShape` gives in every case |
| `ConstituentStructure.PushChildren` | src/main/ConstituentStructure.java:319-326 | The right-to-left push loop leaves, above the old stack, each child on row d+n+1 above a return entry for the parent on row d, with the leftmost child on top |
| `ConstituentStructure.JoinRows` | src/main/ConstituentStructure.java:366-383 | The rows are joined with a newline between consecutive rows and none after the last |
| `ConstituentStructure.DrawNode` | src/main/ConstituentStructure.java:234-317 | One first visit writes to the rows exactly what `Draw` of that visit does: new rows, the padded fragment, the connector and the staircase, or the connector's index error |
| `ConstituentStructure.InsertWordFragment` | src/main/ConstituentStructure.java:411-417 | Inserting w just before the closing parenthesis of `"(" + type + w1 + … + wk + ")"` gives `"(" + type + w1 + … + wk + w + ")"`, a plain concatenation with no separators: the fragment always equals the type followed by the words in parentheses |
| `ConstituentStructure.WithWordWf` | src/main/ConstituentStructure.java:411-417 | Adding a content word keeps the object graph well formed, including that the fragment is the type followed by all words in parentheses |
| `ConstituentStructure.WithNodeWf` | src/main/ConstituentStructure.java:391-409 | A new parentless, childless node keeps the graph well formed |
| `ConstituentStructure.AttachWf` | src/main/ConstituentStructure.java:422-431 | Attaching an unattached node that is not an ancestor of the parent, as the parent's next child with child number = new child count, keeps the graph well formed |
| `ConstituentStructure.Arena.New` | src/main/ConstituentStructure.java:391-409 | The new object gets the next hash, type ctype, no words and no children, fragment `(ctype)`, a null parent, child number 0 and cached text `(ctype)`, and nothing else changes |
| `ConstituentStructure.Arena.AddContentWord` | src/main/ConstituentStructure.java:411-420 | The word is added to x (list and fragment), then x and every node above it are re-rendered parent first: the new texts and the exception are those of `Refreshed` |
| `ConstituentStructure.Arena.AddChild` | src/main/ConstituentStructure.java:422-434 | c becomes x's last child with x as parent and child number = x's new child count, then x's path to the root is re-rendered as `Refreshed` says |
| `ConstituentStructure.Arena.ChangeStringRep` | src/main/ConstituentStructure.java:46-383 | The graph is unchanged. The parent chain is re-rendered first, then x, and the cached texts and the first exception are those of `Refreshed` |
| `ConstituentStructure.Arena.HashCode` | src/main/ConstituentStructure.java:399-400 | An object's hash is its construction index |
| `ConstituentStructure.Arena.ToString` | src/main/ConstituentStructure.java:522-525 | Defines `toString` as the cached `totalStringRep`; `RefreshedOnPath` states what that text is |
| `ConstituentStructure.Equals` | src/main/ConstituentStructure.java:472-519 | Defines `equals`; `EqualsNeverTrue` and `EqualsSelf` state its outcomes |
| `ConstituentStructure.Arena.FirstVisit` | src/main/ConstituentStructure.java:172-327 | Popping a not-yet-seen node records its child offset, inherited offset and backtrack count, draws it and pushes its children, exactly as the machine's `Pop` step does (or throws the same exception) |
| `ConstituentStructure.Arena.Backtrack` | src/main/ConstituentStructure.java:329-362 | Popping a seen node counts one more backtrack and, after its last child, passes max(own width, child offset) to its parent's child offset, again exactly as `Pop` does |
| `ConstituentStructure.Arena.Render` | src/main/ConstituentStructure.java:56-383 | The imperative stack loop and the final join give exactly the machine's `Traversal` of x |
| `ConstituentLayout.Pop` | src/main/ConstituentStructure.java:165-364 | Defines one iteration of the stack loop: a first visit (record offsets, draw, push children) or a backtrack |
| `ConstituentLayout.Run` | src/main/ConstituentStructure.java:162-365 | Defines the stack loop, run until the stack is empty or a pop throws |
| `ConstituentLayout.Traversal` | src/main/ConstituentStructure.java:56-383 | Defines the whole rendering of x: the loop from the single entry (x, 0), then the join; `TraversalIsDiagram` states what it is |
| `LayoutCorrectness.TraversalIsDiagram` | src/main/ConstituentStructure.java:56-383 | The stack rendering of x equals its closed-form diagram (preorder visits drawn in order, then joined). It throws exactly when x has a parent and is not the first child, and what it throws is an `IndexOutOfBoundsException` |
| `LayoutCorrectness.RunSubtree` | src/main/ConstituentStructure.java:162-364 | Entering x on row d processes exactly x's subtree: it appends x's preorder visits at the inherited column, reports x's width to the parent, and leaves everything outside the subtree untouched |
| `LayoutCorrectness.RunKids` | src/main/ConstituentStructure.java:319-362 | The children pushed from the i-th on are processed left to right, each at the column its earlier siblings leave, before the parent's return entry |
| `LayoutCorrectness.PreorderFits` | src/main/ConstituentStructure.java:256-260 | Inside a subtree rendered from x, every connector row is within the rows (depth ≥ child number); `PreorderShelves` gives the sharper bound |
| `LayoutCorrectness.DrawAllOk` | src/main/ConstituentStructure.java:256-260 | Visits whose connector rows exist draw without exception |
| `LayoutGeometry.WidthAtLeastTwo` | src/main/ConstituentStructure.java:338-361 | Every node reports at least two columns, and an inner node reports the sum of its children's widths |
| `LayoutGeometry.SiblingsLeftToRight` | src/main/ConstituentStructure.java:188-221 | In the column `KidColumn` that the preorder gives each child (`ChildPlacement`), the first child sits at its parent's column, and each later sibling at least two columns further right per sibling in between |
| `LayoutGeometry.KidVisitsAt` | src/main/ConstituentStructure.java:188-221 | The visits of the children from the i-th on follow those of the earlier children and start at column `KidColumn(i)`: the parent's column plus the widths the earlier siblings reported |
| `LayoutGeometry.ChildPlacement` | src/main/ConstituentStructure.java:188-232 | In the preorder of x, after x's own visit and the visits of the earlier children, comes the i-th child's visit on the child row and at column `KidColumn(i)` |
| `LayoutGeometry.PreorderShelves` | src/main/ConstituentStructure.java:256-260 | For a node drawn on row d, every later visit of its preorder is a child (child number ≥ 1) whose connector shelf row depth − childNumber is at least d + 1: the k-th of n children drawn on row d+n+1 reaches up to row d+n+1−k > d |
| `LayoutGeometry.KidVisitsShelves` | src/main/ConstituentStructure.java:294-296 | The children of a node with n children drawn on row dk, and all their descendants, have connector shelf rows at least dk − n |
| `LayoutGeometry.BarsShape` | src/main/ConstituentStructure.java:311-314 | k bars are k `|` characters |
| `LayoutGeometry.BarRowsAt` | src/main/ConstituentStructure.java:301-317 | The j-th new staircase row holds n-j bars |
| `LayoutGeometry.StairsFresh` | src/main/ConstituentStructure.java:301-317 | When the rows below the node do not exist, the staircase appends n rows of n, n-1, …, 1 bars and changes no existing row |
| `LayoutGeometry.StairsExisting` | src/main/ConstituentStructure.java:301-317 | When those rows exist, all the bars are appended to the line held in `curStringRepLine` and no other row changes |
| `LayoutGeometry.StairsShape` | src/main/ConstituentStructure.java:301-317 | The general staircase: when e of the n rows below the node exist already (e = min(existing rows below, n)), the first e runs of bars n, n−1, …, n−e+1 all go to the line in `curStringRepLine`, and the remaining runs become new rows of n−e, …, 1 bars |
| `LayoutGeometry.VerticalBarsShape` | src/main/ConstituentStructure.java:271-285 | Each row from the shelf row to the row above the node is space-padded to the column and gets one bar, and no other row changes |
| `LayoutGeometry.ConnectShape` | src/main/ConstituentStructure.java:256-286 | The k-th child's connector throws exactly when the shelf row d-k is above row 0, and then throws an index error. Otherwise the shelf row is dash-padded to the column with a bar, the rows between are space-padded with a bar, and the rest are unchanged |
| `LayoutGeometry.PadGrows` | src/main/ConstituentStructure.java:246-249 | Padding only appends |
| `LayoutGeometry.EnsureRowsGrows` | src/main/ConstituentStructure.java:235-241 | Adding rows keeps every existing row |
| `LayoutGeometry.VerticalBarsGrows` | src/main/ConstituentStructure.java:271-285 | The connector's bars only append to rows |
| `LayoutGeometry.StairsGrows` | src/main/ConstituentStructure.java:301-317 | The staircase only appends to rows or adds rows at the end |
| `LayoutGeometry.DrawGrows` | src/main/ConstituentStructure.java:234-317 | One first visit only appends. Its row starts with the old row padded to the node's column followed by its fragment |
| `LayoutGeometry.DrawAllGrows` | src/main/ConstituentStructure.java:162-328 | Any sequence of visits only appends to rows and adds rows |
| `ConstituentStructureProperties.RefreshedOffPath` | src/main/ConstituentStructure.java:51-54 | Re-rendering from x leaves the cached text of every node not on x's path to the root unchanged |
| `ConstituentStructureProperties.RefreshedOnPath` | src/main/ConstituentStructure.java:46-383 | When no exception occurs, every node on the path caches the rendering of its current subtree, which is its closed-form diagram |
| `ConstituentStructureProperties.RefreshedOk` | src/main/ConstituentStructure.java:51-54 | Re-rendering completes exactly when no node on the path from x to the root is a non-first child with a parent. Otherwise it throws an index error |
| `ConstituentStructureProperties.RefreshedUpdate` | src/main/ConstituentStructure.java:51-54 | Overwriting the text of a node off the path commutes with re-rendering |
| `ConstituentStructureProperties.RefreshedIdempotent` | src/main/ConstituentStructure.java:46-383 | Re-rendering an unchanged tree again gives the same texts and the same outcome |
| `ConstituentStructureProperties.EqualsNeverTrue` | src/main/ConstituentStructure.java:472-519 | `equals` answers false or throws a `NullPointerException`, and it throws only for a ConstituentStructure argument of the same type |
| `ConstituentStructureProperties.EqualsSelf` | src/main/ConstituentStructure.java:472-519 | A node compared with itself throws a `NullPointerException` |
| `ConstituentScenario.ScenarioPreorder` | src/main/ConstituentStructure.java:532-541 | The demonstration tree's preorder visits are S on row 0 with two children, NP on row 3 at column 0 as first child and VP on row 3 at column 4 as second child |
| `ConstituentScenario.ScenarioDiagram` | src/main/ConstituentStructure.java:532-541 | The demonstration tree S(NP, VP) renders as `(S)`, `||--|`, `|   |`, `(NP)(VP)` |
| `ConstituentScenario.ScenarioRefresh` | src/main/ConstituentStructure.java:539 | Re-rendering from S completes without exception and caches S's four-line picture |
| `ConstituentScenario.NewNodes` | src/main/ConstituentStructure.java:532-535 | Three constructions give objects 0, 1, 2 with types S, NP and VP |
| `ConstituentScenario.BuildTree` | src/main/ConstituentStructure.java:532-537 | Adding NP and then VP to S gives the tree S(NP, VP) |
| `ConstituentScenario.Scenario` | src/main/ConstituentStructure.java:532-541 | `toString` of S after the first part of `main` is the four-row picture |
| `WSJConstituentCounter.TrimShape` | src/main/WSJConstituentCounter.java:106 | `trim()` removes exactly the leading and trailing characters ≤ U+0020. The result starts and ends with a character above it, or is empty when every character is blank |
| `WSJConstituentCounter.AddWord` | src/main/WSJConstituentCounter.java:169 | Giving a word to the current node succeeds exactly when it is ROOT's first child, and then appends the word to that child's words only. A null current node throws a `NullPointerException`, and any later child an `IndexOutOfBoundsException` |
| `WSJConstituentCounter.Step` | src/main/WSJConstituentCounter.java:90-200 | Defines one iteration of the parsing loop; `StepInv`, `StepThrows` and `StepKids` state its effect |
| `WSJConstituentCounter.Parsed` | src/main/WSJConstituentCounter.java:88-202 | Defines the state after the first n characters, or before the character that threw; `ParsedInv` and `Parse` relate it to the loop |
| `WSJConstituentCounter.ParsedStuck` | src/main/WSJConstituentCounter.java:88-202 | Once a character has thrown, no later character changes the state or the exception |
| `WSJConstituentCounter.TallyTypes` | src/main/WSJConstituentCounter.java:131-144 | The counts depend only on the children's types |
| `WSJConstituentCounter.Statistics.constructor` | src/main/WSJConstituentCounter.java:31-46 | The counters start at zero and the maps empty |
| `WSJConstituentCounter.Statistics.CountConstituent` | src/main/WSJConstituentCounter.java:131-144 | One more constituent, and one more of type t, with a missing key read as 0. The other fields are unchanged |
| `WSJConstituentCounter.TypeChar` | src/main/WSJConstituentCounter.java:99-154 | A character read while a type is open does exactly what `Step` does and keeps the statistics equal to the tally of the children |
| `WSJConstituentCounter.WordChar` | src/main/WSJConstituentCounter.java:156-200 | A character read in word position does exactly what `Step` does, and keeps the number and the types of the children |
| `WSJConstituentCounter.Parse` | src/main/WSJConstituentCounter.java:55-205 | The loop reaches the state the fold gives for the whole input. `numConstituents` grows by the number of children created and the per-type counts by their tally (both up to an exception). The result is that exception or empty structures, and the other statistics are unchanged |
| `WSJConstituentCounterProperties.StepInv` | src/main/WSJConstituentCounter.java:88-202 | One character keeps the parser invariant: the current node is the last child created, types are non-empty and trimmed, words are one character, and only the first child has words |
| `WSJConstituentCounterProperties.CreateInv` | src/main/WSJConstituentCounter.java:102-148 | Ending a non-empty type keeps the invariant |
| `WSJConstituentCounterProperties.AddWordInv` | src/main/WSJConstituentCounter.java:162-178 | Ending a word on the first child keeps the invariant |
| `WSJConstituentCounterProperties.ParsedInv` | src/main/WSJConstituentCounter.java:88-202 | The invariant holds after every prefix of the input |
| `WSJConstituentCounterProperties.StepThrows` | src/main/WSJConstituentCounter.java:159-178 | A character throws exactly when a space ends a word while the current node is not ROOT's first child, and it throws an `IndexOutOfBoundsException`. The null node is never dereferenced |
| `WSJConstituentCounterProperties.Brackets` | src/main/WSJConstituentCounter.java:93-116 | `(` always opens a type, and a space after a blank type creates nothing and clears both flags |
| `WSJConstituentCounterProperties.StepKids` | src/main/WSJConstituentCounter.java:88-202 | A character leaves ROOT's children alone, or appends a child of the trimmed type (which becomes current), or appends the word to the first child |
| `WSJConstituentCounterProperties.StepAfterRightBracket` | src/main/WSJConstituentCounter.java:184-190 | After `)` in word position the flag stays set and existing children are unchanged |
| `WSJConstituentCounterProperties.ParsedAfterRightBracket` | src/main/WSJConstituentCounter.java:184-190 | Over the rest of the input, the flag stays set and the children seen so far keep their words |
| `WSJConstituentCounterProperties.TallyCounts` | src/main/WSJConstituentCounter.java:131-144 | The count read for any type is the starting count plus the number of children of that type |
| `WSJConstituentCounterProperties.TallyOthers` | src/main/WSJConstituentCounter.java:131-144 | A type no child has keeps its count, and an absent key stays absent |
| `WSJConstituentCounterProperties.FirstChild` | src/main/WSJConstituentCounter.java:93-148 | After `(S `, ROOT has the child S, which is current |
| `WSJConstituentCounterProperties.DroppedCharacters` | src/main/WSJConstituentCounter.java:159-198 | `(S ab )` parses without exception to the single child S whose only word is `a` |
| `WSJConstituentCounterProperties.SecondChildThrows` | src/main/WSJConstituentCounter.java:162-169 | `(S (NP b )` throws an index error at the word of NP, leaving the children S and NP |
| `WSJConstituentCounterProperties.TypeBuilderLeftover` | src/main/WSJConstituentCounter.java:106-147 | A space after the type text `\tNP` creates NP and leaves `P` in the type builder |
| `Pairs.NewPair` | src/utilities/Pair.java:16-25 | Building throws a `NullPointerException` exactly when the key or the value is null. Otherwise the pair holds them with the key's hash and the text `(key, value)` |
| `Pairs.GetKey` | src/utilities/Pair.java:30-33 | Defines `getKey`; `Accessors` states what it returns |
| `Pairs.GetValue` | src/utilities/Pair.java:35-38 | Defines `getValue`; `Accessors` states what it returns |
| `Pairs.HashCode` | src/utilities/Pair.java:44-47 | Defines `hashCode` as the cached key hash; `Accessors` and `HashAgreesWithEquals` state its properties |
| `Pairs.ToString` | src/utilities/Pair.java:64-67 | Defines `toString` as the cached text; `Accessors` states it |
| `Pairs.Equals` | src/utilities/Pair.java:50-61 | Defines `equals`; `EqualsIff` and `EqualsReflexiveSymmetric` state its meaning |
| `Pairs.Accessors` | src/utilities/Pair.java:16-47 | The getters give back the constructor's arguments, and `hashCode` and `toString` give the values computed from them |
| `Pairs.EqualsIff` | src/utilities/Pair.java:50-61 | `equals` holds exactly for a pair with an equal key and an equal value. null and other classes are never equal |
| `Pairs.EqualsReflexiveSymmetric` | src/utilities/Pair.java:50-61 | With reflexive, symmetric equality on keys and values, pair equality is reflexive and symmetric |
| `Pairs.HashAgreesWithEquals` | src/utilities/Pair.java:22-61 | Equal pairs have equal hashes when equal keys do |
| `Pairs.SameArguments` | src/utilities/Pair.java:16-67 | Two pairs built from the same arguments are equal and have the same hash and text |
| `Holders.Holder.constructor` | src/utilities/Holder.java:9-13 | The item and its hash are stored |
| `Holders.Holder.SetItem` | src/utilities/Holder.java:15-18 | The item is replaced and the hash is kept |
| `Holders.Holder.GetItem` | src/utilities/Holder.java:20-23 | The current item |
| `Holders.Holder.HashCode` | src/utilities/Holder.java:30-33 | The hash taken at construction |
| `Holders.Holder.Equals` | src/utilities/Holder.java:36-46 | Another Holder is equal exactly when it is this object. null throws a `NullPointerException`, and any other class a `ClassCastException` |
| `Holders.NewHolder` | src/utilities/Holder.java:9-13 | A null item throws a `NullPointerException`. Otherwise the result is a fresh Holder of the item with the item's hash |
| `Holders.SameItem` | src/utilities/Holder.java:9-46 | Two Holders of one item are not equal. After a new item is set, `getItem` returns it while `hashCode` keeps the first item's hash |

## Left out

- Reading treebank files, `parseConstituentStructureFiles` and the
  printing of `main`: file and console I/O. The demonstration tree of
  `main` is modelled up to its first `toString` (line 541). The second
  part (lines 543-547, two children added under NP) has no concrete
  lemma of its own; `Arena.AddChild` and `RefreshedOk` cover it in general
  (NP is a first child, so neither addition throws).
- `ConstituentSkeleton` is not part of this model. The parser's skeleton
  nodes (lines 83, 124, 128) are built beside the structure nodes and are
  not modelled, and neither is the `parsedConstituentSkeletons` list.
- Parse: ROOT's children are kept as a flat list of (type, words) values,
  not as arena objects. The parser only ever attaches to ROOT, and the
  re-rendering that a word triggers is summarised by `AddWord`'s exception
  rule, which `LayoutCorrectness.TraversalIsDiagram` justifies. The cached
  texts of the parser's nodes are not tracked. The word statistics fields
  (which the method never touches) are kept unchanged.
- Statistics.CountConstituent: counts are unbounded integers. Java's `int`
  and `Integer` would wrap past 2^31 - 1. Hash-map internals are not
  modelled.
- Arena.HashCode: the global counter is modelled as the arena size, so
  hashes do not wrap at 2^31.
- ConstituentStructure.Arena.AddChild: requires that the child is
  unattached and is not the parent or above it. The source checks neither.
  Re-parenting an attached child leaves it in its old parent's child list
  as well, so parent and child links no longer agree and the arena
  invariant cannot hold. A cycle would make the parent recursion of lines
  51-54 run until the stack overflows.
- ConstituentStructure.Equals: the comparison of the content words and
  the children after the parent chain (lines 486-515) is a parameter.
  Those lines are never reached: the parent recursion of line 482 always
  ends in `false` or a `NullPointerException` first, and `EqualsNeverTrue`
  holds whatever the parameter answers.
- `getContentWords` and `getConstituentChildren` return the live lists, so
  callers could modify them. This aliasing is not modelled.
- The foreign `hashCode`, `toString` and `equals` of a Pair's key and value
  and of a Holder's item are function parameters.
- Pairs.Equals: the order in which a Java caller would see a failing
  `equals` of a key throw is not modelled, since the foreign equals is a
  total function here.
- Strings are sequences of Unicode scalar values, while Java's `length()`,
  `charAt` and `insert` count UTF-16 code units. For text with characters
  outside the Basic Multilingual Plane the model therefore differs:
  columns and widths (`Pad`, `Width`, `InsertWord`) count such a character
  as one column where Java counts two, and the parser keeps the whole
  character as a one-character word where Java keeps a lone high
  surrogate.
- No concurrency. No floating point is involved.
