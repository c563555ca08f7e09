/** WSJConstituentCounter.parseContituentsFromString (lines 55-205): a
    one-pass character state machine that hangs every constituent it reads
    below one ROOT node and counts constituent types in a statistics record. */
module WSJConstituentCounter {
  import opened Outcomes

  /** A child of ROOT: its constituent type and the content words added to it. */
  datatype Constituent = Constituent(ctype: string, words: seq<string>)

  /** The parser's locals: the five flags, the two builders, the children of
      ROOT in order, and which of them curConstituentStructureNode is (None
      while it is null). */
  datatype Parser = Parser(
    leftBracket: bool,
    endOfType: bool,
    startOfWord: bool,
    endOfWord: bool,
    rightBracket: bool,
    typeBuilder: string,
    wordBuilder: string,
    kids: seq<Constituent>,
    current: Option<nat>)

  const Init: Parser := Parser(false, false, false, false, false, [], [], [], None)

  /** The returned WSJConstituentCounterStructures: two lists the parser never fills. */
  datatype Structures = Structures(parsedConstituentStructures: seq<Constituent>, parsedConstituentSkeletons: seq<Constituent>)

  // ---------------------------------------------------------------------
  // String.trim

  /** The first index from st on whose character is above the space
      character, or |s| (the first loop of String.trim). */
  function TrimStart(s: string, st: nat): (r: nat)
    requires st <= |s|
    ensures st <= r <= |s|
    ensures forall j | st <= j < r :: s[j] <= ' '
    ensures r < |s| ==> s[r] > ' '
    decreases |s| - st
  {
    if st < |s| && s[st] <= ' ' then TrimStart(s, st + 1) else st
  }

  /** The length once the characters at or below the space character are
      cut off the end, never below st (the second loop of String.trim). */
  function TrimEnd(s: string, st: nat, len: nat): (r: nat)
    requires st <= len <= |s|
    ensures st <= r <= len
    ensures forall j | r <= j < len :: s[j] <= ' '
    ensures st < r ==> s[r - 1] > ' '
  {
    if st < len && s[len - 1] <= ' ' then TrimEnd(s, st, len - 1) else len
  }

  /** String.trim: the text between the leading and the trailing characters
      at or below the space character. */
  function Trim(s: string): string
  {
    var st := TrimStart(s, 0);
    s[st..TrimEnd(s, st, |s|)]
  }

  /** The trimmed text is empty or starts and ends above the space
      character; everything cut from either end is at or below it; a text
      already in that form is unchanged, and all-blank text trims to empty. */
  lemma TrimShape(s: string)
    ensures var r := Trim(s); r == [] || (r[0] > ' ' && r[|r| - 1] > ' ')
    ensures var st := TrimStart(s, 0); var len := TrimEnd(s, st, |s|);
      Trim(s) == s[st..len] && forall i | 0 <= i < st || len <= i < |s| :: s[i] <= ' '
    ensures s == [] || (s[0] > ' ' && s[|s| - 1] > ' ') ==> Trim(s) == s
    ensures (forall i | 0 <= i < |s| :: s[i] <= ' ') ==> Trim(s) == []
  {
    if s != [] && s[0] > ' ' && s[|s| - 1] > ' ' {
      assert s[0..|s|] == s;
    }
  }

  // ---------------------------------------------------------------------
  // One character

  /** curConstituentStructureNode.addContentWord(w) (line 169), on the
      children of ROOT: the word goes to the current child. Re-rendering that
      child throws at the connector when it is not ROOT's first child, since
      its childNumber then exceeds its row (ConstituentStructure.java:256-260). */
  function AddWord(kids: seq<Constituent>, current: Option<nat>, w: string): (r: Result<seq<Constituent>>)
    ensures r.Ok? <==> current == Some(0) && kids != []
    ensures r.Throw? ==> r.exc == if current.Some? && current.value < |kids| then IndexOutOfBounds else NullPointer
    ensures r.Ok? ==> r.value == kids[0 := kids[0].(words := kids[0].words + [w])]
    ensures r.Ok? ==> |r.value| == |kids| && forall i | 0 <= i < |kids| :: r.value[i].ctype == kids[i].ctype
  {
    if current.None? || current.value >= |kids| then Throw(NullPointer)
    else if current.value >= 1 then Throw(IndexOutOfBounds)
    else Ok(kids[current.value := kids[current.value].(words := kids[current.value].words + [w])])
  }

  /** The body of the loop of lines 88-202 for one character. */
  function Step(p: Parser, c: char): Result<Parser>
  {
    if c == '(' then Ok(p.(leftBracket := true, endOfType := false))
    else if p.leftBracket && !p.endOfType then
      if c == ' ' then
        var t := Trim(p.typeBuilder);
        if t == "" then Ok(p.(leftBracket := false, endOfType := false))
        else
          Ok(p.(endOfType := true,
                kids := p.kids + [Constituent(t, [])],
                current := Some(|p.kids|),
                typeBuilder := p.typeBuilder[|t|..]))
      else Ok(p.(typeBuilder := p.typeBuilder + [c]))
    else if p.endOfType && !p.rightBracket then
      if p.startOfWord then
        if c == ' ' then
          match AddWord(p.kids, p.current, p.wordBuilder)
          case Throw(e) => Throw(e)
          case Ok(kids) => Ok(p.(kids := kids, endOfWord := true, startOfWord := false, wordBuilder := []))
        else Ok(p)
      else if c == ')' then Ok(p.(endOfWord := true, rightBracket := true))
      else if c != ' ' then Ok(p.(wordBuilder := p.wordBuilder + [c], startOfWord := true))
      else Ok(p)
    else Ok(p)
  }

  /** The parser after a step: the new one, or the old one with the exception. */
  function Advance(p: Parser, step: Result<Parser>): (Parser, Option<Exception>)
  {
    match step
    case Throw(x) => (p, Some(x))
    case Ok(q) => (q, None)
  }

  /** The parser after the first n characters, or the parser before the
      character whose step threw, with that exception. */
  function Parsed(s: string, n: nat): (Parser, Option<Exception>)
    requires n <= |s|
  {
    if n == 0 then (Init, None)
    else
      var before := Parsed(s, n - 1);
      if before.1.Some? then before
      else Advance(before.0, Step(before.0, s[n - 1]))
  }

  /** One more character: the step of the parser reached so far. */
  lemma ParsedNext(s: string, n: nat)
    requires n < |s| && Parsed(s, n).1.None?
    ensures Parsed(s, n + 1) == Advance(Parsed(s, n).0, Step(Parsed(s, n).0, s[n]))
  {
  }

  /** After an exception the parser stays where it was. */
  lemma {:induction false} ParsedStuck(s: string, n: nat, m: nat)
    requires n <= m <= |s| && Parsed(s, n).1.Some?
    ensures Parsed(s, m) == Parsed(s, n)
    decreases m - n
  {
    if n < m {
      ParsedStuck(s, n, m - 1);
    }
  }

  // ---------------------------------------------------------------------
  // The statistics record

  /** The type counts after counting each child in order (lines 131-144). */
  function Tally(m: map<string, int>, kids: seq<Constituent>): map<string, int>
  {
    if kids == [] then m
    else
      var m1 := Tally(m, kids[..|kids| - 1]);
      var t := kids[|kids| - 1].ctype;
      m1[t := GetOrZero(m1, t) + 1]
  }

  /** Counting one more child adds one to its type's count. */
  lemma TallySnoc(m: map<string, int>, kids: seq<Constituent>, k: Constituent)
    ensures Tally(m, kids + [k]) == Tally(m, kids)[k.ctype := GetOrZero(Tally(m, kids), k.ctype) + 1]
  {
    assert (kids + [k])[..|kids|] == kids;
  }

  /** The counts depend only on the children's types. */
  lemma {:induction false} TallyTypes(m: map<string, int>, a: seq<Constituent>, b: seq<Constituent>)
    requires |a| == |b| && forall i | 0 <= i < |a| :: a[i].ctype == b[i].ctype
    ensures Tally(m, a) == Tally(m, b)
  {
    if a != [] {
      TallyTypes(m, a[..|a| - 1], b[..|b| - 1]);
    }
  }

  /** How many of the children have type t. */
  function Occurrences(kids: seq<Constituent>, t: string): nat
  {
    if kids == [] then 0
    else Occurrences(kids[..|kids| - 1], t) + (if kids[|kids| - 1].ctype == t then 1 else 0)
  }

  /** WSJConstituentCounterStatistics (lines 31-46). */
  class Statistics {
    var constituentTypeToCount: map<string, int>
    var numConstituents: int
    var numWords: int
    var wordToCount: map<string, int>
    var wordToImmediateParentConstituentTypeToCount: map<string, map<string, int>>

    constructor ()
      ensures constituentTypeToCount == map[] && numConstituents == 0 && numWords == 0
      ensures wordToCount == map[] && wordToImmediateParentConstituentTypeToCount == map[]
    {
      constituentTypeToCount := map[];
      numConstituents := 0;
      numWords := 0;
      wordToCount := map[];
      wordToImmediateParentConstituentTypeToCount := map[];
    }

    /** One more constituent of type t (lines 131-144): the total and the
        type's count go up by one, absent types counting from zero. */
    method CountConstituent(t: string)
      modifies this
      ensures numConstituents == old(numConstituents) + 1
      ensures constituentTypeToCount == old(constituentTypeToCount)[t := GetOrZero(old(constituentTypeToCount), t) + 1]
      ensures numWords == old(numWords) && wordToCount == old(wordToCount)
      ensures wordToImmediateParentConstituentTypeToCount == old(wordToImmediateParentConstituentTypeToCount)
    {
      numConstituents := numConstituents + 1;
      var count := if t in constituentTypeToCount then constituentTypeToCount[t] else 0;
      count := count + 1;
      constituentTypeToCount := constituentTypeToCount[t := count];
    }
  }

  /** Lines 99-154: a character read while the constituent type is being
      parsed. A space ends the type; an empty trimmed type is a lone left
      bracket and resets both flags (the `continue` of line 115 skips nothing
      that follows); otherwise a child is created and counted and the type's
      characters are deleted from the front of the builder. */
  method TypeChar(p: Parser, c: char, statistics: Statistics, ghost m: map<string, int>, ghost n0: int) returns (q: Parser)
    requires c != '(' && p.leftBracket && !p.endOfType
    requires statistics.numConstituents == n0 + |p.kids|
    requires statistics.constituentTypeToCount == Tally(m, p.kids)
    modifies statistics
    ensures Step(p, c) == Ok(q)
    ensures statistics.numConstituents == n0 + |q.kids|
    ensures statistics.constituentTypeToCount == Tally(m, q.kids)
    ensures statistics.numWords == old(statistics.numWords)
    ensures statistics.wordToCount == old(statistics.wordToCount)
    ensures statistics.wordToImmediateParentConstituentTypeToCount == old(statistics.wordToImmediateParentConstituentTypeToCount)
  {
    if c == ' ' {
      var t := Trim(p.typeBuilder);
      if t == "" {
        q := p.(leftBracket := false, endOfType := false);
      } else {
        TallySnoc(m, p.kids, Constituent(t, []));
        statistics.CountConstituent(t);
        q := p.(endOfType := true, kids := p.kids + [Constituent(t, [])], current := Some(|p.kids|), typeBuilder := p.typeBuilder[|t|..]);
      }
    } else {
      q := p.(typeBuilder := p.typeBuilder + [c]);
    }
  }

  /** Lines 156-200: a character read after the type and before the right
      bracket. A space after a word adds the word to the current constituent
      (which can throw) and empties the builder; a right bracket closes the
      constituent; any other non-space character extends the word. */
  method WordChar(p: Parser, c: char) returns (r: Result<Parser>)
    requires c != '(' && !(p.leftBracket && !p.endOfType) && p.endOfType && !p.rightBracket
    ensures r == Step(p, c)
    ensures r.Ok? ==> |r.value.kids| == |p.kids| && forall i | 0 <= i < |p.kids| :: r.value.kids[i].ctype == p.kids[i].ctype
  {
    if p.startOfWord {
      if c == ' ' {
        var added := AddWord(p.kids, p.current, p.wordBuilder);
        if added.Throw? {
          return Throw(added.exc);
        }
        return Ok(p.(kids := added.value, endOfWord := true, startOfWord := false, wordBuilder := []));
      }
    } else if c == ')' {
      return Ok(p.(endOfWord := true, rightBracket := true));
    } else if c != ' ' {
      return Ok(p.(wordBuilder := p.wordBuilder + [c], startOfWord := true));
    }
    return Ok(p);
  }

  /** parseContituentsFromString (lines 55-205). The parser's locals are held
      in one Parser value. The statistics count every constituent created
      before the end or before the exception; the word statistics are never
      touched; the returned lists are empty. */
  method Parse(s: string, statistics: Statistics) returns (r: Result<Structures>)
    modifies statistics
    ensures var (q, e) := Parsed(s, |s|);
      && statistics.numConstituents == old(statistics.numConstituents) + |q.kids|
      && statistics.constituentTypeToCount == Tally(old(statistics.constituentTypeToCount), q.kids)
      && r == (if e.Some? then Throw(e.value) else Ok(Structures([], [])))
    ensures statistics.numWords == old(statistics.numWords)
    ensures statistics.wordToCount == old(statistics.wordToCount)
    ensures statistics.wordToImmediateParentConstituentTypeToCount == old(statistics.wordToImmediateParentConstituentTypeToCount)
  {
    var p := Init;
    for i := 0 to |s|
      invariant Parsed(s, i) == (p, None)
      invariant statistics.numConstituents == old(statistics.numConstituents) + |p.kids|
      invariant statistics.constituentTypeToCount == Tally(old(statistics.constituentTypeToCount), p.kids)
      invariant statistics.numWords == old(statistics.numWords)
      invariant statistics.wordToCount == old(statistics.wordToCount)
      invariant statistics.wordToImmediateParentConstituentTypeToCount == old(statistics.wordToImmediateParentConstituentTypeToCount)
    {
      var c := s[i];
      ParsedNext(s, i);
      if c == '(' {
        p := p.(leftBracket := true, endOfType := false);
      } else if p.leftBracket && !p.endOfType {
        p := TypeChar(p, c, statistics, old(statistics.constituentTypeToCount), old(statistics.numConstituents));
      } else if p.endOfType && !p.rightBracket {
        var next := WordChar(p, c);
        if next.Throw? {
          ParsedStuck(s, i + 1, |s|);
          return Throw(next.exc);
        }
        TallyTypes(old(statistics.constituentTypeToCount), p.kids, next.value.kids);
        p := next.value;
      }
    }
    return Ok(Structures([], []));
  }
}
