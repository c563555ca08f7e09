/** What the character state machine of parseContituentsFromString keeps
    invariant, when it throws, what it does to the children of ROOT, and how
    the type counts relate to the children. */
module WSJConstituentCounterProperties {
  import opened Outcomes
  import opened WSJConstituentCounter

  /** A created child: its type is the non-empty trimmed text, and every
      word it received is a single character. */
  ghost predicate WellNamed(k: Constituent)
  {
    && k.ctype != []
    && k.ctype[0] > ' ' && k.ctype[|k.ctype| - 1] > ' '
    && forall j | 0 <= j < |k.words| :: |k.words[j]| == 1
  }

  /** The invariant of the parser's locals: curConstituentStructureNode is
      the last child created (null before the first), the type has ended only
      after a child exists, the word builder holds one character exactly
      while a word has started, and only the first child has any words. */
  ghost predicate Inv(p: Parser)
  {
    && p.current == (if p.kids == [] then None else Some(|p.kids| - 1))
    && (p.endOfType ==> p.kids != [])
    && |p.wordBuilder| == (if p.startOfWord then 1 else 0)
    && (forall i | 0 <= i < |p.kids| :: WellNamed(p.kids[i]))
    && (forall i | 1 <= i < |p.kids| :: p.kids[i].words == [])
  }

  /** One character keeps the invariant. */
  lemma StepInv(p: Parser, c: char)
    requires Inv(p) && Step(p, c).Ok?
    ensures Inv(Step(p, c).value)
  {
    if c == '(' {
    } else if p.leftBracket && !p.endOfType {
      if c == ' ' && Trim(p.typeBuilder) != "" {
        CreateInv(p);
      }
    } else if p.endOfType && !p.rightBracket && p.startOfWord && c == ' ' {
      AddWordInv(p);
    }
  }

  /** Ending a non-empty type keeps the invariant. */
  lemma CreateInv(p: Parser)
    requires Inv(p) && p.leftBracket && !p.endOfType && Trim(p.typeBuilder) != ""
    ensures Inv(Step(p, ' ').value)
  {
    TrimShape(p.typeBuilder);
    var k := Constituent(Trim(p.typeBuilder), []);
    var q := Step(p, ' ').value;
    assert q.kids == p.kids + [k];
    assert WellNamed(k);
    forall i | 0 <= i < |q.kids|
      ensures WellNamed(q.kids[i])
    {
      if i < |p.kids| {
        assert q.kids[i] == p.kids[i];
      }
    }
  }

  /** Adding the one-character word to the first child keeps the invariant. */
  lemma AddWordInv(p: Parser)
    requires Inv(p) && p.endOfType && !p.rightBracket && p.startOfWord && Step(p, ' ').Ok?
    ensures Inv(Step(p, ' ').value)
  {
    var q := Step(p, ' ').value;
    assert p.current == Some(0) && |p.kids| == 1;
    var k := p.kids[0].(words := p.kids[0].words + [p.wordBuilder]);
    assert q.kids == [k];
    assert WellNamed(p.kids[0]);
    forall j | 0 <= j < |k.words|
      ensures |k.words[j]| == 1
    {
      if j < |p.kids[0].words| {
        assert k.words[j] == p.kids[0].words[j];
      }
    }
  }

  /** The invariant holds after every prefix of the input. */
  lemma {:induction false} ParsedInv(s: string, n: nat)
    requires n <= |s|
    ensures Inv(Parsed(s, n).0)
  {
    if n > 0 {
      ParsedInv(s, n - 1);
      var before := Parsed(s, n - 1);
      if before.1.None? && Step(before.0, s[n - 1]).Ok? {
        StepInv(before.0, s[n - 1]);
      }
    }
  }

  /** Under the invariant a character throws exactly when a space ends a
      word while the current child is not ROOT's first, and what it throws is
      the connector's index error; the null node is never dereferenced. */
  lemma StepThrows(p: Parser, c: char)
    requires Inv(p)
    ensures Step(p, c).Throw? <==>
      c == ' ' && !(p.leftBracket && !p.endOfType) && p.endOfType && !p.rightBracket && p.startOfWord && |p.kids| >= 2
    ensures Step(p, c).Throw? ==> Step(p, c).exc == IndexOutOfBounds
  {
  }

  /** A left bracket always starts a type, whatever the state; a space after
      an empty type creates nothing and clears both flags. */
  lemma Brackets(p: Parser)
    ensures Step(p, '(') == Ok(p.(leftBracket := true, endOfType := false))
    ensures p.leftBracket && !p.endOfType && Trim(p.typeBuilder) == "" ==>
      Step(p, ' ') == Ok(p.(leftBracket := false, endOfType := false))
  {
  }

  /** What one character does to the children of ROOT: nothing; or a space
      ends a non-empty type and appends a child of that type with no words;
      or a space ends a word and appends it to the words of the current
      child, which is then the first. */
  lemma {:induction false} StepKids(p: Parser, c: char)
    requires Inv(p) && Step(p, c).Ok?
    ensures var q := Step(p, c).value;
      || q.kids == p.kids
      || (&& c == ' ' && p.leftBracket && !p.endOfType && Trim(p.typeBuilder) != ""
          && q.kids == p.kids + [Constituent(Trim(p.typeBuilder), [])]
          && q.current == Some(|p.kids|))
      || (&& c == ' ' && p.endOfType && !p.rightBracket && p.startOfWord
          && p.kids != [] && p.current == Some(0)
          && q.kids == p.kids[0 := p.kids[0].(words := p.kids[0].words + [p.wordBuilder])])
  {
    StepThrows(p, c);
  }

  /** Once `)` has been read in word position, it stays read and no child
      receives another word: `(` does not reset it. */
  lemma StepAfterRightBracket(p: Parser, c: char)
    requires p.rightBracket && Step(p, c).Ok?
    ensures Step(p, c).value.rightBracket
    ensures |Step(p, c).value.kids| >= |p.kids|
    ensures forall i | 0 <= i < |p.kids| :: Step(p, c).value.kids[i] == p.kids[i]
  {
  }

  /** Over the rest of the input: after the first right bracket the children
      seen so far keep their words and the flag stays set. */
  lemma {:induction false} ParsedAfterRightBracket(s: string, n: nat, m: nat)
    requires n <= m <= |s| && Parsed(s, n).0.rightBracket
    ensures Parsed(s, m).0.rightBracket
    ensures |Parsed(s, m).0.kids| >= |Parsed(s, n).0.kids|
    ensures forall i | 0 <= i < |Parsed(s, n).0.kids| :: Parsed(s, m).0.kids[i] == Parsed(s, n).0.kids[i]
    decreases m - n
  {
    if n < m {
      ParsedAfterRightBracket(s, n, m - 1);
      var before := Parsed(s, m - 1);
      if before.1.None? && Step(before.0, s[m - 1]).Ok? {
        StepAfterRightBracket(before.0, s[m - 1]);
      }
    }
  }

  /** The tally read at any type is the starting count plus how many
      children have that type. */
  lemma {:induction false} TallyCounts(m: map<string, int>, kids: seq<Constituent>, t: string)
    ensures GetOrZero(Tally(m, kids), t) == GetOrZero(m, t) + Occurrences(kids, t)
  {
    if kids != [] {
      TallyCounts(m, kids[..|kids| - 1], t);
    }
  }

  /** Types no child has keep their count, absent ones staying absent. */
  lemma {:induction false} TallyOthers(m: map<string, int>, kids: seq<Constituent>, t: string)
    requires forall i | 0 <= i < |kids| :: kids[i].ctype != t
    ensures (t in Tally(m, kids)) == (t in m)
    ensures t in m ==> Tally(m, kids)[t] == m[t]
  {
    if kids != [] {
      TallyOthers(m, kids[..|kids| - 1], t);
    }
  }

  /** One more character whose step is known. */
  lemma ParsedStep(s: string, n: nat, p: Parser, q: Parser)
    requires n < |s| && Parsed(s, n) == (p, None) && Step(p, s[n]) == Ok(q)
    ensures Parsed(s, n + 1) == (q, None)
  {
    ParsedNext(s, n);
  }

  /** `S` and `NP` trim to themselves, leaving an empty builder. */
  lemma TrimS()
    ensures Trim("S") == "S" && "S"[|"S"|..] == []
    ensures Trim("NP") == "NP" && "NP"[|"NP"|..] == []
  {
    TrimShape("S");
    TrimShape("NP");
  }

  /** The parser after `(S `: the child S, the current node. */
  const AfterS: Parser := Parser(true, true, false, false, false, [], [], [Constituent("S", [])], Some(0))

  /** An input starting `(S ` has created the child S after three characters. */
  lemma FirstChild(s: string)
    requires |s| >= 3 && s[0] == '(' && s[1] == 'S' && s[2] == ' '
    ensures Parsed(s, 3) == (AfterS, None)
  {
    var p1 := Init.(leftBracket := true);
    var p2 := p1.(typeBuilder := "S");
    assert Parsed(s, 0) == (Init, None);
    ParsedStep(s, 0, Init, p1);
    assert [] + "S" == "S";
    ParsedStep(s, 1, p1, p2);
    TrimS();
    assert [] + [Constituent("S", [])] == [Constituent("S", [])];
    ParsedStep(s, 2, p2, AfterS);
  }

  /** The characters of a word after its first are dropped: `(S ab )`
      gives one child S whose only word is `a`. */
  lemma DroppedCharacters(s: string)
    requires s == "(S ab )"
    ensures Parsed(s, |s|).1 == None
    ensures Parsed(s, |s|).0.kids == [Constituent("S", ["a"])]
  {
    assert |s| == 7 && s[0] == '(' && s[1] == 'S' && s[2] == ' ' && s[3] == 'a' && s[4] == 'b' && s[5] == ' ' && s[6] == ')';
    var p4 := AfterS.(wordBuilder := "a", startOfWord := true);
    var p6 := AfterS.(kids := [Constituent("S", ["a"])], endOfWord := true);
    FirstChild(s);
    assert [] + "a" == "a";
    ParsedStep(s, 3, AfterS, p4);
    ParsedStep(s, 4, p4, p4);
    assert [] + ["a"] == ["a"];
    assert p4.kids[0].words + ["a"] == ["a"];
    assert p4.kids[0 := Constituent("S", ["a"])] == [Constituent("S", ["a"])];
    assert AddWord(p4.kids, Some(0), "a") == Ok([Constituent("S", ["a"])]);
    ParsedStep(s, 5, p4, p6);
    ParsedStep(s, 6, p6, p6.(rightBracket := true));
  }

  /** A word in ROOT's second child throws: in `(S (NP b )` the space after
      `b` adds the word to NP, whose re-rendering fails at the connector, and
      the parser stops there with the two children. */
  lemma SecondChildThrows(s: string)
    requires s == "(S (NP b )"
    ensures Parsed(s, |s|).1 == Some(IndexOutOfBounds)
    ensures Parsed(s, |s|).0.kids == [Constituent("S", []), Constituent("NP", [])]
  {
    assert |s| == 10 && s[0] == '(' && s[1] == 'S' && s[2] == ' ' && s[3] == '(' && s[4] == 'N' && s[5] == 'P' && s[6] == ' ' && s[7] == 'b' && s[8] == ' ';
    var p4 := AfterS.(endOfType := false);
    var p5 := p4.(typeBuilder := "N");
    var p6 := p4.(typeBuilder := "NP");
    var p7 := p4.(endOfType := true, kids := AfterS.kids + [Constituent("NP", [])], current := Some(1));
    var p8 := p7.(wordBuilder := "b", startOfWord := true);
    FirstChild(s);
    ParsedStep(s, 3, AfterS, p4);
    assert [] + "N" == "N";
    ParsedStep(s, 4, p4, p5);
    assert "N" + "P" == "NP";
    ParsedStep(s, 5, p5, p6);
    TrimS();
    ParsedStep(s, 6, p6, p7);
    assert [] + "b" == "b";
    ParsedStep(s, 7, p7, p8);
    ParsedNext(s, 8);
    assert Step(p8, ' ') == Throw(IndexOutOfBounds);
    ParsedStuck(s, 9, 10);
  }

  /** The type builder loses as many characters from its front as the
      trimmed type has, so a control character before the type leaves the
      type's last letter behind: `\tNP` creates NP and keeps `P`. */
  lemma TypeBuilderLeftover(p: Parser)
    requires p.leftBracket && !p.endOfType && p.typeBuilder == "\tNP"
    ensures Step(p, ' ').Ok?
    ensures Step(p, ' ').value.kids == p.kids + [Constituent("NP", [])]
    ensures Step(p, ' ').value.typeBuilder == "P"
  {
    var b := p.typeBuilder;
    assert TrimStart(b, 0) == 1 by {
      assert b[0] <= ' ' && b[1] > ' ';
    }
    assert TrimEnd(b, 1, 3) == 3;
    assert b[1..3] == "NP";
  }
}
