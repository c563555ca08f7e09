/** The tree built by ConstituentStructure.main (lines 532-541): S with the
    children NP and VP, rendered as four rows. */
module ConstituentScenario {
  import opened Outcomes
  import opened ConstituentForest
  import opened ConstituentLayout
  import opened LayoutCorrectness
  import opened ConstituentStructure
  import opened ConstituentStructureProperties

  /** The arena after the first five statements of main. */
  ghost predicate ScenarioNodes(f: Forest)
  {
    f.nodes == [Node("S", [], "(S)", 0, [1, 2], 2, None, 0, 0),
                Node("NP", [], "(NP)", 0, [], 0, Some(0), 1, 1),
                Node("VP", [], "(VP)", 0, [], 0, Some(0), 2, 2)]
  }

  /** S on row 0 at column 0; NP and VP on row 3, VP after the 4 columns NP reports. */
  lemma ScenarioPreorder(f: Forest)
    requires Wf(f) && ScenarioNodes(f)
    ensures Preorder(f, 0, 0, 0) == [Visit(0, 0, 0, "(S)", 0, 2), Visit(1, 3, 0, "(NP)", 1, 0), Visit(2, 3, 4, "(VP)", 2, 0)]
  {
    var np := Visit(1, 3, 0, "(NP)", 1, 0);
    var vp := Visit(2, 3, 4, "(VP)", 2, 0);
    assert Width(f, 1) == 4;
    assert KidVisits(f, 0, 2, 3, 4) == [];
    assert Preorder(f, 2, 3, 4) == [vp];
    assert KidVisits(f, 0, 1, 3, 4) == [vp];
    assert Preorder(f, 1, 3, 0) == [np];
    assert KidVisits(f, 0, 0, 3, 0) == [np, vp];
  }

  /** S and its staircase of two and one bars. */
  lemma DrawS()
    ensures Draw([], Visit(0, 0, 0, "(S)", 0, 2)) == Ok(["(S)", "||", "|"])
  {
    assert "" + "(S)" == "(S)";
    assert EnsureRows([], 1) == [""];
    assert Pad("", 0, ' ') == "";
    assert Bars(2) == "||" && Bars(1) == "|";
    assert Stairs(["(S)"], 0, 1, 2) == ["(S)", "||", "|"];
    assert [""][0 := Pad([""][0], 0, ' ') + "(S)"] == ["(S)"];
  }

  /** NP, the first child, on a fresh row 3 with no connector. */
  lemma DrawNP()
    ensures Draw(["(S)", "||", "|"], Visit(1, 3, 0, "(NP)", 1, 0)) == Ok(["(S)", "||", "|", "(NP)"])
  {
    var r1 := ["(S)", "||", "|"];
    assert "" + "(NP)" == "(NP)";
    assert Pad("", 0, ' ') == "";
    assert EnsureRows(r1, 4) == r1 + [""];
    assert (r1 + [""])[3 := Pad((r1 + [""])[3], 0, ' ') + "(NP)"] == ["(S)", "||", "|", "(NP)"];
  }

  /** VP, the second child, at column 4 with the shelf on row 1. */
  lemma DrawVP()
    ensures Draw(["(S)", "||", "|", "(NP)"], Visit(2, 3, 4, "(VP)", 2, 0)) == Ok(["(S)", "||--|", "|   |", "(NP)(VP)"])
  {
    var r2 := ["(S)", "||", "|", "(NP)"];
    var r3 := ["(S)", "||--|", "|   |", "(NP)(VP)"];
    assert "(NP)" + "(VP)" == "(NP)(VP)" && "||--" + "|" == "||--|" && "|   " + "|" == "|   |";
    assert Pad("(NP)", 4, ' ') == "(NP)";
    assert Pad("||", 4, '-') == "||--";
    assert Pad("||--", 4, ' ') == "||--";
    assert Pad("|", 4, ' ') == "|   ";
    var shelf := ["(S)", "||", "|", "(NP)(VP)"];
    var a := ["(S)", "||--", "|", "(NP)(VP)"];
    var b := ["(S)", "||--|", "|", "(NP)(VP)"];
    assert shelf[1 := Pad(shelf[1], 4, '-')] == a;
    assert a[1 := Pad(a[1], 4, ' ') + "|"] == b;
    assert b[2 := Pad(b[2], 4, ' ') + "|"] == r3;
    assert VerticalBars(r3, 3, 3, 4) == r3;
    assert VerticalBars(b, 2, 3, 4) == r3;
    assert VerticalBars(a, 1, 3, 4) == r3;
    assert Connect(shelf, 3, 2, 4) == Ok(r3);
    assert EnsureRows(r2, 4) == r2;
    assert r2[3 := Pad(r2[3], 4, ' ') + "(VP)"] == shelf;
  }

  lemma ScenarioRows()
    ensures DrawAll([], [Visit(0, 0, 0, "(S)", 0, 2), Visit(1, 3, 0, "(NP)", 1, 0), Visit(2, 3, 4, "(VP)", 2, 0)])
            == Ok(["(S)", "||--|", "|   |", "(NP)(VP)"])
  {
    DrawS();
    DrawNP();
    DrawVP();
    var vs := [Visit(0, 0, 0, "(S)", 0, 2), Visit(1, 3, 0, "(NP)", 1, 0), Visit(2, 3, 4, "(VP)", 2, 0)];
    assert vs[1..] == [vs[1], vs[2]] && vs[1..][1..] == [vs[2]] && [vs[2]][1..] == [];
  }

  lemma ScenarioJoin()
    ensures Join(["(S)", "||--|", "|   |", "(NP)(VP)"]) == "(S)\n||--|\n|   |\n(NP)(VP)"
  {
    var r := ["(S)", "||--|", "|   |", "(NP)(VP)"];
    assert r[..1] == ["(S)"] && r[..2] == ["(S)", "||--|"] && r[..3] == ["(S)", "||--|", "|   |"];
    assert r[..3][..2] == r[..2] && r[..2][..1] == r[..1];
    assert Join(r[..1]) == "(S)";
    assert Join(r[..2]) == "(S)" + "\n" + "||--|";
    assert Join(r[..3]) == "(S)" + "\n" + "||--|" + "\n" + "|   |";
  }

  /** The diagram of S in the scenario arena. */
  lemma ScenarioDiagram(f: Forest)
    requires Wf(f) && ScenarioNodes(f)
    ensures Diagram(f, 0) == Ok("(S)\n||--|\n|   |\n(NP)(VP)")
  {
    ScenarioPreorder(f);
    ScenarioRows();
    ScenarioJoin();
  }

  /** Re-rendering S in the scenario arena throws nothing and caches its diagram. */
  lemma ScenarioRefresh(f: Forest, reps: seq<string>)
    requires Wf(f) && ScenarioNodes(f) && |reps| == 3
    ensures Refreshed(f, reps, 0).0.None? && Refreshed(f, reps, 0).1[0] == "(S)\n||--|\n|   |\n(NP)(VP)"
  {
    RefreshedOk(f, reps, 0);
    assert forall y | 0 <= y < |f.nodes| && AncOrSelf(f, y, 0) :: y == 0;
    RefreshedOnPath(f, reps, 0, 0);
    ScenarioDiagram(f);
  }

  /** The first three statements of main: three parentless nodes. */
  method NewNodes() returns (a: Arena)
    ensures fresh(a) && a.Valid()
    ensures a.nodes == [Node("S", [], "(S)", 0, [], 0, None, 0, 0),
                        Node("NP", [], "(NP)", 0, [], 0, None, 0, 1),
                        Node("VP", [], "(VP)", 0, [], 0, None, 0, 2)]
  {
    a := new Arena();
    var root := a.New("S");
    var rC1 := a.New("NP");
    var rC2 := a.New("VP");
    assert "(" + "S" + ")" == "(S)" && "(" + "NP" + ")" == "(NP)" && "(" + "VP" + ")" == "(VP)";
  }

  /** The statements of main up to the first println (lines 532-541). */
  method BuildTree() returns (a: Arena)
    ensures fresh(a) && a.Valid() && ScenarioNodes(a.Snapshot())
  {
    a := NewNodes();
    assert [] + [1] == [1] && [1] + [2] == [1, 2];
    var _ := a.AddChild(0, 1);
    assert a.nodes == [Node("S", [], "(S)", 0, [1], 1, None, 0, 0),
                       Node("NP", [], "(NP)", 0, [], 0, Some(0), 1, 1),
                       Node("VP", [], "(VP)", 0, [], 0, None, 0, 2)];
    assert !AncOrSelf(a.Snapshot(), 2, 0);
    var _ := a.AddChild(0, 2);
  }

  /** The text printed by the first println of main (lines 539-541): the
      four rows (S), ||--|, |   |, (NP)(VP). */
  method Scenario() returns (text: string)
    ensures text == "(S)\n||--|\n|   |\n(NP)(VP)"
  {
    var a := BuildTree();
    ghost var before := a.reps;
    var thrown := a.ChangeStringRep(0);
    ScenarioRefresh(a.Snapshot(), before);
    text := a.ToString(0);
  }
}
