/** The command-line variant of the validator and the relabelling
    (ColorfulCLI/main.swift): its own palette and a six-row permutation table
    read through a `switch` on the colour. */
module ColorfulCli {

  import opened Graphs

  datatype Colors = Red | Grn | Blu

  const AllColors: set<Colors> := {Red, Grn, Blu}

  /** The permutation table: row `k` says what red, green and blue become. */
  const Rows: seq<seq<Colors>> := [
    [Red, Grn, Blu],
    [Red, Blu, Grn],
    [Grn, Red, Blu],
    [Grn, Blu, Red],
    [Blu, Red, Grn],
    [Blu, Grn, Red]
  ]

  /** The `switch` of the relabelling loop: red, green and blue become
      `row[0]`, `row[1]` and `row[2]`. */
  function Substitute(row: seq<Colors>, c: Colors): Colors
    requires |row| >= 3
  {
    match c
    case Red => row[0]
    case Grn => row[1]
    case Blu => row[2]
  }

  /** The same substitution as a map over the palette. */
  function RowMap(row: seq<Colors>): map<Colors, Colors>
    requires |row| >= 3
  {
    map c | c in AllColors :: Substitute(row, c)
  }

  /** A row lists every colour exactly once. */
  predicate IsPermutationRow(row: seq<Colors>) {
    |row| == 3 && NoDup(row) && Elems(row) == AllColors
  }

  /** Every colour lies in the palette. */
  lemma UsedInPalette(g: Graph<Colors>)
    ensures ColorsUsed(g) <= AllColors
  {
    forall c | c in ColorsUsed(g) ensures c in AllColors {
      assert c.Red? || c.Grn? || c.Blu?;
    }
  }

  /** The table holds six pairwise distinct rows, each one lists every colour
      once, the first is the identity, and every ordering of the palette
      occurs in it. */
  lemma RowsAreAllPermutations()
    ensures |Rows| == 6
    ensures Rows[0] == [Red, Grn, Blu]
    ensures forall k :: 0 <= k < |Rows| ==> IsPermutationRow(Rows[k])
    ensures forall i, j :: 0 <= i < j < |Rows| ==> Rows[i] != Rows[j]
    ensures forall row :: IsPermutationRow(row) ==> row in Rows
  {
    forall k | 0 <= k < |Rows| ensures IsPermutationRow(Rows[k]) {
      assert Elems(Rows[k]) == AllColors;
    }
    forall row: seq<Colors> | IsPermutationRow(row) ensures row in Rows {
      assert row == [row[0], row[1], row[2]];
      assert row[0] != row[1] && row[1] != row[2] && row[0] != row[2];
      assert row[0].Red? || row[0].Grn? || row[0].Blu?;
      assert row[1].Red? || row[1].Grn? || row[1].Blu?;
      assert row[2].Red? || row[2].Grn? || row[2].Blu?;
    }
  }

  /** A permutation row substitutes one-to-one. */
  lemma RowMapIsInjective(row: seq<Colors>)
    requires IsPermutationRow(row)
    ensures RowMap(row).Keys == AllColors
    ensures InjectiveOn(RowMap(row), AllColors)
  {
    var m := RowMap(row);
    forall x, y | x in AllColors && y in AllColors && m[x] == m[y] ensures x == y {
      assert row[0] != row[1] && row[1] != row[2] && row[0] != row[2];
    }
  }

  /** `h` is `g` with red, green and blue replaced by `row[0]`, `row[1]` and
      `row[2]`: same ids, same adjacency lists. */
  predicate Relabels(g: Graph<Colors>, h: Graph<Colors>, row: seq<Colors>) {
    && |row| >= 3
    && h.Keys == g.Keys
    && forall v :: v in g ==> h[v] == Vertex(Substitute(row, g[v].color), g[v].edges)
  }

  /** A three-coloured graph uses the whole palette. */
  lemma ThreeOfThree(g: Graph<Colors>)
    requires |ColorsUsed(g)| == 3
    ensures ColorsUsed(g) == AllColors
  {
    UsedInPalette(g);
    var s := ColorsUsed(g);
    forall c: Colors ensures c in s {
      if c !in s {
        var rest := AllColors - {c};
        assert s <= rest;
        assert |rest| == 2 by {
          if c == Red {
            assert rest == {Grn, Blu};
          } else if c == Grn {
            assert rest == {Red, Blu};
          } else {
            assert rest == {Red, Grn};
          }
        }
        SubsetCard(s, rest);
        assert false;
      }
    }
  }

  /** Each copy built from the table relabels the graph by its row. */
  lemma CopiesRelabel(g: Graph<Colors>, r: seq<Graph<Colors>>)
    requires |r| == |Rows|
    requires forall i :: 0 <= i < |r| ==> ColorsUsed(g) <= RowMap(Rows[i]).Keys && r[i] == Recolor(g, RowMap(Rows[i]))
    ensures forall i :: 0 <= i < |r| ==> Relabels(g, r[i], Rows[i])
  {
    forall i | 0 <= i < |r| ensures Relabels(g, r[i], Rows[i]) {
      forall v | v in g ensures r[i][v] == Vertex(Substitute(Rows[i], g[v].color), g[v].edges) {
        assert g[v].color in ColorsUsed(g);
      }
    }
  }

  /** Each copy of a three-coloured graph is three-coloured, and the first
      is the graph itself. */
  lemma CopiesThreeColored(g: Graph<Colors>, r: seq<Graph<Colors>>)
    requires EdgesClosed(g) && ThreeColored(g)
    requires |r| == |Rows|
    requires forall i :: 0 <= i < |r| ==> ColorsUsed(g) <= RowMap(Rows[i]).Keys && r[i] == Recolor(g, RowMap(Rows[i]))
    ensures forall i :: 0 <= i < |r| ==> EdgesClosed(r[i]) && ThreeColored(r[i])
    ensures r[0] == g
  {
    RowsAreAllPermutations();
    ThreeOfThree(g);
    forall i | 0 <= i < |r| ensures EdgesClosed(r[i]) && ThreeColored(r[i]) {
      RowMapIsInjective(Rows[i]);
      RecolorKeepsThreeColored(g, RowMap(Rows[i]));
    }
    RecolorIdentity(g, RowMap(Rows[0]));
  }

  /** The copies of a graph that uses every colour are pairwise distinct. */
  lemma CopiesDistinct(g: Graph<Colors>, r: seq<Graph<Colors>>)
    requires |ColorsUsed(g)| == 3
    requires |r| == |Rows|
    requires forall i :: 0 <= i < |r| ==> ColorsUsed(g) <= RowMap(Rows[i]).Keys && r[i] == Recolor(g, RowMap(Rows[i]))
    ensures forall i, j :: 0 <= i < j < |r| ==> r[i] != r[j]
  {
    RowsAreAllPermutations();
    ThreeOfThree(g);
    forall i, j | 0 <= i < j < |r| ensures r[i] != r[j] {
      assert Rows[i] != Rows[j];
      var k :| 0 <= k < 3 && Rows[i][k] != Rows[j][k];
      var c := if k == 0 then Red else if k == 1 then Grn else Blu;
      RecolorSeparates(g, RowMap(Rows[i]), RowMap(Rows[j]), c);
    }
  }

  /** `threeColorPermutations`: nothing for a graph that is not
      three-coloured, otherwise one relabelled copy per table row, in order. */
  method ThreeColorPermutations(g: Graph<Colors>) returns (r: seq<Graph<Colors>>)
    requires EdgesClosed(g)
    ensures !ThreeColored(g) ==> r == []
    ensures ThreeColored(g) ==> |r| == 6 && r[0] == g
    ensures forall i :: 0 <= i < |r| ==> i < |Rows| && Relabels(g, r[i], Rows[i])
    ensures forall i :: 0 <= i < |r| ==> EdgesClosed(r[i]) && ThreeColored(r[i])
    ensures forall i, j :: 0 <= i < j < |r| ==> r[i] != r[j]
  {
    var ok := IsThreeColored(g);
    if !ok {
      return [];
    }
    UsedInPalette(g);
    r := [];
    for k := 0 to |Rows|
      invariant |r| == k
      invariant forall i :: 0 <= i < k ==> ColorsUsed(g) <= RowMap(Rows[i]).Keys && r[i] == Recolor(g, RowMap(Rows[i]))
    {
      r := r + [Recolor(g, RowMap(Rows[k]))];
    }
    CopiesRelabel(g, r);
    CopiesThreeColored(g, r);
    CopiesDistinct(g, r);
  }

  /** The named example graphs with the verdict the script expects. */
  const Triangle: Graph<Colors> := map[
    1 := Vertex(Grn, [2, 3]),
    2 := Vertex(Blu, [1, 3]),
    3 := Vertex(Red, [1, 2])]

  const Diamond: Graph<Colors> := map[
    1 := Vertex(Blu, [2, 3, 4]),
    2 := Vertex(Red, [1, 3]),
    3 := Vertex(Grn, [1, 2, 4]),
    4 := Vertex(Red, [1, 3])]

  const TetrahedronWithDoubleRed: Graph<Colors> := map[
    1 := Vertex(Blu, [2, 3, 4]),
    2 := Vertex(Red, [1, 3, 4]),
    3 := Vertex(Grn, [1, 2, 4]),
    4 := Vertex(Red, [1, 2, 3])]

  const Pentastar: Graph<Colors> := map[
    1 := Vertex(Blu, [6, 7]),
    2 := Vertex(Red, [7, 8]),
    3 := Vertex(Grn, [8, 9]),
    4 := Vertex(Blu, [9, 10]),
    5 := Vertex(Blu, [6, 10]),
    6 := Vertex(Red, [1, 5, 7, 10]),
    7 := Vertex(Grn, [1, 2, 6, 8]),
    8 := Vertex(Blu, [2, 3, 7, 9]),
    9 := Vertex(Red, [3, 4, 8, 10]),
    10 := Vertex(Grn, [4, 5, 6, 9])]

  const TestGraphs: map<string, (Graph<Colors>, bool)> := map[
    "triangle" := (Triangle, true),
    "diamond" := (Diamond, true),
    "tetrahedronWithDoubleRed" := (TetrahedronWithDoubleRed, false),
    "pentastar" := (Pentastar, true)]

  /** A graph in which all three colours occur uses exactly three colours. */
  lemma AllThreeOccur(g: Graph<Colors>, a: int, b: int, c: int)
    requires a in g && b in g && c in g
    requires g[a].color == Red && g[b].color == Grn && g[c].color == Blu
    ensures |ColorsUsed(g)| == 3
  {
    UsedInPalette(g);
    assert ColorsUsed(g) == AllColors;
  }

  lemma TriangleIsThreeColored()
    ensures EdgesClosed(Triangle) && ThreeColored(Triangle)
  {
    AllThreeOccur(Triangle, 3, 1, 2);
  }

  lemma DiamondIsThreeColored()
    ensures EdgesClosed(Diamond) && ThreeColored(Diamond)
  {
    AllThreeOccur(Diamond, 2, 3, 1);
  }

  /** The outer five vertices of the pentastar have no same-coloured edge. */
  lemma PentastarOuterProper()
    ensures ProperAt(Pentastar, 1) && ProperAt(Pentastar, 2) && ProperAt(Pentastar, 3)
    ensures ProperAt(Pentastar, 4) && ProperAt(Pentastar, 5)
  {
  }

  /** The inner five vertices of the pentastar have no same-coloured edge. */
  lemma PentastarInnerProper()
    ensures ProperAt(Pentastar, 6) && ProperAt(Pentastar, 7) && ProperAt(Pentastar, 8)
    ensures ProperAt(Pentastar, 9) && ProperAt(Pentastar, 10)
  {
  }

  /** The pentastar has no same-coloured edge. */
  lemma PentastarIsProper()
    ensures EdgesClosed(Pentastar) && NoClash(Pentastar)
  {
    PentastarOuterProper();
    PentastarInnerProper();
    assert Pentastar.Keys == {1, 2, 3, 4, 5, 6, 7, 8, 9, 10};
    ProperEverywhere(Pentastar);
  }

  lemma PentastarIsThreeColored()
    ensures EdgesClosed(Pentastar) && ThreeColored(Pentastar)
  {
    PentastarIsProper();
    AllThreeOccur(Pentastar, 2, 3, 1);
  }

  lemma TetrahedronIsNotThreeColored()
    ensures EdgesClosed(TetrahedronWithDoubleRed) && !ThreeColored(TetrahedronWithDoubleRed)
  {
    assert TetrahedronWithDoubleRed[2].edges[2] == 4;
  }

  /** Each example graph is well formed and gets the verdict the script
      expects of `isThreeColored`. */
  lemma TestGraphsMeetExpectations()
    ensures forall name :: name in TestGraphs ==>
              EdgesClosed(TestGraphs[name].0) && ThreeColored(TestGraphs[name].0) == TestGraphs[name].1
  {
    TriangleIsThreeColored();
    DiamondIsThreeColored();
    PentastarIsThreeColored();
    TetrahedronIsNotThreeColored();
  }

}
