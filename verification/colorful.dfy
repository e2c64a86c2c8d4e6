/** The palette, the colour permutations, the validator and the relabelling
    of the zero-knowledge demo script (Sources/Colorful/main.swift). */
module Colorful {

  import opened Options
  import opened Graphs

  /** An unsigned 8-bit value. */
  newtype byte = x: int | 0 <= x < 256

  /** The three colours; each carries a one-byte raw value. */
  datatype Colors = First | Second | Third {

    function Raw(): byte {
      match this
      case First => 0
      case Second => 1
      case Third => 2
    }
  }

  const AllColors: set<Colors> := {First, Second, Third}

  /** The failable initialiser from a raw value. */
  function FromRaw(b: byte): (r: Option<Colors>)
    ensures r.Some? <==> b < 3
    ensures r.Some? ==> r.value.Raw() == b
  {
    if b == 0 then Some(First)
    else if b == 1 then Some(Second)
    else if b == 2 then Some(Third)
    else None
  }

  /** Decoding a colour's raw value gives the colour back. */
  lemma FromRawInvertsRaw(c: Colors)
    ensures FromRaw(c.Raw()) == Some(c)
  {
  }

  /** Every set of colours lies inside the palette, so one with three
      members is the whole palette. */
  lemma ThreeOfThree(s: set<Colors>)
    requires |s| == 3
    ensures s == AllColors
  {
    forall c: Colors ensures c in s {
      if c !in s {
        var rest := AllColors - {c};
        forall x | x in s ensures x in rest {
          assert x != c && (x.First? || x.Second? || x.Third?);
        }
        assert |rest| == 2 by {
          if c == First {
            assert rest == {Second, Third};
          } else if c == Second {
            assert rest == {First, Third};
          } else {
            assert rest == {First, Second};
          }
        }
        SubsetCard(s, rest);
        assert false;
      }
    }
    forall c | c in s ensures c in AllColors {
      assert c.First? || c.Second? || c.Third?;
    }
  }

  /** The map sending First, Second and Third to the three listed colours. */
  function MakeColorMap(colors: seq<Colors>): map<Colors, Colors>
    requires |colors| >= 3
  {
    map[First := colors[0], Second := colors[1], Third := colors[2]]
  }

  /** A bijection of the palette. */
  predicate IsPermutation(m: map<Colors, Colors>) {
    m.Keys == AllColors && InjectiveOn(m, AllColors)
  }

  /** `makeColorMap` gives a bijection of the palette exactly when the three
      listed colours are distinct. */
  lemma MakeColorMapBijective(colors: seq<Colors>)
    requires |colors| >= 3
    ensures MakeColorMap(colors).Keys == AllColors
    ensures IsPermutation(MakeColorMap(colors)) <==> colors[0] != colors[1] && colors[1] != colors[2] && colors[0] != colors[2]
  {
    var m := MakeColorMap(colors);
    if colors[0] != colors[1] && colors[1] != colors[2] && colors[0] != colors[2] {
      forall x, y | x in AllColors && y in AllColors && m[x] == m[y] ensures x == y {
        assert x.First? || x.Second? || x.Third?;
        assert y.First? || y.Second? || y.Third?;
      }
    }
  }

  const Permutations: seq<map<Colors, Colors>> := [
    MakeColorMap([First, Second, Third]),
    MakeColorMap([First, Third, Second]),
    MakeColorMap([Second, First, Third]),
    MakeColorMap([Second, Third, First]),
    MakeColorMap([Third, First, Second]),
    MakeColorMap([Third, Second, First])
  ]

  /** Every bijection of the palette is one of the six maps of the table. */
  lemma PermutationsComplete(m: map<Colors, Colors>)
    requires IsPermutation(m)
    ensures m in Permutations
  {
    var row := [m[First], m[Second], m[Third]];
    assert m == MakeColorMap(row);
    assert row[0] != row[1] && row[1] != row[2] && row[0] != row[2];
    assert row in [
      [First, Second, Third], [First, Third, Second], [Second, First, Third],
      [Second, Third, First], [Third, First, Second], [Third, Second, First]];
  }

  /** Each map of the table is a bijection of the palette. */
  lemma PermutationIsBijection(i: int)
    requires 0 <= i < |Permutations|
    ensures IsPermutation(Permutations[i])
  {
  }

  /** Two entries of the table differ on some colour. */
  lemma PermutationsDiffer(i: int, j: int)
    requires 0 <= i < j < |Permutations|
    ensures Permutations[i] != Permutations[j]
  {
    var c :| c in AllColors && Permutations[i][c] != Permutations[j][c];
  }

  /** The six maps are pairwise distinct bijections of the palette, and every
      bijection of the palette is one of them. */
  lemma PermutationsAreAllBijections()
    ensures |Permutations| == 6
    ensures forall i :: 0 <= i < |Permutations| ==> IsPermutation(Permutations[i])
    ensures forall i, j :: 0 <= i < j < |Permutations| ==> Permutations[i] != Permutations[j]
    ensures forall m :: IsPermutation(m) ==> m in Permutations
  {
    forall i | 0 <= i < |Permutations| ensures IsPermutation(Permutations[i]) {
      PermutationIsBijection(i);
    }
    forall i, j | 0 <= i < j < |Permutations| ensures Permutations[i] != Permutations[j] {
      PermutationsDiffer(i, j);
    }
    forall m | IsPermutation(m) ensures m in Permutations {
      PermutationsComplete(m);
    }
  }

  /** `h` is `g` with every colour `c` replaced by `m[c]`: same ids, same
      adjacency lists. */
  predicate Relabels(g: Graph<Colors>, h: Graph<Colors>, m: map<Colors, Colors>) {
    && h.Keys == g.Keys
    && forall v :: v in g ==> g[v].color in m && h[v] == Vertex(m[g[v].color], g[v].edges)
  }

  /** Every colour lies in the palette. */
  lemma UsedInPalette(g: Graph<Colors>)
    ensures ColorsUsed(g) <= AllColors
  {
    forall c | c in ColorsUsed(g) ensures c in AllColors {
      assert c.First? || c.Second? || c.Third?;
    }
  }

  /** Each copy recoloured through the table relabels the graph. */
  lemma CopiesRelabel(g: Graph<Colors>, r: seq<Graph<Colors>>)
    requires |r| == |Permutations|
    requires forall i :: 0 <= i < |r| ==> ColorsUsed(g) <= Permutations[i].Keys && r[i] == Recolor(g, Permutations[i])
    ensures forall i :: 0 <= i < |r| ==> Relabels(g, r[i], Permutations[i])
  {
    forall i | 0 <= i < |r| ensures Relabels(g, r[i], Permutations[i]) {
      forall v | v in g ensures g[v].color in Permutations[i] {
        assert g[v].color in ColorsUsed(g);
      }
    }
  }

  /** Each copy of a three-coloured graph is three-coloured. */
  lemma CopiesThreeColored(g: Graph<Colors>, r: seq<Graph<Colors>>)
    requires EdgesClosed(g) && ThreeColored(g)
    requires |r| == |Permutations|
    requires forall i :: 0 <= i < |r| ==> ColorsUsed(g) <= Permutations[i].Keys && r[i] == Recolor(g, Permutations[i])
    ensures forall i :: 0 <= i < |r| ==> EdgesClosed(r[i]) && ThreeColored(r[i])
  {
    PermutationsAreAllBijections();
    forall i | 0 <= i < |r| ensures EdgesClosed(r[i]) && ThreeColored(r[i]) {
      assert IsPermutation(Permutations[i]);
      RecolorKeepsThreeColored(g, Permutations[i]);
    }
  }

  /** Two different maps on the palette disagree on some colour. */
  lemma MapsDiffer(m1: map<Colors, Colors>, m2: map<Colors, Colors>)
    requires m1.Keys == AllColors && m2.Keys == AllColors && m1 != m2
    ensures exists c :: c in AllColors && m1[c] != m2[c]
  {
    if forall c :: c in AllColors ==> m1[c] == m2[c] {
      assert false;
    }
  }

  /** The copies of a graph that uses every colour are pairwise distinct. */
  lemma CopiesDistinct(g: Graph<Colors>, r: seq<Graph<Colors>>)
    requires |ColorsUsed(g)| == 3
    requires |r| == |Permutations|
    requires forall i :: 0 <= i < |r| ==> ColorsUsed(g) <= Permutations[i].Keys && r[i] == Recolor(g, Permutations[i])
    ensures forall i, j :: 0 <= i < j < |r| ==> r[i] != r[j]
  {
    PermutationsAreAllBijections();
    ThreeOfThree(ColorsUsed(g));
    forall i, j | 0 <= i < j < |r| ensures r[i] != r[j] {
      MapsDiffer(Permutations[i], Permutations[j]);
      var c :| c in AllColors && Permutations[i][c] != Permutations[j][c];
      RecolorSeparates(g, Permutations[i], Permutations[j], c);
    }
  }

  /** `threeColorPermutations`: nothing for a graph that is not three-coloured,
      otherwise one relabelled copy per permutation, in table order. */
  method ThreeColorPermutations(g: Graph<Colors>) returns (r: seq<Graph<Colors>>)
    requires EdgesClosed(g)
    ensures !ThreeColored(g) ==> r == []
    ensures ThreeColored(g) ==> |r| == 6
    ensures forall i :: 0 <= i < |r| ==> i < |Permutations| && Relabels(g, r[i], Permutations[i])
    ensures forall i :: 0 <= i < |r| ==> EdgesClosed(r[i]) && ThreeColored(r[i])
    ensures forall i, j :: 0 <= i < j < |r| ==> r[i] != r[j]
  {
    var ok := IsThreeColored(g);
    if !ok {
      return [];
    }
    UsedInPalette(g);
    r := [];
    for k := 0 to |Permutations|
      invariant |r| == k
      invariant forall i :: 0 <= i < k ==> ColorsUsed(g) <= Permutations[i].Keys && r[i] == Recolor(g, Permutations[i])
    {
      r := r + [Recolor(g, Permutations[k])];
    }
    CopiesRelabel(g, r);
    CopiesThreeColored(g, r);
    CopiesDistinct(g, r);
  }

  /** The named example graphs with the verdict the script expects. */
  const Triangle: Graph<Colors> := map[
    1 := Vertex(First, [2, 3]),
    2 := Vertex(Second, [1, 3]),
    3 := Vertex(Third, [1, 2])]

  const Diamond: Graph<Colors> := map[
    1 := Vertex(First, [2, 3, 4]),
    2 := Vertex(Second, [1, 3]),
    3 := Vertex(Third, [1, 2, 4]),
    4 := Vertex(Second, [1, 3])]

  const TetrahedronWithDoubleRed: Graph<Colors> := map[
    1 := Vertex(First, [2, 3, 4]),
    2 := Vertex(Second, [1, 3, 4]),
    3 := Vertex(Third, [1, 2, 4]),
    4 := Vertex(First, [1, 2, 3])]

  const Pentastar: Graph<Colors> := map[
    1 := Vertex(First, [6, 7]),
    2 := Vertex(Second, [7, 8]),
    3 := Vertex(Third, [8, 9]),
    4 := Vertex(First, [9, 10]),
    5 := Vertex(First, [6, 10]),
    6 := Vertex(Second, [1, 5, 7, 10]),
    7 := Vertex(Third, [1, 2, 6, 8]),
    8 := Vertex(First, [2, 3, 7, 9]),
    9 := Vertex(Second, [3, 4, 8, 10]),
    10 := Vertex(Third, [4, 5, 6, 9])]

  const TestGraphs: map<string, (Graph<Colors>, bool)> := map[
    "triangle" := (Triangle, true),
    "diamond" := (Diamond, true),
    "tetrahedronWithDoubleRed" := (TetrahedronWithDoubleRed, false),
    "pentastar" := (Pentastar, true)]

  /** A graph in which all three colours occur uses exactly three colours. */
  lemma AllThreeOccur(g: Graph<Colors>, a: int, b: int, c: int)
    requires a in g && b in g && c in g
    requires g[a].color == First && g[b].color == Second && g[c].color == Third
    ensures |ColorsUsed(g)| == 3
  {
    UsedInPalette(g);
    assert ColorsUsed(g) == AllColors;
  }

  lemma TriangleIsThreeColored()
    ensures EdgesClosed(Triangle) && ThreeColored(Triangle)
  {
    AllThreeOccur(Triangle, 1, 2, 3);
  }

  lemma DiamondIsThreeColored()
    ensures EdgesClosed(Diamond) && ThreeColored(Diamond)
  {
    AllThreeOccur(Diamond, 1, 2, 3);
  }

  /** The outer five vertices of the pentastar have no same-coloured edge. */
  lemma PentastarOuterProper()
    ensures ProperAt(Pentastar, 1) && ProperAt(Pentastar, 2) && ProperAt(Pentastar, 3)
    ensures ProperAt(Pentastar, 4) && ProperAt(Pentastar, 5)
  {
  }

  /** The inner five vertices of the pentastar have no same-coloured edge. */
  lemma PentastarInnerProper()
    ensures ProperAt(Pentastar, 6) && ProperAt(Pentastar, 7) && ProperAt(Pentastar, 8)
    ensures ProperAt(Pentastar, 9) && ProperAt(Pentastar, 10)
  {
  }

  /** The pentastar has no same-coloured edge. */
  lemma PentastarIsProper()
    ensures EdgesClosed(Pentastar) && NoClash(Pentastar)
  {
    PentastarOuterProper();
    PentastarInnerProper();
    assert Pentastar.Keys == {1, 2, 3, 4, 5, 6, 7, 8, 9, 10};
    ProperEverywhere(Pentastar);
  }

  lemma PentastarIsThreeColored()
    ensures EdgesClosed(Pentastar) && ThreeColored(Pentastar)
  {
    PentastarIsProper();
    AllThreeOccur(Pentastar, 1, 2, 3);
  }

  lemma TetrahedronIsNotThreeColored()
    ensures EdgesClosed(TetrahedronWithDoubleRed) && !ThreeColored(TetrahedronWithDoubleRed)
  {
    assert TetrahedronWithDoubleRed[1].edges[2] == 4;
  }

  /** Each example graph is well formed and gets the verdict the script
      expects of `isThreeColored`. */
  lemma TestGraphsMeetExpectations()
    ensures forall name :: name in TestGraphs ==>
              EdgesClosed(TestGraphs[name].0) && ThreeColored(TestGraphs[name].0) == TestGraphs[name].1
  {
    TriangleIsThreeColored();
    DiamondIsThreeColored();
    PentastarIsThreeColored();
    TetrahedronIsNotThreeColored();
  }

}
