/** The first prototype of the validator (main.swift at the repository
    root). Colours are only compared for equality, so the colour type is a
    parameter; unlike the later variants it accepts any proper colouring with
    at most three colours. */
module Prototype {

  import opened Graphs

  /** `isThreeColored` of the prototype: false on a neighbour of equal colour,
      false on more than three distinct colours, true otherwise. */
  method IsAtMostThreeColored<C(==)>(g: Graph<C>) returns (b: bool)
    requires EdgesClosed(g)
    ensures b <==> NoClash(g) && |ColorsUsed(g)| <= 3
  {
    var clashFree, seen := ScanColors(g);
    if !clashFree {
      return false;
    }
    NoDupCard(seen);
    b := |seen| <= 3;
  }

  /** The prototype accepts graphs the later variants reject: the empty graph
      and a lone vertex use fewer than three colours, yet are accepted. */
  lemma FewerColorsAccepted<C>(c: C)
    ensures var empty: Graph<C> := map[];
            EdgesClosed(empty) && NoClash(empty) && |ColorsUsed(empty)| <= 3 && !ThreeColored(empty)
    ensures var lone: Graph<C> := map[0 := Vertex(c, [])];
            EdgesClosed(lone) && NoClash(lone) && |ColorsUsed(lone)| <= 3 && !ThreeColored(lone)
  {
    var lone: Graph<C> := map[0 := Vertex(c, [])];
    assert 0 in lone && lone[0].color == c;
    assert c in ColorsUsed(lone);
    forall x | x in ColorsUsed(lone) ensures x == c {
      var v :| v in lone && lone[v].color == x;
    }
    assert ColorsUsed(lone) == {c};
  }

}
