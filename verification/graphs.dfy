/** Coloured graphs as the scripts represent them: a dictionary from vertex id
    to a pair of a colour and an ordered adjacency list. The colour type is a
    parameter, so one definition serves the three palettes of the scripts. */
module Graphs {

  datatype Vertex<C> = Vertex(color: C, edges: seq<int>)

  type Graph<C> = map<int, Vertex<C>>

  /** Every listed neighbour is itself a vertex of the graph. The validators
      force-unwrap the lookup of each neighbour, so this is what they demand. */
  predicate EdgesClosed<C>(g: Graph<C>) {
    forall v, i :: v in g && 0 <= i < |g[v].edges| ==> g[v].edges[i] in g
  }

  /** No vertex lists a neighbour that carries its own colour. */
  predicate NoClash<C(==)>(g: Graph<C>)
    requires EdgesClosed(g)
  {
    forall v, i :: v in g && 0 <= i < |g[v].edges| ==> g[g[v].edges[i]].color != g[v].color
  }

  /** Every neighbour `v` lists is a vertex and has another colour. */
  predicate ProperAt<C(==)>(g: Graph<C>, v: int)
    requires v in g
  {
    forall i :: 0 <= i < |g[v].edges| ==> g[v].edges[i] in g && g[g[v].edges[i]].color != g[v].color
  }

  /** A colouring that is proper at every vertex is well formed and proper. */
  lemma ProperEverywhere<C>(g: Graph<C>)
    requires forall v :: v in g ==> ProperAt(g, v)
    ensures EdgesClosed(g) && NoClash(g)
  {
  }

  /** The set of colours that occur on some vertex. */
  function ColorsUsed<C>(g: Graph<C>): set<C> {
    set v | v in g :: g[v].color
  }

  /** The reference meaning of `isThreeColored`: a proper colouring that uses
      exactly three distinct colours. */
  predicate ThreeColored<C(==)>(g: Graph<C>)
    requires EdgesClosed(g)
  {
    NoClash(g) && |ColorsUsed(g)| == 3
  }

  predicate NoDup<T(==)>(s: seq<T>) {
    forall i, j :: 0 <= i < j < |s| ==> s[i] != s[j]
  }

  function Elems<T>(s: seq<T>): set<T> {
    set x | x in s
  }

  /** A duplicate-free list has as many elements as its set of elements. */
  lemma {:induction false} NoDupCard<T>(s: seq<T>)
    requires NoDup(s)
    ensures |Elems(s)| == |s|
  {
    if s != [] {
      var t := s[..|s| - 1];
      var x := s[|s| - 1];
      assert NoDup(t);
      NoDupCard(t);
      assert Elems(s) == Elems(t) + {x} by {
        assert s == t + [x];
      }
    }
  }

  /** A non-empty set has an element (stated separately so that choosing an
      element of a non-empty set has an explicit witness). */
  lemma NonEmptyHasElement(s: set<int>)
    requires s != {}
    ensures exists x :: x in s
  {
    if forall x :: x !in s {
      assert false;
    }
  }

  /** The colours of the vertices outside `todo`. */
  function ColorsOutside<C>(g: Graph<C>, todo: set<int>): set<C> {
    set u | u in g && u !in todo :: g[u].color
  }

  /** The inner loop of the validators: does vertex `v` list a neighbour of
      its own colour? */
  method NeighbourClash<C(==)>(g: Graph<C>, v: int) returns (clash: bool)
    requires EdgesClosed(g) && v in g
    ensures clash <==> exists i :: 0 <= i < |g[v].edges| && g[g[v].edges[i]].color == g[v].color
  {
    var edges := g[v].edges;
    for i := 0 to |edges|
      invariant forall k :: 0 <= k < i ==> g[edges[k]].color != g[v].color
    {
      if g[edges[i]].color == g[v].color {
        return true;
      }
    }
    return false;
  }

  /** A subset is no larger than the set that contains it. */
  lemma {:induction false} SubsetCard<T>(s: set<T>, t: set<T>)
    requires s <= t
    ensures |s| <= |t|
  {
    if s != {} {
      var x :| x in s;
      SubsetCard(s - {x}, t - {x});
    }
  }

  /** The loop shared by the validators: it walks the vertices in any order,
      records each colour the first time it is seen (a list with a
      `contains` test), and stops at the first neighbour of equal colour. */
  method ScanColors<C(==)>(g: Graph<C>) returns (clashFree: bool, seen: seq<C>)
    requires EdgesClosed(g)
    ensures clashFree <==> NoClash(g)
    ensures clashFree ==> NoDup(seen) && Elems(seen) == ColorsUsed(g)
  {
    seen := [];
    var todo := g.Keys;
    while todo != {}
      invariant todo <= g.Keys
      invariant NoDup(seen)
      invariant Elems(seen) == ColorsOutside(g, todo)
      invariant forall u, i :: u in g && u !in todo && 0 <= i < |g[u].edges| ==> g[g[u].edges[i]].color != g[u].color
      decreases todo
    {
      NonEmptyHasElement(todo);
      var v :| v in todo;
      var color := g[v].color;
      if color !in seen {
        seen := seen + [color];
      }
      var clash := NeighbourClash(g, v);
      if clash {
        return false, seen;
      }
      assert ColorsOutside(g, todo - {v}) == ColorsOutside(g, todo) + {color};
      todo := todo - {v};
    }
    assert ColorsOutside(g, {}) == ColorsUsed(g);
    clashFree := true;
  }

  /** `isThreeColored`: no vertex lists a neighbour of its own colour and
      exactly three distinct colours occur. */
  method IsThreeColored<C(==)>(g: Graph<C>) returns (b: bool)
    requires EdgesClosed(g)
    ensures b <==> NoClash(g) && |ColorsUsed(g)| == 3
  {
    var clashFree, seen := ScanColors(g);
    if !clashFree {
      return false;
    }
    NoDupCard(seen);
    b := |seen| == 3;
  }

  /** `m` is defined and one-to-one on `s`. */
  predicate InjectiveOn<C(==)>(m: map<C, C>, s: set<C>) {
    s <= m.Keys && forall x, y :: x in s && y in s && m[x] == m[y] ==> x == y
  }

  function Image<C>(m: map<C, C>, s: set<C>): set<C>
    requires s <= m.Keys
  {
    set x | x in s :: m[x]
  }

  /** A one-to-one map does not shrink the set it is applied to. */
  lemma {:induction false} ImageCard<C>(m: map<C, C>, s: set<C>)
    requires InjectiveOn(m, s)
    ensures |Image(m, s)| == |s|
  {
    if s != {} {
      var x :| x in s;
      var t := s - {x};
      assert InjectiveOn(m, t);
      ImageCard(m, t);
      assert Image(m, s) == Image(m, t) + {m[x]};
      assert m[x] !in Image(m, t);
    }
  }

  /** Replace every vertex colour `c` by `m[c]`, keeping ids and adjacency. */
  function Recolor<C>(g: Graph<C>, m: map<C, C>): Graph<C>
    requires ColorsUsed(g) <= m.Keys
  {
    map v | v in g :: Vertex(m[g[v].color], g[v].edges)
  }

  /** The colours of a recoloured graph are the image of the old colours. */
  lemma RecolorColorsUsed<C>(g: Graph<C>, m: map<C, C>)
    requires ColorsUsed(g) <= m.Keys
    ensures ColorsUsed(Recolor(g, m)) == Image(m, ColorsUsed(g))
  {
    var r := Recolor(g, m);
    forall c | c in Image(m, ColorsUsed(g)) ensures c in ColorsUsed(r) {
      var d :| d in ColorsUsed(g) && m[d] == c;
      var v :| v in g && g[v].color == d;
      assert r[v].color == c;
    }
  }

  /** Recolouring through a map that is one-to-one on the colours in use
      keeps ids and adjacency, keeps the colouring proper and keeps the
      number of distinct colours, so a three-coloured graph stays one. */
  lemma RecolorKeepsThreeColored<C>(g: Graph<C>, m: map<C, C>)
    requires EdgesClosed(g) && ThreeColored(g)
    requires InjectiveOn(m, ColorsUsed(g))
    ensures Recolor(g, m).Keys == g.Keys
    ensures forall v :: v in g ==> Recolor(g, m)[v].edges == g[v].edges
    ensures EdgesClosed(Recolor(g, m)) && ThreeColored(Recolor(g, m))
  {
    var r := Recolor(g, m);
    assert EdgesClosed(r);
    forall v, i | v in r && 0 <= i < |r[v].edges| ensures r[r[v].edges[i]].color != r[v].color {
      var w := g[v].edges[i];
      assert g[v].color in ColorsUsed(g) && g[w].color in ColorsUsed(g);
    }
    RecolorColorsUsed(g, m);
    ImageCard(m, ColorsUsed(g));
  }

  /** Two recolourings differ as soon as the maps disagree on a colour in use. */
  lemma RecolorSeparates<C>(g: Graph<C>, m1: map<C, C>, m2: map<C, C>, c: C)
    requires ColorsUsed(g) <= m1.Keys && ColorsUsed(g) <= m2.Keys
    requires c in ColorsUsed(g) && m1[c] != m2[c]
    ensures Recolor(g, m1) != Recolor(g, m2)
  {
    var v :| v in g && g[v].color == c;
    assert Recolor(g, m1)[v].color != Recolor(g, m2)[v].color;
  }

  /** Recolouring through the identity on the colours in use returns the graph. */
  lemma RecolorIdentity<C>(g: Graph<C>, m: map<C, C>)
    requires ColorsUsed(g) <= m.Keys
    requires forall c :: c in ColorsUsed(g) ==> m[c] == c
    ensures Recolor(g, m) == g
  {
    var r := Recolor(g, m);
    forall v | v in g ensures r[v] == g[v] {
      assert g[v].color in ColorsUsed(g);
    }
  }

}
