/** The gadget construction of the reduction from satisfiability to
    3-colouring (Sources/Colorful/Satisfiability.swift): the base triangle,
    stitching a gadget onto a graph, the NOT gadget, and turning a completed
    partial colouring into an ordinary coloured graph. */
module Satisfiability {

  import opened Options
  import opened Graphs
  import Colorful

  /** The truth palette; the raw values double as the ids of the base
      triangle's vertices. */
  datatype TruthColoring = FalseC | TruthC | NeutralC {

    function Raw(): nat {
      match this
      case FalseC => 0
      case TruthC => 1
      case NeutralC => 2
    }
  }

  /** A vertex whose colour may not be decided yet. */
  datatype SatVertex = SatVertex(color: Option<TruthColoring>, edges: seq<nat>)

  type SatGraph = map<nat, SatVertex>

  /** `makeSATGraph`: the triangle false, truth, neutral on ids 0, 1, 2. */
  function MakeSatGraph(): (r: SatGraph)
    ensures r.Keys == {0, 1, 2}
    ensures forall t: TruthColoring :: r[t.Raw()].color == Some(t)
    ensures forall t: TruthColoring :: t.Raw() !in r[t.Raw()].edges && |r[t.Raw()].edges| == 2
    ensures forall t: TruthColoring, s: TruthColoring :: s.Raw() in r[t.Raw()].edges <==> s != t
  {
    map[
      FalseC.Raw() := SatVertex(Some(FalseC), [TruthC.Raw(), NeutralC.Raw()]),
      TruthC.Raw() := SatVertex(Some(TruthC), [FalseC.Raw(), NeutralC.Raw()]),
      NeutralC.Raw() := SatVertex(Some(NeutralC), [FalseC.Raw(), TruthC.Raw()])]
  }

  /** The largest element of a non-empty set of naturals. */
  ghost function SetMax(s: set<nat>): (m: nat)
    requires s != {}
    ensures m in s
    ensures forall j :: j in s ==> j <= m
    decreases s
  {
    NonEmptyHasElement(s);
    var x :| x in s;
    var rest := s - {x};
    assert forall j :: j in s ==> j == x || j in rest;
    if rest == {} then x
    else
      var m := SetMax(rest);
      if x <= m then m else x
  }

  /** A non-empty set of naturals has a largest element. */
  lemma HasMax(s: set<nat>)
    requires s != {}
    ensures exists k :: k in s && forall j :: j in s ==> j <= k
  {
    var m := SetMax(s);
    assert m in s && forall j :: j in s ==> j <= m;
  }

  /** The largest id of a graph, or 0 for an empty graph. */
  function MaxKey(g: SatGraph): (m: nat)
    ensures forall k :: k in g ==> k <= m
    ensures g != map[] ==> m in g
    ensures g == map[] ==> m == 0
  {
    if g.Keys == {} then 0
    else
      HasMax(g.Keys);
      var k :| k in g && forall j :: j in g ==> j <= k;
      k
  }

  /** Where an id of the addition lands: on its matched vertex if it has one,
      otherwise shifted up by `bMax`. */
  function Remap(e: nat, matching: map<nat, nat>, bMax: nat): nat {
    if e in matching then matching[e] else e + bMax
  }

  /** The adjacency list of an addition vertex, renamed into the new graph. */
  function RemapEdges(edges: seq<nat>, matching: map<nat, nat>, bMax: nat): (r: seq<nat>)
    ensures |r| == |edges|
    ensures forall i :: 0 <= i < |edges| ==> r[i] == Remap(edges[i], matching, bMax)
  {
    seq(|edges|, i requires 0 <= i < |edges| => Remap(edges[i], matching, bMax))
  }

  /** The colour decision for a vertex merged onto another: `None` when both
      colours are known and differ, else the addition's colour if known,
      else the base's. */
  function MergeColors(a: Option<TruthColoring>, b: Option<TruthColoring>): Option<Option<TruthColoring>> {
    if a.Some? then
      if b.Some? && a.value != b.value then None else Some(a)
    else
      Some(b)
  }

  /** One pass of the loop of `attachGraph`: vertex `u` of the addition is
      merged onto its matched vertex when that vertex is present, and stored
      at `u + bMax` otherwise. */
  function AttachStep(acc: SatGraph, u: nat, vertex: SatVertex, matching: map<nat, nat>, bMax: nat): (r: Option<SatGraph>)
    ensures r.None? <==> u in matching && matching[u] in acc && Clash(vertex.color, acc[matching[u]].color)
  {
    var newEdges := RemapEdges(vertex.edges, matching, bMax);
    if u in matching && matching[u] in acc then
      var t := matching[u];
      match MergeColors(vertex.color, acc[t].color)
      case None => None
      case Some(c) => Some(acc[t := SatVertex(c, acc[t].edges + newEdges)])
    else
      Some(acc[u + bMax := SatVertex(vertex.color, newEdges)])
  }

  /** The loop of `attachGraph`, visiting the addition's vertices in `order`
      and stopping at the first conflict. */
  function AttachAll(addition: SatGraph, matching: map<nat, nat>, bMax: nat, order: seq<nat>, acc: SatGraph): (r: Option<SatGraph>)
    requires forall i :: 0 <= i < |order| ==> order[i] in addition
    ensures r.Some? ==> acc.Keys <= r.value.Keys
    decreases |order|
  {
    if order == [] then Some(acc)
    else
      match AttachStep(acc, order[0], addition[order[0]], matching, bMax)
      case None => None
      case Some(next) => AttachAll(addition, matching, bMax, order[1..], next)
  }

  /** `order` lists every element of `keys` exactly once. The dictionary
      iteration order of the source is unspecified, so it is a parameter. */
  predicate Enumerates(order: seq<nat>, keys: set<nat>) {
    && NoDup(order)
    && (forall i :: 0 <= i < |order| ==> order[i] in keys)
    && (forall k :: k in keys ==> k in order)
  }

  /** `attachGraph`: stitch `addition` onto `base`, identifying each matched
      addition vertex with its base vertex and shifting the other ids above
      the base's largest id. */
  function AttachGraph(addition: SatGraph, base: SatGraph, matching: map<nat, nat>, order: seq<nat>): (r: Option<SatGraph>)
    requires Enumerates(order, addition.Keys)
    ensures r.Some? ==> base.Keys <= r.value.Keys
  {
    AttachAll(addition, matching, MaxKey(base), order, base)
  }

  /** Two known colours that differ. */
  predicate Clash(a: Option<TruthColoring>, b: Option<TruthColoring>) {
    a.Some? && b.Some? && a.value != b.value
  }

  /** The colour of a merged vertex: whichever colour is known. */
  function Merged(a: Option<TruthColoring>, b: Option<TruthColoring>): Option<TruthColoring> {
    if a.Some? then a else b
  }

  /** The stitching is well posed: every matched addition vertex names a
      base vertex, no two name the same one, and unmatched ids are at least 1
      (so that shifting them clears every base id). */
  predicate Stitchable(addition: SatGraph, base: SatGraph, matching: map<nat, nat>) {
    && (forall u :: u in addition && u in matching ==> matching[u] in base)
    && (forall u :: u in addition && u !in matching ==> u >= 1)
    && (forall u, w :: u in addition && w in addition && u in matching && w in matching && u != w ==> matching[u] != matching[w])
  }

  /** Some matched pair carries two different known colours. */
  predicate Conflict(addition: SatGraph, base: SatGraph, matching: map<nat, nat>) {
    exists u :: u in addition && u in matching && matching[u] in base && Clash(addition[u].color, base[matching[u]].color)
  }

  /** Every base vertex is still present. */
  predicate KeepsBase(base: SatGraph, g: SatGraph) {
    forall k :: k in base ==> k in g
  }

  /** Each unmatched vertex of `done` sits at its id plus `bMax`, with its
      own colour and its renamed edges. */
  predicate ShiftedPlaced(addition: SatGraph, matching: map<nat, nat>, bMax: nat, done: set<nat>, g: SatGraph)
    requires done <= addition.Keys
  {
    forall u :: u in done && u !in matching ==>
      u + bMax in g && g[u + bMax] == ShiftedVertex(addition, matching, bMax, u)
  }

  /** Each matched vertex of `done` agrees in colour with its base vertex,
      which now has the merged colour and the renamed edges appended. */
  predicate MergedPlaced(addition: SatGraph, base: SatGraph, matching: map<nat, nat>, bMax: nat, done: set<nat>, g: SatGraph)
    requires done <= addition.Keys
  {
    forall u :: u in done && u in matching ==>
      && matching[u] in base && matching[u] in g
      && !Clash(addition[u].color, base[matching[u]].color)
      && g[matching[u]] == MergedVertex(addition, base, matching, bMax, u)
  }

  /** `k` is the match target of some vertex of `done`. */
  predicate Targeted(matching: map<nat, nat>, done: set<nat>, k: nat) {
    exists u :: u in done && u in matching && matching[u] == k
  }

  /** Base vertices no vertex of `done` was merged onto are unchanged. */
  predicate OthersUnchanged(base: SatGraph, matching: map<nat, nat>, done: set<nat>, g: SatGraph) {
    forall k :: k in base && k in g && !Targeted(matching, done, k) ==> g[k] == base[k]
  }

  /** Every vertex is a base vertex or a shifted unmatched vertex of `done`. */
  predicate NoStrayKeys(base: SatGraph, matching: map<nat, nat>, bMax: nat, done: set<nat>, g: SatGraph) {
    forall k :: k in g ==> k in base || (k >= bMax && k - bMax in done && k - bMax !in matching)
  }

  /** `g` is the stitched graph after the addition vertices in `done` have
      been placed: base vertices stay; an unmatched `u` sits at `u + bMax`
      with its renamed edges; a matched `u` has merged its colour into its
      base vertex and appended its renamed edges there; every other base
      vertex is unchanged; and there are no other vertices. */
  predicate AttachedUpTo(addition: SatGraph, base: SatGraph, matching: map<nat, nat>, bMax: nat, done: set<nat>, g: SatGraph)
    requires done <= addition.Keys
  {
    && KeepsBase(base, g)
    && ShiftedPlaced(addition, matching, bMax, done, g)
    && MergedPlaced(addition, base, matching, bMax, done, g)
    && OthersUnchanged(base, matching, done, g)
    && NoStrayKeys(base, matching, bMax, done, g)
  }

  /** The outcome `attachGraph` promises: `AttachedUpTo` with every addition
      vertex placed, the shift being the base's largest id. */
  predicate AttachedAs(addition: SatGraph, base: SatGraph, matching: map<nat, nat>, g: SatGraph) {
    AttachedUpTo(addition, base, matching, MaxKey(base), addition.Keys, g)
  }

  /** The vertex a matched addition vertex becomes once merged. */
  function MergedVertex(addition: SatGraph, base: SatGraph, matching: map<nat, nat>, bMax: nat, u: nat): SatVertex
    requires u in addition && u in matching && matching[u] in base
  {
    SatVertex(Merged(addition[u].color, base[matching[u]].color),
              base[matching[u]].edges + RemapEdges(addition[u].edges, matching, bMax))
  }

  /** The vertex an unmatched addition vertex becomes once shifted. */
  function ShiftedVertex(addition: SatGraph, matching: map<nat, nat>, bMax: nat, u: nat): SatVertex
    requires u in addition
  {
    SatVertex(addition[u].color, RemapEdges(addition[u].edges, matching, bMax))
  }

  lemma MergeKeepsShifted(addition: SatGraph, base: SatGraph, matching: map<nat, nat>, bMax: nat,
                          u: nat, done: set<nat>, acc: SatGraph, v: SatVertex)
    requires forall k :: k in base ==> k <= bMax
    requires forall w :: w in addition && w !in matching ==> w >= 1
    requires done <= addition.Keys && u in addition && u in matching && matching[u] in base
    requires ShiftedPlaced(addition, matching, bMax, done, acc)
    ensures ShiftedPlaced(addition, matching, bMax, done + {u}, acc[matching[u] := v])
  {
    var t := matching[u];
    forall w | w in done + {u} && w !in matching
      ensures w + bMax in acc[t := v] && acc[t := v][w + bMax] == ShiftedVertex(addition, matching, bMax, w)
    {
      assert w >= 1 && t <= bMax;
    }
  }

  lemma MergeKeepsMerged(addition: SatGraph, base: SatGraph, matching: map<nat, nat>, bMax: nat,
                         u: nat, done: set<nat>, acc: SatGraph)
    requires Stitchable(addition, base, matching)
    requires done <= addition.Keys && u in addition && u !in done && u in matching
    requires !Clash(addition[u].color, base[matching[u]].color)
    requires MergedPlaced(addition, base, matching, bMax, done, acc)
    requires matching[u] in acc
    ensures MergedPlaced(addition, base, matching, bMax, done + {u},
                         acc[matching[u] := MergedVertex(addition, base, matching, bMax, u)])
  {
    var t := matching[u];
    var next := acc[t := MergedVertex(addition, base, matching, bMax, u)];
    forall w | w in done + {u} && w in matching
      ensures matching[w] in base && matching[w] in next
      ensures !Clash(addition[w].color, base[matching[w]].color)
      ensures next[matching[w]] == MergedVertex(addition, base, matching, bMax, w)
    {
      if w != u {
        assert matching[w] != t;
      }
    }
  }

  lemma UpdateKeepsOthers(base: SatGraph, matching: map<nat, nat>, u: nat, done: set<nat>,
                          acc: SatGraph, k: nat, v: SatVertex)
    requires OthersUnchanged(base, matching, done, acc)
    requires k !in base || (u in matching && matching[u] == k)
    ensures OthersUnchanged(base, matching, done + {u}, acc[k := v])
  {
    forall j | j in base && j in acc[k := v] && !Targeted(matching, done + {u}, j)
      ensures acc[k := v][j] == base[j]
    {
      assert j != k;
      assert !Targeted(matching, done, j);
    }
  }

  lemma ShiftKeepsMerged(addition: SatGraph, base: SatGraph, matching: map<nat, nat>, bMax: nat,
                         u: nat, done: set<nat>, acc: SatGraph, k: nat, v: SatVertex)
    requires done <= addition.Keys && u in addition && u !in matching && k !in base
    requires MergedPlaced(addition, base, matching, bMax, done, acc)
    ensures MergedPlaced(addition, base, matching, bMax, done + {u}, acc[k := v])
  {
    forall w | w in done + {u} && w in matching
      ensures matching[w] in base && matching[w] in acc[k := v]
      ensures !Clash(addition[w].color, base[matching[w]].color)
      ensures acc[k := v][matching[w]] == MergedVertex(addition, base, matching, bMax, w)
    {
      assert matching[w] != k;
    }
  }

  lemma ShiftKeepsShifted(addition: SatGraph, matching: map<nat, nat>, bMax: nat,
                          u: nat, done: set<nat>, acc: SatGraph)
    requires done <= addition.Keys && u in addition && u !in matching
    requires ShiftedPlaced(addition, matching, bMax, done, acc)
    ensures ShiftedPlaced(addition, matching, bMax, done + {u},
                          acc[u + bMax := ShiftedVertex(addition, matching, bMax, u)])
  {
  }

  /** Placing a matched vertex without conflict keeps `AttachedUpTo`. */
  lemma MergeStepKeeps(addition: SatGraph, base: SatGraph, matching: map<nat, nat>, u: nat, done: set<nat>, acc: SatGraph)
    requires Stitchable(addition, base, matching)
    requires done <= addition.Keys && u in addition && u !in done && u in matching
    requires AttachedUpTo(addition, base, matching, MaxKey(base), done, acc)
    requires !Clash(addition[u].color, base[matching[u]].color)
    ensures matching[u] in base && matching[u] in acc && acc[matching[u]] == base[matching[u]]
    ensures AttachedUpTo(addition, base, matching, MaxKey(base), done + {u},
              acc[matching[u] := MergedVertex(addition, base, matching, MaxKey(base), u)])
  {
    var bMax := MaxKey(base);
    var t := matching[u];
    var v := MergedVertex(addition, base, matching, bMax, u);
    assert !Targeted(matching, done, t);
    MergeKeepsShifted(addition, base, matching, bMax, u, done, acc, v);
    MergeKeepsMerged(addition, base, matching, bMax, u, done, acc);
    UpdateKeepsOthers(base, matching, u, done, acc, t, v);
  }

  /** The slot an unmatched vertex is shifted to is free and clears the base. */
  lemma ShiftSlotFree(base: SatGraph, matching: map<nat, nat>, bMax: nat, u: nat, done: set<nat>, acc: SatGraph)
    requires forall k :: k in base ==> k <= bMax
    requires u >= 1 && u !in done
    requires NoStrayKeys(base, matching, bMax, done, acc)
    ensures u + bMax !in base && u + bMax !in acc
  {
  }

  /** Shifting an unmatched vertex keeps the base and adds only its own slot. */
  lemma ShiftKeepsKeys(base: SatGraph, matching: map<nat, nat>, bMax: nat, u: nat, done: set<nat>, acc: SatGraph, v: SatVertex)
    requires u !in matching
    requires KeepsBase(base, acc) && NoStrayKeys(base, matching, bMax, done, acc)
    ensures KeepsBase(base, acc[u + bMax := v])
    ensures NoStrayKeys(base, matching, bMax, done + {u}, acc[u + bMax := v])
  {
  }

  /** Placing an unmatched vertex keeps `AttachedUpTo`, for any shift that
      clears the base. */
  lemma ShiftStepKeepsAt(addition: SatGraph, base: SatGraph, matching: map<nat, nat>, bMax: nat,
                         u: nat, done: set<nat>, acc: SatGraph)
    requires forall k :: k in base ==> k <= bMax
    requires done <= addition.Keys && u in addition && u !in done && u !in matching && u >= 1
    requires AttachedUpTo(addition, base, matching, bMax, done, acc)
    ensures u + bMax !in acc
    ensures AttachedUpTo(addition, base, matching, bMax, done + {u},
              acc[u + bMax := ShiftedVertex(addition, matching, bMax, u)])
  {
    var k := u + bMax;
    var v := ShiftedVertex(addition, matching, bMax, u);
    ShiftSlotFree(base, matching, bMax, u, done, acc);
    ShiftKeepsKeys(base, matching, bMax, u, done, acc, v);
    ShiftKeepsMerged(addition, base, matching, bMax, u, done, acc, k, v);
    ShiftKeepsShifted(addition, matching, bMax, u, done, acc);
    UpdateKeepsOthers(base, matching, u, done, acc, k, v);
  }

  /** The pass for a matched vertex: its target still holds the base
      vertex, so the pass fails exactly on a conflict with the base colour. */
  lemma MatchedStepCorrect(addition: SatGraph, base: SatGraph, matching: map<nat, nat>, u: nat, done: set<nat>, acc: SatGraph)
    requires Stitchable(addition, base, matching)
    requires done <= addition.Keys && u in addition && u !in done && u in matching
    requires AttachedUpTo(addition, base, matching, MaxKey(base), done, acc)
    ensures var r := AttachStep(acc, u, addition[u], matching, MaxKey(base));
            && (r.None? <==> Clash(addition[u].color, base[matching[u]].color))
            && (r.Some? ==> AttachedUpTo(addition, base, matching, MaxKey(base), done + {u}, r.value))
  {
    var t := matching[u];
    assert t in base && t in acc;
    assert !Targeted(matching, done, t);
    assert acc[t] == base[t];
    if !Clash(addition[u].color, base[t].color) {
      MergeStepKeeps(addition, base, matching, u, done, acc);
    }
  }

  /** The pass for an unmatched vertex never fails and shifts it past the base. */
  lemma UnmatchedStepCorrect(addition: SatGraph, base: SatGraph, matching: map<nat, nat>, u: nat, done: set<nat>, acc: SatGraph)
    requires Stitchable(addition, base, matching)
    requires done <= addition.Keys && u in addition && u !in done && u !in matching
    requires AttachedUpTo(addition, base, matching, MaxKey(base), done, acc)
    ensures var r := AttachStep(acc, u, addition[u], matching, MaxKey(base));
            && r.Some? && AttachedUpTo(addition, base, matching, MaxKey(base), done + {u}, r.value)
  {
    var bMax := MaxKey(base);
    assert u >= 1;
    ShiftStepKeepsAt(addition, base, matching, bMax, u, done, acc);
    assert AttachStep(acc, u, addition[u], matching, bMax)
        == Some(acc[u + bMax := ShiftedVertex(addition, matching, bMax, u)]);
  }

  /** One pass of the loop keeps `AttachedUpTo`, and fails exactly on a
      colour conflict of the vertex it places. */
  lemma AttachStepCorrect(addition: SatGraph, base: SatGraph, matching: map<nat, nat>, u: nat, done: set<nat>, acc: SatGraph)
    requires Stitchable(addition, base, matching)
    requires done <= addition.Keys && u in addition && u !in done
    requires AttachedUpTo(addition, base, matching, MaxKey(base), done, acc)
    ensures var r := AttachStep(acc, u, addition[u], matching, MaxKey(base));
            && (r.None? <==> u in matching && Clash(addition[u].color, base[matching[u]].color))
            && (r.Some? ==> AttachedUpTo(addition, base, matching, MaxKey(base), done + {u}, r.value))
  {
    if u in matching {
      MatchedStepCorrect(addition, base, matching, u, done, acc);
    } else {
      UnmatchedStepCorrect(addition, base, matching, u, done, acc);
    }
  }

  /** A matched vertex of `order` whose colour clashes with its base vertex. */
  predicate ConflictIn(addition: SatGraph, base: SatGraph, matching: map<nat, nat>, order: seq<nat>)
    requires forall i :: 0 <= i < |order| ==> order[i] in addition
  {
    exists i :: 0 <= i < |order| && order[i] in matching && matching[order[i]] in base
                && Clash(addition[order[i]].color, base[matching[order[i]]].color)
  }

  /** A conflict in a list is one at its head or one further on. */
  lemma ConflictInCons(addition: SatGraph, base: SatGraph, matching: map<nat, nat>, order: seq<nat>)
    requires |order| > 0
    requires forall i :: 0 <= i < |order| ==> order[i] in addition
    ensures ConflictIn(addition, base, matching, order) <==>
              (order[0] in matching && matching[order[0]] in base
               && Clash(addition[order[0]].color, base[matching[order[0]]].color))
              || ConflictIn(addition, base, matching, order[1..])
  {
    var rest := order[1..];
    if ConflictIn(addition, base, matching, rest) {
      var i :| 0 <= i < |rest| && rest[i] in matching && matching[rest[i]] in base
               && Clash(addition[rest[i]].color, base[matching[rest[i]]].color);
      assert order[i + 1] == rest[i];
    }
    if ConflictIn(addition, base, matching, order) {
      var i :| 0 <= i < |order| && order[i] in matching && matching[order[i]] in base
               && Clash(addition[order[i]].color, base[matching[order[i]]].color);
      if i > 0 {
        assert rest[i - 1] == order[i];
      }
    }
  }

  /** After its head is placed, the rest of a duplicate-free list of fresh
      vertices is still duplicate-free and fresh, and covers the same set. */
  lemma TailStaysFresh(addition: SatGraph, order: seq<nat>, done: set<nat>)
    requires |order| > 0 && NoDup(order)
    requires forall i :: 0 <= i < |order| ==> order[i] in addition && order[i] !in done
    ensures NoDup(order[1..])
    ensures forall i :: 0 <= i < |order[1..]| ==> order[1..][i] in addition && order[1..][i] !in done + {order[0]}
    ensures done + {order[0]} + Elems(order[1..]) == done + Elems(order)
  {
    var rest := order[1..];
    forall i | 0 <= i < |rest| ensures rest[i] in addition && rest[i] !in done + {order[0]} {
      assert rest[i] == order[i + 1];
    }
    assert order == [order[0]] + rest;
  }

  /** The loop from any point: it fails exactly when a vertex still to be
      placed conflicts, and otherwise ends with every vertex placed. */
  lemma {:induction false} AttachAllCorrect(addition: SatGraph, base: SatGraph, matching: map<nat, nat>,
                                            order: seq<nat>, done: set<nat>, acc: SatGraph)
    requires Stitchable(addition, base, matching)
    requires NoDup(order)
    requires forall i :: 0 <= i < |order| ==> order[i] in addition && order[i] !in done
    requires done <= addition.Keys
    requires AttachedUpTo(addition, base, matching, MaxKey(base), done, acc)
    ensures var r := AttachAll(addition, matching, MaxKey(base), order, acc);
            && (r.None? <==> ConflictIn(addition, base, matching, order))
            && (r.Some? ==> AttachedUpTo(addition, base, matching, MaxKey(base), done + Elems(order), r.value))
    decreases |order|
  {
    if order == [] {
      assert done + Elems(order) == done;
    } else {
      var u := order[0];
      AttachStepCorrect(addition, base, matching, u, done, acc);
      ConflictInCons(addition, base, matching, order);
      var step := AttachStep(acc, u, addition[u], matching, MaxKey(base));
      if step.Some? {
        TailStaysFresh(addition, order, done);
        AttachAllCorrect(addition, base, matching, order[1..], done + {u}, step.value);
      }
    }
  }

  /** `attachGraph` on a well-posed stitching, in whatever order it visits
      the addition: it fails exactly on a colour conflict of a matched pair,
      and otherwise returns the stitched graph described by `AttachedAs`. */
  lemma AttachGraphCorrect(addition: SatGraph, base: SatGraph, matching: map<nat, nat>, order: seq<nat>)
    requires Enumerates(order, addition.Keys)
    requires Stitchable(addition, base, matching)
    ensures AttachGraph(addition, base, matching, order).None? <==> Conflict(addition, base, matching)
    ensures AttachGraph(addition, base, matching, order).Some? ==>
              AttachedAs(addition, base, matching, AttachGraph(addition, base, matching, order).value)
  {
    assert AttachedUpTo(addition, base, matching, MaxKey(base), {}, base);
    AttachAllCorrect(addition, base, matching, order, {}, base);
    assert {} + Elems(order) == addition.Keys;
    if Conflict(addition, base, matching) {
      var u :| u in addition && u in matching && matching[u] in base && Clash(addition[u].color, base[matching[u]].color);
      var i :| 0 <= i < |order| && order[i] == u;
      assert ConflictIn(addition, base, matching, order);
    }
  }

  /** Two graphs meeting `AttachedAs` agree on every vertex of the first. */
  lemma AttachedAsAgreeAt(addition: SatGraph, base: SatGraph, matching: map<nat, nat>, g1: SatGraph, g2: SatGraph, k: nat)
    requires AttachedAs(addition, base, matching, g1) && AttachedAs(addition, base, matching, g2)
    requires k in g1
    ensures k in g2 && g2[k] == g1[k]
  {
    var bMax := MaxKey(base);
    var done := addition.Keys;
    if k in base {
      if Targeted(matching, done, k) {
        var u :| u in done && u in matching && matching[u] == k;
        assert g1[k] == MergedVertex(addition, base, matching, bMax, u) == g2[k];
      }
    } else {
      var u := k - bMax;
      assert u in done && u !in matching && u + bMax == k;
    }
  }

  /** `AttachedAs` describes one graph only, so every visiting order that
      succeeds yields the same stitched graph. */
  lemma AttachedAsUnique(addition: SatGraph, base: SatGraph, matching: map<nat, nat>, g1: SatGraph, g2: SatGraph)
    requires AttachedAs(addition, base, matching, g1) && AttachedAs(addition, base, matching, g2)
    ensures g1 == g2
  {
    forall k | k in g1 ensures k in g2 && g2[k] == g1[k] {
      AttachedAsAgreeAt(addition, base, matching, g1, g2, k);
    }
    forall k | k in g2 ensures k in g1 {
      AttachedAsAgreeAt(addition, base, matching, g2, g1, k);
    }
  }

  /** The NOT gadget: vertex 0 is the input, 1 the output and 2 the neutral
      vertex, all pairwise adjacent. */
  function NotGadget(p: Option<TruthColoring>, q: Option<TruthColoring>): SatGraph {
    map[0 := SatVertex(p, [1, 2]), 1 := SatVertex(q, [0, 2]), 2 := SatVertex(Some(NeutralC), [0, 1])]
  }

  /** The gadget's input is merged onto `point` and its neutral vertex onto
      the base triangle's neutral vertex. */
  function NotMatching(point: nat): map<nat, nat> {
    map[0 := point, 2 := NeutralC.Raw()]
  }

  /** Truth and falsehood swapped; an unknown value stays unknown. */
  function Negation(c: Option<TruthColoring>): Option<TruthColoring> {
    match c
    case Some(TruthC) => Some(FalseC)
    case Some(FalseC) => Some(TruthC)
    case _ => c
  }

  /** `attachNot`: attach a NOT gadget whose input is `point`. A neutral
      point has no negation; a true or false point fixes the output's colour
      to the opposite one; an uncoloured or missing point leaves both open. */
  function AttachNot(base: SatGraph, point: nat, order: seq<nat>): (r: Option<SatGraph>)
    requires Enumerates(order, {0, 1, 2})
    ensures point in base && base[point].color == Some(NeutralC) ==> r.None?
  {
    assert NotGadget(None, None).Keys == {0, 1, 2};
    if point in base && base[point].color.Some? then
      match base[point].color.value
      case TruthC => AttachGraph(NotGadget(Some(TruthC), Some(FalseC)), base, NotMatching(point), order)
      case FalseC => AttachGraph(NotGadget(Some(FalseC), Some(TruthC)), base, NotMatching(point), order)
      case NeutralC => None
    else
      AttachGraph(NotGadget(None, None), base, NotMatching(point), order)
  }

  /** The gadget `attachNot` builds for a point coloured `c`. */
  function NotGadgetFor(c: Option<TruthColoring>): SatGraph {
    NotGadget(c, Negation(c))
  }

  /** Attaching at a non-neutral point is attaching the gadget for its colour. */
  lemma AttachNotUnfolds(base: SatGraph, point: nat, order: seq<nat>)
    requires Enumerates(order, {0, 1, 2})
    requires point in base && base[point].color != Some(NeutralC)
    ensures NotGadgetFor(base[point].color).Keys == {0, 1, 2}
    ensures AttachNot(base, point, order) ==
              AttachGraph(NotGadgetFor(base[point].color), base, NotMatching(point), order)
  {
  }

  /** The NOT gadget stitches onto any point other than the neutral vertex,
      and conflicts exactly when vertex 2 has a known colour that is not
      neutral. */
  lemma NotGadgetStitchable(base: SatGraph, point: nat)
    requires point in base && 2 in base && point != 2 && base[point].color != Some(NeutralC)
    ensures Stitchable(NotGadgetFor(base[point].color), base, NotMatching(point))
    ensures Conflict(NotGadgetFor(base[point].color), base, NotMatching(point)) <==> Clash(base[2].color, Some(NeutralC))
  {
    var gadget := NotGadgetFor(base[point].color);
    assert !Clash(gadget[0].color, base[point].color);
    if Clash(base[2].color, Some(NeutralC)) {
      assert 2 in gadget && 2 in NotMatching(point) && Clash(gadget[2].color, base[2].color);
    }
  }

  /** After a successful stitch of the NOT gadget, its output is a new vertex
      with the negated colour, adjacent to `point` and 2. */
  lemma NotGadgetOutput(base: SatGraph, point: nat, g: SatGraph)
    requires point in base && 2 in base && point != 2
    requires AttachedAs(NotGadgetFor(base[point].color), base, NotMatching(point), g)
    ensures MaxKey(base) + 1 in g
    ensures g[MaxKey(base) + 1] == SatVertex(Negation(base[point].color), [point, 2])
  {
    var gadget := NotGadgetFor(base[point].color);
    var matching := NotMatching(point);
    var bMax := MaxKey(base);
    assert ShiftedPlaced(gadget, matching, bMax, gadget.Keys, g);
    assert 1 in gadget && 1 !in matching;
    assert RemapEdges(gadget[1].edges, matching, bMax) == [point, 2];
  }

  /** After a successful stitch of the NOT gadget, `point` keeps its colour
      and gains the output and vertex 2 as neighbours. */
  lemma NotGadgetPoint(base: SatGraph, point: nat, g: SatGraph)
    requires point in base && 2 in base && point != 2
    requires AttachedAs(NotGadgetFor(base[point].color), base, NotMatching(point), g)
    ensures point in g
    ensures g[point] == SatVertex(base[point].color, base[point].edges + [MaxKey(base) + 1, 2])
  {
    var gadget := NotGadgetFor(base[point].color);
    var matching := NotMatching(point);
    var bMax := MaxKey(base);
    assert MergedPlaced(gadget, base, matching, bMax, gadget.Keys, g);
    assert 0 in gadget && 0 in matching;
    assert RemapEdges(gadget[0].edges, matching, bMax) == [bMax + 1, 2];
  }

  /** After a successful stitch of the NOT gadget, vertex 2 is neutral and
      gains `point` and the output as neighbours. */
  lemma NotGadgetNeutral(base: SatGraph, point: nat, g: SatGraph)
    requires point in base && 2 in base && point != 2
    requires AttachedAs(NotGadgetFor(base[point].color), base, NotMatching(point), g)
    ensures 2 in g
    ensures g[2] == SatVertex(Some(NeutralC), base[2].edges + [point, MaxKey(base) + 1])
  {
    var gadget := NotGadgetFor(base[point].color);
    var matching := NotMatching(point);
    var bMax := MaxKey(base);
    assert MergedPlaced(gadget, base, matching, bMax, gadget.Keys, g);
    assert 2 in gadget && 2 in matching;
    assert RemapEdges(gadget[2].edges, matching, bMax) == [point, bMax + 1];
  }

  /** A successful stitch of the NOT gadget adds no vertex but its output. */
  lemma NotGadgetNoOtherKeys(base: SatGraph, point: nat, g: SatGraph)
    requires point in base && 2 in base && point != 2
    requires AttachedAs(NotGadgetFor(base[point].color), base, NotMatching(point), g)
    ensures forall k :: k in g ==> k in base || k == MaxKey(base) + 1
  {
    var gadget := NotGadgetFor(base[point].color);
    var matching := NotMatching(point);
    var bMax := MaxKey(base);
    assert NoStrayKeys(base, matching, bMax, gadget.Keys, g);
    assert gadget.Keys == {0, 1, 2} && matching.Keys == {0, 2};
    forall k | k in g ensures k in base || k == bMax + 1 {
      if k !in base {
        assert k - bMax in gadget && k - bMax !in matching;
      }
    }
  }

  /** A successful stitch of the NOT gadget adds exactly one vertex. */
  lemma NotGadgetKeys(base: SatGraph, point: nat, g: SatGraph)
    requires point in base && 2 in base && point != 2
    requires AttachedAs(NotGadgetFor(base[point].color), base, NotMatching(point), g)
    ensures g.Keys == base.Keys + {MaxKey(base) + 1}
  {
    NotGadgetNoOtherKeys(base, point, g);
    NotGadgetOutput(base, point, g);
    assert KeepsBase(base, g);
  }

  /** A successful stitch of the NOT gadget leaves the base vertices other
      than `point` and 2 alone. */
  lemma NotGadgetElsewhere(base: SatGraph, point: nat, g: SatGraph)
    requires point in base && 2 in base && point != 2
    requires AttachedAs(NotGadgetFor(base[point].color), base, NotMatching(point), g)
    ensures forall k :: k in base && k != point && k != 2 ==> g[k] == base[k]
  {
    var gadget := NotGadgetFor(base[point].color);
    var matching := NotMatching(point);
    assert KeepsBase(base, g) && OthersUnchanged(base, matching, gadget.Keys, g);
    assert gadget.Keys == {0, 1, 2} && matching.Keys == {0, 2};
    forall k | k in base && k != point && k != 2 ensures g[k] == base[k] {
      assert !Targeted(matching, gadget.Keys, k);
    }
  }

  /** Attaching a NOT gadget at a base vertex `point` other than the neutral
      vertex 2: it fails exactly when `point` is neutral or vertex 2 has a
      known colour other than neutral; otherwise one vertex `MaxKey(base) + 1`
      is added with the negated colour of `point`, adjacent to `point` and 2,
      and those two get the new adjacencies appended; nothing else changes. */
  lemma AttachNotCorrect(base: SatGraph, point: nat, order: seq<nat>)
    requires Enumerates(order, {0, 1, 2})
    requires point in base && 2 in base && point != 2
    ensures AttachNot(base, point, order).None? <==>
              base[point].color == Some(NeutralC) || Clash(base[2].color, Some(NeutralC))
    ensures AttachNot(base, point, order).Some? ==>
              var g := AttachNot(base, point, order).value;
              var out := MaxKey(base) + 1;
              && g.Keys == base.Keys + {out}
              && g[out] == SatVertex(Negation(base[point].color), [point, 2])
              && g[point] == SatVertex(base[point].color, base[point].edges + [out, 2])
              && g[2] == SatVertex(Some(NeutralC), base[2].edges + [point, out])
              && forall k :: k in base && k != point && k != 2 ==> g[k] == base[k]
  {
    var c := base[point].color;
    if c == Some(NeutralC) {
      return;
    }
    AttachNotUnfolds(base, point, order);
    NotGadgetStitchable(base, point);
    AttachGraphCorrect(NotGadgetFor(c), base, NotMatching(point), order);
    var r := AttachNot(base, point, order);
    if r.Some? {
      NotGadgetOutput(base, point, r.value);
      NotGadgetPoint(base, point, r.value);
      NotGadgetNeutral(base, point, r.value);
      NotGadgetKeys(base, point, r.value);
      NotGadgetElsewhere(base, point, r.value);
    }
  }

  /** `attachNot` on a point that is not a vertex: the cast of the missing
      entry fails, so the gadget is stitched with both ends open, and its
      input vertex 0, finding no match target, is shifted to `0 + bMax`,
      which is the base's own largest vertex. On the base triangle with the
      absent point 5, the neutral vertex 2 is overwritten and loses its
      edges to 0 and 1. */
  lemma AttachNotAtAbsentPointOverwrites()
    ensures 5 !in MakeSatGraph()
    ensures AttachNot(MakeSatGraph(), 5, [0, 1, 2]).Some?
    ensures AttachNot(MakeSatGraph(), 5, [0, 1, 2]).value[2] == SatVertex(Some(NeutralC), [3, 2, 5, 3])
    ensures !(MakeSatGraph()[2].edges <= AttachNot(MakeSatGraph(), 5, [0, 1, 2]).value[2].edges)
  {
    var base := MakeSatGraph();
    assert MaxKey(base) == 2 by {
      assert 2 in base;
    }
    var s3 := AbsentPointTrace();
    assert AttachNot(base, 5, [0, 1, 2]) == AttachAll(NotGadget(None, None), NotMatching(5), 2, [0, 1, 2], base);
  }

  /** The loop of `attachGraph` for the NOT gadget at the absent point 5 of
      the base triangle, visiting 0, 1, 2: vertex 0 overwrites vertex 2,
      vertex 1 lands on 3, and vertex 2 merges onto the overwritten vertex. */
  lemma AbsentPointTrace() returns (s3: SatGraph)
    ensures AttachAll(NotGadget(None, None), NotMatching(5), 2, [0, 1, 2], MakeSatGraph()) == Some(s3)
    ensures s3[2] == SatVertex(Some(NeutralC), [3, 2, 5, 3])
  {
    var base := MakeSatGraph();
    var gadget := NotGadget(None, None);
    var matching := NotMatching(5);
    assert RemapEdges([1, 2], matching, 2) == [3, 2];
    assert RemapEdges([0, 2], matching, 2) == [5, 2];
    assert RemapEdges([0, 1], matching, 2) == [5, 3];
    var s1 := base[2 := SatVertex(None, [3, 2])];
    var s2 := s1[3 := SatVertex(None, [5, 2])];
    s3 := s2[2 := SatVertex(Some(NeutralC), [3, 2] + [5, 3])];
    assert AttachStep(base, 0, gadget[0], matching, 2) == Some(s1);
    assert AttachStep(s1, 1, gadget[1], matching, 2) == Some(s2);
    assert AttachStep(s2, 2, gadget[2], matching, 2) == Some(s3);
    assert [0, 1, 2][1..] == [1, 2] && [1, 2][1..] == [2] && [2][1..] == [];
    assert AttachAll(gadget, matching, 2, [2], s2) == Some(s3);
    assert AttachAll(gadget, matching, 2, [1, 2], s1) == Some(s3);
    assert [3, 2] + [5, 3] == [3, 2, 5, 3];
  }

  /** `attachNot` as evidently intended: a point that is not a vertex is
      refused rather than stitched. */
  function AttachNotChecked(base: SatGraph, point: nat, order: seq<nat>): (r: Option<SatGraph>)
    requires Enumerates(order, {0, 1, 2})
    ensures point !in base ==> r.None?
    ensures point in base && base[point].color == Some(NeutralC) ==> r.None?
    ensures r.Some? ==> base.Keys <= r.value.Keys
  {
    if point in base then AttachNot(base, point, order) else None
  }

  /** The guarded `attachNot` fails exactly on an absent or neutral point or a
      non-neutral vertex 2, and otherwise keeps every base vertex with its
      known colour and its adjacency list as a prefix. */
  lemma AttachNotCheckedKeepsBase(base: SatGraph, point: nat, order: seq<nat>)
    requires Enumerates(order, {0, 1, 2})
    requires 2 in base && point != 2
    ensures AttachNotChecked(base, point, order).None? <==>
              point !in base || base[point].color == Some(NeutralC) || Clash(base[2].color, Some(NeutralC))
    ensures AttachNotChecked(base, point, order).Some? ==>
              var g := AttachNotChecked(base, point, order).value;
              forall k :: k in base ==>
                && k in g
                && (base[k].color.Some? ==> g[k].color == base[k].color)
                && base[k].edges <= g[k].edges
  {
    if point in base {
      AttachNotCorrect(base, point, order);
      var r := AttachNot(base, point, order);
      if r.Some? {
        var g := r.value;
        forall k | k in base
          ensures k in g && (base[k].color.Some? ==> g[k].color == base[k].color) && base[k].edges <= g[k].edges
        {
          if k == point {
            assert g[k].edges == base[k].edges + [MaxKey(base) + 1, 2];
          } else if k == 2 {
            assert g[k].edges == base[k].edges + [point, MaxKey(base) + 1];
          }
        }
      }
    }
  }

  /** The colour of the demo palette a truth value is drawn as; the raw value
      is kept. */
  function ToColor(t: TruthColoring): (c: Colorful.Colors)
    ensures c.Raw() as int == t.Raw()
  {
    match t
    case FalseC => Colorful.First
    case TruthC => Colorful.Second
    case NeutralC => Colorful.Third
  }

  /** Every vertex has a decided colour. */
  predicate FullyColored(g: SatGraph) {
    forall v :: v in g ==> g[v].color.Some?
  }

  /** `coloredGraph`: fails if some vertex is still uncoloured; otherwise the
      same vertices and adjacency lists with each truth value drawn as the
      demo colour of the same raw value. */
  function ColoredGraph(partial: SatGraph): (r: Option<Graph<Colorful.Colors>>)
    ensures r.None? <==> !FullyColored(partial)
    ensures r.Some? ==> r.value.Keys == partial.Keys
    ensures r.Some? ==> forall v :: v in partial ==>
              && partial[v].color.Some?
              && r.value[v].edges == partial[v].edges
              && r.value[v].color.Raw() as int == partial[v].color.value.Raw()
  {
    if exists v :: v in partial && partial[v].color.None? then None
    else Some(map v | v in partial :: Vertex(ToColor(partial[v].color.value), partial[v].edges))
  }

  /** Every listed neighbour is a vertex. This is `Graphs.EdgesClosed` for
      the reduction's own vertex type, whose ids are naturals and whose colour
      may be undecided, so the generic definition does not apply. */
  predicate SatEdgesClosed(g: SatGraph) {
    forall v, i :: v in g && 0 <= i < |g[v].edges| ==> g[v].edges[i] in g
  }

  /** No vertex lists a neighbour of the same decided colour: `Graphs.NoClash`
      for partial colourings. */
  predicate SatNoClash(g: SatGraph)
    requires SatEdgesClosed(g)
  {
    forall v, i :: v in g && 0 <= i < |g[v].edges| ==>
      !(g[v].color.Some? && g[g[v].edges[i]].color == g[v].color)
  }

  /** Converting a fully coloured graph keeps it well formed, and it has a
      same-coloured edge exactly when the truth colouring does. */
  lemma ColoredGraphKeepsClashes(partial: SatGraph)
    requires FullyColored(partial) && SatEdgesClosed(partial)
    ensures ColoredGraph(partial).Some?
    ensures EdgesClosed(ColoredGraph(partial).value)
    ensures NoClash(ColoredGraph(partial).value) <==> SatNoClash(partial)
  {
    var g := ColoredGraph(partial).value;
    forall v, i | v in g && 0 <= i < |g[v].edges|
      ensures g[v].edges[i] in g
      ensures g[g[v].edges[i]].color == g[v].color <==> partial[partial[v].edges[i]].color == partial[v].color
    {
      var w := partial[v].edges[i];
      assert g[w].color.Raw() as int == partial[w].color.value.Raw();
      assert g[v].color.Raw() as int == partial[v].color.value.Raw();
      if g[w].color == g[v].color {
        assert partial[w].color.value.Raw() == partial[v].color.value.Raw();
      }
    }
  }

  /** The base triangle is fully coloured, well formed and proper. */
  lemma SatTriangleIsProper()
    ensures FullyColored(MakeSatGraph()) && SatEdgesClosed(MakeSatGraph()) && SatNoClash(MakeSatGraph())
  {
  }

  /** The base triangle is a proper colouring with all three colours. */
  lemma SatTriangleIsThreeColored()
    ensures ColoredGraph(MakeSatGraph()).Some?
    ensures EdgesClosed(ColoredGraph(MakeSatGraph()).value) && ThreeColored(ColoredGraph(MakeSatGraph()).value)
  {
    var base := MakeSatGraph();
    SatTriangleIsProper();
    ColoredGraphKeepsClashes(base);
    var g := ColoredGraph(base).value;
    Colorful.AllThreeOccur(g, 0, 1, 2);
  }

  /** The base triangle with a NOT gadget on its true vertex. */
  const NegatedTriangle: SatGraph := map[
    0 := SatVertex(Some(FalseC), [1, 2]),
    1 := SatVertex(Some(TruthC), [0, 2, 3, 2]),
    2 := SatVertex(Some(NeutralC), [0, 1, 1, 3]),
    3 := SatVertex(Some(FalseC), [1, 2])]

  /** Negating the true vertex of the base triangle, in any visiting order,
      adds vertex 3 coloured false next to vertices 1 and 2. */
  lemma NotOfTruthOnTriangle(order: seq<nat>)
    requires Enumerates(order, {0, 1, 2})
    ensures AttachNotChecked(MakeSatGraph(), TruthC.Raw(), order) == Some(NegatedTriangle)
  {
    var base := MakeSatGraph();
    assert MaxKey(base) == 2 by {
      assert 2 in base;
    }
    AttachNotCorrect(base, 1, order);
    var g := AttachNot(base, 1, order).value;
    var expected := NegatedTriangle;
    assert g.Keys == expected.Keys;
    assert g[0] == base[0];
    assert g[1] == SatVertex(Some(TruthC), [0, 2] + [3, 2]);
    assert g[2] == SatVertex(Some(NeutralC), [0, 1] + [1, 3]);
    assert g[3] == SatVertex(Negation(Some(TruthC)), [1, 2]);
    assert [0, 2] + [3, 2] == [0, 2, 3, 2] && [0, 1] + [1, 3] == [0, 1, 1, 3];
    forall k | k in g ensures g[k] == expected[k] {
      assert k == 0 || k == 1 || k == 2 || k == 3;
    }
    assert g == expected;
  }

  lemma NegatedTriangleIsProper()
    ensures FullyColored(NegatedTriangle) && SatEdgesClosed(NegatedTriangle) && SatNoClash(NegatedTriangle)
  {
    var g := NegatedTriangle;
    forall v, i | v in g && 0 <= i < |g[v].edges|
      ensures g[v].edges[i] in g && !(g[v].color.Some? && g[g[v].edges[i]].color == g[v].color)
    {
      assert v == 0 || v == 1 || v == 2 || v == 3;
    }
  }

  /** The triangle with the NOT gadget is still a proper colouring with all
      three colours once converted. */
  lemma NegatedTriangleIsThreeColored()
    ensures ColoredGraph(NegatedTriangle).Some?
    ensures EdgesClosed(ColoredGraph(NegatedTriangle).value) && ThreeColored(ColoredGraph(NegatedTriangle).value)
  {
    NegatedTriangleIsProper();
    ColoredGraphKeepsClashes(NegatedTriangle);
    var g := ColoredGraph(NegatedTriangle).value;
    assert g[0].color == Colorful.First && g[1].color == Colorful.Second && g[2].color == Colorful.Third;
    Colorful.AllThreeOccur(g, 0, 1, 2);
  }

}
