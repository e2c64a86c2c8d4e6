# colorful — graph 3-colouring and a commit-and-reveal round, in Dafny

The modelled repository is a set of Swift scripts about graph 3-colouring:

- a validator that says whether a coloured graph is properly coloured with
  exactly three colours;
- a generator of the six relabellings of a 3-coloured graph, one per
  permutation of the palette;
- one round of a zero-knowledge demonstration. The prover commits to every
  vertex colour by hashing a random secret whose last byte carries the
  colour. It reveals the two secrets of a challenged edge. The verifier
  checks them against the commitments and checks that the colours differ.
- the gadget side of a reduction from satisfiability to 3-colouring: the
  base triangle, stitching one graph onto another, the NOT gadget, and
  turning a completed partial colouring into a coloured graph.

A coloured graph is a dictionary from vertex id to a colour and an ordered
adjacency list. `Graphs.Graph<C>` is `map<int, Vertex<C>>`, generic in the
palette, so one definition serves all three palettes of the scripts.

Modules:

| module | models |
|---|---|
| `Options` | Swift optionals |
| `Graphs` | the graph type, the `isThreeColored` validator shared by the two later scripts, recolouring |
| `Colorful` | `Sources/Colorful/main.swift`: palette, permutation table, relabelling, fixtures |
| `Commitment` | `Sources/Colorful/main.swift`: commit, reveal, verify |
| `ColorfulCli` | `ColorfulCLI/main.swift`: the red/green/blue variant with a `switch`-based relabelling |
| `Prototype` | `main.swift`: the first validator, which accepts at most three colours |
| `Satisfiability` | `Sources/Colorful/Satisfiability.swift` |

Modelling choices:

- The secure random source is an input. A `Commitment.Draw` holds the status
  of the call and the 33 bytes it wrote.
- SHA-256 is a function-valued parameter `hash`. Nothing is assumed about it,
  except in `Commitment.AcceptedOpeningShowsCommittedColors`, which assumes
  it is collision-free.
- Swift dictionaries iterate in an unspecified order:
  - The loops whose result does not depend on that order pick any remaining
    key. These are the validators and the commitment loop.
  - `attachGraph` can depend on the order, so the visiting order is an
    explicit parameter. For a well-posed stitching, two lemmas together show
    that every order gives the same result.
    `Satisfiability.AttachGraphCorrect` shows that every order fails exactly
    on a conflict, and that otherwise its result meets the description
    `AttachedAs`. `Satisfiability.AttachedAsUnique` shows that at most one
    graph meets that description.

## Model

| member | source | states |
|---|---|---|
| Graphs.NeighbourClash | Sources/Colorful/main.swift:74-80 | true exactly when some listed neighbour of the vertex carries the vertex's own colour |
| Graphs.ScanColors | Sources/Colorful/main.swift:67-81 | the scan finishes clash-free exactly when no edge joins two equal colours; then the list of colours seen holds every colour in use exactly once |
| Graphs.IsThreeColored | Sources/Colorful/main.swift:66-88 | true exactly when no edge joins equal colours and exactly three colours occur; ColorfulCLI/main.swift:50-72 is the same function over the red/green/blue palette |
| Graphs.NoDupCard | Sources/Colorful/main.swift:83 | the count of a duplicate-free colour list is the number of distinct colours |
| Graphs.Recolor | Sources/Colorful/main.swift:97-103 | the inner relabelling loop; it only computes, and its meaning is stated by `Graphs.RecolorKeepsThreeColored`, `Graphs.RecolorColorsUsed` and `Graphs.RecolorSeparates` |
| Graphs.RecolorColorsUsed | Sources/Colorful/main.swift:97-103 | after relabelling, the colours in use are the image of the old ones |
| Graphs.ImageCard | Sources/Colorful/main.swift:97-103 | a one-to-one relabelling keeps the number of distinct colours |
| Graphs.RecolorKeepsThreeColored | Sources/Colorful/main.swift:97-103 | relabelling through a map one-to-one on the colours in use keeps ids and adjacency, and keeps a 3-coloured graph 3-coloured |
| Graphs.RecolorSeparates | Sources/Colorful/main.swift:97-103 | two relabellings that disagree on a colour in use give different graphs |
| Graphs.RecolorIdentity | ColorfulCLI/main.swift:81 | relabelling through the identity returns the graph unchanged |
| Colorful.FromRaw | Sources/Colorful/main.swift:15-19 | `Colors(rawValue:)` is defined exactly for bytes below 3 and then returns the colour with that raw value |
| Colorful.FromRawInvertsRaw | Sources/Colorful/main.swift:15-19 | reading a colour's raw value back gives the colour |
| Colorful.UsedInPalette | Sources/Colorful/main.swift:15-19 | every colour in use belongs to the three-colour palette |
| Colorful.ThreeOfThree | Sources/Colorful/main.swift:15-19 | three distinct colours of the palette are the whole palette |
| Colorful.MakeColorMap | Sources/Colorful/main.swift:20-22 | builds a palette map from a list of three colours; it only computes, and its meaning is stated by `Colorful.MakeColorMapBijective` |
| Colorful.MakeColorMapBijective | Sources/Colorful/main.swift:20-22 | the map built from a list covers the whole palette, and it is a bijection exactly when the first three entries are pairwise different |
| Colorful.PermutationIsBijection | Sources/Colorful/main.swift:20-31 | each table entry is a bijection of the palette |
| Colorful.PermutationsDiffer | Sources/Colorful/main.swift:24-31 | no two table entries are equal |
| Colorful.PermutationsComplete | Sources/Colorful/main.swift:24-31 | every bijection of the palette occurs in the table |
| Colorful.PermutationsAreAllBijections | Sources/Colorful/main.swift:20-31 | the table is exactly the six bijections of the palette, without repetition |
| Colorful.CopiesThreeColored | Sources/Colorful/main.swift:90-106 | every copy of a 3-coloured graph is 3-coloured |
| Colorful.MapsDiffer | Sources/Colorful/main.swift:24-31 | two different palette maps disagree on some colour |
| Colorful.CopiesDistinct | Sources/Colorful/main.swift:90-106 | the copies of a graph using all three colours are pairwise different |
| Colorful.ThreeColorPermutations | Sources/Colorful/main.swift:90-106 | empty for a graph that is not 3-coloured; otherwise six pairwise-different, 3-coloured relabellings, one per table entry in table order |
| Colorful.AllThreeOccur | Sources/Colorful/main.swift:83-87 | a graph in which each of the three colours occurs uses exactly three colours |
| Colorful.TriangleIsThreeColored | Sources/Colorful/main.swift:35-39 | the triangle fixture is well formed and 3-coloured, as its expectation says |
| Colorful.DiamondIsThreeColored | Sources/Colorful/main.swift:40-45 | the diamond fixture is well formed and 3-coloured |
| Colorful.TetrahedronIsNotThreeColored | Sources/Colorful/main.swift:46-51 | the tetrahedron fixture is well formed and has a same-coloured edge, so it is rejected |
| Colorful.PentastarOuterProper | Sources/Colorful/main.swift:53-57 | the five outer pentastar vertices have no same-coloured neighbour |
| Colorful.PentastarInnerProper | Sources/Colorful/main.swift:58-62 | the five inner pentastar vertices have no same-coloured neighbour |
| Colorful.PentastarIsProper | Sources/Colorful/main.swift:52-63 | the pentastar fixture is well formed and properly coloured |
| Colorful.PentastarIsThreeColored | Sources/Colorful/main.swift:52-63 | the pentastar fixture is 3-coloured |
| Colorful.TestGraphsMeetExpectations | Sources/Colorful/main.swift:160-162 | every fixture gets from the validator the verdict recorded next to it |
| ColorfulCli.UsedInPalette | ColorfulCLI/main.swift:12-16 | every colour in use is red, green or blue |
| ColorfulCli.RowsAreAllPermutations | ColorfulCLI/main.swift:80-87 | the table has six pairwise-different rows; each lists every colour once; the first is the identity; every ordering of the palette occurs |
| ColorfulCli.Substitute | ColorfulCLI/main.swift:94-101 | the `switch` that replaces red, green and blue by a row's first, second and third entry; it only computes, and its meaning is stated by `ColorfulCli.RowMapIsInjective` and `ColorfulCli.ThreeColorPermutations` |
| ColorfulCli.RowMap | ColorfulCLI/main.swift:91-102 | the substitution of one row collected as a palette map; it only computes, and its meaning is stated by `ColorfulCli.RowMapIsInjective` |
| ColorfulCli.RowMapIsInjective | ColorfulCLI/main.swift:93-101 | the `switch` substitution of a permutation row is one-to-one on the palette |
| ColorfulCli.ThreeOfThree | ColorfulCLI/main.swift:67-69 | a graph using three distinct colours uses all of red, green and blue |
| ColorfulCli.CopiesThreeColored | ColorfulCLI/main.swift:74-107 | every copy of a 3-coloured graph is 3-coloured, and the first copy is the input |
| ColorfulCli.CopiesDistinct | ColorfulCLI/main.swift:74-107 | the copies of a graph using all three colours are pairwise different |
| ColorfulCli.ThreeColorPermutations | ColorfulCLI/main.swift:74-107 | empty for a graph that is not 3-coloured; otherwise six pairwise-different 3-coloured relabellings in table order, the first being the input |
| ColorfulCli.AllThreeOccur | ColorfulCLI/main.swift:67-71 | a graph in which red, green and blue all occur uses exactly three colours |
| ColorfulCli.TriangleIsThreeColored | ColorfulCLI/main.swift:19-23 | the triangle fixture is well formed and 3-coloured |
| ColorfulCli.DiamondIsThreeColored | ColorfulCLI/main.swift:24-29 | the diamond fixture is well formed and 3-coloured |
| ColorfulCli.TetrahedronIsNotThreeColored | ColorfulCLI/main.swift:30-35 | the tetrahedron fixture is well formed and rejected |
| ColorfulCli.PentastarOuterProper | ColorfulCLI/main.swift:37-41 | the five outer pentastar vertices have no same-coloured neighbour |
| ColorfulCli.PentastarInnerProper | ColorfulCLI/main.swift:42-46 | the five inner pentastar vertices have no same-coloured neighbour |
| ColorfulCli.PentastarIsProper | ColorfulCLI/main.swift:36-47 | the pentastar fixture is well formed and properly coloured |
| ColorfulCli.PentastarIsThreeColored | ColorfulCLI/main.swift:36-47 | the pentastar fixture is 3-coloured |
| ColorfulCli.TestGraphsMeetExpectations | ColorfulCLI/main.swift:109-111 | every fixture gets from the validator the verdict recorded next to it |
| Commitment.TagOf | Sources/Colorful/main.swift:148-149 | a secret names a colour exactly when it is non-empty and its last byte is below 3, and that colour's raw value is the last byte |
| Commitment.CommitmentForColor | Sources/Colorful/main.swift:108-121 | fails exactly when the random draw fails; otherwise gives a 33-byte secret that keeps the first 32 drawn bytes, carries the colour in its last byte, and is paired with its hash |
| Commitment.CommitGraph | Sources/Colorful/main.swift:123-137 | fails exactly when some vertex's draw fails; otherwise every vertex gets a commitment and a secret carrying its colour, with the adjacency copied |
| Commitment.RevealEdge | Sources/Colorful/main.swift:139-145 | hands out the two secrets exactly when each vertex lists the other and both secrets exist |
| Commitment.VerifyEdge | Sources/Colorful/main.swift:147-158 | accepts exactly when both secrets end in a valid colour byte, both hash to the stored commitments, and the two colour bytes differ |
| Commitment.HonestOpeningVerdict | Sources/Colorful/main.swift:147-158 | on honestly committed secrets, verification accepts exactly when the two committed colours differ |
| Commitment.Completeness | Sources/Colorful/main.swift:123-158 | for a properly coloured graph, revealing any edge listed both ways and verifying it always succeeds |
| Commitment.AcceptedOpeningShowsCommittedColors | Sources/Colorful/main.swift:147-158 | with a collision-free hash, an accepted opening is exactly the committed pair of secrets, and the committed colours of the two vertices differ |
| Prototype.IsAtMostThreeColored | main.swift:10-30 | true exactly when no edge joins equal colours and at most three colours occur |
| Prototype.FewerColorsAccepted | main.swift:25-29 | the empty graph and a lone vertex are accepted although they do not use three colours |
| Satisfiability.MakeSatGraph | Sources/Colorful/Satisfiability.swift:19-23 | the base triangle has ids 0, 1 and 2; each id carries the truth colour with that raw value, and its list holds exactly the other two ids, once each, so every vertex is adjacent to the other two |
| Satisfiability.MaxKey | Sources/Colorful/Satisfiability.swift:50 | the largest id of the graph, or 0 for an empty graph |
| Satisfiability.MergeStepKeeps | Sources/Colorful/Satisfiability.swift:55-70 | merging a matched vertex without a colour conflict keeps the stitched-graph invariant |
| Satisfiability.ShiftStepKeepsAt | Sources/Colorful/Satisfiability.swift:71-73 | storing an unmatched vertex at its shifted id uses a free id and keeps the stitched-graph invariant |
| Satisfiability.AttachStep | Sources/Colorful/Satisfiability.swift:53-73 | one loop pass fails exactly when the vertex has a match target present in the graph built so far and their known colours differ |
| Satisfiability.MatchedStepCorrect | Sources/Colorful/Satisfiability.swift:55-70 | a pass over a matched vertex finds its target still holding the base vertex, so it fails exactly on a conflict with the base colour and otherwise keeps the invariant |
| Satisfiability.UnmatchedStepCorrect | Sources/Colorful/Satisfiability.swift:71-73 | a pass over an unmatched vertex never fails and keeps the invariant |
| Satisfiability.AttachStepCorrect | Sources/Colorful/Satisfiability.swift:52-74 | one loop pass fails exactly on a colour conflict of a matched vertex, and otherwise keeps the invariant |
| Satisfiability.AttachAll | Sources/Colorful/Satisfiability.swift:52-74 | the loop never removes a vertex from the graph it extends; its outcome is stated by `Satisfiability.AttachAllCorrect` |
| Satisfiability.AttachAllCorrect | Sources/Colorful/Satisfiability.swift:52-76 | the loop from any point fails exactly when a vertex still to visit conflicts, and otherwise places every remaining vertex |
| Satisfiability.AttachGraphCorrect | Sources/Colorful/Satisfiability.swift:48-77 | for a well-posed stitching, in any visiting order: fails exactly on a conflicting matched pair; otherwise the result is the base with matched vertices merged, unmatched vertices shifted and nothing else |
| Satisfiability.AttachGraph | Sources/Colorful/Satisfiability.swift:48-77 | stitching never removes a base vertex. Line 53 renames each neighbour to its match target, or shifts it by the base's largest id. The full outcome is stated by `Satisfiability.AttachGraphCorrect` and `Satisfiability.AttachedAsUnique` |
| Satisfiability.AttachedAsAgreeAt | Sources/Colorful/Satisfiability.swift:48-77 | two graphs that both meet the stitching description agree on every id of the first |
| Satisfiability.AttachedAsUnique | Sources/Colorful/Satisfiability.swift:48-77 | at most one graph meets the stitching description, so for a well-posed stitching every visiting order gives the same graph |
| Satisfiability.AttachNot | Sources/Colorful/Satisfiability.swift:25-46 | a present neutral point has no negation and fails |
| Satisfiability.NotGadgetStitchable | Sources/Colorful/Satisfiability.swift:44-45 | the NOT gadget's matching is well posed at any point other than 2, and conflicts exactly when vertex 2 has a known non-neutral colour |
| Satisfiability.NotGadgetOutput | Sources/Colorful/Satisfiability.swift:44-45 | the gadget's output becomes one new vertex with the negated colour, adjacent to the point and to vertex 2 |
| Satisfiability.NotGadgetPoint | Sources/Colorful/Satisfiability.swift:44-45 | the point keeps its colour and gains the output and vertex 2 as neighbours |
| Satisfiability.NotGadgetNeutral | Sources/Colorful/Satisfiability.swift:44-45 | vertex 2 becomes neutral and gains the point and the output as neighbours |
| Satisfiability.NotGadgetNoOtherKeys | Sources/Colorful/Satisfiability.swift:44-45 | no vertex appears besides the base vertices and the output |
| Satisfiability.NotGadgetKeys | Sources/Colorful/Satisfiability.swift:44-45 | the ids are the base ids plus one new id |
| Satisfiability.NotGadgetElsewhere | Sources/Colorful/Satisfiability.swift:44-45 | base vertices other than the point and vertex 2 are untouched |
| Satisfiability.AttachNotCorrect | Sources/Colorful/Satisfiability.swift:25-46 | at a present point other than 2: fails exactly when the point is neutral or vertex 2 has a known non-neutral colour; otherwise adds one vertex with the negated colour, wired to the point and 2, and changes nothing else |
| Satisfiability.AttachNotAtAbsentPointOverwrites | Sources/Colorful/Satisfiability.swift:40-72 | on the base triangle at the absent point 5, visiting order 0, 1, 2, the gadget's input is stored at the base's largest id 2. It overwrites neutral vertex 2, which ends as (neutral, [3, 2, 5, 3]) and loses its edges to 0 and 1 |
| Satisfiability.AttachNotChecked | Sources/Colorful/Satisfiability.swift:25-46 | the guarded `attachNot` refuses an absent point and a neutral point, and never removes a base vertex |
| Satisfiability.AttachNotCheckedKeepsBase | Sources/Colorful/Satisfiability.swift:25-46 | the guarded version fails exactly on an absent or neutral point or a non-neutral vertex 2; otherwise every base vertex survives with its known colour and its adjacency as a prefix |
| Satisfiability.ToColor | Sources/Colorful/Satisfiability.swift:87-95 | a truth value is drawn as the palette colour with the same raw value |
| Satisfiability.ColoredGraph | Sources/Colorful/Satisfiability.swift:79-101 | fails exactly when some vertex is uncoloured; otherwise keeps ids and adjacency and carries every colour over by raw value |
| Satisfiability.ColoredGraphKeepsClashes | Sources/Colorful/Satisfiability.swift:79-101 | a converted graph has a same-coloured edge exactly when the truth colouring has one |
| Satisfiability.SatTriangleIsProper | Sources/Colorful/Satisfiability.swift:19-23 | the base triangle is fully coloured, well formed and proper |
| Satisfiability.SatTriangleIsThreeColored | Sources/Colorful/Satisfiability.swift:19-23 | the base triangle converts to a 3-coloured graph |
| Satisfiability.NotOfTruthOnTriangle | Sources/Colorful/Satisfiability.swift:25-46 | negating the true vertex of the base triangle, in any visiting order, adds vertex 3 coloured false next to vertices 1 and 2 |
| Satisfiability.NegatedTriangleIsProper | Sources/Colorful/Satisfiability.swift:44-45 | the triangle with the NOT gadget is fully coloured, well formed and proper |
| Satisfiability.NegatedTriangleIsThreeColored | Sources/Colorful/Satisfiability.swift:79-101 | the triangle with the NOT gadget converts to a 3-coloured graph |

## Left out

- Secure randomness and SHA-256 are not modelled. A draw is an input and the hash is a parameter, as described above.
- Commitment.CommitGraph: draws come as one per vertex id rather than as a stream consumed in visiting order. This is equivalent, because each vertex uses exactly one draw.
- The repeated protocol session is not modelled, and neither is its soundness probability. Neither appears in the scripts: they contain one round's building blocks and no driver for rounds, challenges or sessions.
- Asymmetric adjacency lists are not rejected when a graph is taken in. The code has no such check: `revealEdge` only refuses a pair that is not listed both ways. The model follows the code.
- The fixture loops print their results (Sources/Colorful/main.swift:160-169, ColorfulCLI/main.swift:109-118). The printing is left out. The verdicts are stated by the two `TestGraphsMeetExpectations` lemmas.
- The validators force-unwrap the lookup of each neighbour (Sources/Colorful/main.swift:75). A dangling neighbour id crashes them only if the scan reaches it before finding a clash, and whether it does depends on the dictionary order. The model's validators and relabellers therefore require `EdgesClosed` for every input. That also excludes some inputs on which the source returns false in every order, such as {1: (first, [2, 3]), 2: (first, [1])}.
- `main.swift` colours are `CGColor` values. The model's generic colour type carries only equality. The `Set` the prototype fills is modelled by the duplicate-free list the shared scan builds.
- Compile slips are read as evidently meant:
  - `Color.permutations` (Sources/Colorful/main.swift:97) is read as `Colors.permutations`.
  - `coloredGraph` names `.red`, `.grn`, `.blu`, which the `Colors` enum of that target does not have. They are read as `first`, `second`, `third`, which have the same raw values as the truth colours.
- Integer widths are not modelled. Vertex ids are unbounded, so the trap on overflow of `vertexID + bMax` is left out. Colour bytes use a `byte` type of 0 to 255.
- Satisfiability.AttachGraphCorrect: proved only for a well-posed stitching, in which:
  - every matched addition vertex names a distinct base vertex;
  - every unmatched id is at least 1.

  Outside that domain the result depends on the visiting order, because shifting id 0 by `bMax` lands on the base's largest vertex. `AttachGraph` itself models every input.
- Satisfiability.AttachNotCorrect: stated only for a present point other than 2, in a base that has vertex 2.
  - At point 2 both matched gadget vertices merge into vertex 2, and the result depends on the visiting order.
  - `attachNot` hard-codes 2 as the base's neutral vertex. Without vertex 2 in the base, the gadget's neutral vertex is shifted by `bMax`. It can land on the id the output vertex was shifted to, so the result depends on the visiting order. Example: base {0: (false, [1]), 1: (true, [0])} at point 1. Order 0, 1, 2 fails, and order 0, 2, 1 succeeds.
  - The absent point is the subject of the finding below.
- Satisfiability.AttachNotCheckedKeepsBase: stated only for a point other than 2, in a base that has vertex 2, for the same reasons as `Satisfiability.AttachNotCorrect`. Without vertex 2 the outcome depends on the visiting order.

## Findings

| source | as written | input that shows it | evidently intended | confidence | as-written member | corrected member |
|---|---|---|---|---|---|---|
| Sources/Colorful/Satisfiability.swift:40-72 | `attachNot` stitches the gadget even when `point` is not a vertex; gadget vertex 0 then has no match target and is stored at `0 + bMax`, the base's largest id | base = `makeSATGraph()`, point 5, visiting order 0, 1, 2: vertex 2 ends as (neutral, [3, 2, 5, 3]), losing its edges to 0 and 1 and naming the missing vertex 5 | refuse a point that is not a vertex, so every base vertex and its adjacency survive | not executed | Satisfiability.AttachNotAtAbsentPointOverwrites | Satisfiability.AttachNotCheckedKeepsBase |
