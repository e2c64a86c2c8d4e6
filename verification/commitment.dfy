/** One round of the zero-knowledge demo (Sources/Colorful/main.swift):
    committing to every vertex colour, revealing the two secrets of a
    challenged edge, and checking them against the commitments.

    The secure random source and SHA-256 are not modelled: a random draw is an
    input (`Draw`: the status of the call and the bytes it wrote) and the hash
    is a function-valued parameter about which nothing is assumed unless a
    lemma says so. */
module Commitment {

  import opened Options
  import opened Graphs
  import opened Colorful

  /** A hash digest. */
  type Digest = seq<byte>

  /** Length of a secret in bytes; the last byte carries the colour tag. */
  const SecretLength: nat := 33

  /** The outcome of one call to the random source: whether it succeeded and
      the buffer of `SecretLength` bytes it filled. */
  datatype Draw = Draw(ok: bool, noise: seq<byte>)

  /** What the verifier sees of a vertex: the commitment and the adjacency. */
  datatype CommittedVertex = CommittedVertex(digest: Digest, edges: seq<int>)

  type CommittedGraph = map<int, CommittedVertex>

  type VertexSecrets = map<int, seq<byte>>

  /** The colour a secret carries in its last byte; an empty secret reads as
      the byte 255, which is no colour. */
  function TagOf(secret: seq<byte>): (r: Option<Colors>)
    ensures r.Some? ==> |secret| > 0 && r.value.Raw() == secret[|secret| - 1]
    ensures |secret| > 0 && secret[|secret| - 1] < 3 ==> r.Some?
  {
    FromRaw(if |secret| == 0 then 255 else secret[|secret| - 1])
  }

  /** `commitmentForColor`: a failed draw gives nothing; otherwise the secret
      is the drawn buffer with its last byte overwritten by the colour's raw
      value, paired with the hash of the whole secret. */
  function CommitmentForColor(color: Colors, draw: Draw, hash: seq<byte> -> Digest): (r: Option<(seq<byte>, Digest)>)
    requires |draw.noise| == SecretLength
    ensures r.None? <==> !draw.ok
    ensures r.Some? ==>
              && |r.value.0| == SecretLength
              && r.value.0[..SecretLength - 1] == draw.noise[..SecretLength - 1]
              && TagOf(r.value.0) == Some(color)
              && r.value.1 == hash(r.value.0)
  {
    if !draw.ok then None
    else
      var secret := draw.noise[SecretLength - 1 := color.Raw()];
      Some((secret, hash(secret)))
  }

  /** `secrets` and `committed` are what committing every vertex of `g`
      produces: the same ids, the adjacency copied, a well-formed secret
      carrying the vertex colour, and its hash as the commitment. */
  predicate CommitsTo(g: Graph<Colors>, committed: CommittedGraph, secrets: VertexSecrets, hash: seq<byte> -> Digest) {
    && committed.Keys == g.Keys
    && secrets.Keys == g.Keys
    && forall v :: v in g ==>
         && committed[v].edges == g[v].edges
         && |secrets[v]| == SecretLength
         && TagOf(secrets[v]) == Some(g[v].color)
         && committed[v].digest == hash(secrets[v])
  }

  /** `commitedGraph`: commit to every vertex, one draw per vertex; a single
      failed draw fails the whole call. */
  method CommitGraph(g: Graph<Colors>, draws: map<int, Draw>, hash: seq<byte> -> Digest)
    returns (r: Option<(CommittedGraph, VertexSecrets)>)
    requires forall v :: v in g ==> v in draws && |draws[v].noise| == SecretLength
    ensures r.None? <==> exists v :: v in g && !draws[v].ok
    ensures r.Some? ==> CommitsTo(g, r.value.0, r.value.1, hash)
    ensures r.Some? ==> forall v :: v in g ==>
              r.value.1[v][..SecretLength - 1] == draws[v].noise[..SecretLength - 1]
  {
    var committed: CommittedGraph := map[];
    var secrets: VertexSecrets := map[];
    var todo := g.Keys;
    while todo != {}
      invariant todo <= g.Keys
      invariant committed.Keys == secrets.Keys == g.Keys - todo
      invariant forall v :: v in g && v !in todo ==>
                  && draws[v].ok
                  && committed[v].edges == g[v].edges
                  && |secrets[v]| == SecretLength
                  && secrets[v][..SecretLength - 1] == draws[v].noise[..SecretLength - 1]
                  && TagOf(secrets[v]) == Some(g[v].color)
                  && committed[v].digest == hash(secrets[v])
      decreases todo
    {
      NonEmptyHasElement(todo);
      var v :| v in todo;
      var c := CommitmentForColor(g[v].color, draws[v], hash);
      if c.None? {
        return None;
      }
      var (secret, commitment) := c.value;
      committed := committed[v := CommittedVertex(commitment, g[v].edges)];
      secrets := secrets[v := secret];
      todo := todo - {v};
    }
    return Some((committed, secrets));
  }

  /** `revealEdge`: the two secrets of a challenged pair, handed out only if
      each vertex lists the other and both secrets exist. */
  function RevealEdge(committed: CommittedGraph, secrets: VertexSecrets, a: int, b: int): (r: Option<(seq<byte>, seq<byte>)>)
    ensures r.Some? <==>
              && a in committed && b in committed[a].edges
              && b in committed && a in committed[b].edges
              && a in secrets && b in secrets
    ensures r.Some? ==> r.value == (secrets[a], secrets[b])
  {
    if a in committed && b in committed[a].edges && b in committed && a in committed[b].edges then
      if a in secrets && b in secrets then Some((secrets[a], secrets[b])) else None
    else None
  }

  /** `verifyEdge`: both secrets end in a valid colour tag, both hash to the
      commitments stored for the two vertices, and the two tags differ.
      Adjacency is not checked here. */
  function VerifyEdge(committed: CommittedGraph, revealed: (seq<byte>, seq<byte>), a: int, b: int, hash: seq<byte> -> Digest): (r: bool)
    ensures r <==>
              && |revealed.0| > 0 && revealed.0[|revealed.0| - 1] < 3
              && |revealed.1| > 0 && revealed.1[|revealed.1| - 1] < 3
              && a in committed && hash(revealed.0) == committed[a].digest
              && b in committed && hash(revealed.1) == committed[b].digest
              && revealed.0[|revealed.0| - 1] != revealed.1[|revealed.1| - 1]
  {
    match (TagOf(revealed.0), TagOf(revealed.1))
    case (Some(ta), Some(tb)) =>
      && a in committed && hash(revealed.0) == committed[a].digest
      && b in committed && hash(revealed.1) == committed[b].digest
      && ta != tb
    case _ => false
  }

  /** On the secrets of an honest commitment, `verifyEdge` accepts exactly
      when the two committed colours differ, whether or not the vertices are
      adjacent. */
  lemma HonestOpeningVerdict(g: Graph<Colors>, committed: CommittedGraph, secrets: VertexSecrets,
                             hash: seq<byte> -> Digest, a: int, b: int)
    requires CommitsTo(g, committed, secrets, hash)
    requires a in g && b in g
    ensures VerifyEdge(committed, (secrets[a], secrets[b]), a, b, hash) <==> g[a].color != g[b].color
  {
    assert TagOf(secrets[a]) == Some(g[a].color) && TagOf(secrets[b]) == Some(g[b].color);
    if g[a].color == g[b].color {
      assert secrets[a][|secrets[a]| - 1] == secrets[b][|secrets[b]| - 1];
    } else {
      FromRawInvertsRaw(g[a].color);
      FromRawInvertsRaw(g[b].color);
    }
  }

  /** Completeness of one round: for a graph with no same-coloured edge,
      committing, revealing an edge listed in both directions and verifying
      the revealed pair always succeeds. */
  lemma Completeness(g: Graph<Colors>, committed: CommittedGraph, secrets: VertexSecrets,
                     hash: seq<byte> -> Digest, a: int, b: int)
    requires EdgesClosed(g) && NoClash(g)
    requires CommitsTo(g, committed, secrets, hash)
    requires a in g && b in g[a].edges && a in g[b].edges
    ensures RevealEdge(committed, secrets, a, b).Some?
    ensures VerifyEdge(committed, RevealEdge(committed, secrets, a, b).value, a, b, hash)
  {
    var i :| 0 <= i < |g[a].edges| && g[a].edges[i] == b;
    assert g[b].color != g[a].color;
    HonestOpeningVerdict(g, committed, secrets, hash, a, b);
  }

  /** With a collision-free hash, an accepted opening carries exactly the
      committed colours, so an accepted challenge shows that the committed
      colouring gives the two vertices different colours. */
  lemma AcceptedOpeningShowsCommittedColors(g: Graph<Colors>, committed: CommittedGraph, secrets: VertexSecrets,
                                            hash: seq<byte> -> Digest, a: int, b: int, revealed: (seq<byte>, seq<byte>))
    requires forall x, y :: hash(x) == hash(y) ==> x == y
    requires CommitsTo(g, committed, secrets, hash)
    requires VerifyEdge(committed, revealed, a, b, hash)
    ensures a in g && b in g
    ensures revealed == (secrets[a], secrets[b])
    ensures g[a].color != g[b].color
  {
    assert hash(revealed.0) == hash(secrets[a]);
    assert hash(revealed.1) == hash(secrets[b]);
    HonestOpeningVerdict(g, committed, secrets, hash, a, b);
  }

}
