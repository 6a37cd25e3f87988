/**
 * The face identity index of src/FaceIndex.cpp: a label -> name map, a
 * label -> vector store (an hnswlib graph in the C++ code, here an exact map)
 * and a monotone label counter. The index is an immutable value; every
 * operation returns the new state.
 */
module FaceIndex {
  import opened Wrappers
  import opened EmbeddingMath

  /** Fixed capacity the hnswlib graph is created with; adding beyond it throws. */
  const Capacity: nat := 10000

  /** Similarity threshold `search` uses when the caller gives none. */
  const DefaultThreshold: real := 0.7

  type Label = nat

  /** The backend's distance between a query and a stored vector. */
  type Distance = (Vector, Vector) -> real

  datatype Index = Index(
    dim: nat,                        // length of every stored vector, fixed at construction
    nextId: nat,                     // the label the next `add` will issue
    names: map<Label, string>,       // idToName
    vectors: map<Label, Vector>)     // the vector store, keyed by the same labels

  /** The labels issued so far when the counter stands at `n`. */
  function Issued(n: nat): (r: set<Label>)
    ensures forall l: Label :: l in r <==> l < n
    ensures |r| == n
  {
    if n == 0 then {} else Issued(n - 1) + {n - 1}
  }

  /**
   * The invariant every public operation keeps: the labels with a name are
   * exactly 0..nextId-1, each has exactly one stored vector, and every stored
   * vector has `dim` components.
   */
  predicate Valid(ix: Index) {
    && (forall l :: l in ix.names ==> l < ix.nextId)
    && (forall l :: l in ix.vectors ==> l < ix.nextId)
    && (forall l: Label :: l < ix.nextId ==> l in ix.names && l in ix.vectors)
    && forall l :: l in ix.vectors ==> |ix.vectors[l]| == ix.dim
  }

  /** In a valid index the number of stored vectors is the label counter. */
  lemma {:induction false} ValidSize(ix: Index)
    requires Valid(ix)
    ensures |ix.vectors| == ix.nextId && |ix.names| == ix.nextId
  {
    assert ix.vectors.Keys == Issued(ix.nextId);
    assert ix.names.Keys == Issued(ix.nextId);
  }

  /** A freshly constructed index: nothing stored, first label to issue is 0. */
  function New(dim: nat): (r: Index)
    ensures Valid(r)
    ensures r.dim == dim && r.nextId == 0
    ensures |r.names| == 0 && |r.vectors| == 0
  {
    Index(dim, 0, map[], map[])
  }

  /** The index with `name` and `v` stored under the counter and the counter advanced. */
  function Store(ix: Index, name: string, v: Vector): Index {
    Index(ix.dim, ix.nextId + 1, ix.names[ix.nextId := name], ix.vectors[ix.nextId := v])
  }

  /** Storing a vector of the right length under the counter keeps a valid index valid. */
  lemma {:induction false} StoreValid(ix: Index, name: string, v: Vector)
    requires |v| == ix.dim
    ensures Valid(ix) ==> ix.nextId !in ix.names && ix.nextId !in ix.vectors && Valid(Store(ix, name, v))
  {
    if Valid(ix) {
      var r := Store(ix, name, v);
      forall l: Label | l < r.nextId ensures l in r.names && l in r.vectors {
        if l < ix.nextId {
          assert l in ix.names && l in ix.vectors;
        }
      }
    }
  }

  /**
   * `add`: stores the normalised embedding and the name under the label
   * `nextId`, then advances the counter by one.
   */
  function Add(ix: Index, name: string, embedding: Vector, sqrt: real -> real): (r: Index)
    requires |embedding| == ix.dim
    requires |ix.vectors| < Capacity
    ensures r.dim == ix.dim
    ensures r.nextId == ix.nextId + 1
    ensures ix.nextId in r.names && r.names[ix.nextId] == name
    ensures ix.nextId in r.vectors && r.vectors[ix.nextId] == Normalize(embedding, sqrt)
    ensures forall l :: l in r.names <==> l in ix.names || l == ix.nextId
    ensures forall l :: l in r.vectors <==> l in ix.vectors || l == ix.nextId
    ensures forall l :: l in ix.names && l != ix.nextId ==> r.names[l] == ix.names[l]
    ensures forall l :: l in ix.vectors && l != ix.nextId ==> r.vectors[l] == ix.vectors[l]
    ensures Valid(ix) ==> ix.nextId !in ix.names && ix.nextId !in ix.vectors && Valid(r)
    ensures |r.vectors| <= |ix.vectors| + 1
    ensures Valid(ix) ==> |r.vectors| == |ix.vectors| + 1
  {
    var v := Normalize(embedding, sqrt);
    StoreValid(ix, name, v);
    Store(ix, name, v)
  }

  /** Adding never disturbs an entry that was already stored in a valid index. */
  lemma {:induction false} AddKeepsEntries(ix: Index, name: string, embedding: Vector, sqrt: real -> real, l: Label)
    requires Valid(ix)
    requires |embedding| == ix.dim && |ix.vectors| < Capacity
    requires l in ix.names
    ensures l in Add(ix, name, embedding, sqrt).names
    ensures Add(ix, name, embedding, sqrt).names[l] == ix.names[l]
    ensures Add(ix, name, embedding, sqrt).vectors[l] == ix.vectors[l]
    ensures l < ix.nextId
  {
  }

  /** The labels two successive adds issue are distinct: labels are never reused. */
  lemma {:induction false} AddIssuesFreshLabels(ix: Index, n1: string, e1: Vector, n2: string, e2: Vector, sqrt: real -> real)
    requires Valid(ix)
    requires |e1| == ix.dim && |e2| == ix.dim && |ix.vectors| + 1 < Capacity
    ensures var ix1 := Add(ix, n1, e1, sqrt);
      && ix1.nextId != ix.nextId
      && ix1.nextId !in ix1.names
      && Add(ix1, n2, e2, sqrt).names[ix.nextId] == n1
  {
    var ix1 := Add(ix, n1, e1, sqrt);
    assert Valid(ix1);
    ValidSize(ix);
  }

  /** One candidate answer of the nearest-neighbour query. */
  datatype Hit = Hit(key: Label, distance: real)

  /** `l` is stored and no stored vector is strictly closer to `q`. */
  predicate IsNearest(vs: map<Label, Vector>, q: Vector, dist: Distance, l: Label) {
    l in vs && forall k :: k in vs ==> dist(q, vs[l]) <= dist(q, vs[k])
  }

  /**
   * Exact top-1 search over the labels below `n`: the backend's `searchKnn(q, 1)`
   * taken as a brute-force scan.
   */
  function Nearest(vs: map<Label, Vector>, n: nat, q: Vector, dist: Distance): (r: Option<Hit>)
    ensures r.None? <==> forall l :: l in vs ==> l >= n
    ensures r.Some? ==> r.value.key < n && r.value.key in vs
    ensures r.Some? ==> r.value.distance == dist(q, vs[r.value.key])
    ensures r.Some? ==> forall l :: l in vs && l < n ==> r.value.distance <= dist(q, vs[l])
  {
    if n == 0 then None
    else
      var best := Nearest(vs, n - 1, q, dist);
      var l := n - 1;
      if l !in vs then best
      else
        var d := dist(q, vs[l]);
        if best.None? || d < best.value.distance then Some(Hit(l, d)) else best
  }

  /** The pair `search` returns: a name ("" for no match) and a similarity. */
  datatype Match = Match(name: string, similarity: real)

  /**
   * `search`: normalises the query, takes the nearest stored vector, and
   * converts the reported distance to a similarity; the stored name is
   * returned only when the similarity reaches the threshold.
   */
  function Search(ix: Index, query: Vector, threshold: real, sqrt: real -> real, dist: Distance): (r: Match)
    requires Valid(ix)
    requires |query| == ix.dim
    ensures ix.nextId == 0 ==> r == Match("", 0.0)
    ensures ix.nextId > 0 ==>
      exists l :: IsNearest(ix.vectors, Normalize(query, sqrt), dist, l)
        && l in ix.names
        && r.similarity == Similarity(dist(Normalize(query, sqrt), ix.vectors[l]))
        && r.name == (if r.similarity < threshold then "" else ix.names[l])
    ensures r.similarity <= 1.0
  {
    var q := Normalize(query, sqrt);
    match Nearest(ix.vectors, ix.nextId, q, dist)
    case None => Match("", 0.0)
    case Some(hit) =>
      var sim := Similarity(hit.distance);
      if sim < threshold then Match("", sim) else Match(ix.names[hit.key], sim)
  }

  /**
   * The reported similarity is the best similarity over all stored vectors,
   * when the backend's distances are non-negative.
   */
  lemma {:induction false} SearchIsMostSimilar(ix: Index, query: Vector, threshold: real, sqrt: real -> real, dist: Distance, k: Label)
    requires Valid(ix) && |query| == ix.dim
    requires k in ix.vectors
    requires forall l :: l in ix.vectors ==> dist(Normalize(query, sqrt), ix.vectors[l]) >= 0.0
    ensures Search(ix, query, threshold, sqrt, dist).similarity
         >= Similarity(dist(Normalize(query, sqrt), ix.vectors[k]))
  {
    var q := Normalize(query, sqrt);
    var h := Nearest(ix.vectors, ix.nextId, q, dist);
    assert h.Some?;
    assert Search(ix, query, threshold, sqrt, dist).similarity == Similarity(h.value.distance);
    SimilarityAntitone(h.value.distance, dist(q, ix.vectors[k]));
  }

  /** A name is reported only at or above the threshold, and at the default threshold that means 0.7. */
  lemma {:induction false} SearchNameNeedsThreshold(ix: Index, query: Vector, sqrt: real -> real, dist: Distance)
    requires Valid(ix) && |query| == ix.dim
    ensures var r := Search(ix, query, DefaultThreshold, sqrt, dist);
      r.name != "" ==> r.similarity >= 0.7
  {
  }

  /** Searching an empty index reports no name and similarity 0, whatever the threshold. */
  lemma {:induction false} SearchEmpty(dim: nat, query: Vector, threshold: real, sqrt: real -> real, dist: Distance)
    requires |query| == dim
    ensures Search(New(dim), query, threshold, sqrt, dist) == Match("", 0.0)
  {
  }
}
