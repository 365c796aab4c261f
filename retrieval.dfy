/** Retrieval of passages for the evolved questions (`context_gathering`): an
    exact flat L2 index or a Qdrant collection answers each question's
    embedding with neighbour ids, and the ids that name documents become the
    question's passages. */
module Retrieval {
  import opened Wrappers
  import opened State
  import opened Evolution

  const EmbeddingsMissingMessage := "Document embeddings are missing from the state."
  const QdrantMissingMessage := "Qdrant client and collection name are required when using Qdrant."

  /** The padding id the flat index returns when fewer than `k` vectors are stored. */
  const NoNeighbour: int := -1

  function Min(a: int, b: int): int
  {
    if a <= b then a else b
  }

  /** The squared Euclidean distance of two vectors of equal width. */
  function SqDist(u: seq<real>, v: seq<real>): (r: real)
    requires |u| == |v|
    ensures r >= 0.0
  {
    if u == [] then 0.0 else (u[0] - v[0]) * (u[0] - v[0]) + SqDist(u[1..], v[1..])
  }

  /** Every vector has width `width`. */
  predicate AllWidth(vectors: seq<seq<real>>, width: nat)
  {
    forall i :: 0 <= i < |vectors| ==> |vectors[i]| == width
  }

  /** The distance of every stored vector to the query. */
  function Distances(vectors: seq<seq<real>>, query: seq<real>): (d: seq<real>)
    requires AllWidth(vectors, |query|)
    ensures |d| == |vectors|
    ensures forall i :: 0 <= i < |d| ==> d[i] == SqDist(vectors[i], query)
  {
    seq(|vectors|, i requires 0 <= i < |vectors| => SqDist(vectors[i], query))
  }

  /** Stored vector `i` ranks before vector `j`: it is closer, or as close with
      a lower id. */
  predicate Better(d: seq<real>, i: int, j: int)
  {
    0 <= i < |d| && 0 <= j < |d| && (d[i] < d[j] || (d[i] == d[j] && i < j))
  }

  /** `s` lists ids of stored vectors from best to worst (so without repeats). */
  predicate Ranked(d: seq<real>, s: seq<nat>)
  {
    forall a, b :: 0 <= a < b < |s| ==> Better(d, s[a], s[b])
  }

  /** `x` placed into the ranking `s`: before the first id it ranks before. */
  function Insert(d: seq<real>, x: nat, s: seq<nat>): (r: seq<nat>)
    ensures |r| == |s| + 1
  {
    if s == [] then [x]
    else if Better(d, x, s[0]) then [x] + s
    else [s[0]] + Insert(d, x, s[1..])
  }

  /** Insertion adds exactly `x`. */
  lemma {:induction false} InsertMembers(d: seq<real>, x: nat, s: seq<nat>)
    ensures forall y :: y in Insert(d, x, s) <==> y == x || y in s
  {
    if s != [] && !Better(d, x, s[0]) {
      InsertMembers(d, x, s[1..]);
      assert s == [s[0]] + s[1..];
    }
  }

  /** Insertion keeps a ranking ranked when `x` is a new stored id. */
  lemma {:induction false} InsertRanked(d: seq<real>, x: nat, s: seq<nat>)
    requires x < |d| && (forall y :: y in s ==> y < |d|) && Ranked(d, s) && x !in s
    ensures Ranked(d, Insert(d, x, s))
  {
    if s == [] {
    } else if Better(d, x, s[0]) {
      forall b | 0 <= b < |s|
        ensures Better(d, x, s[b])
      {
        if b > 0 {
          assert Better(d, s[0], s[b]);
        }
      }
      assert Insert(d, x, s) == [x] + s;
    } else {
      assert forall y :: y in s[1..] ==> y in s;
      var t := Insert(d, x, s[1..]);
      InsertRanked(d, x, s[1..]);
      InsertMembers(d, x, s[1..]);
      assert s[0] in s;
      InsertBelowHead(d, x, s, t);
      assert Insert(d, x, s) == [s[0]] + t;
    }
  }

  /** The head of a ranking ranks before everything in its tail with `x` put in,
      when `x` does not rank before the head. */
  lemma InsertBelowHead(d: seq<real>, x: nat, s: seq<nat>, t: seq<nat>)
    requires s != [] && x < |d| && s[0] < |d| && !Better(d, x, s[0])
    requires forall y :: y in t <==> y == x || y in s[1..]
    ensures Ranked(d, s) && x !in s ==> forall b :: 0 <= b < |t| ==> Better(d, s[0], t[b])
  {
    if Ranked(d, s) && x !in s {
      forall b | 0 <= b < |t|
        ensures Better(d, s[0], t[b])
      {
        assert t[b] in t;
        if t[b] != x {
          var c :| 0 <= c < |s[1..]| && s[1..][c] == t[b];
          assert s[c + 1] == t[b];
        }
      }
    }
  }

  /** The ids `0 .. n-1`, inserted in turn. */
  function Rank(d: seq<real>, n: nat): (r: seq<nat>)
    ensures |r| == n
  {
    if n == 0 then [] else Insert(d, n - 1, Rank(d, n - 1))
  }

  /** `Rank` lists every stored id below `n` once, from best to worst. */
  lemma {:induction false} RankMeaning(d: seq<real>, n: nat)
    requires n <= |d|
    ensures forall y: int :: y in Rank(d, n) <==> 0 <= y < n
    ensures Ranked(d, Rank(d, n))
  {
    if n > 0 {
      RankMeaning(d, n - 1);
      InsertMembers(d, n - 1, Rank(d, n - 1));
      InsertRanked(d, n - 1, Rank(d, n - 1));
    }
  }

  /** `n` padding ids. */
  function Pad(n: nat): (r: seq<int>)
    ensures |r| == n && forall a :: 0 <= a < n ==> r[a] == NoNeighbour
  {
    seq(n, _ => NoNeighbour)
  }

  /** The row of neighbour ids an exact L2 search returns for `k`: the best
      `k` stored ids, padded with `NoNeighbour` up to `k` when fewer are stored. */
  function NearestK(d: seq<real>, k: int): seq<int>
  {
    var m := Min(Max0(k), |d|);
    Rank(d, |d|)[..m] + Pad(Max0(k) - m)
  }

  /** The row has `k` entries: the first `min(k, n)` are stored ids from best
      to worst, none of them repeated; the rest are padding; every stored id
      left out ranks after every id returned; and with `k >= n` every stored
      id is returned. */
  lemma NearestKMeaning(d: seq<real>, k: int)
    ensures |NearestK(d, k)| == Max0(k)
    ensures forall a :: 0 <= a < |NearestK(d, k)| && a < |d| ==> 0 <= NearestK(d, k)[a] < |d|
    ensures forall a :: 0 <= a < |NearestK(d, k)| && a >= |d| ==> NearestK(d, k)[a] == NoNeighbour
    ensures forall a, b :: 0 <= a < b < |NearestK(d, k)| && b < |d| ==> Better(d, NearestK(d, k)[a], NearestK(d, k)[b])
    ensures forall a, j :: 0 <= a < |NearestK(d, k)| && a < |d| && 0 <= j < |d| && j !in NearestK(d, k) ==>
              Better(d, NearestK(d, k)[a], j)
    ensures Max0(k) >= |d| ==> forall j :: 0 <= j < |d| ==> j in NearestK(d, k)
  {
    var s := Rank(d, |d|);
    RankMeaning(d, |d|);
    var m := Min(Max0(k), |d|);
    var r := NearestK(d, k);
    forall a | 0 <= a < m
      ensures r[a] == s[a] && 0 <= s[a] < |d| && s[a] in r
    {
      assert s[a] in s;
    }
    forall a, j | 0 <= a < |r| && a < |d| && 0 <= j < |d| && j !in r
      ensures Better(d, r[a], j)
    {
      assert j in s;
      var p :| 0 <= p < |s| && s[p] == j;
      assert m <= p;
    }
    if Max0(k) >= |d| {
      forall j | 0 <= j < |d|
        ensures j in r
      {
        assert j in s;
        var p :| 0 <= p < |s| && s[p] == j;
        assert r[p] == j;
      }
    }
  }

  /** Five points in the plane and the origin as query: the three nearest are
      the origin itself and then the two unit points, the tie broken by id. */
  lemma NearestKExample()
    ensures NearestK(Distances([[0.0, 0.0], [1.0, 0.0], [5.0, 5.0], [0.0, 1.0], [2.0, 2.0]], [0.0, 0.0]), 3) == [0, 1, 3]
  {
    ExampleDistances();
    ExampleRanking();
  }

  lemma ExampleDistances()
    ensures Distances([[0.0, 0.0], [1.0, 0.0], [5.0, 5.0], [0.0, 1.0], [2.0, 2.0]], [0.0, 0.0])
            == [0.0, 1.0, 50.0, 1.0, 8.0]
  {
    var v := [[0.0, 0.0], [1.0, 0.0], [5.0, 5.0], [0.0, 1.0], [2.0, 2.0]];
    assert SqDist(v[2], [0.0, 0.0]) == 50.0 by {
      assert v[2][1..] == [5.0];
    }
    assert SqDist(v[4], [0.0, 0.0]) == 8.0 by {
      assert v[4][1..] == [2.0];
    }
  }

  lemma ExampleRanking()
    ensures NearestK([0.0, 1.0, 50.0, 1.0, 8.0], 3) == [0, 1, 3]
  {
    var d := [0.0, 1.0, 50.0, 1.0, 8.0];
    assert Rank(d, 2) == [0, 1];
    assert Rank(d, 3) == [0, 1, 2];
    assert Rank(d, 4) == [0, 1, 3, 2];
    assert Rank(d, 5) == [0, 1, 3, 4, 2];
  }

  /** Two stored vectors and `k = 3`: the row ends in a padding id. */
  lemma NearestKPads()
    ensures NearestK(Distances([[0.0], [1.0]], [0.0]), 3) == [0, 1, NoNeighbour]
  {
    var d := Distances([[0.0], [1.0]], [0.0]);
    assert d == [0.0, 1.0];
    assert Rank(d, 2) == [0, 1];
  }

  /** `faiss.IndexFlatL2`: an exact L2 index over vectors of one fixed width. */
  class FlatIndexL2 {
    const dimension: nat
    var vectors: seq<seq<real>>

    predicate Valid()
      reads this
    {
      AllWidth(vectors, dimension)
    }

    /** `IndexFlatL2(d)`: an empty index of width `d`. */
    constructor(dimension: nat)
      ensures this.dimension == dimension && vectors == [] && Valid()
    {
      this.dimension := dimension;
      vectors := [];
    }

    /** `index.add(xs)`: appends the rows when every one has the index's width;
        otherwise adds nothing and reports failure. */
    method Add(xs: seq<seq<real>>) returns (ok: bool)
      requires Valid()
      modifies this
      ensures Valid()
      ensures ok <==> AllWidth(xs, dimension)
      ensures vectors == if ok then old(vectors) + xs else old(vectors)
    {
      ok := forall i :: 0 <= i < |xs| ==> |xs[i]| == dimension;
      if ok {
        vectors := vectors + xs;
      }
    }

    /** `faiss_search`: the single result row of a search for `k` neighbours;
        a query of another width is rejected. */
    method Search(query: seq<real>, k: int) returns (r: Result<seq<int>>)
      requires Valid()
      ensures |query| != dimension <==> r == Err(DimensionMismatch)
      ensures |query| == dimension ==> r == Ok(NearestK(Distances(vectors, query), k))
    {
      if |query| != dimension {
        return Err(DimensionMismatch);
      }
      r := Ok(NearestK(Distances(vectors, query), k));
    }
  }

  /** A Qdrant search hit; only its id is used. */
  datatype Hit = Hit(id: int)

  /** A Qdrant client: its `search(collection, query, limit)` answer. */
  datatype QdrantClient = QdrantClient(search: (string, seq<real>, nat) -> seq<Hit>)

  /** `qdrant_search`: the ids of the hits in the order the backend gives them,
      at most `k` of them. */
  function QdrantSearch(client: QdrantClient, collection: string, query: seq<real>, k: int): (r: seq<int>)
    ensures |r| <= Max0(k)
    ensures |r| == Min(|client.search(collection, query, Max0(k))|, Max0(k))
    ensures forall a :: 0 <= a < |r| ==> r[a] == client.search(collection, query, Max0(k))[a].id
  {
    var hits := client.search(collection, query, Max0(k));
    var m := Min(|hits|, Max0(k));
    seq(m, a requires 0 <= a < m => hits[a].id)
  }

  /** The passage list as the comprehension is written: ids at or above the
      document count are dropped, and a negative id reads from the end of the
      list, an id below minus the count raising `IndexError`. */
  function PassagesAsWritten(documents: seq<Document>, ids: seq<int>): (r: Result<seq<string>>)
    ensures r.Ok? <==> forall j :: 0 <= j < |ids| ==> ids[j] >= -|documents|
    ensures r.Err? ==> r.error == IndexError
    ensures r.Ok? ==> |r.value| <= |ids|
  {
    if ids == [] then Ok([])
    else
      match PassagesAsWritten(documents, ids[..|ids| - 1])
      case Err(e) => Err(e)
      case Ok(prev) =>
        var i := ids[|ids| - 1];
        if i >= |documents| then Ok(prev)
        else if i >= 0 then Ok(prev + [documents[i].pageContent])
        else if i >= -|documents| then Ok(prev + [documents[|documents| + i].pageContent])
        else Err(IndexError)
  }

  /** The id names a stored document. */
  predicate NamesDocument(documents: seq<Document>, i: int)
  {
    0 <= i < |documents|
  }

  /** The passage list: the page text of every returned id that names a
      document, in returned order. */
  function Passages(documents: seq<Document>, ids: seq<int>): (r: seq<string>)
    ensures |r| <= |ids|
  {
    if ids == [] then []
    else
      var i := ids[|ids| - 1];
      Passages(documents, ids[..|ids| - 1]) + (if NamesDocument(documents, i) then [documents[i].pageContent] else [])
  }

  /** The positions in `ids` of the ids that name documents, in order. */
  function Sources(documents: seq<Document>, ids: seq<int>): (r: seq<nat>)
    ensures forall t :: 0 <= t < |r| ==> r[t] < |ids| && NamesDocument(documents, ids[r[t]])
    ensures forall t, u :: 0 <= t < u < |r| ==> r[t] < r[u]
  {
    if ids == [] then []
    else if NamesDocument(documents, ids[|ids| - 1]) then Sources(documents, ids[..|ids| - 1]) + [|ids| - 1]
    else Sources(documents, ids[..|ids| - 1])
  }

  /** Passage `t` is the text of the document named at position `Sources[t]`,
      and every position whose id names a document is a source. */
  lemma {:induction false} PassagesMeaning(documents: seq<Document>, ids: seq<int>)
    ensures |Passages(documents, ids)| == |Sources(documents, ids)|
    ensures forall t :: 0 <= t < |Passages(documents, ids)| ==>
              ids[Sources(documents, ids)[t]] < |documents|
              && Passages(documents, ids)[t] == documents[ids[Sources(documents, ids)[t]]].pageContent
    ensures forall j :: 0 <= j < |ids| && NamesDocument(documents, ids[j]) ==> j in Sources(documents, ids)
  {
    if ids != [] {
      PassagesMeaning(documents, ids[..|ids| - 1]);
    }
  }

  /** There are no passages exactly when no returned id names a document. */
  lemma {:induction false} PassagesEmptyIff(documents: seq<Document>, ids: seq<int>)
    ensures Passages(documents, ids) == [] <==> forall j :: 0 <= j < |ids| ==> !NamesDocument(documents, ids[j])
  {
    if ids != [] {
      var n := |ids| - 1;
      PassagesEmptyIff(documents, ids[..n]);
      var prev := Passages(documents, ids[..n]);
      if NamesDocument(documents, ids[n]) {
        assert Passages(documents, ids) == prev + [documents[ids[n]].pageContent];
      } else {
        assert Passages(documents, ids) == prev + [];
        assert prev + [] == prev;
        assert forall j :: 0 <= j < n ==> ids[..n][j] == ids[j];
      }
    }
  }

  /** Without negative ids the comprehension as written gives the same passages. */
  lemma {:induction false} PassagesAsWrittenAgrees(documents: seq<Document>, ids: seq<int>)
    requires forall j :: 0 <= j < |ids| ==> ids[j] >= 0
    ensures PassagesAsWritten(documents, ids) == Ok(Passages(documents, ids))
  {
    if ids != [] {
      var n := |ids| - 1;
      PassagesAsWrittenAgrees(documents, ids[..n]);
      var prev := Passages(documents, ids[..n]);
      if NamesDocument(documents, ids[n]) {
        assert Passages(documents, ids) == prev + [documents[ids[n]].pageContent];
      } else {
        assert Passages(documents, ids) == prev + [];
        assert prev + [] == prev;
      }
    }
  }

  /** A flat index holding at least `k` vectors fills its whole row with
      stored ids, so no padding id is returned. */
  lemma NearestKWithinStore(d: seq<real>, k: int)
    requires Max0(k) <= |d|
    ensures forall a :: 0 <= a < |NearestK(d, k)| ==> 0 <= NearestK(d, k)[a] < |d|
  {
    NearestKMeaning(d, k);
  }

  /** Two documents and `k = 3`: the padding id passes the one-sided filter and
      repeats the last document's text; with no documents it raises. The
      passage list keeps only the two real neighbours. */
  lemma PaddingReadsLastDocument()
    ensures var ids := NearestK(Distances([[0.0], [1.0]], [0.0]), 3);
            && PassagesAsWritten([Document("a"), Document("b")], ids) == Ok(["a", "b", "b"])
            && Passages([Document("a"), Document("b")], ids) == ["a", "b"]
    ensures PassagesAsWritten([], [NoNeighbour]) == Err(IndexError)
  {
    NearestKPads();
    var docs := [Document("a"), Document("b")];
    var one: seq<int> := [0];
    var two: seq<int> := [0, 1];
    var ids: seq<int> := [0, 1, NoNeighbour];
    assert ids[..2] == two && two[..1] == one && one[..0] == [];
    assert PassagesAsWritten(docs, one).value == [] + ["a"];
    assert PassagesAsWritten(docs, two).value == ["a"] + ["b"];
    assert Passages(docs, one) == [] + ["a"];
    assert Passages(docs, two) == ["a"] + ["b"];
    assert PassagesAsWritten(docs, ids).value == ["a", "b"] + [docs[|docs| - 1].pageContent] == ["a", "b", "b"];
    assert Passages(docs, ids) == ["a", "b"] + [];
    var none: seq<int> := [NoNeighbour];
    assert none[..0] == [];
  }

  /** The neighbour search `context_gathering` chose. */
  datatype Backend =
    | Flat(vectors: seq<seq<real>>, dimension: nat)
    | Qdrant(client: QdrantClient, collection: string)

  predicate BackendValid(backend: Backend)
  {
    backend.Flat? ==> AllWidth(backend.vectors, backend.dimension)
  }

  /** The neighbour ids for one query vector. */
  function Retrieve(backend: Backend, query: seq<real>, k: int): Result<seq<int>>
    requires BackendValid(backend)
  {
    match backend
    case Flat(vectors, dimension) =>
      if |query| != dimension then Err(DimensionMismatch) else Ok(NearestK(Distances(vectors, query), k))
    case Qdrant(client, collection) => Ok(QdrantSearch(client, collection, query, k))
  }

  /** The search result for each of the first `n` evolved questions, in order. */
  function Searches(evolved: seq<EvolvedQuestion>, backend: Backend, embed: string -> seq<real>, k: int, n: nat)
    : (r: seq<Result<seq<int>>>)
    requires n <= |evolved| && BackendValid(backend)
    ensures |r| == n
    ensures forall j :: 0 <= j < n ==> r[j] == Retrieve(backend, embed(evolved[j].evolvedQuestion), k)
  {
    if n == 0 then [] else Searches(evolved, backend, embed, k, n - 1) + [Retrieve(backend, embed(evolved[n - 1].evolvedQuestion), k)]
  }

  /** A search fails only on the flat index, with `DimensionMismatch`, and
      exactly when the question embeds to another width. */
  lemma SearchErrors(evolved: seq<EvolvedQuestion>, backend: Backend, embed: string -> seq<real>, k: int)
    requires BackendValid(backend)
    ensures forall j :: 0 <= j < |evolved| ==>
              (Searches(evolved, backend, embed, k, |evolved|)[j].Err?
               <==> backend.Flat? && |embed(evolved[j].evolvedQuestion)| != backend.dimension)
    ensures forall j :: 0 <= j < |evolved| && Searches(evolved, backend, embed, k, |evolved|)[j].Err? ==>
              Searches(evolved, backend, embed, k, |evolved|)[j].error == DimensionMismatch
  {
  }

  /** The backend returns no negative id for `k`: a flat index that holds at
      least `k` vectors, or a Qdrant client whose hits all have non-negative ids. */
  ghost predicate Unpadded(backend: Backend, k: int)
  {
    match backend
    case Flat(vectors, _) => Max0(k) <= |vectors|
    case Qdrant(client, _) =>
      forall c, q, l, t :: 0 <= t < |client.search(c, q, l)| ==> client.search(c, q, l)[t].id >= 0
  }

  /** When the backend returns no negative id, the comprehension as written
      yields, for every question whose search succeeded, exactly the passages
      the stage records for it. */
  lemma SearchesAsWrittenAgree(evolved: seq<EvolvedQuestion>, documents: seq<Document>, backend: Backend,
                               embed: string -> seq<real>, k: int)
    requires BackendValid(backend) && Unpadded(backend, k)
    ensures forall j :: 0 <= j < |evolved| && Searches(evolved, backend, embed, k, |evolved|)[j].Ok? ==>
              PassagesAsWritten(documents, Searches(evolved, backend, embed, k, |evolved|)[j].value)
              == Ok(PassagesOf(documents, Searches(evolved, backend, embed, k, |evolved|), j))
  {
    var found := Searches(evolved, backend, embed, k, |evolved|);
    forall j | 0 <= j < |evolved| && found[j].Ok?
      ensures PassagesAsWritten(documents, found[j].value) == Ok(PassagesOf(documents, found, j))
    {
      var query := embed(evolved[j].evolvedQuestion);
      var ids := found[j].value;
      assert found[j] == Retrieve(backend, query, k);
      if backend.Flat? {
        NearestKWithinStore(Distances(backend.vectors, query), k);
      } else {
        assert forall a :: 0 <= a < |ids| ==>
          ids[a] == backend.client.search(backend.collection, query, Max0(k))[a].id;
      }
      PassagesAsWrittenAgrees(documents, ids);
    }
  }

  /** The passages for question `j` (none when its search failed). */
  function PassagesOf(documents: seq<Document>, found: seq<Result<seq<int>>>, j: nat): seq<string>
    requires j < |found|
  {
    match found[j]
    case Ok(ids) => Passages(documents, ids)
    case Err(_) => []
  }

  /** The loop of `context_gathering` over the first `n` evolved questions,
      given each one's search result: a record for every question with
      passages, or the first search error. */
  function Collect(evolved: seq<EvolvedQuestion>, documents: seq<Document>, found: seq<Result<seq<int>>>, n: nat)
    : Result<seq<ContextRecord>>
    requires n <= |evolved| && n <= |found|
  {
    if n == 0 then Ok([])
    else
      match Collect(evolved, documents, found, n - 1)
      case Err(e) => Err(e)
      case Ok(prev) =>
        match found[n - 1]
        case Err(e) => Err(e)
        case Ok(ids) =>
          var passages := Passages(documents, ids);
          if passages == [] then Ok(prev)
          else Ok(prev + [ContextRecord(evolved[n - 1].id, evolved[n - 1].evolvedQuestion, passages)])
  }

  /** The questions below `n` that get passages, in order. */
  function Covered(documents: seq<Document>, found: seq<Result<seq<int>>>, n: nat): (r: seq<nat>)
    requires n <= |found|
    ensures forall t :: 0 <= t < |r| ==> r[t] < n && PassagesOf(documents, found, r[t]) != []
    ensures forall t, u :: 0 <= t < u < |r| ==> r[t] < r[u]
  {
    if n == 0 then []
    else if PassagesOf(documents, found, n - 1) != [] then Covered(documents, found, n - 1) + [n - 1]
    else Covered(documents, found, n - 1)
  }

  /** Every question with passages is covered. */
  lemma {:induction false} CoveredComplete(documents: seq<Document>, found: seq<Result<seq<int>>>, n: nat)
    requires n <= |found|
    ensures forall j :: 0 <= j < n && PassagesOf(documents, found, j) != [] ==> j in Covered(documents, found, n)
  {
    if n > 0 {
      CoveredComplete(documents, found, n - 1);
    }
  }

  /** Collecting succeeds exactly when every search succeeded, and a failure
      is one of the searches' errors. */
  lemma {:induction false} CollectErrors(evolved: seq<EvolvedQuestion>, documents: seq<Document>,
                                         found: seq<Result<seq<int>>>, n: nat, e: Error)
    requires n <= |evolved| && n <= |found|
    ensures Collect(evolved, documents, found, n).Ok? <==> forall j :: 0 <= j < n ==> found[j].Ok?
    ensures (forall j :: 0 <= j < n && found[j].Err? ==> found[j].error == e) ==>
              Collect(evolved, documents, found, n).Err? ==> Collect(evolved, documents, found, n).error == e
  {
    if n > 0 {
      CollectErrors(evolved, documents, found, n - 1, e);
    }
  }

  /** The first failed search decides the result: later questions are not
      searched. */
  lemma {:induction false} CollectStops(evolved: seq<EvolvedQuestion>, documents: seq<Document>,
                                        found: seq<Result<seq<int>>>, j: nat, n: nat)
    requires j < n <= |evolved| && n <= |found|
    requires Collect(evolved, documents, found, j).Ok? && found[j].Err?
    ensures Collect(evolved, documents, found, n) == Err(found[j].error)
  {
    if n > j + 1 {
      CollectStops(evolved, documents, found, j, n - 1);
    }
  }

  /** On success there is one record per covered question, in question order,
      carrying its id, its text and its passages, which are never empty. */
  lemma {:induction false} CollectRecords(evolved: seq<EvolvedQuestion>, documents: seq<Document>,
                                          found: seq<Result<seq<int>>>, n: nat)
    requires n <= |evolved| && n <= |found| && Collect(evolved, documents, found, n).Ok?
    ensures |Collect(evolved, documents, found, n).value| == |Covered(documents, found, n)|
    ensures forall t :: 0 <= t < |Collect(evolved, documents, found, n).value| ==>
              Collect(evolved, documents, found, n).value[t]
              == ContextRecord(evolved[Covered(documents, found, n)[t]].id,
                               evolved[Covered(documents, found, n)[t]].evolvedQuestion,
                               PassagesOf(documents, found, Covered(documents, found, n)[t]))
  {
    if n > 0 {
      CollectRecords(evolved, documents, found, n - 1);
    }
  }

  /** No context record has an empty passage list. */
  lemma RecordsHavePassages(evolved: seq<EvolvedQuestion>, documents: seq<Document>, found: seq<Result<seq<int>>>)
    requires |found| == |evolved| && Collect(evolved, documents, found, |evolved|).Ok?
    ensures forall t :: 0 <= t < |Collect(evolved, documents, found, |evolved|).value| ==>
              Collect(evolved, documents, found, |evolved|).value[t].contexts != []
  {
    CollectRecords(evolved, documents, found, |evolved|);
  }

  /** The backend `context_gathering` builds from its arguments. */
  function ChosenBackend(embeddings: seq<seq<real>>, useQdrant: bool, client: Option<QdrantClient>,
                         collection: Option<string>): Backend
    requires useQdrant ==> client.Some? && collection.Some?
    requires !useQdrant ==> embeddings != []
  {
    if useQdrant then Qdrant(client.value, collection.value) else Flat(embeddings, |embeddings[0]|)
  }

  /** The index or client searches stand for `backend`. */
  ghost predicate Serves(backend: Backend, index: FlatIndexL2?, useQdrant: bool, client: Option<QdrantClient>,
                   collection: Option<string>)
    reads index
  {
    && BackendValid(backend)
    && (useQdrant ==> client.Some? && collection.Some? && backend == Qdrant(client.value, collection.value))
    && (!useQdrant ==> index != null && index.Valid() && backend == Flat(index.vectors, index.dimension))
  }

  /** `search_func`: the chosen backend's neighbour ids for one query vector. */
  method SearchWith(index: FlatIndexL2?, useQdrant: bool, client: Option<QdrantClient>, collection: Option<string>,
                    query: seq<real>, k: int, ghost backend: Backend)
    returns (found: Result<seq<int>>)
    requires Serves(backend, index, useQdrant, client, collection)
    ensures found == Retrieve(backend, query, k)
  {
    if useQdrant {
      found := Ok(QdrantSearch(client.value, collection.value, query, k));
    } else {
      found := index.Search(query, k);
    }
  }

  /** The loop of `context_gathering`: each evolved question is embedded and
      searched in turn, and a record is kept for each one with passages. */
  method GatherContexts(evolved: seq<EvolvedQuestion>, documents: seq<Document>, index: FlatIndexL2?, useQdrant: bool,
                        client: Option<QdrantClient>, collection: Option<string>, embed: string -> seq<real>, k: int,
                        ghost backend: Backend)
    returns (r: Result<seq<ContextRecord>>)
    requires Serves(backend, index, useQdrant, client, collection)
    ensures r == Collect(evolved, documents, Searches(evolved, backend, embed, k, |evolved|), |evolved|)
  {
    ghost var searches := Searches(evolved, backend, embed, k, |evolved|);
    var contexts := [];
    var j := 0;
    while j < |evolved|
      invariant j <= |evolved|
      invariant Collect(evolved, documents, searches, j) == Ok(contexts)
    {
      var q := evolved[j];
      var found := SearchWith(index, useQdrant, client, collection, embed(q.evolvedQuestion), k, backend);
      if found.Err? {
        CollectStops(evolved, documents, searches, j, |evolved|);
        return Err(found.error);
      }
      var passages := Passages(documents, found.value);
      if passages != [] {
        contexts := contexts + [ContextRecord(q.id, q.evolvedQuestion, passages)];
      }
      j := j + 1;
    }
    r := Ok(contexts);
  }

  /** `context_gathering`: the flat index needs embeddings, and Qdrant a client
      and a collection name; a flat index is as wide as the first embedding and
      refuses rows of another width; then every evolved question is embedded and
      searched, and the records replace `contexts` and nothing else changes. */
  method ContextGathering(state: QAState, k: int, useQdrant: bool, client: Option<QdrantClient>,
                          collection: Option<string>, embed: string -> seq<real>)
    returns (r: Result<QAState>)
    ensures !useQdrant && state.DocumentEmbeddings() == [] ==> r == Err(ValueError(EmbeddingsMissingMessage))
    ensures useQdrant && (client.None? || collection.None?) ==> r == Err(ValueError(QdrantMissingMessage))
    ensures !useQdrant && state.DocumentEmbeddings() != []
            && !AllWidth(state.DocumentEmbeddings(), |state.DocumentEmbeddings()[0]|) ==>
              r == Err(DimensionMismatch)
    ensures (if useQdrant then client.Some? && collection.Some?
             else state.DocumentEmbeddings() != []
                  && AllWidth(state.DocumentEmbeddings(), |state.DocumentEmbeddings()[0]|)) ==>
              var gathered := Collect(state.EvolvedQuestions(), state.Documents(),
                                      Searches(state.EvolvedQuestions(),
                                               ChosenBackend(state.DocumentEmbeddings(), useQdrant, client, collection),
                                               embed, k, |state.EvolvedQuestions()|),
                                      |state.EvolvedQuestions()|);
              && (r.Err? <==> gathered.Err?)
              && (r.Err? ==> r.error == gathered.error)
              && (r.Ok? ==> r.value == state.(contexts := Some(gathered.value)))
  {
    var embeddings := state.DocumentEmbeddings();
    if embeddings == [] && !useQdrant {
      return Err(ValueError(EmbeddingsMissingMessage));
    }
    if useQdrant && (client.None? || collection.None?) {
      return Err(ValueError(QdrantMissingMessage));
    }
    var index: FlatIndexL2? := null;
    if !useQdrant {
      index := new FlatIndexL2(|embeddings[0]|);
      var ok := index.Add(embeddings);
      if !ok {
        return Err(DimensionMismatch);
      }
    }
    ghost var backend := ChosenBackend(embeddings, useQdrant, client, collection);
    var gathered := GatherContexts(state.EvolvedQuestions(), state.Documents(), index, useQdrant, client, collection,
                                   embed, k, backend);
    if gathered.Err? {
      return Err(gathered.error);
    }
    r := Ok(state.(contexts := Some(gathered.value)));
  }
}
