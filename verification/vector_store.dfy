/** `SimpleVectorStore` (src/rag_system.py), the in-memory fallback used when
    ChromaDB is unavailable: three parallel lists extended together, a keyword
    score per document, and the top results by descending (score, index). */
module VectorStore {
  import opened Text

  /** The store, generic in the metadata record it keeps for each document. */
  datatype Store<M> = Store(documents: seq<string>, metadatas: seq<M>, ids: seq<string>)

  function Empty<M>(): Store<M> {
    Store([], [], [])
  }

  /** The three lists describe the same documents. */
  predicate WellFormed<M>(s: Store<M>) {
    |s.documents| == |s.metadatas| == |s.ids|
  }

  function Count<M>(s: Store<M>): nat {
    |s.documents|
  }

  /** `add`: each list is extended, in order, by the matching argument. */
  function Add<M>(s: Store<M>, documents: seq<string>, metadatas: seq<M>, ids: seq<string>): (r: Store<M>)
    ensures Count(r) == Count(s) + |documents|
    ensures r.documents[..Count(s)] == s.documents && r.documents[Count(s)..] == documents
    ensures |r.metadatas| == |s.metadatas| + |metadatas|
    ensures r.metadatas[..|s.metadatas|] == s.metadatas && r.metadatas[|s.metadatas|..] == metadatas
    ensures |r.ids| == |s.ids| + |ids|
    ensures r.ids[..|s.ids|] == s.ids && r.ids[|s.ids|..] == ids
    ensures WellFormed(s) && |documents| == |metadatas| == |ids| ==> WellFormed(r)
  {
    Store(s.documents + documents, s.metadatas + metadatas, s.ids + ids)
  }

  /** Two additions in a row are one addition of the joined lists. */
  lemma AddTwice<M>(s: Store<M>, d1: seq<string>, m1: seq<M>, i1: seq<string>,
                    d2: seq<string>, m2: seq<M>, i2: seq<string>)
    ensures Add(Add(s, d1, m1, i1), d2, m2, i2) == Add(s, d1 + d2, m1 + m2, i1 + i2)
  {
    assert s.documents + d1 + d2 == s.documents + (d1 + d2);
    assert s.metadatas + m1 + m2 == s.metadatas + (m1 + m2);
    assert s.ids + i1 + i2 == s.ids + (i1 + i2);
  }

  /** The number of query words found in a document, with multiplicity. */
  function Matches(words: seq<string>, doc: string): (n: nat)
    ensures n <= |words|
  {
    if words == [] then 0
    else (if Contains(doc, words[0]) then 1 else 0) + Matches(words[1..], doc)
  }

  /** A document scores full marks exactly when it contains every query word,
      and zero exactly when it contains none. */
  lemma {:induction false} MatchesBounds(words: seq<string>, doc: string)
    ensures Matches(words, doc) == |words| <==> forall i :: 0 <= i < |words| ==> Contains(doc, words[i])
    ensures Matches(words, doc) == 0 <==> forall i :: 0 <= i < |words| ==> !Contains(doc, words[i])
  {
    if words != [] {
      MatchesBounds(words[1..], doc);
      assert forall i :: 1 <= i < |words| ==> words[i] == words[1..][i - 1];
    }
  }

  /** Every occurrence of a word in the query counts. */
  lemma {:induction false} MatchesAppend(a: seq<string>, b: seq<string>, doc: string)
    ensures Matches(a + b, doc) == Matches(a, doc) + Matches(b, doc)
  {
    if a != [] {
      assert (a + b)[0] == a[0] && (a + b)[1..] == a[1..] + b;
      MatchesAppend(a[1..], b, doc);
    } else {
      assert a + b == b;
    }
  }

  /** The words of the lower-cased query. */
  function QueryWords(query: string): seq<string> {
    SplitWords(Lower(query))
  }

  /** A document's score: how many words of the lower-cased query occur as
      substrings of the lower-cased document. */
  function Score(query: string, doc: string): nat {
    Matches(QueryWords(query), Lower(doc))
  }

  /** A `(score, index)` pair of the ranking. */
  datatype Scored = Scored(score: nat, index: nat)

  /** Python's tuple order: `a > b`. */
  predicate Above(a: Scored, b: Scored) {
    a.score > b.score || (a.score == b.score && a.index > b.index)
  }

  /** Descending order: no later element is above an earlier one. */
  predicate Descending(s: seq<Scored>) {
    forall i, j :: 0 <= i < j < |s| ==> !Above(s[j], s[i])
  }

  predicate Distinct(s: seq<Scored>) {
    forall i, j :: 0 <= i < j < |s| ==> s[i] != s[j]
  }

  /** The pair of every stored document, in storage order. */
  function Scores<M>(s: Store<M>, query: string): (r: seq<Scored>)
    ensures |r| == Count(s)
    ensures forall i :: 0 <= i < |r| ==> r[i] == Scored(Score(query, s.documents[i]), i)
  {
    seq(Count(s), i requires 0 <= i < Count(s) => Scored(Score(query, s.documents[i]), i))
  }

  /** One insertion step of the descending sort. */
  function Insert(x: Scored, s: seq<Scored>): (r: seq<Scored>)
    requires Descending(s)
    ensures |r| == |s| + 1
    ensures multiset(r) == multiset(s) + multiset{x}
    ensures Descending(r)
  {
    if s == [] then [x]
    else if !Above(s[0], x) then
      NothingAboveHead(s, x);
      ConsDescending(x, s);
      [x] + s
    else
      DescendingTail(s);
      var t := Insert(x, s[1..]);
      assert s == [s[0]] + s[1..];
      NothingAboveHead(s, s[0]);
      BoundCarries(t, s[1..], x, s[0]);
      ConsDescending(s[0], t);
      [s[0]] + t
  }

  lemma DescendingTail(s: seq<Scored>)
    requires Descending(s) && s != []
    ensures Descending(s[1..])
  {
    var t := s[1..];
    forall i, j | 0 <= i < j < |t| ensures !Above(t[j], t[i]) {
      assert t[i] == s[i + 1] && t[j] == s[j + 1];
    }
  }

  /** In a descending sequence nothing is above a pair the head is not above. */
  lemma NothingAboveHead(s: seq<Scored>, b: Scored)
    requires Descending(s) && s != [] && !Above(s[0], b)
    ensures forall y :: y in s ==> !Above(y, b)
  {
    forall y | y in s ensures !Above(y, b) {
      var j :| 0 <= j < |s| && s[j] == y;
      if j > 0 {
        assert !Above(s[j], s[0]);
      }
    }
  }

  /** A bound on `u` and on `x` holds for any arrangement of `u` with `x` added. */
  lemma BoundCarries(t: seq<Scored>, u: seq<Scored>, x: Scored, b: Scored)
    requires multiset(t) == multiset(u) + multiset{x}
    requires (forall y :: y in u ==> !Above(y, b)) && !Above(x, b)
    ensures forall y :: y in t ==> !Above(y, b)
  {
    forall y | y in t ensures !Above(y, b) {
      assert y in multiset(t);
      if y != x {
        assert y in multiset(u);
      }
    }
  }

  /** Putting in front a pair that nothing after it is above keeps the order. */
  lemma ConsDescending(x: Scored, s: seq<Scored>)
    requires Descending(s) && forall y :: y in s ==> !Above(y, x)
    ensures Descending([x] + s)
  {
    var r := [x] + s;
    forall i, j | 0 <= i < j < |r| ensures !Above(r[j], r[i]) {
      assert r[j] == s[j - 1];
      if i > 0 {
        assert r[i] == s[i - 1];
      }
    }
  }

  lemma {:induction false} InsertDistinct(x: Scored, s: seq<Scored>)
    requires Descending(s) && Distinct(s) && x !in s
    ensures Distinct(Insert(x, s))
  {
    if s != [] && Above(s[0], x) {
      var t := Insert(x, s[1..]);
      InsertDistinct(x, s[1..]);
      assert s == [s[0]] + s[1..];
      assert s[0] != x && s[0] !in s[1..];
      assert s[0] !in multiset(t);
      var r := [s[0]] + t;
      forall i, j | 0 <= i < j < |r| ensures r[i] != r[j] {
        assert r[j] == t[j - 1] && r[j] in t;
        if i > 0 {
          assert r[i] == t[i - 1];
        }
      }
    }
  }

  /** `scores.sort(reverse=True)`. */
  function Rank(s: seq<Scored>): (r: seq<Scored>)
    ensures |r| == |s|
    ensures Descending(r)
    ensures multiset(r) == multiset(s)
  {
    if s == [] then []
    else
      assert s == [s[0]] + s[1..];
      Insert(s[0], Rank(s[1..]))
  }

  lemma {:induction false} RankDistinct(s: seq<Scored>)
    requires Distinct(s)
    ensures Distinct(Rank(s))
  {
    if s != [] {
      assert s == [s[0]] + s[1..];
      RankDistinct(s[1..]);
      assert s[0] !in multiset(s[1..]);
      assert s[0] !in multiset(Rank(s[1..]));
      InsertDistinct(s[0], Rank(s[1..]));
    }
  }

  /** Python's `s[:n]` for any integer `n`; a negative `n` counts from the end. */
  function Take<T>(s: seq<T>, n: int): (r: seq<T>)
    ensures |r| == if n >= 0 then (if n < |s| then n else |s|) else (if |s| + n > 0 then |s| + n else 0)
    ensures r == s[..|r|]
  {
    if n >= 0 then (if n < |s| then s[..n] else s)
    else if |s| + n > 0 then s[..|s| + n] else []
  }

  /** The ranked pairs a query keeps. */
  function Top<M>(s: Store<M>, query: string, n: int): seq<Scored> {
    Take(Rank(Scores(s, query)), n)
  }

  function Indices(t: seq<Scored>): (r: seq<nat>)
    ensures |r| == |t| && forall k :: 0 <= k < |t| ==> r[k] == t[k].index
  {
    seq(|t|, k requires 0 <= k < |t| => t[k].index)
  }

  /** `top_indices`. */
  function TopIndices<M>(s: Store<M>, query: string, n: int): (r: seq<nat>)
    ensures |r| == |Top(s, query, n)|
  {
    Indices(Top(s, query, n))
  }

  lemma DistinctRanking<M>(s: Store<M>, query: string)
    ensures Distinct(Rank(Scores(s, query)))
  {
    RankDistinct(Scores(s, query));
  }

  /** Every ranked pair is the pair of a stored document. */
  lemma RankedIsStored<M>(s: Store<M>, query: string, x: Scored)
    requires x in Rank(Scores(s, query))
    ensures x.index < Count(s) && x.score == Score(query, s.documents[x.index])
  {
    assert x in multiset(Scores(s, query));
  }

  /** Every stored document has its pair somewhere in the ranking. */
  lemma StoredIsRanked<M>(s: Store<M>, query: string, j: nat) returns (q: nat)
    requires j < Count(s)
    ensures q < Count(s) && Rank(Scores(s, query))[q] == Scored(Score(query, s.documents[j]), j)
  {
    var x := Scored(Score(query, s.documents[j]), j);
    assert Scores(s, query)[j] == x;
    assert x in multiset(Rank(Scores(s, query)));
    var r := Rank(Scores(s, query));
    q :| 0 <= q < |r| && r[q] == x;
    assert |r| == |multiset(r)| == |multiset(Scores(s, query))| == Count(s);
  }

  /** In a descending list of distinct pairs, earlier is strictly above later. */
  lemma EarlierIsAbove(r: seq<Scored>, p: nat, q: nat)
    requires Descending(r) && Distinct(r) && p < q < |r|
    ensures Above(r[p], r[q])
  {
  }

  /** `query` keeps `min(n, count)` documents for a non-negative `n`, each a
      different stored document. */
  lemma TopIndicesShape<M>(s: Store<M>, query: string, n: int)
    ensures n >= 0 ==> |TopIndices(s, query, n)| == if n < Count(s) then n else Count(s)
    ensures forall k :: 0 <= k < |TopIndices(s, query, n)| ==> TopIndices(s, query, n)[k] < Count(s)
    ensures forall k, l :: 0 <= k < l < |TopIndices(s, query, n)| ==>
              TopIndices(s, query, n)[k] != TopIndices(s, query, n)[l]
  {
    var r := Rank(Scores(s, query));
    var ix := TopIndices(s, query, n);
    DistinctRanking(s, query);
    assert |r| == |multiset(r)| == |multiset(Scores(s, query))| == Count(s);
    forall k | 0 <= k < |ix| ensures ix[k] < Count(s) {
      assert ix[k] == r[k].index;
      RankedIsStored(s, query, r[k]);
    }
    forall k, l | 0 <= k < l < |ix| ensures ix[k] != ix[l] {
      RankedIsStored(s, query, r[k]);
      RankedIsStored(s, query, r[l]);
      assert ix[k] == r[k].index && ix[l] == r[l].index;
    }
  }

  /** The kept documents are the best: each one's `(score, index)` is above that
      of every document left out. */
  lemma TopIsBest<M>(s: Store<M>, query: string, n: int, k: nat, j: nat)
    requires k < |TopIndices(s, query, n)| && j < Count(s) && j !in TopIndices(s, query, n)
    ensures var i := TopIndices(s, query, n)[k];
            i < Count(s) && Above(Scored(Score(query, s.documents[i]), i), Scored(Score(query, s.documents[j]), j))
  {
    var r := Rank(Scores(s, query));
    var t := Top(s, query, n);
    var ix := TopIndices(s, query, n);
    assert t == r[..|t|];
    assert ix[k] == r[k].index;
    DistinctRanking(s, query);
    RankedIsStored(s, query, r[k]);
    var q := StoredIsRanked(s, query, j);
    KeptAreListed(ix, r);
    EarlierIsAbove(r, k, q);
  }

  lemma KeptAreListed(ix: seq<nat>, r: seq<Scored>)
    requires |ix| <= |r| && forall k :: 0 <= k < |ix| ==> ix[k] == r[k].index
    ensures forall q :: 0 <= q < |ix| ==> r[q].index in ix
  {
    forall q | 0 <= q < |ix| ensures r[q].index in ix {
      assert ix[q] == r[q].index;
    }
  }

  /** Ties favour the later-inserted document. */
  lemma TiesFavourLater<M>(s: Store<M>, query: string, i: nat, j: nat)
    requires i < j < Count(s) && Score(query, s.documents[i]) == Score(query, s.documents[j])
    ensures exists p, q :: 0 <= p < q < Count(s) &&
              Rank(Scores(s, query))[p].index == j && Rank(Scores(s, query))[q].index == i
  {
    var r := Rank(Scores(s, query));
    DistinctRanking(s, query);
    var qi := StoredIsRanked(s, query, i);
    var qj := StoredIsRanked(s, query, j);
    if qi < qj {
      EarlierIsAbove(r, qi, qj);
    }
    assert qi != qj;
  }

  /** The distance reported for a score: one minus the share of query words
      found, taking at least one word. */
  function Distance(score: nat, words: nat): (d: real)
    requires score <= words
    ensures 0.0 <= d <= 1.0
    ensures d == 1.0 <==> score == 0
    ensures d == 0.0 <==> 0 < score == words
  {
    var w := if words < 1 then 1 else words;
    ShareBounds(score, w);
    1.0 - score as real / w as real
  }

  /** The share of words found is 0 for no match, 1 for all, and strictly
      between otherwise. */
  lemma ShareBounds(score: nat, w: nat)
    requires 0 < w && score <= w
    ensures var share := score as real / w as real;
            && (score == 0 ==> share == 0.0)
            && (score == w ==> share == 1.0)
            && (0 < score < w ==> 0.0 < share < 1.0)
  {
    var share := score as real / w as real;
    assert share * w as real == score as real;
    if 0 < score < w {
      assert 0.0 < share;
      assert share < 1.0;
    }
  }

  /** The documents, metadata and distances of a query's answer. Each field is
      a list with one list per query text, as the ChromaDB client returns it. */
  datatype Answer<M> = Answer(documents: seq<seq<string>>, metadatas: seq<seq<M>>, distances: seq<seq<real>>)

  function Distances<M>(s: Store<M>, query: string, n: int): (ds: seq<real>)
    ensures |ds| == |Top(s, query, n)|
  {
    var t := Top(s, query, n);
    seq(|t|, k requires 0 <= k < |t| =>
      RankedScoreBound(s, query, t[k], n);
      Distance(t[k].score, |QueryWords(query)|))
  }

  lemma RankedScoreBound<M>(s: Store<M>, query: string, x: Scored, n: int)
    requires x in Top(s, query, n)
    ensures x.score <= |QueryWords(query)|
  {
    var t := Top(s, query, n);
    var k :| 0 <= k < |t| && t[k] == x;
    assert x == Rank(Scores(s, query))[k];
    RankedIsStored(s, query, x);
  }

  /** `query` on a single query text, with the distances of all results in
      one list, the shape the ChromaDB client returns and `retrieve` reads. */
  function Query<M>(s: Store<M>, query: string, n: int): (a: Answer<M>)
    requires WellFormed(s)
    ensures |a.documents| == |a.metadatas| == |a.distances| == 1
    ensures |a.documents[0]| == |a.metadatas[0]| == |a.distances[0]| == |TopIndices(s, query, n)|
    ensures forall k :: 0 <= k < |TopIndices(s, query, n)| ==>
              TopIndices(s, query, n)[k] < Count(s) &&
              a.documents[0][k] == s.documents[TopIndices(s, query, n)[k]] &&
              a.metadatas[0][k] == s.metadatas[TopIndices(s, query, n)[k]]
  {
    var ix := TopIndices(s, query, n);
    TopIndicesShape(s, query, n);
    Answer([seq(|ix|, k requires 0 <= k < |ix| => s.documents[ix[k]])],
           [seq(|ix|, k requires 0 <= k < |ix| => s.metadatas[ix[k]])],
           [Distances(s, query, n)])
  }

  /** The distances as the fallback store builds them: one single-element list
      per result instead of one list of all results. */
  function QueryDistancesAsWritten<M>(s: Store<M>, query: string, n: int): (ds: seq<seq<real>>)
    ensures |ds| == |Top(s, query, n)|
    ensures forall k :: 0 <= k < |ds| ==> ds[k] == [Distances(s, query, n)[k]]
  {
    var d := Distances(s, query, n);
    seq(|d|, k requires 0 <= k < |d| => [d[k]])
  }
}
