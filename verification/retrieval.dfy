/** `retrieve` and `evaluate_retrieval` (src/rag_system.py): the store's
    answer is reshaped into one record per returned document, and the
    evaluation counts the questions for which some retrieved document shares
    at least two words with the expected answer. */
module Retrieval {
  import opened Wrappers
  import opened Text
  import opened VectorStore
  import opened Ingestion

  /** One retrieved document: its text, its metadata and its distance. */
  datatype Record = Record(text: string, metadata: Metadata, score: real)

  /** The metadata put in for a result the answer has no metadata for. */
  function UnknownMetadata(i: nat): (m: Metadata)
    ensures m.Keys == {"chunk_id"}
  {
    map["chunk_id" := Str("unknown_" + NatToString(i))]
  }

  /** The answer has a first list of documents and it is not empty. */
  predicate HasDocuments<M>(a: Answer<M>) {
    |a.documents| > 0 && |a.documents[0]| > 0
  }

  /** The reshaping loop of `retrieve`. An answer with documents but no list of
      metadata or of distances makes the source fail with an index error. */
  function Reshape(a: Answer<Metadata>): (r: seq<Record>)
    requires HasDocuments(a) ==> |a.metadatas| > 0 && |a.distances| > 0
    ensures !HasDocuments(a) ==> r == []
    ensures HasDocuments(a) ==> |r| == |a.documents[0]|
    ensures forall i :: 0 <= i < |r| ==>
              && r[i].text == a.documents[0][i]
              && r[i].metadata == (if i < |a.metadatas[0]| then a.metadatas[0][i] else UnknownMetadata(i))
              && r[i].score == (if i < |a.distances[0]| then a.distances[0][i] else 0.0)
  {
    if !HasDocuments(a) then []
    else
      var docs, metas, dists := a.documents[0], a.metadatas[0], a.distances[0];
      seq(|docs|, i requires 0 <= i < |docs| =>
        Record(docs[i],
               if i < |metas| then metas[i] else UnknownMetadata(i),
               if i < |dists| then dists[i] else 0.0))
  }

  /** `retrieve` against the fallback store, with its distances laid out as
      the rest of the system reads them. */
  function Retrieve(s: Store<Metadata>, query: string, n: int): seq<Record>
    requires WellFormed(s)
  {
    Reshape(Query(s, query, n))
  }

  /** Retrieval returns the top documents of the query, each with its own
      stored metadata and the distance of its own score. */
  lemma RetrieveFromStore(s: Store<Metadata>, query: string, n: int)
    requires WellFormed(s)
    ensures |Retrieve(s, query, n)| == |TopIndices(s, query, n)|
    ensures forall k :: 0 <= k < |Retrieve(s, query, n)| ==>
              var i := TopIndices(s, query, n)[k];
              && i < Count(s)
              && Retrieve(s, query, n)[k].text == s.documents[i]
              && Retrieve(s, query, n)[k].metadata == s.metadatas[i]
              && Retrieve(s, query, n)[k].score == Distances(s, query, n)[k]
              && 0.0 <= Retrieve(s, query, n)[k].score <= 1.0
  {
    var a := Query(s, query, n);
    var t := Top(s, query, n);
    var r := Retrieve(s, query, n);
    forall k | 0 <= k < |r| ensures 0.0 <= Distances(s, query, n)[k] <= 1.0 {
      RankedScoreBound(s, query, t[k], n);
    }
  }

  /** The fallback store's answer as written, distances one list per result. */
  function QueryAsWritten(s: Store<Metadata>, query: string, n: int): (a: Answer<Metadata>)
    requires WellFormed(s)
    ensures HasDocuments(a) ==> |a.metadatas| > 0 && |a.distances| > 0
  {
    Query(s, query, n).(distances := QueryDistancesAsWritten(s, query, n))
  }

  /** As written, `retrieve` keeps the distance of the first result only and
      reports every later result with score 0. */
  lemma AsWrittenDropsDistances(s: Store<Metadata>, query: string, n: int)
    requires WellFormed(s)
    ensures var r := Reshape(QueryAsWritten(s, query, n));
            && |r| == |Retrieve(s, query, n)|
            && (|r| > 0 ==> r[0] == Retrieve(s, query, n)[0])
            && forall k :: 1 <= k < |r| ==> r[k].score == 0.0
  {
    var a := QueryAsWritten(s, query, n);
    if HasDocuments(a) {
      assert a.distances[0] == [Distances(s, query, n)[0]];
    }
  }

  /** The discrepancy on a concrete shape of input: when the second-ranked
      document contains none of the query words its distance is 1, yet as
      written it is reported as 0, the best possible distance. */
  lemma AsWrittenMisreportsSecond(s: Store<Metadata>, query: string, n: int)
    requires WellFormed(s) && |Top(s, query, n)| >= 2 && Top(s, query, n)[1].score == 0
    ensures Reshape(QueryAsWritten(s, query, n))[1].score == 0.0
    ensures Retrieve(s, query, n)[1].score == 1.0
  {
    AsWrittenDropsDistances(s, query, n);
    RetrieveFromStore(s, query, n);
    RankedScoreBound(s, query, Top(s, query, n)[1], n);
  }

  /** A test question and its expected answer. */
  datatype Question = Question(question: string, answer: string)

  /** The distinct lower-cased words of a text. */
  function Terms(s: string): set<string> {
    set w | w in SplitWords(Lower(s))
  }

  /** A document supports an answer when they share at least two terms. */
  predicate Supports(answer: string, doc: string) {
    |Terms(answer) * Terms(doc)| >= 2
  }

  /** The question is answered by what was retrieved for it; `None` stands for
      a retrieval that raised an exception. */
  predicate Answered(q: Question, retrieved: Option<seq<Record>>) {
    retrieved.Some? && exists d :: d in retrieved.value && Supports(q.answer, d.text)
  }

  /** For each question, whether it was answered. */
  function Flags(qs: seq<Question>, retrieved: seq<Option<seq<Record>>>): (bs: seq<bool>)
    requires |retrieved| == |qs|
    ensures |bs| == |qs|
    ensures forall i :: 0 <= i < |qs| ==> bs[i] == Answered(qs[i], retrieved[i])
  {
    seq(|qs|, i requires 0 <= i < |qs| => Answered(qs[i], retrieved[i]))
  }

  /** The number of `true` flags, counted from the front. */
  function CountTrue(bs: seq<bool>): (c: nat)
    ensures c <= |bs|
  {
    if bs == [] then 0
    else CountTrue(bs[..|bs| - 1]) + (if bs[|bs| - 1] then 1 else 0)
  }

  /** All flags are set exactly when the count is the length, and none is
      exactly when the count is 0. */
  lemma {:induction false} CountExtremes(bs: seq<bool>)
    ensures CountTrue(bs) == |bs| <==> forall i :: 0 <= i < |bs| ==> bs[i]
    ensures CountTrue(bs) == 0 <==> forall i :: 0 <= i < |bs| ==> !bs[i]
  {
    if bs != [] {
      var front := bs[..|bs| - 1];
      CountExtremes(front);
      assert forall i :: 0 <= i < |front| ==> front[i] == bs[i];
    }
  }

  /** The number of answered questions. */
  function CountAnswered(qs: seq<Question>, retrieved: seq<Option<seq<Record>>>): (c: nat)
    requires |retrieved| == |qs|
    ensures c <= |qs|
  {
    CountTrue(Flags(qs, retrieved))
  }

  /** The count reaches the number of questions exactly when all are answered,
      and is 0 exactly when none is. */
  lemma CountAnsweredExtremes(qs: seq<Question>, retrieved: seq<Option<seq<Record>>>)
    requires |retrieved| == |qs|
    ensures CountAnswered(qs, retrieved) == |qs| <==> forall i :: 0 <= i < |qs| ==> Answered(qs[i], retrieved[i])
    ensures CountAnswered(qs, retrieved) == 0 <==> forall i :: 0 <= i < |qs| ==> !Answered(qs[i], retrieved[i])
  {
    CountExtremes(Flags(qs, retrieved));
  }

  /** Scan `xs` in order and stop at the first element satisfying `p`. */
  method FirstHit<T>(p: T -> bool, xs: seq<T>) returns (found: bool)
    ensures found <==> exists x :: x in xs && p(x)
  {
    var j := 0;
    found := false;
    while j < |xs| && !found
      invariant 0 <= j <= |xs|
      invariant found <==> exists x :: x in xs[..j] && p(x)
    {
      found := p(xs[j]);
      assert xs[..j + 1] == xs[..j] + [xs[j]];
      j := j + 1;
    }
    assert !found ==> xs[..j] == xs;
  }

  /** The inner loop of `evaluate_retrieval`: look for a supporting document,
      stopping at the first. */
  method FindSupport(answer: string, docs: seq<Record>) returns (found: bool)
    ensures found <==> exists d :: d in docs && Supports(answer, d.text)
  {
    found := FirstHit((d: Record) => Supports(answer, d.text), docs);
  }

  /** The outer loop of `evaluate_retrieval`: each question counts at most
      once; a question with nothing retrieved, or whose retrieval raised, is
      skipped. */
  method Evaluate(qs: seq<Question>, retrieved: seq<Option<seq<Record>>>) returns (correct: nat, total: nat)
    requires |retrieved| == |qs|
    ensures total == |qs|
    ensures correct == CountAnswered(qs, retrieved)
    ensures correct <= total
  {
    correct := 0;
    total := |qs|;
    var i := 0;
    while i < |qs|
      invariant 0 <= i <= |qs|
      invariant correct == CountTrue(Flags(qs, retrieved)[..i])
    {
      assert Flags(qs, retrieved)[..i + 1][..i] == Flags(qs, retrieved)[..i];
      if retrieved[i].Some? && retrieved[i].value != [] {
        var found := FindSupport(qs[i].answer, retrieved[i].value);
        if found {
          correct := correct + 1;
        }
      }
      i := i + 1;
    }
    assert Flags(qs, retrieved)[..i] == Flags(qs, retrieved);
  }

  /** The accuracy `correct / total`, taken as 0 when there are no questions. */
  function Accuracy(correct: nat, total: nat): (a: real)
    requires correct <= total
    ensures 0.0 <= a <= 1.0
    ensures a == 1.0 <==> 0 < correct == total
  {
    if total > 0 then correct as real / total as real else 0.0
  }
}
