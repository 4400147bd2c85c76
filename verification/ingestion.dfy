/** `process_pdf` (src/rag_system.py) once the text of each page has been
    extracted: every page's words are cut into consecutive groups of at most
    500, each group joined with single blanks becomes a chunk if its stripped
    text is longer than 50 characters, and the chunks are added to the store in
    batches of 100. Downloading and reading the PDF are not part of this model. */
module Ingestion {
  import opened Text
  import opened VectorStore

  const ChunkWords: nat := 500
  const MinChunkLength: nat := 50
  const BatchSize: nat := 100

  /** A value of a metadata dictionary. */
  datatype Value = Str(s: string) | Int(n: int)

  type Metadata = map<string, Value>

  /** A chunk of page `page` of document `docId`; `index` is the group number
      `i // 500` of its first word. */
  datatype Chunk = Chunk(text: string, docId: string, page: nat, index: nat)

  function ChunkId(docId: string, page: nat, index: nat): string {
    docId + "_p" + NatToString(page) + "_c" + NatToString(index)
  }

  function Id(c: Chunk): string {
    ChunkId(c.docId, c.page, c.index)
  }

  function MetadataOf(c: Chunk): (m: Metadata)
    ensures m.Keys == {"doc_id", "page", "chunk_id"}
    ensures m["chunk_id"] == Str(Id(c))
  {
    map["doc_id" := Str(c.docId), "page" := Int(c.page), "chunk_id" := Str(Id(c))]
  }

  function Flatten<T>(gs: seq<seq<T>>): seq<T> {
    if gs == [] then [] else gs[0] + Flatten(gs[1..])
  }

  /** The word groups `words[i:i+500]` for `i` in `range(0, len(words), 500)`. */
  function Groups(words: seq<string>): (gs: seq<seq<string>>)
    ensures forall k :: 0 <= k < |gs| ==> 1 <= |gs[k]| <= ChunkWords
    decreases |words|
  {
    if words == [] then []
    else
      var n := if |words| < ChunkWords then |words| else ChunkWords;
      [words[..n]] + Groups(words[n..])
  }

  /** The groups, put back together, are the words. */
  lemma {:induction false} GroupsFlatten(words: seq<string>)
    ensures Flatten(Groups(words)) == words
    decreases |words|
  {
    if words != [] {
      var n := if |words| < ChunkWords then |words| else ChunkWords;
      GroupsFlatten(words[n..]);
      assert ([words[..n]] + Groups(words[n..]))[1..] == Groups(words[n..]);
      assert words == words[..n] + words[n..];
    }
  }

  /** There are `ceil(|words| / 500)` groups. */
  lemma {:induction false} GroupsCount(words: seq<string>)
    ensures |Groups(words)| == (|words| + ChunkWords - 1) / ChunkWords
    decreases |words|
  {
    if words != [] {
      var n := if |words| < ChunkWords then |words| else ChunkWords;
      GroupsCount(words[n..]);
    }
  }

  /** Group `k` holds the words from position `500 k` on. */
  lemma {:induction false} GroupAt(words: seq<string>, k: nat, start: nat)
    requires k < |Groups(words)| && start == ChunkWords * k
    ensures start < |words|
    ensures Groups(words)[k] == words[start..if start + ChunkWords < |words| then start + ChunkWords else |words|]
    decreases |words|
  {
    var n := if |words| < ChunkWords then |words| else ChunkWords;
    var rest := words[n..];
    assert Groups(words) == [words[..n]] + Groups(rest);
    if k > 0 {
      assert Groups(words)[k] == Groups(rest)[k - 1];
      assert rest != [];
      assert n == ChunkWords;
      var a := start - ChunkWords;
      assert a == ChunkWords * (k - 1);
      GroupAt(rest, k - 1, a);
      var b := if a + ChunkWords < |rest| then a + ChunkWords else |rest|;
      assert n + b == if start + ChunkWords < |words| then start + ChunkWords else |words|;
      SliceOfDrop(words, n, a, b);
    }
  }

  /** A slice of `s[n..]` is a slice of `s`, shifted by `n`. */
  lemma SliceOfDrop<T>(s: seq<T>, n: nat, a: nat, b: nat)
    requires n <= |s| && a <= b <= |s| - n
    ensures s[n..][a..b] == s[n + a..n + b]
  {
  }

  /** A chunk's text: the group joined with single blanks. */
  function ChunkText(group: seq<string>): string {
    Join(group, " ")
  }

  predicate Keep(text: string) {
    |Strip(text)| > MinChunkLength
  }

  /** The texts of the groups, in order. */
  function ChunkTexts(groups: seq<seq<string>>): (ts: seq<string>)
    ensures |ts| == |groups| && forall k :: 0 <= k < |groups| ==> ts[k] == ChunkText(groups[k])
  {
    seq(|groups|, k requires 0 <= k < |groups| => ChunkText(groups[k]))
  }

  /** The chunks of one page made from the group texts numbered `from` on,
      keeping the texts `keep` accepts. */
  function TextChunks(docId: string, page: nat, texts: seq<string>, from: nat, keep: string -> bool): (r: seq<Chunk>)
    ensures |r| <= |texts|
    ensures forall k :: 0 <= k < |r| ==>
              r[k].docId == docId && r[k].page == page && from <= r[k].index < from + |texts|
  {
    if texts == [] then []
    else
      var rest := TextChunks(docId, page, texts[1..], from + 1, keep);
      if keep(texts[0]) then [Chunk(texts[0], docId, page, from)] + rest else rest
  }

  /** Each chunk is the text it is numbered after, and long enough. */
  lemma {:induction false} TextChunksSound(docId: string, page: nat, texts: seq<string>, from: nat, keep: string -> bool)
    ensures forall k :: 0 <= k < |TextChunks(docId, page, texts, from, keep)| ==>
              TextChunks(docId, page, texts, from, keep)[k].text == texts[TextChunks(docId, page, texts, from, keep)[k].index - from] &&
              keep(TextChunks(docId, page, texts, from, keep)[k].text)
  {
    if texts != [] {
      var rest := TextChunks(docId, page, texts[1..], from + 1, keep);
      TextChunksSound(docId, page, texts[1..], from + 1, keep);
      var r := TextChunks(docId, page, texts, from, keep);
      forall k | 0 <= k < |r| ensures r[k].text == texts[r[k].index - from] && keep(r[k].text) {
        if keep(texts[0]) && k == 0 {
          assert r[0] == Chunk(texts[0], docId, page, from);
        } else {
          var j := if keep(texts[0]) then k - 1 else k;
          assert r[k] == rest[j];
          assert texts[r[k].index - from] == texts[1..][r[k].index - (from + 1)];
        }
      }
    }
  }

  /** Chunks come in the order of their groups. */
  lemma {:induction false} TextChunksOrdered(docId: string, page: nat, texts: seq<string>, from: nat, keep: string -> bool)
    ensures forall k, l :: 0 <= k < l < |TextChunks(docId, page, texts, from, keep)| ==>
              TextChunks(docId, page, texts, from, keep)[k].index < TextChunks(docId, page, texts, from, keep)[l].index
  {
    if texts != [] {
      var rest := TextChunks(docId, page, texts[1..], from + 1, keep);
      TextChunksOrdered(docId, page, texts[1..], from + 1, keep);
      var r := TextChunks(docId, page, texts, from, keep);
      if keep(texts[0]) {
        forall k, l | 0 <= k < l < |r| ensures r[k].index < r[l].index {
          assert r[l] == rest[l - 1];
          if k > 0 {
            assert r[k] == rest[k - 1];
          }
        }
      }
    }
  }

  /** Every text long enough gives its chunk: nothing worth keeping is lost. */
  lemma {:induction false} TextChunksComplete(docId: string, page: nat, texts: seq<string>, from: nat, k: nat, keep: string -> bool)
    requires k < |texts| && keep(texts[k])
    ensures Chunk(texts[k], docId, page, from + k) in TextChunks(docId, page, texts, from, keep)
  {
    if k > 0 {
      assert texts[k] == texts[1..][k - 1];
      TextChunksComplete(docId, page, texts[1..], from + 1, k - 1, keep);
    }
  }

  /** The chunks of page `page` with text `text`. */
  function PageChunks(docId: string, page: nat, text: string): seq<Chunk> {
    TextChunks(docId, page, ChunkTexts(Groups(SplitWords(text))), 0, Keep)
  }

  /** The chunks of word groups are exactly the groups whose joined text
      `keep` accepts, each numbered after its group. */
  lemma GroupTextChunks(docId: string, page: nat, gs: seq<seq<string>>, keep: string -> bool)
    ensures forall c :: c in TextChunks(docId, page, ChunkTexts(gs), 0, keep) ==>
              c.docId == docId && c.page == page && c.index < |gs| &&
              c.text == ChunkText(gs[c.index]) && keep(c.text)
    ensures forall k :: 0 <= k < |gs| && keep(ChunkText(gs[k])) ==>
              Chunk(ChunkText(gs[k]), docId, page, k) in TextChunks(docId, page, ChunkTexts(gs), 0, keep)
  {
    var ts := ChunkTexts(gs);
    TextChunksSound(docId, page, ts, 0, keep);
    forall k | 0 <= k < |gs| && keep(ChunkText(gs[k]))
      ensures Chunk(ChunkText(gs[k]), docId, page, k) in TextChunks(docId, page, ts, 0, keep)
    {
      TextChunksComplete(docId, page, ts, 0, k, keep);
    }
  }

  /** A page's chunks are exactly its word groups whose stripped joined text
      is longer than 50 characters, each numbered after its group. */
  lemma PageChunksMeaning(docId: string, page: nat, text: string)
    ensures forall c :: c in PageChunks(docId, page, text) ==>
              c.docId == docId && c.page == page && c.index < |Groups(SplitWords(text))| &&
              c.text == ChunkText(Groups(SplitWords(text))[c.index]) && Keep(c.text)
    ensures forall k :: 0 <= k < |Groups(SplitWords(text))| && Keep(ChunkText(Groups(SplitWords(text))[k])) ==>
              Chunk(ChunkText(Groups(SplitWords(text))[k]), docId, page, k) in PageChunks(docId, page, text)
  {
    GroupTextChunks(docId, page, Groups(SplitWords(text)), Keep);
  }

  /** The chunks of pages `pages`, the first being page number `from`. */
  function PagesChunks(docId: string, pages: seq<string>, from: nat): (r: seq<Chunk>)
    ensures forall k :: 0 <= k < |r| ==> r[k].docId == docId && from <= r[k].page < from + |pages|
  {
    if pages == [] then []
    else
      var here := PageChunks(docId, from, pages[0]);
      var rest := PagesChunks(docId, pages[1..], from + 1);
      var r := here + rest;
      assert forall k :: 0 <= k < |r| ==> r[k].docId == docId && from <= r[k].page < from + |pages| by {
        forall k | 0 <= k < |r| ensures r[k].docId == docId && from <= r[k].page < from + |pages| {
          if k < |here| {
            assert r[k] == here[k];
          } else {
            assert r[k] == rest[k - |here|];
          }
        }
      }
      r
  }

  /** `a` comes from an earlier page than `b`, or from an earlier group of the same page. */
  predicate Before(a: Chunk, b: Chunk) {
    a.page < b.page || (a.page == b.page && a.index < b.index)
  }

  /** Chunks come by page, and within a page by group. */
  lemma {:induction false} PagesChunksOrdered(docId: string, pages: seq<string>, from: nat)
    ensures forall k, l :: 0 <= k < l < |PagesChunks(docId, pages, from)| ==>
              Before(PagesChunks(docId, pages, from)[k], PagesChunks(docId, pages, from)[l])
  {
    if pages != [] {
      var here := PageChunks(docId, from, pages[0]);
      var rest := PagesChunks(docId, pages[1..], from + 1);
      PagesChunksOrdered(docId, pages[1..], from + 1);
      TextChunksOrdered(docId, from, ChunkTexts(Groups(SplitWords(pages[0]))), 0, Keep);
      OrderedAppend(here, rest, from);
    }
  }

  /** The chunks of one page, in group order, followed by ordered chunks of
      later pages are ordered. */
  lemma OrderedAppend(here: seq<Chunk>, rest: seq<Chunk>, page: nat)
    requires forall k :: 0 <= k < |here| ==> here[k].page == page
    requires forall k, l :: 0 <= k < l < |here| ==> here[k].index < here[l].index
    requires forall k :: 0 <= k < |rest| ==> page < rest[k].page
    requires forall k, l :: 0 <= k < l < |rest| ==> Before(rest[k], rest[l])
    ensures forall k, l :: 0 <= k < l < |here + rest| ==> Before((here + rest)[k], (here + rest)[l])
  {
    var r := here + rest;
    forall k, l | 0 <= k < l < |r| ensures Before(r[k], r[l])
    {
      if l < |here| {
        assert r[k] == here[k] && r[l] == here[l];
      } else if k < |here| {
        assert r[k] == here[k] && r[l] == rest[l - |here|];
      } else {
        assert r[k] == rest[k - |here|] && r[l] == rest[l - |here|];
      }
    }
  }

  /** All chunks of a document. */
  function DocumentChunks(docId: string, pages: seq<string>): seq<Chunk> {
    PagesChunks(docId, pages, 0)
  }

  /** The digits of `str(n)` are followed in an id by `_`, so the page and
      group numbers can be read back. */
  lemma DigitsThenMarker(p1: string, p2: string, t1: string, t2: string)
    requires forall i :: 0 <= i < |p1| ==> IsDigit(p1[i])
    requires forall i :: 0 <= i < |p2| ==> IsDigit(p2[i])
    requires |t1| > 0 && |t2| > 0 && t1[0] == '_' && t2[0] == '_'
    requires p1 + t1 == p2 + t2
    ensures p1 == p2 && t1 == t2
  {
    var s := p1 + t1;
    assert p1 == s[..|p1|] && t1 == s[|p1|..];
    assert p2 == (p2 + t2)[..|p2|] && t2 == (p2 + t2)[|p2|..];
  }

  /** Within a document, an id names one page and one group. */
  lemma ChunkIdInjective(docId: string, p1: nat, i1: nat, p2: nat, i2: nat)
    requires ChunkId(docId, p1, i1) == ChunkId(docId, p2, i2)
    ensures p1 == p2 && i1 == i2
  {
    var a, b := NatToString(p1), NatToString(p2);
    var c, d := NatToString(i1), NatToString(i2);
    assert docId + "_p" + a + "_c" + c == docId + ("_p" + (a + ("_c" + c)));
    assert docId + "_p" + b + "_c" + d == docId + ("_p" + (b + ("_c" + d)));
    var x := "_p" + (a + ("_c" + c));
    var y := "_p" + (b + ("_c" + d));
    assert x == (docId + x)[|docId|..] && y == (docId + y)[|docId|..];
    assert a + ("_c" + c) == x[2..] && b + ("_c" + d) == y[2..];
    DigitsThenMarker(a, b, "_c" + c, "_c" + d);
    assert c == ("_c" + c)[2..] && d == ("_c" + d)[2..];
    NatToStringInjective(p1, p2);
    NatToStringInjective(i1, i2);
  }

  /** The ids of a document's chunks are pairwise different. */
  lemma IdsUnique(docId: string, pages: seq<string>)
    ensures var cs := DocumentChunks(docId, pages);
            forall k, l :: 0 <= k < l < |cs| ==> Id(cs[k]) != Id(cs[l])
  {
    var cs := DocumentChunks(docId, pages);
    PagesChunksOrdered(docId, pages, 0);
    forall k, l | 0 <= k < l < |cs| ensures Id(cs[k]) != Id(cs[l]) {
      if Id(cs[k]) == Id(cs[l]) {
        ChunkIdInjective(docId, cs[k].page, cs[k].index, cs[l].page, cs[l].index);
      }
    }
  }

  /** The groups hold only words of the page. */
  lemma {:induction false} GroupsHoldWords(words: seq<string>, k: nat)
    requires forall i :: 0 <= i < |words| ==> IsWord(words[i])
    requires k < |Groups(words)|
    ensures forall i :: 0 <= i < |Groups(words)[k]| ==> IsWord(Groups(words)[k][i])
    decreases |words|
  {
    var n := if |words| < ChunkWords then |words| else ChunkWords;
    var rest := words[n..];
    assert Groups(words) == [words[..n]] + Groups(rest);
    if k > 0 {
      assert forall i :: 0 <= i < |rest| ==> rest[i] == words[n + i];
      GroupsHoldWords(rest, k - 1);
    }
  }

  /** A chunk's text splits back into exactly its group's words. */
  lemma ChunkWordsRecovered(words: seq<string>, k: nat)
    requires forall i :: 0 <= i < |words| ==> IsWord(words[i])
    requires k < |Groups(words)|
    ensures SplitWords(ChunkText(Groups(words)[k])) == Groups(words)[k]
  {
    GroupsHoldWords(words, k);
    SplitJoinWords(Groups(words)[k]);
  }

  /** The lists `process_pdf` hands to the store. */
  function Texts(cs: seq<Chunk>): (r: seq<string>)
    ensures |r| == |cs| && forall k :: 0 <= k < |cs| ==> r[k] == cs[k].text
  {
    seq(|cs|, k requires 0 <= k < |cs| => cs[k].text)
  }

  function Metadatas(cs: seq<Chunk>): (r: seq<Metadata>)
    ensures |r| == |cs| && forall k :: 0 <= k < |cs| ==> r[k] == MetadataOf(cs[k])
  {
    seq(|cs|, k requires 0 <= k < |cs| => MetadataOf(cs[k]))
  }

  function Ids(cs: seq<Chunk>): (r: seq<string>)
    ensures |r| == |cs| && forall k :: 0 <= k < |cs| ==> r[k] == Id(cs[k])
  {
    seq(|cs|, k requires 0 <= k < |cs| => Id(cs[k]))
  }

  /** The batch loop: slices of at most 100 of each list, added in order. */
  function AddBatches(s: Store<Metadata>, texts: seq<string>, metadatas: seq<Metadata>, ids: seq<string>): (r: Store<Metadata>)
    requires |texts| == |metadatas| == |ids|
    decreases |texts|
  {
    if texts == [] then s
    else
      var n := if |texts| < BatchSize then |texts| else BatchSize;
      AddBatches(Add(s, texts[..n], metadatas[..n], ids[..n]), texts[n..], metadatas[n..], ids[n..])
  }

  /** Batching adds every chunk exactly once, in order: the same as adding
      all of them at once. */
  lemma {:induction false} BatchesAreOneAdd(s: Store<Metadata>, texts: seq<string>, metadatas: seq<Metadata>, ids: seq<string>)
    requires |texts| == |metadatas| == |ids|
    ensures AddBatches(s, texts, metadatas, ids) == Add(s, texts, metadatas, ids)
    decreases |texts|
  {
    if texts == [] {
      assert s.documents + texts == s.documents && s.metadatas + metadatas == s.metadatas && s.ids + ids == s.ids;
    } else {
      var n := if |texts| < BatchSize then |texts| else BatchSize;
      BatchesAreOneAdd(Add(s, texts[..n], metadatas[..n], ids[..n]), texts[n..], metadatas[n..], ids[n..]);
      AddTwice(s, texts[..n], metadatas[..n], ids[..n], texts[n..], metadatas[n..], ids[n..]);
      assert texts[..n] + texts[n..] == texts;
      assert metadatas[..n] + metadatas[n..] == metadatas;
      assert ids[..n] + ids[n..] == ids;
    }
  }

  /** `process_pdf` on the extracted page texts. */
  function ProcessPages(s: Store<Metadata>, docId: string, pages: seq<string>): Store<Metadata> {
    var cs := DocumentChunks(docId, pages);
    AddBatches(s, Texts(cs), Metadatas(cs), Ids(cs))
  }

  /** The store grows by the document's chunks, in order, and stays well formed. */
  lemma ProcessPagesAdds(s: Store<Metadata>, docId: string, pages: seq<string>)
    ensures var cs := DocumentChunks(docId, pages);
            ProcessPages(s, docId, pages) == Add(s, Texts(cs), Metadatas(cs), Ids(cs))
    ensures WellFormed(s) ==> WellFormed(ProcessPages(s, docId, pages))
    ensures Count(ProcessPages(s, docId, pages)) == Count(s) + |DocumentChunks(docId, pages)|
  {
    var cs := DocumentChunks(docId, pages);
    BatchesAreOneAdd(s, Texts(cs), Metadatas(cs), Ids(cs));
  }
}
