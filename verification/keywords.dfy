/** The pure parts of the keyword-extraction pipeline
    (src/pipelines/keywords_extraction/pipeline.rs:206-269): the candidate
    words of all documents are laid end to end with one boundary per
    document, each document asks for at most as many keywords as it has
    candidates, and its keywords come back best first. The embedding model
    and the keyword scorer are outside the model: the scorer is a function
    parameter. */
module Keywords {

  import opened Basics
  import opened Scores
  import opened Sorting

  /** A character span of a word in its document. */
  datatype Offset = Offset(begin: nat, end: nat)

  datatype Keyword = Keyword(text: string, score: real, offsets: seq<Offset>)

  /** The `(start, end)` pair of a document in the flat word list. */
  datatype Boundary = Boundary(start: nat, end: nat)

  /** Reference: the documents' word lists laid end to end. */
  function Joined(docs: seq<seq<string>>): seq<string>
  {
    if docs == [] then [] else Joined(docs[..|docs| - 1]) + docs[|docs| - 1]
  }

  /** The first `k` documents laid out in `flat`, with their boundaries:
      contiguous from zero, each range holding its document's words, and
      the last range ending where `flat` does. */
  ghost predicate Laid(flat: seq<string>, bounds: seq<Boundary>, docs: seq<seq<string>>, k: nat)
    requires k <= |docs|
  {
    && |bounds| == k
    && (k > 0 ==> bounds[0].start == 0)
    && |flat| == (if k == 0 then 0 else bounds[k - 1].end)
    && (forall i :: 0 < i < k ==> bounds[i].start == bounds[i - 1].end)
    && (forall i :: 0 <= i < k ==>
          bounds[i].end == bounds[i].start + |docs[i]| && bounds[i].end <= |flat| &&
          flat[bounds[i].start..bounds[i].end] == docs[i])
  }

  /** Laying out one more document keeps the earlier ranges intact. */
  lemma LaidExtends(flat: seq<string>, bounds: seq<Boundary>, docs: seq<seq<string>>, k: nat)
    requires k < |docs| && Laid(flat, bounds, docs, k)
    ensures Laid(flat + docs[k], bounds + [Boundary(|flat|, |flat| + |docs[k]|)], docs, k + 1)
  {
    var flat', bounds' := flat + docs[k], bounds + [Boundary(|flat|, |flat| + |docs[k]|)];
    forall i | 0 <= i < k
      ensures flat'[bounds'[i].start..bounds'[i].end] == docs[i]
    {
      assert flat'[bounds[i].start..bounds[i].end] == flat[bounds[i].start..bounds[i].end];
    }
    assert flat'[|flat|..|flat| + |docs[k]|] == docs[k];
  }

  /** `flatten_word_list`: the flat list of every document's words, and
      for each document the range of the flat list its words occupy. The
      ranges are contiguous from zero and cover the list exactly. */
  method FlattenWordList(docs: seq<seq<string>>) returns (flat: seq<string>, bounds: seq<Boundary>)
    ensures flat == Joined(docs) && |bounds| == |docs|
    ensures |docs| > 0 ==> bounds[0].start == 0
    ensures forall i :: 0 < i < |docs| ==> bounds[i].start == bounds[i - 1].end
    ensures forall i :: 0 <= i < |docs| ==>
      bounds[i].end == bounds[i].start + |docs[i]| && bounds[i].end <= |flat| &&
      flat[bounds[i].start..bounds[i].end] == docs[i]
    ensures |flat| == (if |docs| == 0 then 0 else bounds[|docs| - 1].end)
  {
    flat := [];
    bounds := [];
    var current := 0;
    for k := 0 to |docs|
      invariant flat == Joined(docs[..k]) && current == |flat|
      invariant Laid(flat, bounds, docs, k)
    {
      assert docs[..k + 1][..k] == docs[..k];
      LaidExtends(flat, bounds, docs, k);
      flat := flat + docs[k];
      bounds := bounds + [Boundary(current, current + |docs[k]|)];
      current := current + |docs[k]|;
    }
    assert docs[..|docs|] == docs;
  }

  /** `min(num_keywords, number of candidate words)`. */
  function NumKeywords(requested: nat, candidates: nat): (n: nat)
    ensures n <= requested && n <= candidates
    ensures n == requested || n == candidates
  {
    Min(requested, candidates)
  }

  /** The sort key that puts higher scores first. */
  function Descending(k: Keyword): Score {
    Fin(-k.score)
  }

  /** Keywords listed best first. */
  ghost predicate BestFirst(ks: seq<Keyword>) {
    forall i, j :: 0 <= i < j < |ks| ==> ks[i].score >= ks[j].score
  }

  lemma SortedDescending(ks: seq<Keyword>)
    requires SortedBy(ks, Descending)
    ensures BestFirst(ks)
  {
    forall i, j | 0 <= i < j < |ks|
      ensures ks[i].score >= ks[j].score
    {
      assert Le(Descending(ks[i]), Descending(ks[j]));
    }
  }

  /** The keywords of one document before sorting: pick `(index, score)`
      names the word at `start + index` of the flat list, whose offsets are
      looked up in the document's own word map. Reading past the flat list
      or looking up a word the document does not contain fails. */
  function Build(flat: seq<string>, start: nat, picks: seq<(nat, real)>,
                 offsets: map<string, seq<Offset>>): (r: Result<seq<Keyword>>)
    ensures r.Ok? <==> forall j :: 0 <= j < |picks| ==>
      start + picks[j].0 < |flat| && flat[start + picks[j].0] in offsets
    ensures r.Err? ==> r.failure == IndexOutOfRange || r.failure == UnknownWord
    ensures r.Ok? ==> |r.value| == |picks| && forall j :: 0 <= j < |picks| ==>
      r.value[j] == Keyword(flat[start + picks[j].0], picks[j].1, offsets[flat[start + picks[j].0]])
    decreases |picks|
  {
    if picks == [] then Ok([])
    else
      var (index, score) := picks[0];
      if start + index >= |flat| then Err(IndexOutOfRange)
      else if flat[start + index] !in offsets then Err(UnknownWord)
      else
        match Build(flat, start, picks[1..], offsets)
        case Err(f) => Err(f)
        case Ok(rest) =>
          Ok([Keyword(flat[start + index], score, offsets[flat[start + index]])] + rest)
  }

  /** One document of `predict`: its keywords, best first. Every keyword is
      a word of the document with that word's offsets. */
  function DocumentKeywords(flat: seq<string>, start: nat, picks: seq<(nat, real)>,
                            offsets: map<string, seq<Offset>>): (r: Result<seq<Keyword>>)
    ensures r.Ok? <==> Build(flat, start, picks, offsets).Ok?
    ensures r.Err? ==> r.failure == Build(flat, start, picks, offsets).failure
    ensures r.Ok? ==> BestFirst(r.value)
    ensures r.Ok? ==> multiset(r.value) == multiset(Build(flat, start, picks, offsets).value)
    ensures r.Ok? ==> forall k :: k in r.value ==> k.text in offsets && k.offsets == offsets[k.text]
  {
    match Build(flat, start, picks, offsets)
    case Err(f) => Err(f)
    case Ok(built) =>
      var sorted := SortBy(built, Descending);
      SortedDescending(sorted);
      forall k | k in sorted
        ensures k.text in offsets && k.offsets == offsets[k.text]
      {
        assert k in multiset(built);
      }
      Ok(sorted)
  }

  /** The keyword scorer: given a document and how many keywords it should
      return, pairs of a word index local to the document and a score. */
  type Scorer = (nat, nat) -> seq<(nat, real)>

  /** The scorer keeps to the words it was shown. */
  ghost predicate StaysInDocument(scorer: Scorer, docs: seq<seq<string>>, requested: nat) {
    forall d, j :: 0 <= d < |docs| && 0 <= j < |scorer(d, NumKeywords(requested, |docs[d]|))| ==>
      scorer(d, NumKeywords(requested, |docs[d]|))[j].0 < |docs[d]|
  }

  /** What `predict` promises about the keywords `ks` of document `d`:
      best first, as many as the scorer picked, each a word of the
      document with that word's offsets. */
  ghost predicate DocumentOk(ks: seq<Keyword>, d: nat, words: seq<map<string, seq<Offset>>>,
                             docs: seq<seq<string>>, requested: nat, scorer: Scorer)
    requires d < |docs| && d < |words|
  {
    && BestFirst(ks)
    && |ks| == |scorer(d, NumKeywords(requested, |docs[d]|))|
    && forall k :: k in ks ==> k.text in words[d] && k.offsets == words[d][k.text]
  }

  /** The loop body of `predict` for document `d`, whose words occupy
      `bound` in the flat list. */
  function DocumentResult(flat: seq<string>, bound: Boundary, d: nat, words: seq<map<string, seq<Offset>>>,
                          docs: seq<seq<string>>, requested: nat, scorer: Scorer): (r: Result<seq<Keyword>>)
    requires d < |docs| == |words|
    requires forall w :: w in docs[d] <==> w in words[d]
    requires bound.end == bound.start + |docs[d]| <= |flat| && flat[bound.start..bound.end] == docs[d]
    ensures StaysInDocument(scorer, docs, requested) ==> r.Ok?
    ensures r.Err? ==> r.failure == IndexOutOfRange || r.failure == UnknownWord
    ensures r.Ok? ==> DocumentOk(r.value, d, words, docs, requested, scorer)
  {
    var picks := scorer(d, NumKeywords(requested, bound.end - bound.start));
    ScorerInDocument(flat, bound, d, docs, requested, scorer, words[d]);
    DocumentKeywords(flat, bound.start, picks, words[d])
  }

  /** A scorer that keeps to the words it was shown only picks words of
      document `d`. */
  lemma ScorerInDocument(flat: seq<string>, bound: Boundary, d: nat, docs: seq<seq<string>>,
                         requested: nat, scorer: Scorer, offsets: map<string, seq<Offset>>)
    requires d < |docs| && (forall w :: w in docs[d] <==> w in offsets)
    requires bound.end == bound.start + |docs[d]| <= |flat| && flat[bound.start..bound.end] == docs[d]
    ensures StaysInDocument(scorer, docs, requested) ==>
      Build(flat, bound.start, scorer(d, NumKeywords(requested, |docs[d]|)), offsets).Ok?
  {
    if StaysInDocument(scorer, docs, requested) {
      InDocumentBuilds(flat, bound, docs[d], scorer(d, NumKeywords(requested, |docs[d]|)), offsets);
    }
  }

  /** `predict` once the words are known: `docs[d]` lists the distinct
      words of document `d` in the order its map yields them, and `words[d]`
      is that map. Each document's keywords satisfy `DocumentOk`, and
      nothing fails when the scorer keeps to the words it was shown. */
  method Predict(words: seq<map<string, seq<Offset>>>, docs: seq<seq<string>>, requested: nat, scorer: Scorer)
    returns (r: Result<seq<seq<Keyword>>>)
    requires |docs| == |words|
    requires forall d, w :: 0 <= d < |docs| ==> (w in docs[d] <==> w in words[d])
    ensures StaysInDocument(scorer, docs, requested) ==> r.Ok?
    ensures r.Err? ==> r.failure == IndexOutOfRange || r.failure == UnknownWord
    ensures r.Ok? ==> |r.value| == |docs|
    ensures r.Ok? ==> forall d :: 0 <= d < |docs| ==> DocumentOk(r.value[d], d, words, docs, requested, scorer)
  {
    var flat, bounds := FlattenWordList(docs);
    var out: seq<seq<Keyword>> := [];
    for d := 0 to |docs|
      invariant |out| == d
      invariant forall e :: 0 <= e < d ==> DocumentOk(out[e], e, words, docs, requested, scorer)
    {
      assert forall w :: w in docs[d] <==> w in words[d];
      assert bounds[d].end == bounds[d].start + |docs[d]| <= |flat| && flat[bounds[d].start..bounds[d].end] == docs[d];
      var keywords := DocumentResult(flat, bounds[d], d, words, docs, requested, scorer);
      if keywords.Err? {
        assert !StaysInDocument(scorer, docs, requested);
        return Err(keywords.failure);
      }
      out := out + [keywords.value];
    }
    r := Ok(out);
  }

  /** Picks inside the document name words of the document, so building
      its keywords succeeds. */
  lemma InDocumentBuilds(flat: seq<string>, bound: Boundary, doc: seq<string>, picks: seq<(nat, real)>,
                         offsets: map<string, seq<Offset>>)
    requires bound.end == bound.start + |doc| <= |flat| && flat[bound.start..bound.end] == doc
    requires forall w :: w in doc <==> w in offsets
    requires forall j :: 0 <= j < |picks| ==> picks[j].0 < |doc|
    ensures Build(flat, bound.start, picks, offsets).Ok?
  {
    forall j | 0 <= j < |picks|
      ensures bound.start + picks[j].0 < |flat| && flat[bound.start + picks[j].0] in offsets
    {
      assert flat[bound.start + picks[j].0] == doc[picks[j].0];
    }
  }
}
