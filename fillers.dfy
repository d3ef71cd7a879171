/**
 * Filler resolution, returnMatchedFiller of scripts/returnMatchedFiller.js
 * and the post-processing loop of main in index.js: the labels a k-NN
 * search returned are decoded to filler categories and looked up in the
 * filler map, and the texts are attached beside the search result.
 */
module Fillers {
  import opened Wrappers
  import opened IdCodec
  import opened Ingestion

  /** What `searchKnn` returns; the distance type is left opaque. */
  datatype KnnResult<D> = KnnResult(distances: seq<D>, neighbors: seq<int>)

  /** `{ ...result, fillers }`: the search result with the filler texts added. */
  datatype MatchedResult<D> = MatchedResult(distances: seq<D>, neighbors: seq<int>, fillers: seq<Option<string>>)

  /** `fillerMap.get(key)`: `None` models `undefined` for a missing key. */
  function Get(fillerMap: map<int, string>, key: int): (text: Option<string>)
    ensures text.Some? <==> key in fillerMap
    ensures text.Some? ==> text.value == fillerMap[key]
  {
    if key in fillerMap then Some(fillerMap[key]) else None
  }

  /**
   * `result.neighbors.map(id => fillerMap.get(getFillerID(id)))`: one entry
   * per neighbour, in order; a category missing from the map gives an
   * absent entry, with no default.
   */
  function ResolveFillers(neighbors: seq<int>, fillerMap: map<int, string>): (fillers: seq<Option<string>>)
    ensures |fillers| == |neighbors|
    ensures forall i :: 0 <= i < |neighbors| ==>
              (fillers[i].Some? <==> GetFillerId(neighbors[i]) in fillerMap)
    ensures forall i :: 0 <= i < |neighbors| && fillers[i].Some? ==>
              fillers[i].value == fillerMap[GetFillerId(neighbors[i])]
  {
    if neighbors == [] then []
    else [Get(fillerMap, GetFillerId(neighbors[0]))] + ResolveFillers(neighbors[1..], fillerMap)
  }

  /**
   * returnMatchedFiller after the search: the result keeps its neighbours
   * and distances and gains one filler entry per neighbour.
   */
  function WithFillers<D>(result: KnnResult<D>, fillerMap: map<int, string>): (matched: MatchedResult<D>)
    ensures matched.neighbors == result.neighbors && matched.distances == result.distances
    ensures |matched.fillers| == |result.neighbors|
    ensures forall i :: 0 <= i < |result.neighbors| ==>
              matched.fillers[i] == Get(fillerMap, GetFillerId(result.neighbors[i]))
  {
    MatchedResult(result.distances, result.neighbors, ResolveFillers(result.neighbors, fillerMap))
  }

  /**
   * Resolving a search over a corpus with in-range categories: a neighbour
   * that is some record's label resolves to the map entry of that record's
   * category, the record being the one at the label's packed position.
   */
  lemma {:induction false} ResolvesToRecordCategory(records: seq<Record>, neighbors: seq<int>, fillerMap: map<int, string>)
    requires CategoriesInRange(records)
    requires forall n :: n in neighbors ==> n in CorpusOf(records).ids
    ensures forall i :: 0 <= i < |neighbors| ==>
              0 <= PositionOf(neighbors[i]) < |records| &&
              ResolveFillers(neighbors, fillerMap)[i]
                == Get(fillerMap, records[PositionOf(neighbors[i])].metadata.fillerId)
  {
    var ids := CorpusOf(records).ids;
    forall i | 0 <= i < |neighbors|
      ensures 0 <= PositionOf(neighbors[i]) < |records|
      ensures ResolveFillers(neighbors, fillerMap)[i]
           == Get(fillerMap, records[PositionOf(neighbors[i])].metadata.fillerId)
    {
      assert neighbors[i] in neighbors;
      var p :| 0 <= p < |ids| && ids[p] == neighbors[i];
      IdsDecode(records, p);
    }
  }

  /** Resolving is deterministic and its entries line up with the neighbours it was given. */
  lemma {:induction false} ResolveFillersAppend(a: seq<int>, b: seq<int>, fillerMap: map<int, string>)
    ensures ResolveFillers(a + b, fillerMap) == ResolveFillers(a, fillerMap) + ResolveFillers(b, fillerMap)
  {
    if a != [] {
      assert (a + b)[1..] == a[1..] + b;
      ResolveFillersAppend(a[1..], b, fillerMap);
    } else {
      assert a + b == b;
    }
  }
}
