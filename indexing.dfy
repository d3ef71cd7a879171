/**
 * Index construction, buildIndexing of index.js. The HNSW index is an
 * abstract store of labelled points in insertion order; the vector type is
 * left opaque, and the graph search itself is not part of this model.
 */
module Indexing {
  import opened IdCodec
  import opened Ingestion

  /** One `addPoint(vector, label)` the index has received. */
  datatype Point<V> = Point(id: int, vector: V)

  /** A `HierarchicalNSW` index: its configuration and the points added to it. */
  class HierarchicalNsw<V> {
    /** The distance space, `'l2'` in buildIndexing. */
    const space: string
    const numDimensions: int
    /** The capacity `initIndex` set; 0 before it is called. */
    var maxElements: int
    /** The points in the order `addPoint` received them. */
    var points: seq<Point<V>>

    /** `new HierarchicalNSW(space, numDimensions)`. */
    constructor (space: string, numDimensions: int)
      ensures this.space == space && this.numDimensions == numDimensions
      ensures maxElements == 0 && points == []
    {
      this.space := space;
      this.numDimensions := numDimensions;
      maxElements := 0;
      points := [];
    }

    /** `initIndex(maxElements)`: an empty index of that capacity. */
    method InitIndex(maxElements: int)
      modifies this
      ensures this.maxElements == maxElements && points == []
    {
      this.maxElements := maxElements;
      points := [];
    }

    /** `addPoint(vector, label)`. */
    method AddPoint(vector: V, id: int)
      modifies this
      ensures points == old(points) + [Point(id, vector)]
      ensures maxElements == old(maxElements)
    {
      points := points + [Point(id, vector)];
    }
  }

  /** The points buildIndexing inserts: `(embeddings[i], IDs[i])` for each embedding, in order. */
  function Insertions<V>(embeddings: seq<V>, ids: seq<int>): seq<Point<V>>
    requires |embeddings| <= |ids|
  {
    seq(|embeddings|, i requires 0 <= i < |embeddings| => Point(ids[i], embeddings[i]))
  }

  /**
   * buildIndexing: a fresh `'l2'` index of the given dimension and capacity
   * holding exactly the pairs `(IDs[i], embeddings[i])`, inserted in index
   * order.
   */
  method BuildIndexing<V>(numDimensions: int, maxElements: int, embeddings: seq<V>, ids: seq<int>)
    returns (indexing: HierarchicalNsw<V>)
    requires |embeddings| <= |ids|
    ensures fresh(indexing)
    ensures indexing.space == "l2" && indexing.numDimensions == numDimensions
    ensures indexing.maxElements == maxElements
    ensures indexing.points == Insertions(embeddings, ids)
  {
    indexing := new HierarchicalNsw("l2", numDimensions);
    indexing.InitIndex(maxElements);
    var index := 0;
    while index < |embeddings|
      invariant 0 <= index <= |embeddings|
      invariant indexing.maxElements == maxElements
      invariant |indexing.points| == index
      invariant forall k :: 0 <= k < index ==> indexing.points[k] == Point(ids[k], embeddings[k])
    {
      indexing.AddPoint(embeddings[index], ids[index]);
      index := index + 1;
    }
  }

  /**
   * A point is in the built index exactly when it pairs some embedding with
   * the label at the same position.
   */
  lemma InsertionsHoldExactly<V>(embeddings: seq<V>, ids: seq<int>, p: Point<V>)
    requires |embeddings| <= |ids|
    ensures p in Insertions(embeddings, ids) <==>
            exists i :: 0 <= i < |embeddings| && p == Point(ids[i], embeddings[i])
  {
    var pts := Insertions(embeddings, ids);
    if p in pts {
      var i :| 0 <= i < |pts| && pts[i] == p;
      assert p == Point(ids[i], embeddings[i]);
    }
    if exists i :: 0 <= i < |embeddings| && p == Point(ids[i], embeddings[i]) {
      var i :| 0 <= i < |embeddings| && p == Point(ids[i], embeddings[i]);
      assert pts[i] == p;
    }
  }

  /**
   * Built from an ingested corpus with in-range categories, every label
   * names one point only, and decodes to the category of the record whose
   * text was embedded at that position.
   */
  lemma CorpusLabelsIdentifyPoints<V>(records: seq<Record>, embeddings: seq<V>)
    requires CategoriesInRange(records) && |embeddings| <= |records|
    ensures var pts := Insertions(embeddings, CorpusOf(records).ids);
            && (forall i, j :: 0 <= i < |pts| && 0 <= j < |pts| && pts[i].id == pts[j].id ==> i == j)
            && (forall i :: 0 <= i < |pts| ==>
                  GetFillerId(pts[i].id) == records[i].metadata.fillerId &&
                  PositionOf(pts[i].id) == i)
  {
    var pts := Insertions(embeddings, CorpusOf(records).ids);
    IdsStrictlyIncreasing(records);
    forall i, j | 0 <= i < |pts| && 0 <= j < |pts| && pts[i].id == pts[j].id ensures i == j {
      assert pts[i].id == AssignIds(records)[i] && pts[j].id == AssignIds(records)[j];
    }
  }
}
