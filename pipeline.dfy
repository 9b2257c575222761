/**
 * Properties of steps 2 and 3 run one after the other: the clustered rows that
 * tools/topic_clustering.py writes are what tools/cluster_labelling.py reads.
 */
module Pipeline {
  import opened Seqs
  import opened Survey
  import opened Clustering
  import opened Labelling

  /** Σ over the rows of |topics|. */
  function TopicCount(rows: seq<Row>): nat
    decreases |rows|
  {
    if rows == [] then 0 else TopicCount(rows[..|rows| - 1]) + |rows[|rows| - 1].topics|
  }

  /** Rows whose id lists are as long as their topic lists pair every topic. */
  lemma {:induction false} ParallelPairCount(out: seq<ClusteredRow>, rows: seq<Row>)
    requires |out| == |rows|
    requires forall i :: 0 <= i < |rows| ==> out[i].topics == rows[i].topics && |out[i].clusterIds| == |rows[i].topics|
    ensures PairCount(out) == TopicCount(rows)
    decreases |rows|
  {
    if rows != [] {
      var n := |rows| - 1;
      ParallelPairCount(out[..n], rows[..n]);
    }
  }

  /**
   * Labelling the output of a successful clustering run writes one record per topic of every
   * input row: the `zip` in step 3 drops nothing, because step 2 gives every row one id per topic.
   */
  lemma ClusteredTopicsAllExploded(rows: seq<Row>, numClusters: int, labels: seq<int>)
    requires TopicClustering(rows, numClusters, labels).Ok?
    ensures PairCount(TopicClustering(rows, numClusters, labels).value.rows) == TopicCount(rows)
    ensures |Pairs(TopicClustering(rows, numClusters, labels).value.rows)| == TopicCount(rows)
  {
    var out := TopicClustering(rows, numClusters, labels).value.rows;
    TopicClusteringMeaning(rows, numClusters, labels);
    ParallelPairCount(out, rows);
    PairsLength(out);
  }

  /** Every pair comes from some position of some row. */
  lemma {:induction false} PairsFromRows(rows: seq<ClusteredRow>, k: nat)
    requires k < |Pairs(rows)|
    ensures exists i, j ::
      && 0 <= i < |rows| && 0 <= j < Min(|rows[i].topics|, |rows[i].clusterIds|)
      && Pairs(rows)[k] == Pair(rows[i].topics[j], rows[i].clusterIds[j])
    decreases |rows|
  {
    var n := |rows| - 1;
    var front := Pairs(rows[..n]);
    if k < |front| {
      PairsFromRows(rows[..n], k);
      var i, j :| 0 <= i < n && 0 <= j < Min(|rows[..n][i].topics|, |rows[..n][i].clusterIds|) &&
        front[k] == Pair(rows[..n][i].topics[j], rows[..n][i].clusterIds[j]);
      assert rows[..n][i] == rows[i];
    } else {
      var j := k - |front|;
      assert Pairs(rows)[k] == RowPairs(rows[n])[j];
    }
  }

  /** The integers 0 .. n - 1. */
  function Below(n: nat): (r: set<int>)
    ensures forall x :: x in r <==> 0 <= x < n
    ensures |r| == n
  {
    if n == 0 then {} else
      assert n - 1 !in Below(n - 1);
      Below(n - 1) + {n - 1}
  }

  lemma SubsetCard(a: set<int>, b: set<int>)
    requires a <= b
    ensures |a| <= |b|
  {
    assert b == a + (b - a);
  }

  /**
   * When the clusterer's labels lie in [0, numClusters), labelling the clustered rows reports
   * at most numClusters themes: the `clusters` count of step 3 is bounded by the K of step 2.
   */
  lemma ThemeCountBounded(rows: seq<Row>, numClusters: nat, labels: seq<int>)
    requires forall k :: 0 <= k < |labels| ==> 0 <= labels[k] < numClusters
    requires TopicClustering(rows, numClusters, labels).Ok?
    ensures |Elems(Ids(Pairs(TopicClustering(rows, numClusters, labels).value.rows)))| <= numClusters
  {
    var out := TopicClustering(rows, numClusters, labels).value.rows;
    IdsInRange(rows, numClusters, labels);
    var ids := Ids(Pairs(out));
    forall x | x in Elems(ids)
      ensures x in Below(numClusters)
    {
      var k :| 0 <= k < |ids| && ids[k] == x;
      PairsFromRows(out, k);
    }
    SubsetCard(Elems(ids), Below(numClusters));
  }
}
