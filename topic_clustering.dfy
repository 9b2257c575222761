/**
 * Step 2 (tools/topic_clustering.py): the sorted vocabulary of topic phrases, the mapping of
 * each phrase to the cluster the clusterer gave it, and the per-row cluster-id lists.
 */
module Clustering {
  import opened Wrappers
  import opened Text
  import opened Seqs
  import opened Survey

  const ClusterIdsColumn := "topic_cluster_ids"

  /** Strictly increasing in Python's string order; hence free of duplicates. */
  predicate StrictlyIncreasing(v: seq<string>) {
    forall i, j :: 0 <= i < j < |v| ==> Less(v[i], v[j])
  }

  /** The phrase `t` appears in the topic list of some row. */
  predicate Occurs(rows: seq<Row>, t: string) {
    exists i :: 0 <= i < |rows| && t in rows[i].topics
  }

  /** `x` put into the sorted `v` at its place, unless it is there already. */
  function Insert(v: seq<string>, x: string): seq<string> {
    if v == [] then [x]
    else if x == v[0] then v
    else if Less(x, v[0]) then [x] + v
    else [v[0]] + Insert(v[1..], x)
  }

  /** Every phrase of `ts` put into `v`, one after the other. */
  function InsertAll(v: seq<string>, ts: seq<string>): seq<string>
    decreases |ts|
  {
    if ts == [] then v else InsertAll(Insert(v, ts[0]), ts[1..])
  }

  /** `sorted({t for lst in topics_series for t in lst})`, built row by row. */
  function Vocabulary(rows: seq<Row>): seq<string>
    decreases |rows|
  {
    if rows == [] then [] else InsertAll(Vocabulary(rows[..|rows| - 1]), rows[|rows| - 1].topics)
  }

  /** Inserting into a sorted sequence keeps it sorted and adds exactly `x`. */
  lemma {:induction false} InsertMeaning(v: seq<string>, x: string)
    requires StrictlyIncreasing(v)
    ensures StrictlyIncreasing(Insert(v, x))
    ensures forall t :: t in Insert(v, x) <==> t in v || t == x
    decreases |v|
  {
    if v != [] && x != v[0] && !Less(x, v[0]) {
      var w := Insert(v[1..], x);
      InsertMeaning(v[1..], x);
      LessTotal(x, v[0]);
      assert forall t :: t in v <==> t == v[0] || t in v[1..];
      forall t | t in w
        ensures Less(v[0], t)
      {
        if t != x {
          var k :| 0 <= k < |v[1..]| && v[1..][k] == t;
          assert v[k + 1] == t;
        }
      }
      ConsIncreasing(v[0], w);
    } else if v != [] && Less(x, v[0]) {
      forall t | t in v
        ensures Less(x, t)
      {
        var k :| 0 <= k < |v| && v[k] == t;
        if k > 0 {
          LessTransitive(x, v[0], t);
        }
      }
      ConsIncreasing(x, v);
    }
  }

  /** A phrase below every element of a sorted sequence can go in front of it. */
  lemma ConsIncreasing(x: string, w: seq<string>)
    requires StrictlyIncreasing(w)
    requires forall t :: t in w ==> Less(x, t)
    ensures StrictlyIncreasing([x] + w)
  {
    var v := [x] + w;
    forall i, j | 0 <= i < j < |v|
      ensures Less(v[i], v[j])
    {
      assert v[j] == w[j - 1];
      if i > 0 {
        assert v[i] == w[i - 1];
      }
    }
  }

  /** Inserting a list of phrases keeps the sequence sorted and adds exactly those phrases. */
  lemma {:induction false} InsertAllMeaning(v: seq<string>, ts: seq<string>)
    requires StrictlyIncreasing(v)
    ensures StrictlyIncreasing(InsertAll(v, ts))
    ensures forall t :: t in InsertAll(v, ts) <==> t in v || t in ts
    decreases |ts|
  {
    if ts != [] {
      InsertMeaning(v, ts[0]);
      InsertAllMeaning(Insert(v, ts[0]), ts[1..]);
      assert forall t :: t in ts <==> t == ts[0] || t in ts[1..];
    }
  }

  /**
   * The vocabulary is sorted, hence duplicate-free, and holds a phrase exactly when the
   * phrase occurs in some row's topic list.
   */
  lemma {:induction false} VocabularyMeaning(rows: seq<Row>)
    ensures StrictlyIncreasing(Vocabulary(rows))
    ensures forall t :: t in Vocabulary(rows) <==> Occurs(rows, t)
    decreases |rows|
  {
    if rows != [] {
      var n := |rows| - 1;
      VocabularyMeaning(rows[..n]);
      InsertAllMeaning(Vocabulary(rows[..n]), rows[n].topics);
      forall t
        ensures Occurs(rows, t) <==> Occurs(rows[..n], t) || t in rows[n].topics
      {
        if Occurs(rows, t) {
          var i :| 0 <= i < |rows| && t in rows[i].topics;
          if i < n {
            assert rows[..n][i] == rows[i];
          }
        }
        if Occurs(rows[..n], t) {
          var i :| 0 <= i < n && t in rows[..n][i].topics;
          assert rows[..n][i] == rows[i];
        }
      }
    }
  }

  /** A strictly increasing sequence has no duplicates. */
  lemma IncreasingDistinct(v: seq<string>)
    requires StrictlyIncreasing(v)
    ensures Distinct(v)
  {
    forall i, j | 0 <= i < j < |v|
      ensures v[i] != v[j]
    {
      if v[i] == v[j] {
        LessIrreflexive(v[i]);
      }
    }
  }

  /** Two strictly increasing sequences with the same elements are equal: `sorted` of a set is unique. */
  lemma {:induction false} SortedSetUnique(v: seq<string>, w: seq<string>)
    requires StrictlyIncreasing(v) && StrictlyIncreasing(w)
    requires forall t :: t in v <==> t in w
    ensures v == w
    decreases |v|
  {
    if v != [] {
      assert v[0] in v;
    }
    if w != [] {
      assert w[0] in w;
    }
    if v != [] && w != [] {
      assert v[0] == w[0] by {
        if v[0] != w[0] {
          var i :| 0 <= i < |w| && w[i] == v[0];
          var j :| 0 <= j < |v| && v[j] == w[0];
          LessAsymmetric(v[0], w[0]);
        }
      }
      forall t
        ensures t in v[1..] <==> t in w[1..]
      {
        SortedTail(v, t);
        SortedTail(w, t);
      }
      SortedSetUnique(v[1..], w[1..]);
      assert v == [v[0]] + v[1..] && w == [w[0]] + w[1..];
    }
  }

  /** The tail of a sorted sequence holds exactly the elements other than its head. */
  lemma SortedTail(v: seq<string>, t: string)
    requires StrictlyIncreasing(v) && v != []
    ensures t in v[1..] <==> t in v && t != v[0]
  {
    if t in v[1..] {
      var k :| 0 <= k < |v[1..]| && v[1..][k] == t;
      assert v[k + 1] == t;
      LessIrreflexive(t);
    }
    if t in v && t != v[0] {
      var k :| 0 <= k < |v| && v[k] == t;
      assert v[1..][k - 1] == t;
    }
  }

  /** The vocabulary is the one sorted enumeration of the phrases that occur in the rows. */
  lemma VocabularyIsSortedSet(rows: seq<Row>, v: seq<string>)
    requires StrictlyIncreasing(v)
    requires forall t :: t in v <==> Occurs(rows, t)
    ensures v == Vocabulary(rows)
  {
    VocabularyMeaning(rows);
    SortedSetUnique(v, Vocabulary(rows));
  }

  /** `{topic: int(label) for topic, label in zip(vocab, labels)}`: pairs up to the shorter list, later pairs overwriting. */
  function TopicToCluster(vocab: seq<string>, labels: seq<int>): map<string, int>
    decreases |vocab|
  {
    var n := Min(|vocab|, |labels|);
    if n == 0 then map[] else TopicToCluster(vocab[..n - 1], labels[..n - 1])[vocab[n - 1] := labels[n - 1]]
  }

  /**
   * The mapping has a key for each of the first min(|vocab|, |labels|) phrases and, the
   * phrases being distinct, maps each of them to the label at its own index.
   */
  lemma {:induction false} TopicToClusterMeaning(vocab: seq<string>, labels: seq<int>)
    requires Distinct(vocab)
    ensures TopicToCluster(vocab, labels).Keys == Elems(vocab[..Min(|vocab|, |labels|)])
    ensures forall i :: 0 <= i < Min(|vocab|, |labels|) ==> TopicToCluster(vocab, labels)[vocab[i]] == labels[i]
    decreases |vocab|
  {
    var n := Min(|vocab|, |labels|);
    if n > 0 {
      var v, l := vocab[..n - 1], labels[..n - 1];
      assert Distinct(v);
      TopicToClusterMeaning(v, l);
      assert Min(|v|, |l|) == n - 1;
      assert v[..n - 1] == v && vocab[..n] == v + [vocab[n - 1]];
      assert Elems(vocab[..n]) == Elems(v) + {vocab[n - 1]};
      forall i | 0 <= i < n - 1
        ensures TopicToCluster(vocab, labels)[vocab[i]] == labels[i]
      {
        assert v[i] == vocab[i] && l[i] == labels[i];
        assert vocab[i] != vocab[n - 1];
      }
    }
  }

  /** `[topic_to_cluster[t] for t in lst]`: a phrase with no cluster raises KeyError (its phrase is the error). */
  function RowClusterIds(topics: seq<string>, m: map<string, int>): Result<seq<int>, string> {
    if topics == [] then Ok([])
    else if topics[0] !in m then Err(topics[0])
    else
      match RowClusterIds(topics[1..], m)
      case Err(t) => Err(t)
      case Ok(ids) => Ok([m[topics[0]]] + ids)
  }

  /** A row's ids exist exactly when all its phrases have a cluster; they are then those clusters, in order. */
  lemma {:induction false} RowClusterIdsMeaning(topics: seq<string>, m: map<string, int>)
    ensures RowClusterIds(topics, m).Ok? <==> forall t :: t in topics ==> t in m
    ensures RowClusterIds(topics, m).Ok? ==> var ids := RowClusterIds(topics, m).value;
      |ids| == |topics| && forall j :: 0 <= j < |topics| ==> ids[j] == m[topics[j]]
    ensures RowClusterIds(topics, m).Err? ==> RowClusterIds(topics, m).error in topics && RowClusterIds(topics, m).error !in m
  {
    if topics != [] {
      RowClusterIdsMeaning(topics[1..], m);
      assert forall t :: t in topics <==> t == topics[0] || t in topics[1..];
      if RowClusterIds(topics, m).Ok? {
        var ids := RowClusterIds(topics, m).value;
        forall j | 0 <= j < |topics|
          ensures ids[j] == m[topics[j]]
        {
          if j > 0 {
            assert topics[j] == topics[1..][j - 1];
          }
        }
      }
    }
  }

  /** The `topic_cluster_ids` column added to every row, in row order; the first failing row's KeyError ends the run. */
  function AssignRows(rows: seq<Row>, m: map<string, int>): Result<seq<ClusteredRow>, string> {
    if rows == [] then Ok([])
    else
      match RowClusterIds(rows[0].topics, m)
      case Err(t) => Err(t)
      case Ok(ids) =>
        match AssignRows(rows[1..], m)
        case Err(t) => Err(t)
        case Ok(rest) => Ok([ClusteredRow(rows[0].attrs - {ClusterIdsColumn}, rows[0].topics, ids)] + rest)
  }

  /**
   * All rows are assigned exactly when every phrase of every row has a cluster; each output
   * row keeps its topics and its other columns and gets the row's ids, which replace any
   * passthrough column of the same name.
   */
  lemma {:induction false} AssignRowsMeaning(rows: seq<Row>, m: map<string, int>)
    ensures AssignRows(rows, m).Ok? <==> forall t :: Occurs(rows, t) ==> t in m
    ensures AssignRows(rows, m).Ok? ==> var out := AssignRows(rows, m).value;
      |out| == |rows| && forall i :: 0 <= i < |rows| ==>
        out[i].attrs == rows[i].attrs - {ClusterIdsColumn} && out[i].topics == rows[i].topics &&
        Ok(out[i].clusterIds) == RowClusterIds(rows[i].topics, m)
  {
    if rows != [] {
      RowClusterIdsMeaning(rows[0].topics, m);
      AssignRowsMeaning(rows[1..], m);
      forall t
        ensures Occurs(rows, t) <==> t in rows[0].topics || Occurs(rows[1..], t)
      {
        if Occurs(rows, t) {
          var i :| 0 <= i < |rows| && t in rows[i].topics;
          if i > 0 {
            assert rows[1..][i - 1] == rows[i];
          }
        }
        if Occurs(rows[1..], t) {
          var i :| 0 <= i < |rows| - 1 && t in rows[1..][i].topics;
          assert rows[1..][i] == rows[i + 1];
        }
      }
      if AssignRows(rows, m).Ok? {
        var out := AssignRows(rows, m).value;
        forall i | 0 <= i < |rows|
          ensures out[i].attrs == rows[i].attrs - {ClusterIdsColumn} && out[i].topics == rows[i].topics
          ensures Ok(out[i].clusterIds) == RowClusterIds(rows[i].topics, m)
        {
          if i > 0 {
            assert out[i] == out[1..][i - 1] && rows[i] == rows[1..][i - 1];
          }
        }
      }
    }
  }

  /** What the tool reports besides the rows: the cluster count it was given and the vocabulary size. */
  datatype ClusteringOutput = ClusteringOutput(rows: seq<ClusteredRow>, clusters: int, uniqueTopics: nat)

  /**
   * The tool: build the vocabulary, take the clusterer's labels for it (one per phrase, in
   * vocabulary order), map each phrase to its label and add the ids to every row. A phrase
   * without a label (fewer labels than phrases) fails with KeyError.
   */
  function TopicClustering(rows: seq<Row>, numClusters: int, labels: seq<int>): Result<ClusteringOutput, string> {
    var vocab := Vocabulary(rows);
    match AssignRows(rows, TopicToCluster(vocab, labels))
    case Err(t) => Err(t)
    case Ok(out) => Ok(ClusteringOutput(out, numClusters, |vocab|))
  }

  /** Every phrase that occurs has a cluster exactly when there are at least as many labels as phrases. */
  lemma AllPhrasesLabelled(rows: seq<Row>, labels: seq<int>)
    ensures (forall t :: Occurs(rows, t) ==> t in TopicToCluster(Vocabulary(rows), labels)) <==> |labels| >= |Vocabulary(rows)|
  {
    var vocab := Vocabulary(rows);
    var m := TopicToCluster(vocab, labels);
    var n := Min(|vocab|, |labels|);
    VocabularyMeaning(rows);
    IncreasingDistinct(vocab);
    TopicToClusterMeaning(vocab, labels);
    if |labels| < |vocab| {
      var t := vocab[n];
      assert Occurs(rows, t);
      assert t !in m;
    } else {
      forall t | Occurs(rows, t)
        ensures t in m
      {
        var k := FirstIndex(vocab, t);
        assert vocab[..n][k] == t;
      }
    }
  }

  /**
   * The run succeeds exactly when there are at least as many labels as phrases. Then every
   * row keeps its columns and topics, its ids list is as long as its topic list, and each id
   * is the label at the index of that phrase in the vocabulary; the counts are reported.
   */
  lemma TopicClusteringMeaning(rows: seq<Row>, numClusters: int, labels: seq<int>)
    ensures TopicClustering(rows, numClusters, labels).Ok? <==> |labels| >= |Vocabulary(rows)|
    ensures TopicClustering(rows, numClusters, labels).Ok? ==>
      var res := TopicClustering(rows, numClusters, labels).value;
      var vocab := Vocabulary(rows);
      res.clusters == numClusters && res.uniqueTopics == |vocab| && |res.rows| == |rows| &&
      forall i :: 0 <= i < |rows| ==>
        res.rows[i].attrs == rows[i].attrs - {ClusterIdsColumn} && res.rows[i].topics == rows[i].topics &&
        |res.rows[i].clusterIds| == |rows[i].topics| &&
        forall j :: 0 <= j < |rows[i].topics| ==>
          rows[i].topics[j] in vocab && res.rows[i].clusterIds[j] == labels[FirstIndex(vocab, rows[i].topics[j])]
  {
    var vocab := Vocabulary(rows);
    var m := TopicToCluster(vocab, labels);
    AllPhrasesLabelled(rows, labels);
    AssignRowsMeaning(rows, m);
    if |labels| >= |vocab| {
      VocabularyMeaning(rows);
      IncreasingDistinct(vocab);
      TopicToClusterMeaning(vocab, labels);
      var res := TopicClustering(rows, numClusters, labels).value;
      forall i, j | 0 <= i < |rows| && 0 <= j < |rows[i].topics|
        ensures rows[i].topics[j] in vocab
        ensures |res.rows[i].clusterIds| == |rows[i].topics|
        ensures res.rows[i].clusterIds[j] == labels[FirstIndex(vocab, rows[i].topics[j])]
      {
        var t := rows[i].topics[j];
        assert Occurs(rows, t);
        RowClusterIdsMeaning(rows[i].topics, m);
        var k := FirstIndex(vocab, t);
        assert vocab[k] == t;
      }
    }
  }

  /** The same phrase gets the same cluster id wherever it occurs, in any row. */
  lemma SamePhraseSameId(rows: seq<Row>, numClusters: int, labels: seq<int>, i: nat, j: nat, i': nat, j': nat)
    requires TopicClustering(rows, numClusters, labels).Ok?
    requires i < |rows| && j < |rows[i].topics| && i' < |rows| && j' < |rows[i'].topics|
    requires rows[i].topics[j] == rows[i'].topics[j']
    ensures var out := TopicClustering(rows, numClusters, labels).value.rows;
      |out| == |rows| && j < |out[i].clusterIds| && j' < |out[i'].clusterIds| &&
      out[i].clusterIds[j] == out[i'].clusterIds[j']
  {
    TopicClusteringMeaning(rows, numClusters, labels);
  }

  /** When the clusterer's labels all lie in [0, numClusters), so does every id written to a row. */
  lemma IdsInRange(rows: seq<Row>, numClusters: int, labels: seq<int>)
    requires forall k :: 0 <= k < |labels| ==> 0 <= labels[k] < numClusters
    ensures TopicClustering(rows, numClusters, labels).Ok? ==>
      var out := TopicClustering(rows, numClusters, labels).value.rows;
      forall i, j :: 0 <= i < |out| && 0 <= j < |out[i].clusterIds| ==> 0 <= out[i].clusterIds[j] < numClusters
  {
    TopicClusteringMeaning(rows, numClusters, labels);
  }
}
