/**
 * Step 3 (tools/cluster_labelling.py): gather the topics of every cluster, ask a labeller for
 * one theme label per cluster, and explode the rows into one record per (topic, cluster id)
 * pair. The labeller (the chat model) and `json.loads` are parameters; the dictionaries the
 * tool fills step by step are a map plus, where the tool iterates over one, the order in
 * which its keys were first inserted.
 */
module Labelling {
  import opened Wrappers
  import opened Seqs
  import opened Survey

  const TopicDiscussedColumn := "topic_discussed"
  const GeneralTopicColumn := "general_topic_l1"
  const LabelKey := "label"
  /** At most this many distinct members are shown to the labeller. */
  const SampleSize := 12

  /** One `(t, cid)` that `zip(topics, ids)` yields. */
  datatype Pair = Pair(topic: string, cid: int)

  /** The pairs of one row: `zip` stops at the shorter of the two lists. */
  function RowPairs(r: ClusteredRow): seq<Pair> {
    seq(Min(|r.topics|, |r.clusterIds|), k requires 0 <= k < Min(|r.topics|, |r.clusterIds|) =>
      Pair(r.topics[k], r.clusterIds[k]))
  }

  /** Every pair of every row, in row order and then in position order within a row. */
  function Pairs(rows: seq<ClusteredRow>): seq<Pair>
    decreases |rows|
  {
    if rows == [] then [] else Pairs(rows[..|rows| - 1]) + RowPairs(rows[|rows| - 1])
  }

  /** Σ over the rows of min(|topics|, |ids|). */
  function PairCount(rows: seq<ClusteredRow>): nat
    decreases |rows|
  {
    if rows == [] then 0
    else
      var r := rows[|rows| - 1];
      PairCount(rows[..|rows| - 1]) + Min(|r.topics|, |r.clusterIds|)
  }

  /** The pairs of the first i + 1 rows are those of the first i followed by row i's. */
  lemma PairsStep(rows: seq<ClusteredRow>, i: nat)
    requires i < |rows|
    ensures Pairs(rows[..i + 1]) == Pairs(rows[..i]) + RowPairs(rows[i])
    ensures PairCount(rows[..i + 1]) == PairCount(rows[..i]) + Min(|rows[i].topics|, |rows[i].clusterIds|)
  {
    assert rows[..i + 1][..i] == rows[..i];
  }

  /** There are exactly Σ min(|topics|, |ids|) pairs. */
  lemma {:induction false} PairsLength(rows: seq<ClusteredRow>)
    ensures |Pairs(rows)| == PairCount(rows)
    decreases |rows|
  {
    if rows != [] {
      PairsLength(rows[..|rows| - 1]);
    }
  }

  /** Pair j of row i sits at offset PairCount(rows[..i]) + j: row order, then position order. */
  lemma {:induction false} PairsOffset(rows: seq<ClusteredRow>, i: nat, j: nat)
    requires i < |rows| && j < Min(|rows[i].topics|, |rows[i].clusterIds|)
    ensures PairCount(rows[..i]) + j < |Pairs(rows)|
    ensures Pairs(rows)[PairCount(rows[..i]) + j] == Pair(rows[i].topics[j], rows[i].clusterIds[j])
    decreases |rows|
  {
    var n := |rows| - 1;
    PairsLength(rows[..i]);
    PairsLength(rows);
    assert Pairs(rows) == Pairs(rows[..n]) + RowPairs(rows[n]);
    if i == n {
      assert rows[..n] == rows[..i];
    } else {
      PairsLength(rows[..n]);
      PairsOffset(rows[..n], i, j);
      assert rows[..n][..i] == rows[..i];
      assert rows[..n][i] == rows[i];
    }
  }

  /** The cluster ids of a sequence of pairs. */
  function Ids(ps: seq<Pair>): seq<int> {
    seq(|ps|, k requires 0 <= k < |ps| => ps[k].cid)
  }

  /** The topics paired with cluster `c`, in pair order. */
  function Members(ps: seq<Pair>, c: int): seq<string>
    decreases |ps|
  {
    if ps == [] then []
    else
      var p := ps[|ps| - 1];
      Members(ps[..|ps| - 1], c) + (if p.cid == c then [p.topic] else [])
  }

  /** The `clusters` dict after `clusters.setdefault(cid, []).append(t)` for every pair. */
  function Group(ps: seq<Pair>): map<int, seq<string>>
    decreases |ps|
  {
    if ps == [] then map[]
    else
      var g := Group(ps[..|ps| - 1]);
      var p := ps[|ps| - 1];
      g[p.cid := (if p.cid in g then g[p.cid] else []) + [p.topic]]
  }

  /** The order of `clusters.items()`: each key where it was first inserted. */
  function KeyOrder(ps: seq<Pair>): seq<int> {
    Dedup(Ids(ps))
  }

  /** Appending one pair: the dict update and the key order it makes. */
  lemma GroupStep(ps: seq<Pair>, p: Pair)
    ensures Group(ps + [p]) == Group(ps)[p.cid := (if p.cid in Group(ps) then Group(ps)[p.cid] else []) + [p.topic]]
    ensures KeyOrder(ps + [p]) == if p.cid in Group(ps) then KeyOrder(ps) else KeyOrder(ps) + [p.cid]
  {
    assert (ps + [p])[..|ps|] == ps;
    assert Ids(ps + [p]) == Ids(ps) + [p.cid];
    assert Ids(ps + [p])[..|ps|] == Ids(ps);
    GroupMeaning(ps);
    DedupMeaning(Ids(ps));
    assert p.cid in Ids(ps) <==> p.cid in Elems(Ids(ps));
  }

  /**
   * The keys of the cluster map are exactly the ids paired with some topic, each member list
   * is the ordered list of topics paired with that id, and no member list is empty.
   */
  lemma {:induction false} GroupMeaning(ps: seq<Pair>)
    ensures Group(ps).Keys == Elems(Ids(ps))
    ensures forall c :: c in Group(ps) ==> Group(ps)[c] == Members(ps, c) && Group(ps)[c] != []
    decreases |ps|
  {
    if ps != [] {
      var n := |ps| - 1;
      GroupMeaning(ps[..n]);
      assert Ids(ps) == Ids(ps[..n]) + [ps[n].cid];
      assert Elems(Ids(ps)) == Elems(Ids(ps[..n])) + {ps[n].cid};
      forall c | c !in Group(ps[..n])
        ensures Members(ps[..n], c) == []
      {
        MembersAbsent(ps[..n], c);
      }
    }
  }

  /** An id that is paired with no topic has no members. */
  lemma {:induction false} MembersAbsent(ps: seq<Pair>, c: int)
    requires c !in Elems(Ids(ps))
    ensures Members(ps, c) == []
    decreases |ps|
  {
    if ps != [] {
      var n := |ps| - 1;
      assert Ids(ps) == Ids(ps[..n]) + [ps[n].cid];
      assert Elems(Ids(ps)) == Elems(Ids(ps[..n])) + {ps[n].cid};
      MembersAbsent(ps[..n], c);
    }
  }

  /** Σ |g[c]| over the keys `order`. */
  function SumSizes(order: seq<int>, g: map<int, seq<string>>): nat
    requires forall k :: 0 <= k < |order| ==> order[k] in g
    decreases |order|
  {
    if order == [] then 0
    else
      var n := |order| - 1;
      SumSizes(order[..n], g) + |g[order[n]]|
  }

  /** The sum only reads the entries of the keys in `order`. */
  lemma {:induction false} SumSizesFrame(order: seq<int>, g: map<int, seq<string>>, h: map<int, seq<string>>)
    requires forall k :: 0 <= k < |order| ==> order[k] in g && order[k] in h && |g[order[k]]| == |h[order[k]]|
    ensures SumSizes(order, g) == SumSizes(order, h)
    decreases |order|
  {
    if order != [] {
      var n := |order| - 1;
      SumSizesFrame(order[..n], g, h);
    }
  }

  /** Appending to the member list of one key of a duplicate-free order adds one to the sum. */
  lemma {:induction false} SumSizesBump(order: seq<int>, g: map<int, seq<string>>, c: int, t: string)
    requires Distinct(order) && c in order
    requires forall k :: 0 <= k < |order| ==> order[k] in g
    ensures SumSizes(order, g[c := g[c] + [t]]) == SumSizes(order, g) + 1
    decreases |order|
  {
    var n := |order| - 1;
    var h := g[c := g[c] + [t]];
    if order[n] == c {
      assert forall k :: 0 <= k < n ==> order[..n][k] == order[k] && order[k] != order[n];
      SumSizesFrame(order[..n], g, h);
    } else {
      assert c in order[..n];
      SumSizesBump(order[..n], g, c, t);
    }
  }

  /** Every key in the insertion order has a member list. */
  lemma KeyOrderInGroup(ps: seq<Pair>)
    ensures forall k :: 0 <= k < |KeyOrder(ps)| ==> KeyOrder(ps)[k] in Group(ps)
  {
    DedupMeaning(Ids(ps));
    GroupMeaning(ps);
    forall k | 0 <= k < |KeyOrder(ps)|
      ensures KeyOrder(ps)[k] in Group(ps)
    {
      assert KeyOrder(ps)[k] in KeyOrder(ps);
      assert KeyOrder(ps)[k] in Elems(Ids(ps));
    }
  }

  /** The member lists of all clusters hold Σ min(|topics|, |ids|) topics between them. */
  lemma {:induction false} GroupSizes(ps: seq<Pair>)
    ensures forall k :: 0 <= k < |KeyOrder(ps)| ==> KeyOrder(ps)[k] in Group(ps)
    ensures SumSizes(KeyOrder(ps), Group(ps)) == |ps|
    decreases |ps|
  {
    KeyOrderInGroup(ps);
    if ps != [] {
      var n := |ps| - 1;
      var q, p := ps[..n], ps[n];
      assert ps == q + [p];
      GroupSizes(q);
      if p.cid in Group(q) {
        GroupSizesOld(q, p);
      } else {
        GroupSizesNew(q, p);
      }
    }
  }

  lemma GroupSizesOld(q: seq<Pair>, p: Pair)
    requires p.cid in Group(q)
    requires forall k :: 0 <= k < |KeyOrder(q)| ==> KeyOrder(q)[k] in Group(q)
    requires SumSizes(KeyOrder(q), Group(q)) == |q|
    ensures forall k :: 0 <= k < |KeyOrder(q + [p])| ==> KeyOrder(q + [p])[k] in Group(q + [p])
    ensures SumSizes(KeyOrder(q + [p]), Group(q + [p])) == |q| + 1
  {
    GroupStep(q, p);
    DedupMeaning(Ids(q));
    GroupMeaning(q);
    assert p.cid in Elems(Ids(q));
    SumSizesBump(KeyOrder(q), Group(q), p.cid, p.topic);
  }

  lemma GroupSizesNew(q: seq<Pair>, p: Pair)
    requires p.cid !in Group(q)
    requires forall k :: 0 <= k < |KeyOrder(q)| ==> KeyOrder(q)[k] in Group(q)
    requires SumSizes(KeyOrder(q), Group(q)) == |q|
    ensures forall k :: 0 <= k < |KeyOrder(q + [p])| ==> KeyOrder(q + [p])[k] in Group(q + [p])
    ensures SumSizes(KeyOrder(q + [p]), Group(q + [p])) == |q| + 1
  {
    GroupStep(q, p);
    assert [] + [p.topic] == [p.topic];
    var o := KeyOrder(q);
    var h := Group(q)[p.cid := [p.topic]];
    assert p.cid !in o;
    SumSizesFrame(o, Group(q), h);
    assert (o + [p.cid])[..|o|] == o;
  }

  /** The nested loops that fill the `clusters` dict; `order` is the order of its keys. */
  method GatherClusters(rows: seq<ClusteredRow>) returns (clusters: map<int, seq<string>>, order: seq<int>)
    ensures clusters == Group(Pairs(rows))
    ensures order == KeyOrder(Pairs(rows))
  {
    clusters, order := map[], [];
    var i := 0;
    while i < |rows|
      invariant 0 <= i <= |rows|
      invariant clusters == Group(Pairs(rows[..i]))
      invariant order == KeyOrder(Pairs(rows[..i]))
    {
      clusters, order := GatherRow(clusters, order, RowPairs(rows[i]), Pairs(rows[..i]));
      PairsStep(rows, i);
      i := i + 1;
    }
    assert rows[..i] == rows;
  }

  /**
   * The inner loop over `zip(topics, ids)` of one row, appending its pairs `ps`
   * to the already gathered pairs `done`.
   */
  method GatherRow(clusters: map<int, seq<string>>, order: seq<int>, ps: seq<Pair>, ghost done: seq<Pair>)
    returns (clusters': map<int, seq<string>>, order': seq<int>)
    requires clusters == Group(done) && order == KeyOrder(done)
    ensures clusters' == Group(done + ps)
    ensures order' == KeyOrder(done + ps)
  {
    clusters', order' := clusters, order;
    ghost var q := done;
    var j := 0;
    while j < |ps|
      invariant 0 <= j <= |ps|
      invariant q == done + ps[..j]
      invariant clusters' == Group(q) && order' == KeyOrder(q)
    {
      var t, cid := ps[j].topic, ps[j].cid;
      GroupStep(q, Pair(t, cid));
      // clusters.setdefault(cid, []).append(t); a new key goes to the end of the order
      var members := if cid in clusters' then clusters'[cid] else [];
      if cid !in clusters' {
        order' := order' + [cid];
      }
      clusters' := clusters'[cid := members + [t]];
      assert ps[..j + 1] == ps[..j] + [Pair(t, cid)];
      q := q + [Pair(t, cid)];
      j := j + 1;
    }
    assert ps[..j] == ps;
  }

  /** The label sample `list(dict.fromkeys(tlist))[:12]`. */
  function Sample(members: seq<string>): seq<string> {
    var d := Dedup(members);
    if |d| <= SampleSize then d else d[..SampleSize]
  }

  /**
   * The sample is duplicate-free, holds members only, keeps their first-occurrence order (it
   * is a prefix of the deduplicated members), has at most 12 elements, and is all distinct
   * members when there are at most 12 of them.
   */
  lemma SampleMeaning(members: seq<string>)
    ensures Distinct(Sample(members))
    ensures forall x :: x in Sample(members) ==> x in members
    ensures Sample(members) <= Dedup(members)
    ensures |Sample(members)| == Min(|Elems(members)|, SampleSize)
    ensures |Elems(members)| <= SampleSize ==> Elems(Sample(members)) == Elems(members)
  {
    var d := Dedup(members);
    DedupMeaning(members);
    DistinctCard(d);
    assert Elems(d) == Elems(members);
    forall x | x in Sample(members)
      ensures x in members
    {
      assert x in d;
    }
  }

  /** Why labelling one cluster fails. */
  datatype LabelError =
    | ReplyNotJson(cluster: int)   // `json.loads` rejects the (possibly replaced) reply
    | MissingLabel(cluster: int)   // the parsed object has no `label` key

  /**
   * Labelling one cluster: the labeller sees the sample; a reply that is not text
   * (`None`) is replaced by "{}"; the text is parsed as a JSON object and its `label` read.
   */
  function LabelFor(cid: int, members: seq<string>, labeller: seq<string> -> Option<string>,
                    parse: string -> Option<map<string, string>>): Result<string, LabelError> {
    var content := match labeller(Sample(members)) case Some(s) => s case None => "{}";
    match parse(content)
    case None => Err(ReplyNotJson(cid))
    case Some(obj) => if LabelKey in obj then Ok(obj[LabelKey]) else Err(MissingLabel(cid))
  }

  /**
   * The label is the `label` value of the parsed reply; a reply that is not text, or whose
   * object lacks `label`, fails rather than defaulting.
   */
  lemma LabelNeeded(cid: int, members: seq<string>, labeller: seq<string> -> Option<string>,
                    parse: string -> Option<map<string, string>>)
    ensures LabelFor(cid, members, labeller, parse).Ok? <==>
      var content := if labeller(Sample(members)).Some? then labeller(Sample(members)).value else "{}";
      parse(content).Some? && LabelKey in parse(content).value
    ensures LabelFor(cid, members, labeller, parse).Ok? ==>
      var content := if labeller(Sample(members)).Some? then labeller(Sample(members)).value else "{}";
      parse(content).Some? && LabelKey in parse(content).value &&
      LabelFor(cid, members, labeller, parse).value == parse(content).value[LabelKey]
    ensures labeller(Sample(members)).None? && parse("{}") == Some(map[]) ==>
      LabelFor(cid, members, labeller, parse) == Err(MissingLabel(cid))
    ensures LabelFor(cid, members, labeller, parse).Err? ==> LabelFor(cid, members, labeller, parse).error.cluster == cid
  {
  }

  /** The `cluster_labels` dict after labelling the clusters in `order`. */
  function LabelAll(order: seq<int>, clusters: map<int, seq<string>>, labeller: seq<string> -> Option<string>,
                    parse: string -> Option<map<string, string>>): Result<map<int, string>, LabelError>
    requires forall k :: 0 <= k < |order| ==> order[k] in clusters
    decreases |order|
  {
    if order == [] then Ok(map[])
    else
      var n := |order| - 1;
      match LabelAll(order[..n], clusters, labeller, parse)
      case Err(e) => Err(e)
      case Ok(m) =>
        match LabelFor(order[n], clusters[order[n]], labeller, parse)
        case Err(e) => Err(e)
        case Ok(l) => Ok(m[order[n] := l])
  }

  /** Once a prefix of the clusters fails, labelling all of them fails with the same error. */
  lemma {:induction false} LabelAllKeepsError(order: seq<int>, n: nat, clusters: map<int, seq<string>>,
                                              labeller: seq<string> -> Option<string>,
                                              parse: string -> Option<map<string, string>>)
    requires n <= |order| && forall k :: 0 <= k < |order| ==> order[k] in clusters
    requires LabelAll(order[..n], clusters, labeller, parse).Err?
    ensures LabelAll(order, clusters, labeller, parse) == LabelAll(order[..n], clusters, labeller, parse)
    decreases |order|
  {
    if n < |order| {
      var m := |order| - 1;
      assert order[..m][..n] == order[..n];
      LabelAllKeepsError(order[..m], n, clusters, labeller, parse);
    } else {
      assert order[..n] == order;
    }
  }

  /** Labelling succeeds iff the label of every cluster does. */
  lemma {:induction false} LabelAllOk(order: seq<int>, clusters: map<int, seq<string>>,
                                      labeller: seq<string> -> Option<string>,
                                      parse: string -> Option<map<string, string>>)
    requires forall k :: 0 <= k < |order| ==> order[k] in clusters
    ensures LabelAll(order, clusters, labeller, parse).Ok? <==>
      forall k :: 0 <= k < |order| ==> LabelFor(order[k], clusters[order[k]], labeller, parse).Ok?
    decreases |order|
  {
    if order != [] {
      var n := |order| - 1;
      LabelAllOk(order[..n], clusters, labeller, parse);
      assert forall k :: 0 <= k < n ==> order[..n][k] == order[k];
    }
  }

  /** On success the labels are keyed by exactly the clusters, each with its own label. */
  lemma {:induction false} LabelAllLabels(order: seq<int>, clusters: map<int, seq<string>>,
                                          labeller: seq<string> -> Option<string>,
                                          parse: string -> Option<map<string, string>>)
    requires forall k :: 0 <= k < |order| ==> order[k] in clusters
    ensures LabelAll(order, clusters, labeller, parse).Ok? ==>
      var m := LabelAll(order, clusters, labeller, parse).value;
      && m.Keys == Elems(order)
      && forall c :: c in m ==> c in clusters && Ok(m[c]) == LabelFor(c, clusters[c], labeller, parse)
    decreases |order|
  {
    if order != [] {
      var n := |order| - 1;
      LabelAllLabels(order[..n], clusters, labeller, parse);
      assert Elems(order) == Elems(order[..n]) + {order[n]};
    }
  }

  /** A failure is that of the first cluster whose labelling fails. */
  lemma {:induction false} LabelAllFirstError(order: seq<int>, clusters: map<int, seq<string>>,
                                              labeller: seq<string> -> Option<string>,
                                              parse: string -> Option<map<string, string>>)
    requires forall k :: 0 <= k < |order| ==> order[k] in clusters
    ensures LabelAll(order, clusters, labeller, parse).Err? ==>
      exists n :: 0 <= n < |order| &&
        LabelFor(order[n], clusters[order[n]], labeller, parse) == Err(LabelAll(order, clusters, labeller, parse).error) &&
        forall k :: 0 <= k < n ==> LabelFor(order[k], clusters[order[k]], labeller, parse).Ok?
    decreases |order|
  {
    if order != [] {
      var n := |order| - 1;
      var r := LabelAll(order[..n], clusters, labeller, parse);
      if r.Err? {
        LabelAllFirstError(order[..n], clusters, labeller, parse);
        var i :| 0 <= i < n &&
          LabelFor(order[..n][i], clusters[order[..n][i]], labeller, parse) == Err(r.error) &&
          forall k :: 0 <= k < i ==> LabelFor(order[..n][k], clusters[order[..n][k]], labeller, parse).Ok?;
        assert forall k :: 0 <= k <= i ==> order[..n][k] == order[k];
      } else {
        LabelAllOk(order[..n], clusters, labeller, parse);
        assert forall k :: 0 <= k < n ==> order[..n][k] == order[k];
      }
    }
  }

  /** The loop over `clusters.items()` that fills `cluster_labels`, stopping at the first failure. */
  method LabelClusters(order: seq<int>, clusters: map<int, seq<string>>, labeller: seq<string> -> Option<string>,
                       parse: string -> Option<map<string, string>>) returns (res: Result<map<int, string>, LabelError>)
    requires forall k :: 0 <= k < |order| ==> order[k] in clusters
    ensures res == LabelAll(order, clusters, labeller, parse)
  {
    var labels: map<int, string> := map[];
    var i := 0;
    while i < |order|
      invariant 0 <= i <= |order|
      invariant LabelAll(order[..i], clusters, labeller, parse) == Ok(labels)
    {
      var cid := order[i];
      assert order[..i + 1][..i] == order[..i];
      var r := LabelFor(cid, clusters[cid], labeller, parse);
      if r.Err? {
        LabelAllKeepsError(order, i + 1, clusters, labeller, parse);
        return Err(r.error);
      }
      labels := labels[cid := r.value];
      i := i + 1;
    }
    assert order[..i] == order;
    return Ok(labels);
  }

  /**
   * One record of the exploded table: the source row's columns (`row.to_dict()`, with the
   * topic-list and cluster-id columns kept as they were) with `topic_discussed` and
   * `general_topic_l1` set. The two new columns replace any passthrough column of that name.
   */
  datatype ExplodedRow = ExplodedRow(attrs: Record, topics: seq<string>, clusterIds: seq<int>,
                                     topicDiscussed: string, generalTopicL1: string)

  /** Every cluster id paired with a topic in some row has a label. */
  ghost predicate Covers(rows: seq<ClusteredRow>, labels: map<int, string>) {
    forall i, j :: 0 <= i < |rows| && 0 <= j < Min(|rows[i].topics|, |rows[i].clusterIds|) ==>
      rows[i].clusterIds[j] in labels
  }

  /** The record `r` built for pair j of row r: `row.to_dict()` with the two new columns set. */
  function ExplodeOne(r: ClusteredRow, j: nat, labels: map<int, string>): ExplodedRow
    requires j < Min(|r.topics|, |r.clusterIds|) && r.clusterIds[j] in labels
  {
    ExplodedRow(r.attrs - {TopicDiscussedColumn, GeneralTopicColumn}, r.topics, r.clusterIds,
                r.topics[j], labels[r.clusterIds[j]])
  }

  /** The records of one row, one per pair. */
  function ExplodeRow(r: ClusteredRow, labels: map<int, string>): seq<ExplodedRow>
    requires forall j :: 0 <= j < Min(|r.topics|, |r.clusterIds|) ==> r.clusterIds[j] in labels
  {
    seq(Min(|r.topics|, |r.clusterIds|), j requires 0 <= j < Min(|r.topics|, |r.clusterIds|) => ExplodeOne(r, j, labels))
  }

  /** The exploded table, row after row. */
  function Explode(rows: seq<ClusteredRow>, labels: map<int, string>): seq<ExplodedRow>
    requires Covers(rows, labels)
    decreases |rows|
  {
    if rows == [] then []
    else
      var n := |rows| - 1;
      assert Covers(rows[..n], labels) by {
        forall i, j | 0 <= i < n && 0 <= j < Min(|rows[..n][i].topics|, |rows[..n][i].clusterIds|)
          ensures rows[..n][i].clusterIds[j] in labels
        {
          assert rows[..n][i] == rows[i];
        }
      }
      assert forall j :: 0 <= j < Min(|rows[n].topics|, |rows[n].clusterIds|) ==> rows[n].clusterIds[j] in labels;
      Explode(rows[..n], labels) + ExplodeRow(rows[n], labels)
  }

  lemma CoversPrefix(rows: seq<ClusteredRow>, labels: map<int, string>, i: nat)
    requires Covers(rows, labels) && i <= |rows|
    ensures Covers(rows[..i], labels)
  {
    forall a, j | 0 <= a < i && 0 <= j < Min(|rows[..i][a].topics|, |rows[..i][a].clusterIds|)
      ensures rows[..i][a].clusterIds[j] in labels
    {
      assert rows[..i][a] == rows[a];
    }
  }

  /** There is one exploded record per pair: Σ min(|topics|, |ids|) in all. */
  lemma {:induction false} ExplodeLength(rows: seq<ClusteredRow>, labels: map<int, string>)
    requires Covers(rows, labels)
    ensures |Explode(rows, labels)| == PairCount(rows)
    decreases |rows|
  {
    if rows != [] {
      var n := |rows| - 1;
      CoversPrefix(rows, labels, n);
      ExplodeLength(rows[..n], labels);
    }
  }

  /**
   * The record for pair j of row i sits at offset PairCount(rows[..i]) + j, so the records
   * are ordered by source row, then by position within the row.
   */
  lemma {:induction false} ExplodeOffset(rows: seq<ClusteredRow>, labels: map<int, string>, i: nat, j: nat)
    requires Covers(rows, labels)
    requires i < |rows| && j < Min(|rows[i].topics|, |rows[i].clusterIds|)
    ensures rows[i].clusterIds[j] in labels
    ensures PairCount(rows[..i]) + j < |Explode(rows, labels)|
    ensures Explode(rows, labels)[PairCount(rows[..i]) + j] == ExplodeOne(rows[i], j, labels)
    decreases |rows|
  {
    var n := |rows| - 1;
    CoversPrefix(rows, labels, n);
    CoversPrefix(rows, labels, i);
    ExplodeLength(rows[..i], labels);
    ExplodeLength(rows, labels);
    if i == n {
      assert rows[..n] == rows[..i];
    } else {
      ExplodeOffset(rows[..n], labels, i, j);
      assert rows[..n][..i] == rows[..i];
      assert rows[..n][i] == rows[i];
    }
  }

  /** Record k carries exactly pair k: its topic, and the label of its cluster id. */
  lemma {:induction false} ExplodeMatchesPairs(rows: seq<ClusteredRow>, labels: map<int, string>, k: nat)
    requires Covers(rows, labels) && k < |Pairs(rows)|
    ensures Pairs(rows)[k].cid in labels
    ensures k < |Explode(rows, labels)|
    ensures Explode(rows, labels)[k].topicDiscussed == Pairs(rows)[k].topic
    ensures Explode(rows, labels)[k].generalTopicL1 == labels[Pairs(rows)[k].cid]
    decreases |rows|
  {
    var n := |rows| - 1;
    CoversPrefix(rows, labels, n);
    PairsLength(rows[..n]);
    ExplodeLength(rows[..n], labels);
    if k < |Pairs(rows[..n])| {
      ExplodeMatchesPairs(rows[..n], labels, k);
    }
  }

  /** The nested loops that append one record per pair to `rows`. */
  method ExplodeRows(rows: seq<ClusteredRow>, labels: map<int, string>) returns (out: seq<ExplodedRow>)
    requires Covers(rows, labels)
    ensures out == Explode(rows, labels)
  {
    out := [];
    var i := 0;
    while i < |rows|
      invariant 0 <= i <= |rows|
      invariant Covers(rows[..i], labels)
      invariant out == Explode(rows[..i], labels)
    {
      var row := rows[i];
      assert forall j :: 0 <= j < Min(|row.topics|, |row.clusterIds|) ==> row.clusterIds[j] in labels;
      ghost var done := out;
      var j := 0;
      while j < |row.topics| && j < |row.clusterIds|
        invariant 0 <= j <= Min(|row.topics|, |row.clusterIds|)
        invariant out == done + ExplodeRow(row, labels)[..j]
      {
        var r := ExplodedRow(row.attrs - {TopicDiscussedColumn, GeneralTopicColumn}, row.topics, row.clusterIds,
                             row.topics[j], labels[row.clusterIds[j]]);
        assert ExplodeRow(row, labels)[..j + 1] == ExplodeRow(row, labels)[..j] + [r];
        out := out + [r];
        j := j + 1;
      }
      assert ExplodeRow(row, labels)[..j] == ExplodeRow(row, labels);
      assert rows[..i + 1][..i] == rows[..i];
      CoversPrefix(rows, labels, i + 1);
      i := i + 1;
    }
    assert rows[..i] == rows;
  }

  /** Labels keyed by every gathered cluster cover every pair the explosion looks up. */
  lemma AllPairsLabelled(rows: seq<ClusteredRow>, labels: map<int, string>)
    requires Elems(Ids(Pairs(rows))) <= labels.Keys
    ensures Covers(rows, labels)
  {
    forall i, j | 0 <= i < |rows| && 0 <= j < Min(|rows[i].topics|, |rows[i].clusterIds|)
      ensures rows[i].clusterIds[j] in labels
    {
      PairsOffset(rows, i, j);
      var k := PairCount(rows[..i]) + j;
      assert Ids(Pairs(rows))[k] == rows[i].clusterIds[j];
    }
  }

  /** What the tool returns: the exploded table and the `clusters` and `total_rows` counts. */
  datatype LabellingOutput = LabellingOutput(rows: seq<ExplodedRow>, clusters: nat, totalRows: nat)

  /** The `cluster_labels` dict the tool builds for `rows`: every gathered cluster labelled in key order. */
  function RowLabels(rows: seq<ClusteredRow>, labeller: seq<string> -> Option<string>,
                     parse: string -> Option<map<string, string>>): Result<map<int, string>, LabelError> {
    var ps := Pairs(rows);
    GroupSizes(ps);
    LabelAll(KeyOrder(ps), Group(ps), labeller, parse)
  }

  /**
   * The whole tool. It fails iff labelling some cluster fails, with the first such error.
   * Otherwise every looked-up id has a label, the table is the explosion of the rows, there is
   * one record per pair, and `clusters` is the number of distinct ids paired with a topic.
   */
  method ClusterLabelling(rows: seq<ClusteredRow>, labeller: seq<string> -> Option<string>,
                          parse: string -> Option<map<string, string>>) returns (res: Result<LabellingOutput, LabelError>)
    ensures res.Err? <==> RowLabels(rows, labeller, parse).Err?
    ensures res.Err? ==> RowLabels(rows, labeller, parse) == Err(res.error)
    ensures res.Ok? ==>
      var labels := RowLabels(rows, labeller, parse).value;
      && Covers(rows, labels)
      && res.value.rows == Explode(rows, labels)
      && res.value.totalRows == PairCount(rows)
      && res.value.clusters == |Elems(Ids(Pairs(rows)))|
  {
    var clusters, order := GatherClusters(rows);
    GroupSizes(Pairs(rows));
    var labelled := LabelClusters(order, clusters, labeller, parse);
    if labelled.Err? {
      return Err(labelled.error);
    }
    var labels := labelled.value;
    LabelAllLabels(order, clusters, labeller, parse);
    DedupMeaning(Ids(Pairs(rows)));
    assert labels.Keys == Elems(Ids(Pairs(rows)));
    AllPairsLabelled(rows, labels);
    var out := ExplodeRows(rows, labels);
    ExplodeLength(rows, labels);
    return Ok(LabellingOutput(out, |labels|, |out|));
  }
}
