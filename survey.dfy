/**
 * The shapes of the survey dataset as it passes from tool to tool. A CSV row is a map from
 * column name to cell text; the topic-list and cluster-id columns, which the tools parse with
 * `ast.literal_eval`, are kept as already-parsed sequences in fields of their own.
 */
module Survey {

  /** The passthrough columns of one survey row, by column name. */
  type Record = map<string, string>

  /** A row after topic extraction: its columns plus the `all_topics_discussed` list. */
  datatype Row = Row(attrs: Record, topics: seq<string>)

  /** A row after topic clustering: it also carries the parallel `topic_cluster_ids` list. */
  datatype ClusteredRow = ClusteredRow(attrs: Record, topics: seq<string>, clusterIds: seq<int>)
}
