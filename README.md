# Customer-Survey-Insight: the topic-to-theme pipeline in Dafny

This project models the deterministic core of the three survey tools that turn free-text
insurance survey answers into themed rows, and proves what each tool promises about its output.

- **Topic extraction** (`tools/topics_extraction.py`, module `TopicsExtraction`). One chat-model
  call per row. The reply is cleaned of Markdown code fences and parsed. The topic list is
  normalised: each entry is stripped, empty ones are dropped, duplicates are dropped with the
  first occurrence kept, and at most 5 remain. The quote is cut to 160 characters. The reason
  and the sentiment get their defaults. Six column lists are filled row by row (`ExtractRows`,
  a `while` loop).
- **Topic clustering** (`tools/topic_clustering.py`, module `Clustering`). The sorted,
  duplicate-free vocabulary of all topic phrases is built. It is zipped with the clusterer's
  labels into a phrase-to-cluster map. Each row gets a parallel list of cluster ids. This tool
  is pure, so it is modelled with functions and lemmas.
- **Cluster labelling** (`tools/cluster_labelling.py`, module `Labelling`). The topics of every
  cluster are gathered into a dict with `setdefault(...).append` (`GatherClusters` and
  `GatherRow`, nested loops). Each cluster in dict order gets a label from the labeller; the
  labeller sees a duplicate-free sample of at most 12 members (`LabelClusters`, a loop). The
  rows are then exploded into one record per (topic, cluster id) pair (`ExplodeRows`, nested
  loops).
- **Pipeline** (module `Pipeline`). Facts about the clustering output when it is fed to
  labelling.

The shared helpers are:
- `Text`: Python's `str.strip()` whitespace, `startswith`/`endswith`, and the code-point order
  that `sorted` uses on strings;
- `Seqs`: duplicate-freedom, `list.index`, and `list(dict.fromkeys(...))`;
- `Survey`: the row shapes;
- `Wrappers`: `Option` and `Result`.

The external collaborators are parameters of the model:
- the chat model: `chat`, `labeller`;
- `json.loads`: `parse`;
- the embedding call together with KMeans: the label sequence `labels`;
- `datetime.now()`: `clock`, indexed by row;
- `MODEL_OPENAI`: `modelVersion`. config/constants.py is not part of this model.

An exception that stops a tool is an `Err` value. These are:
- the `json.loads` failure of topic extraction;
- the `KeyError` of the phrase map;
- the `json.loads` failure and the missing `label` key of cluster labelling.

Each loop method is proved against a recursive specification function. Examples:
- `ExtractRows` against `ParsedReplies`;
- `GatherClusters` against `Group` and `KeyOrder`;
- `LabelClusters` against `LabelAll`;
- `ExplodeRows` against `Explode`.

The properties of those functions are proved as separate lemmas.

Choices in the code that the model keeps as they are:
- **Phrase identity.** Phrases are compared exactly after step 1's strip; there is no case
  folding and no other normalisation.
- **Cluster count.** The code does not check K against the vocabulary size. The model takes K
  as given (`numClusters`) and does not bound it.
- **Topic cells.** Malformed topic cells are not modelled; rows carry already-parsed lists.
- **Member order.** Members are appended in row order, then position order (`Members`, `Group`).
- **Pair counts.** `zip` gives Σ min(|topics|, |ids|) records per run.
  `Pipeline.ClusteredTopicsAllExploded` shows that this is Σ |topics| on rows produced by step 2.
- **Labels.** Any `label` value is accepted, including the empty string; `LabelFor` does the
  same.
- **Fenced label replies.** Step 3 does not strip code fences from the labeller's reply. A
  fenced reply is a parse failure there (`LabelFor` has no `StripFences`).

## Model

| member | source | states |
|---|---|---|
| Text.Strip | tools/topics_extraction.py:63 | `s.strip()` is the slice of `s` between the end of its leading whitespace and the start of its trailing whitespace, and neither end of the result is whitespace |
| Text.StripRemovesSpace | tools/topics_extraction.py:63 | what `strip` removes at either end is whitespace only |
| Text.LessTransitive | tools/topic_clustering.py:30 | Python's string order used by `sorted` is transitive |
| Text.LessTotal | tools/topic_clustering.py:30 | two different strings are ordered one way or the other |
| Text.LessIrreflexive | tools/topic_clustering.py:30 | no string is smaller than itself |
| Seqs.FirstIndex | tools/topic_clustering.py:43 | the position of the first occurrence of `x`: `s[k] == x` and `x` does not occur before `k` |
| Seqs.DedupMeaning | tools/topics_extraction.py:75 | `list(dict.fromkeys(s))` is duplicate-free, has exactly the elements of `s`, and orders them by first occurrence in `s` |
| Seqs.DedupUnique | tools/topics_extraction.py:75 | those three properties determine the result: any sequence that has them equals `Dedup(s)` |
| Seqs.DistinctCard | tools/topics_extraction.py:75 | a duplicate-free sequence is as long as its set of elements |
| TopicsExtraction.DropJsonFence | tools/topics_extraction.py:64-65 | the result is a suffix of the input |
| TopicsExtraction.DropOpenFence | tools/topics_extraction.py:66-67 | the result is a suffix of the input |
| TopicsExtraction.DropCloseFence | tools/topics_extraction.py:68-69 | the result is a prefix of the input |
| TopicsExtraction.StripFences | tools/topics_extraction.py:63-70 | the cleaned reply has no whitespace at either end |
| TopicsExtraction.StripFencesNoFence | tools/topics_extraction.py:63-70 | a reply whose stripped text neither opens nor closes with a fence is only stripped |
| TopicsExtraction.StripFencesWithin | tools/topics_extraction.py:63-70 | the cleaned reply is a contiguous substring of the original reply |
| TopicsExtraction.JsonFenceRemoved | tools/topics_extraction.py:63-70 | a "```json" … "```" fence around a body that does not open with a backquote is removed, and the body is stripped |
| TopicsExtraction.PlainFenceRemoved | tools/topics_extraction.py:63-70 | a plain "```" … "```" fence around any body that does not start with "json" is removed, and the body is stripped |
| TopicsExtraction.JsonFenceExample | tools/topics_extraction.py:63-70 | the reply "```json\n{}\n```" is cleaned to "{}" |
| TopicsExtraction.CleanTopicsMeaning | tools/topics_extraction.py:74 | the cleaned topics are exactly the non-empty stripped raw entries, each non-empty and stripped, and there are no more of them than raw entries |
| TopicsExtraction.NormaliseTopicsMeaning | tools/topics_extraction.py:74-75 | the stored topics are at most 5, duplicate-free, non-empty, stripped and taken from the raw list; they are a prefix of the deduplicated cleaned list of length min(its length, 5), and hold every cleaned topic when there are at most 5 distinct ones |
| TopicsExtraction.QuoteOf | tools/topics_extraction.py:78 | the quote has at most 160 characters, is "" when missing, and otherwise is the first min(len, 160) characters of the reply's quote |
| TopicsExtraction.ReasonOf | tools/topics_extraction.py:79 | the reason is "" when missing, and otherwise the reply's reason |
| TopicsExtraction.SentimentOf | tools/topics_extraction.py:80 | the sentiment is "Neutral" when missing or empty and is otherwise passed through; it is never empty |
| TopicsExtraction.Annotate | tools/topics_extraction.py:87-92 | the output row has the input columns with the six added columns set to the row's values, and every other column unchanged |
| TopicsExtraction.ParsedRepliesKeepError | tools/topics_extraction.py:51-72 | once a row's reply fails to parse, later rows do not change the outcome |
| TopicsExtraction.ParsedRepliesMeaning | tools/topics_extraction.py:51-72 | the run passes every row iff every reply parses; it then holds each row's reply in row order, and otherwise names the first row whose reply does not parse |
| TopicsExtraction.ExtractRows | tools/topics_extraction.py:51-92 | the loop fails at exactly the first unparsable row; otherwise each of the six column lists gains one entry per row, so the output has one row per input row, and row k is input row k annotated with the values extracted from its reply, time stamp k and the model name |
| TopicsExtraction.TopicExtraction | tools/topics_extraction.py:51-101 | the same for the whole tool, with each row's reply formed by the chat model, the fence clean-up and the parser; `rows` is the row count |
| TopicsExtraction.NonTextReplyDefaults | tools/topics_extraction.py:60 | a reply that is not a string is read as "{}", so the row gets no topics, empty quote and reason, and "Neutral" |
| TopicsExtraction.EmptyObjectKept | tools/topics_extraction.py:60-70 | the clean-up leaves "{}" unchanged |
| Clustering.InsertMeaning | tools/topic_clustering.py:30 | inserting a phrase into a strictly increasing list keeps it strictly increasing and adds exactly that phrase |
| Clustering.InsertAllMeaning | tools/topic_clustering.py:30 | inserting a row's phrases keeps the list strictly increasing and adds exactly those phrases |
| Clustering.VocabularyMeaning | tools/topic_clustering.py:30 | the vocabulary is strictly increasing in string order, and a phrase is in it iff it occurs in some row's topic list |
| Clustering.IncreasingDistinct | tools/topic_clustering.py:30 | a strictly increasing list is duplicate-free |
| Clustering.SortedSetUnique | tools/topic_clustering.py:30 | two strictly increasing lists with the same elements are equal |
| Clustering.VocabularyIsSortedSet | tools/topic_clustering.py:30 | any strictly increasing list of exactly the occurring phrases is the vocabulary, so `sorted(set(...))` is determined by the rows |
| Clustering.TopicToClusterMeaning | tools/topic_clustering.py:43 | the phrase map's keys are the first min(V, len(labels)) phrases, and each maps to the label at its own index |
| Clustering.RowClusterIdsMeaning | tools/topic_clustering.py:45 | a row's ids exist iff each of its topics is mapped; they are then as many as its topics, and id j is the cluster of topic j; otherwise the failure names an unmapped topic of the row |
| Clustering.AssignRowsMeaning | tools/topic_clustering.py:45 | adding the id column succeeds iff every occurring phrase is mapped; it keeps the row count, the topics and every other column, replaces any old `topic_cluster_ids` column, and gives each row its own ids |
| Clustering.AllPhrasesLabelled | tools/topic_clustering.py:41-45 | every occurring phrase has a cluster iff there are at least as many labels as vocabulary phrases |
| Clustering.TopicClusteringMeaning | tools/topic_clustering.py:30-55 | the run succeeds iff there are at least as many labels as phrases. Then `clusters` is K and `unique_topics` is the vocabulary length. The row count, topics and other columns are unchanged; an old `topic_cluster_ids` column is replaced. Each ids list is as long as its topic list, and id j is the label at the vocabulary index of topic j |
| Clustering.SamePhraseSameId | tools/topic_clustering.py:43-45 | the same phrase gets the same cluster id wherever it occurs, in any row |
| Clustering.IdsInRange | tools/topic_clustering.py:40-45 | when every label lies in [0, K), so does every id written to every row |
| Labelling.PairsStep | tools/cluster_labelling.py:35-36 | the pairs of the first i + 1 rows are those of the first i rows followed by row i's zip |
| Labelling.PairsLength | tools/cluster_labelling.py:35-36 | there are Σ min(len(topics), len(ids)) pairs |
| Labelling.PairsOffset | tools/cluster_labelling.py:35-36 | pair j of row i is at position Σ_{r<i} min(...) + j: row order, then position order |
| Labelling.GroupStep | tools/cluster_labelling.py:37 | one `setdefault(cid, []).append(t)` appends `t` to the list of `cid`, creating it if needed; a new key goes to the end of the key order |
| Labelling.GroupMeaning | tools/cluster_labelling.py:34-37 | the cluster map's keys are exactly the ids paired with a topic; each list holds that id's topics in pair order and is non-empty |
| Labelling.MembersAbsent | tools/cluster_labelling.py:34-37 | an id paired with no topic has no members |
| Labelling.GroupSizes | tools/cluster_labelling.py:34-37 | the member lists hold Σ min(len(topics), len(ids)) topics between them |
| Labelling.GatherClusters | tools/cluster_labelling.py:34-37 | the nested loops build exactly `Group` of all pairs, with the keys in first-insertion order |
| Labelling.GatherRow | tools/cluster_labelling.py:36-37 | the inner loop extends the gathered map and key order by exactly one row's pairs |
| Labelling.SampleMeaning | tools/cluster_labelling.py:62 | the sample is duplicate-free and holds members only. It keeps first-occurrence order, being a prefix of the deduplicated members. It has min(distinct members, 12) elements, and holds all distinct members when there are at most 12 |
| Labelling.LabelNeeded | tools/cluster_labelling.py:68-69 | a cluster's label exists iff the (possibly replaced) reply parses to an object with a `label` key. The label is that key's value. A non-string reply, read as "{}", fails with a missing label instead of defaulting. A failure names its cluster |
| Labelling.LabelAllKeepsError | tools/cluster_labelling.py:45-70 | once a cluster fails, the later clusters do not change the outcome |
| Labelling.LabelAllOk | tools/cluster_labelling.py:45-70 | labelling succeeds iff every cluster's labelling does |
| Labelling.LabelAllLabels | tools/cluster_labelling.py:44-70 | on success the labels are keyed by exactly the clusters, each with its own label |
| Labelling.LabelAllFirstError | tools/cluster_labelling.py:45-70 | a failure is that of the first cluster, in dict order, whose labelling fails |
| Labelling.LabelClusters | tools/cluster_labelling.py:44-70 | the loop over `clusters.items()` computes exactly `LabelAll`, stopping at the first failure |
| Labelling.ExplodeLength | tools/cluster_labelling.py:74-82 | there are Σ min(len(topics), len(ids)) exploded records; a row with no topics contributes none |
| Labelling.ExplodeOffset | tools/cluster_labelling.py:75-82 | the record for pair j of row i is at position Σ_{r<i} min(...) + j, so records follow source row order, then topic position. It is that row's columns with `topic_discussed` = topic j and `general_topic_l1` = the label of id j |
| Labelling.ExplodeMatchesPairs | tools/cluster_labelling.py:78-81 | record k carries exactly pair k: its topic and the label of its cluster id |
| Labelling.ExplodeRows | tools/cluster_labelling.py:74-82 | the nested loops build exactly `Explode` of the rows |
| Labelling.AllPairsLabelled | tools/cluster_labelling.py:70-81 | labels keyed by every gathered cluster cover every id the explosion looks up |
| Labelling.ClusterLabelling | tools/cluster_labelling.py:29-93 | the tool fails iff labelling some cluster fails, with the first such error. Otherwise every looked-up id has a label and the table is the explosion of the rows. `total_rows` is Σ min(len(topics), len(ids)), and `clusters` is the number of distinct ids paired with a topic |
| Pipeline.ParallelPairCount | tools/cluster_labelling.py:35-36 | rows with one id per topic have Σ len(topics) pairs |
| Pipeline.ClusteredTopicsAllExploded | tools/topic_clustering.py:45 | on the output of a successful clustering run, step 3 pairs, and so explodes, every topic of every row |
| Pipeline.PairsFromRows | tools/cluster_labelling.py:35-36 | every pair comes from some position of some row |
| Pipeline.ThemeCountBounded | tools/cluster_labelling.py:89 | when the clusterer's labels lie in [0, K), step 3 on the clustered rows reports at most K clusters |

## Left out

- The chat model, the embedding API and KMeans are network calls and floating-point numerics.
  They are parameters: `chat`, `labeller`, and the label sequence `labels`.
- KMeans' own failure when there are fewer phrases than clusters is sklearn's behaviour and is
  not modelled. `numClusters` is passed through to the report.
- `json.loads` and `ast.literal_eval` are library parsers. They are the parameter `parse`, and
  rows carry already-parsed lists. JSON values of other types are not modelled: a non-list
  `topics` value, a non-string quote, reason, sentiment or label.
- The `str(t)` conversions (tools/topics_extraction.py:74, tools/cluster_labelling.py:37) and
  the `int(cid)` conversions are identities here, because the model's values are already
  strings and integers.
- The `"; ".join(...)` of the sample and the fixed prompts are not modelled. The labeller
  receives the sample list itself.
- CSV reading and writing, and the `output_path`, `status`, `model` and `embedding_model` fields
  of the reports, are file I/O and constants.
- `datetime.now()` is the parameter `clock`, giving row k's time stamp. `MODEL_OPENAI` is
  the parameter `modelVersion`.
- The `topics_column` parameter of steps 2 and 3 and the `cluster_ids_column` parameter of
  step 3 are fixed at their defaults, "all_topics_discussed" and "topic_cluster_ids". Those two
  columns are typed fields of the rows. The text column of step 1 stays a parameter,
  `textColumn`, of `TextOf`, `RowReply` and `TopicExtraction`.
- `async`/`await`, the client set-up and `client.close()` involve no concurrency or data
  shaping.
- tools/business_insight.py, the UI, the agent and server wiring, and the prompt module are
  not part of this model.
- TopicsExtraction.ExtractRows takes the per-row reply as a function argument. Its caller
  TopicExtraction supplies chat model, fence clean-up and parser composed for each row.
- TopicsExtraction.ReasonOf and TopicsExtraction.QuoteOf: an empty string is falsy in Python,
  so `x or ""` maps it to "". The two functions return the empty value itself, which is the
  same string.
