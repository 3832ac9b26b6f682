# WikiStance event detection, modelled in Dafny

WikiStance turns the edit histories of Wikipedia articles ("entities") into evolving
events. This project models the event-detection pipeline:

- It reads each entity's edits and pulls the `[[Target|Display]]` wiki links out of the
  added text.
- It cuts the edits into calendar days.
- For every day it builds one of two graphs, keeping only graphs that have an edge:
  - the explicit graph: two entities whose edits link each other within a few days;
  - the implicit graph: two entities that share a burst day and whose added tokens are
    similar enough.
- The graphs are keyed by their ISO date. It extracts clusters from them (maximal
  cliques or connected components of at least three entities).
- Entity Cluster Aggregation folds the clusters, period by period, into events that
  start and end at period keys.
- Finally it exports, per event, the edits that belong to it.

The model also covers three smaller parts:
- revision bucketing, the textual-line filter, the revert test, the token Jaccard and
  the keep/clear loop of the edit collector;
- the snippet-window helper;
- link deduplication.

## Modules

| file | module | what it models |
|---|---|---|
| text.dfy | Wrappers, Text | `Option`; the Python string operations used: `split`, `join`, `strip`, `find`, ASCII `lower`, `re.findall` runs |
| calendar.dfy | Calendar | proleptic Gregorian dates, `toordinal`/`fromordinal`, `str(date)` keys and `strptime("%Y-%m-%d")` |
| graph_basics.dfy | GraphBasics | the `defaultdict(set)` adjacency map, exact similarity ratios, `jaccard_similarity`, grouping helpers |
| edit_records.dfy | EditRecords | `parse_entity_links`: entity name from the file name, link extraction |
| grouping.dfy | Grouping | the `defaultdict(list)` grouping of edits by entity |
| explicit_graph.dfy | ExplicitGraph | `build_explicit_graph` |
| implicit_graph.dfy | ImplicitGraph | `detect_bursts`, `build_implicit_graph` |
| eca.dfy | Eca | the cluster extractors as relations, `jaccard`, and `entity_cluster_aggregation`, both as a fold on values and as a method over aliased event objects |
| eca_properties.dfy | EcaProperties | properties of the aggregation fold |
| pipeline.dfy | Pipeline | `main.py`: date partition, burst map, per-day graphs, event export, and the whole run |
| revisions.dfy | Revisions | `data/edit.py`: bucketing, textual filter, revert test, edit Jaccard, the keep/clear loop |
| snippet.dfy | Snippet | `_snippet_ctx` |
| dedup.dfy | Dedup | the deduplication loop of `data/duplicate.py` |

Conventions:
- Timestamps are integer seconds since 1970-01-01 UTC, and a day is Python's date
  ordinal.
- Similarities are exact fractions (`GraphBasics.Ratio`). They are compared with a real
  threshold by cross-multiplication.
- Code that updates state in place is modelled as methods:
  - an adjacency map is a `map` value the loops reassign;
  - the bucket list is an `array`;
  - the event records are objects of `class Eca.Event`, aliased between the output list
    and the open list.
- Each method is proved against a function or predicate that states what it computes.

## Model

| member | source | states |
|---|---|---|
| Text.Find | data/bert_input/get_context.py:50 | `str.find`: -1 exactly when the pattern occurs nowhere, otherwise an occurrence with none before it |
| Text.StripEmptyIffBlank | main.py:80 | `s.strip()` is empty exactly when `s` is all whitespace |
| Text.RunsAreRuns | data/edit.py:108 | every `re.findall` match is a non-empty run of characters of the class |
| Text.RunsSound | data/edit.py:108 | every match is, verbatim, a maximal run of the class in the text |
| Text.RunsComplete | data/edit.py:108 | every maximal run of the class in the text is a match |
| Text.RunsIff | graph/build_graphs.py:118 | the matches, and the words of `split()`, are exactly the maximal runs, both directions |
| Text.Lower | data/edit.py:106 | lower-casing keeps the length and maps each character |
| Calendar.DayOfValid | main.py:27 | the day of any timestamp Python can hold is a representable date ordinal |
| Calendar.OrdinalRoundTrip | main.py:78 | `toordinal` and `fromordinal` are inverse on representable dates, so comparing dates is comparing ordinals |
| Calendar.OrdinalMonotone | main.py:78 | a later date has a larger ordinal |
| Calendar.ParseFormat | main.py:67-68 | `strptime(str(d), "%Y-%m-%d")` gives back `d` |
| Calendar.FormatParse | main.py:67-68 | every string `ParseDate` accepts is the key of the date it yields |
| Calendar.DayKeyRoundTrip | main.py:67-68 | a day's key parses back to that day |
| Calendar.DayKeyInjective | main.py:36 | distinct days get distinct keys |
| Calendar.KeyOrderIsChronological | graph/ECA.py:24 | sorting keys as strings sorts the dates chronologically, both directions |
| Calendar.DayKeyOrder | graph/ECA.py:24 | one day's key sorts before another's exactly when the day is earlier |
| GraphBasics.NonEmptyIffEdge | main.py:35 | an adjacency map is truthy exactly when it holds an edge |
| GraphBasics.InsertBoth | graph/build_graphs.py:70-71 | adding both directions adds exactly the two pairs and never an empty row |
| GraphBasics.EditsOf | graph/build_graphs.py:101-102 | an entity's list holds exactly its edits |
| GraphBasics.JaccardSimilarity | graph/build_graphs.py:92-95 | the similarity lies in [0, 1] |
| GraphBasics.JaccardSimilaritySymmetric | graph/build_graphs.py:92-95 | the similarity is symmetric |
| GraphBasics.JaccardSimilarityOne | graph/build_graphs.py:92-95 | it is 1 exactly for two equal non-empty sets |
| GraphBasics.JaccardSimilarityZero | graph/build_graphs.py:92-95 | it is 0 exactly when a set is empty or the sets are disjoint |
| EditRecords.EntityNameOfEditsFile | graph/build_graphs.py:22 | `edits_X.json` in any directory names entity `X` |
| EditRecords.CloseFrom | graph/build_graphs.py:12 | the lazy `.*?\]\]` ends at the first `]]` on the same line, or there is none |
| EditRecords.FindLinksFrom | graph/build_graphs.py:28 | every match is one-line content without `]]` inside |
| EditRecords.FindLinksEmptyIff | graph/build_graphs.py:28 | `findall` finds nothing exactly when no complete `[[...]]` occurs |
| EditRecords.BeforePipe | graph/build_graphs.py:29 | the part before the first pipe is the whole text, or the prefix that a pipe ends |
| EditRecords.LinkTargetShape | graph/build_graphs.py:29 | a target has no pipe and no surrounding whitespace |
| EditRecords.NoTargetsIffNoCompleteLink | graph/build_graphs.py:27-29 | an edit has no targets exactly when its joined text has no complete link |
| EditRecords.OneLink | graph/build_graphs.py:27-29 | a single link with target T and display text D yields exactly T, trimmed |
| EditRecords.ParseEntityLinks | graph/build_graphs.py:25-35 | one annotated record per raw edit, in file order, with the file's entity and the edit's targets |
| Grouping.GroupByEntity | graph/build_graphs.py:52-56 | the keys are the entities with edits, each list holds the entity's edits in input order, and the key order has no repeats |
| ExplicitGraph.AddMatches | graph/build_graphs.py:67-71 | scanning a target's edits adds exactly the pairs of edits that link back within the window |
| ExplicitGraph.AddEditLinks | graph/build_graphs.py:64-66 | targets without edits contribute nothing; the others contribute their matches |
| ExplicitGraph.AddEntityEdits | graph/build_graphs.py:62-63 | each edit of the entity contributes its matches |
| ExplicitGraph.AddSources | graph/build_graphs.py:61 | the outer loop yields every entity's contribution |
| ExplicitGraph.BuildExplicitGraph | graph/build_graphs.py:51-72 | the graph's pairs are exactly the reference edge set, with no empty rows |
| ExplicitGraph.ExplicitEdgeIff | graph/build_graphs.py:61-71 | an edge a-b exists exactly when an `a` edit and a `b` edit link each other within `delta_days` |
| ExplicitGraph.ExplicitSymmetric | graph/build_graphs.py:70-71 | both directions of every edge are present |
| ExplicitGraph.WindowEitherOrder | graph/build_graphs.py:69 | trying both orders of the floored day difference means the timestamps lie less than `delta_days + 1` days apart |
| ExplicitGraph.SelfLinkMakesSelfLoop | graph/build_graphs.py:64-71 | an edit linking its own entity creates a self-loop |
| ImplicitGraph.CountPositive | graph/build_graphs.py:79-82 | a day has a positive count exactly when some edit falls on it |
| ImplicitGraph.DetectBursts | graph/build_graphs.py:78-90 | the result is the days whose count reaches the threshold, a subset of the days with edits |
| ImplicitGraph.NoEditsNoBursts | graph/build_graphs.py:84-85 | no edits give no burst days |
| ImplicitGraph.BusiestDayIsBurst | graph/build_graphs.py:87-89 | with a threshold at most the largest count, the busiest day is a burst day |
| ImplicitGraph.EveryDayBurstsAtOne | graph/build_graphs.py:88-89 | with threshold 1 every day with an edit is a burst day |
| ImplicitGraph.DayTokensMembers | graph/build_graphs.py:113-121 | a token is in a day's set exactly when an edit of that day adds it |
| ImplicitGraph.CollectTokens | graph/build_graphs.py:116-121 | the loop collects exactly the day's tokens |
| ImplicitGraph.TokensAreWords | graph/build_graphs.py:118 | tokens are non-empty runs of non-whitespace |
| ImplicitGraph.EditTokensIff | graph/build_graphs.py:118 | the tokens of an edit are exactly the maximal non-whitespace runs of its joined text, verbatim, so case is kept |
| ImplicitGraph.MaxSimilarity | graph/build_graphs.py:112-124 | `max_sim` is the maximum of the shared days' similarities, reached on one of them |
| ImplicitGraph.MaxReachesIff | graph/build_graphs.py:112-126 | the maximum reaches the threshold exactly when some shared burst day does |
| ImplicitGraph.Linked | graph/build_graphs.py:108-128 | the per-pair test is exactly the reference edge condition, including the `continue` on no shared burst day |
| ImplicitGraph.ImplicitEdgeSymmetric | graph/build_graphs.py:108-126 | the edge condition is symmetric |
| ImplicitGraph.AllRows | graph/build_graphs.py:106-107 | for a symmetric condition, visiting each unordered pair once and adding both directions yields every related pair of distinct entities |
| ImplicitGraph.ImplicitPairsOfLoop | graph/build_graphs.py:104-107 | the pair loop over the key order yields the reference edge set |
| ImplicitGraph.BuildImplicitGraph | graph/build_graphs.py:97-130 | the graph's pairs are exactly the reference edge set; it is symmetric, with no empty rows |
| ImplicitGraph.ImplicitSymmetric | graph/build_graphs.py:127-128 | edges are symmetric and never self-loops |
| ImplicitGraph.NoSharedBurstNoEdge | graph/build_graphs.py:108-110 | a pair with no shared burst day gets no edge |
| Eca.Filter | graph/ECA.py:6 | a set is kept exactly when it was found and has at least `min_size` members |
| Eca.Clusters | graph/ECA.py:25-28 | every cluster has at least 3 entities |
| Eca.ClustersAre | graph/ECA.py:3-11 | the clusters are exactly the maximal cliques or components of size at least 3 |
| Eca.Jaccard | graph/ECA.py:13-14 | defined only for a non-empty union (else Python divides by zero); the result lies in [0, 1] over the union's size |
| Eca.JaccardSymmetric | graph/ECA.py:13-14 | the ratio is symmetric |
| Eca.JaccardOneIff | graph/ECA.py:13-14 | it is 1 exactly for equal sets |
| Eca.JaccardZeroIff | graph/ECA.py:13-14 | it is 0 exactly for disjoint sets |
| Eca.FirstMatch | graph/ECA.py:33-46 | the first open event the cluster matches, and no earlier one, or none matches |
| Eca.SortedKeys | graph/ECA.py:24 | the keys, each once, in ascending string order |
| Eca.Periods | graph/ECA.py:24-28 | one period per key, in order, with that key's clusters |
| Eca.Run | graph/ECA.py:20-56 | the open list always names existing events |
| Eca.Event.constructor | graph/ECA.py:48-52 | a new event starts and ends at the current period |
| Eca.MergeInto | graph/ECA.py:37-38 | the merge updates the shared record, so the output list sees the union and the new end |
| Eca.NewEvent | graph/ECA.py:48-54 | a fresh record is appended with `start == end == time` |
| Eca.AddClusterImpl | graph/ECA.py:31-54 | the scan of the open events and the merge or append agree with the fold, through the aliases |
| Eca.AddPeriod | graph/ECA.py:30-54 | one period's clusters update the objects as the fold does; `new_clusters` points at the events created |
| Eca.AggregatePeriod | graph/ECA.py:24-55 | after each period the objects hold the fold's events and `prev_clusters` the events it created |
| Eca.EntityClusterAggregation | graph/ECA.py:20-56 | the returned objects hold exactly the fold's events, in order |
| EcaProperties.AddClusterMerges | graph/ECA.py:33-46 | a merge unions the entities and sets `end` on the first matching open event; nothing else changes |
| EcaProperties.AddClusterAppends | graph/ECA.py:47-54 | an unmatched cluster appends one event with `start == end == time` |
| EcaProperties.ImplicitDisjointIsNew | graph/ECA.py:42 | in implicit mode a cluster sharing no entity with any open event becomes a new event |
| EcaProperties.RunGrows | graph/ECA.py:37-53 | events are never removed, keep their start, and their entity sets only grow |
| EcaProperties.RunCreated | graph/ECA.py:53-55 | after a period, the open list is exactly the events created in it |
| EcaProperties.RunSpans | graph/ECA.py:30-55 | every event ends at its start key or at the next processed key |
| EcaProperties.RunAtLeast | graph/ECA.py:37-53 | when all clusters have at least n entities, so do all events |
| EcaProperties.RunEvent | graph/ECA.py:20-56 | each event has at least 3 entities, starts at a period and ends there or at the next one |
| EcaProperties.AggregationEvent | graph/ECA.py:20-56 | each returned event has at least 3 entities and `start <= end`, ending at its start key or the next sorted key |
| EcaProperties.TwoDayCliques | graph/ECA.py:33-40 | clusters ABC then ABCD give two events with gamma 0.8 and one with gamma 0.75 |
| EcaProperties.TwoDayRun | graph/ECA.py:33-40 | for that input, one event exactly when `3/4 >= gamma` |
| Pipeline.EditsOn | main.py:25-28 | a day's list holds exactly the edits of that day |
| Pipeline.EditsOnCount | main.py:25-28 | each edit appears in its own day's list as often as in the input |
| Pipeline.PartitionByDate | main.py:25-28 | the keys are the days with edits and each list is that day's edits in input order |
| Pipeline.BurstMap | main.py:40-43 | the burst map has an entry for exactly the entities with edits |
| Pipeline.DetectAllBursts | main.py:40-43 | the loop builds the burst map once, over each entity's edits of all days |
| Pipeline.DayGraph | main.py:34 | one day's graph has exactly that day's explicit or implicit edge set |
| Pipeline.AddDays | main.py:33-36 | days with an edge get an entry under their own key; the others get none |
| Pipeline.ExplicitIgnoresBursts | main.py:32-36 | explicit graphs do not depend on the burst map |
| Pipeline.FreshKey | main.py:36 | a new day's key is not already taken |
| Pipeline.TemporalGraphs | main.py:30-48 | every key is `str(day)` of a day with edits; a day has an entry exactly when its graph has an edge, holding that graph's pairs |
| Pipeline.KeysParse | main.py:67-68 | every period key parses with `%Y-%m-%d` |
| Pipeline.EventEdits | main.py:72-86 | every edit meeting the three conditions is exported; every record carries the event id, an event entity and non-blank text |
| Pipeline.ExportedFrom | main.py:73-86 | every exported record comes from an edit meeting the three conditions |
| Pipeline.EventEditsAppend | main.py:72-86 | exporting keeps the order of `all_edits` |
| Pipeline.ExportEvent | main.py:66-86 | fails exactly when `start` or `end` does not parse; otherwise it returns the selected edits |
| Pipeline.ExportEvents | main.py:66-91 | one file per event with `event_id` its index, stopping at the first event whose dates do not parse |
| Pipeline.AggregatedEventsParse | main.py:67-68 | events aggregated from ISO-keyed graphs always have parsable dates |
| Pipeline.RunMain | main.py:25-91 | the per-day graphs as above, the events of the aggregation, and one file per event |
| Revisions.SortRevs | data/edit.py:39 | the result is sorted and a permutation of the input |
| Revisions.NumBuckets | data/edit.py:44-45 | `ceil(span/delta) or 1`: the least n with `span <= n*delta`, and 1 for an empty span |
| Revisions.BucketIndex | data/edit.py:50-52 | `min(floor(d/delta), n-1)`: the window holding d, or the last one exactly when d lies at or past the last window's start |
| Revisions.BucketIndexMono | data/edit.py:50-52 | later revisions never go to an earlier bucket |
| Revisions.FillBuckets | data/edit.py:47-53 | the buckets concatenate to the sorted revisions and each holds only its own window's revisions |
| Revisions.Labels | data/edit.py:54-57 | bucket i is labelled `window_start + i*delta` |
| Revisions.Windows | data/edit.py:40-57 | the bucket count, labels and contents of a non-empty sorted list |
| Revisions.BucketRevisionsByDelta | data/edit.py:31-57 | empty input gives `[]`; otherwise the sorted revisions cut into `max(ceil(span/delta), 1)` labelled windows |
| Revisions.BucketsPartition | data/edit.py:39-53 | every revision lands in exactly one bucket, the count is preserved, and each bucket is sorted |
| Revisions.TextualLines | data/edit.py:90-91 | a line is kept exactly when it is textual |
| Revisions.TextualLinesAppend | data/edit.py:90-91 | the filter keeps line order |
| Revisions.TextualChanges | data/edit.py:90-95 | None exactly when no textual line is left on either side; otherwise the two filtered lists |
| Revisions.ImageNotTextual | data/edit.py:81-88 | a line with an image file name or a `[[File:`/`[[Image:` link, in any case, is dropped |
| Revisions.PlainLineIsTextual | data/edit.py:81-88 | a line with no dot, no opening bracket and no leading pipe is kept |
| Revisions.IsRevertIff | data/edit.py:96-102 | a revert holds exactly when both sides exist and one is the other with added and deleted swapped; the test is symmetric |
| Revisions.EditTokensShape | data/edit.py:105-114 | tokens are non-empty runs of word characters, lower-cased |
| Revisions.EditTokensIff | data/edit.py:105-114 | a token is exactly the lower-cased form of a maximal word-character run of some line |
| Revisions.BlankHasNoTokens | data/edit.py:130 | the initial `" "` has no tokens |
| Revisions.EditJaccard | data/edit.py:104-121 | the similarity lies in [0, 1] |
| Revisions.EditJaccardCases | data/edit.py:116-121 | two token-less sides give 1, exactly one gives 0, and the similarity is symmetric |
| Revisions.KeepIff | data/edit.py:134-142 | a change is kept exactly when a similarity exceeds 0.8; `sim_added` clears `added`, otherwise `deleted` is cleared |
| Revisions.KeepFirst | data/edit.py:130-142 | against the initial `prev_changes` a change is kept exactly when its added or deleted lines have no tokens |
| Revisions.ProcessBucket | data/edit.py:130-149 | the loop over one bucket's consecutive pairs yields the scan's records |
| Revisions.ScanFacts | data/edit.py:131-149 | at most one record per pair, each with empty added or deleted, and `prev_changes` is the last record's change or the initial one |
| Revisions.AllRecordsCleared | data/edit.py:127-149 | every record of every bucket carries the title and has empty added or deleted lines |
| Revisions.EditMain | data/edit.py:123-149 | the records are the scans of the non-empty windows in order, each with the title and one side cleared |
| Snippet.SliceBound | data/bert_input/get_context.py:55 | a slice bound within the string is used as is; any bound is clamped into it |
| Snippet.Slice | data/bert_input/get_context.py:55 | a slice is never longer than the string and is the plain substring for in-range bounds |
| Snippet.SnippetCtx | data/bert_input/get_context.py:49-52 | None exactly when the snippet does not occur |
| Snippet.Window | data/bert_input/get_context.py:53-55 | the window around an occurrence is a substring starting at `lo`, holds the snippet at `idx-lo`, and extends up to `win` on each side |
| Snippet.SnippetWindow | data/bert_input/get_context.py:50-55 | the same for the first occurrence, which is the one `_snippet_ctx` uses |
| Snippet.SnippetLength | data/bert_input/get_context.py:53-55 | the result is at most `len(snippet) + 2*win` long and at most `len(text)` |
| Snippet.EmptySnippet | data/bert_input/get_context.py:50-55 | an empty snippet yields `text[0:min(len(text), win)]` |
| Dedup.FirstOfEach | data/duplicate.py:23-30 | the output has exactly the input's keys |
| Dedup.Deduplicate | data/duplicate.py:23-30 | the loop, with `seen` equal to the keys of `deduped` throughout, yields the first link of each key |
| Dedup.FirstOfEachDistinct | data/duplicate.py:27-30 | no two output links share a key |
| Dedup.FirstOfEachSubsequence | data/duplicate.py:24-30 | the output is an order-preserving subsequence of the input |
| Dedup.KeptIsFirst | data/duplicate.py:24-30 | each kept link is the first input link with its key |
| Dedup.DistinctKept | data/duplicate.py:23-30 | a list without repeated keys is unchanged |
| Dedup.Idempotent | data/duplicate.py:23-30 | deduplicating the output again returns it unchanged |

## Notes on the code

The code is modelled where it differs from the repository's own description:

- **Events from ABC then ABCD.** An ABC clique one day and an ABCD clique the next give
  two events with `gamma = 0.8`, not one. Their Jaccard is 3/4
  (`EcaProperties.TwoDayCliques`).
- **p90 threshold.** Ten days with one edit and one day with nine give a p90 threshold
  of 1 under linear interpolation, so every day is a burst day
  (`ImplicitGraph.EveryDayBurstsAtOne`).
- **Self-loops.** The explicit graph can contain self-loops: nothing excludes an edit
  that links its own entity (`ExplicitGraph.SelfLinkMakesSelfLoop`).
- **Event span.** Only the events created in a period stay open, so an event spans at
  most two consecutive periods (`EcaProperties.RunSpans`).
- **First change in a bucket.** `prev_changes` starts as the strings `" "`, so the
  first change of a bucket is kept exactly when its added or its deleted lines have no
  token (`Revisions.KeepFirst`).

## Left out

- HTTP fetching is not modelled: `get_revisions`, the diff fetch and its HTML parsing,
  and the error path of `get_textual_changes`. Diffs are a function parameter `diff`
  from a revision pair to an optional change.
- `data/relevance.py`, the plotting, the threaded collectors and the CSV/JSON glue files
  are not part of this model.
- The enumerations of `networkx` are parameters of the model, stated as relations:
  `find_cliques` and `connected_components` give maximal cliques and components. Their
  iteration order, which decides first-match merges, is left unspecified.
- `np.percentile` is not modelled. The burst threshold of each entity is a parameter.
- `difflib`, JSON reading and writing, `print`, `time.sleep` and `os.makedirs` are
  I/O and are not modelled.
- The event files are not written; they are the lists the export returns.
- ISO-8601 parsing of timestamps is not modelled; timestamps are integer seconds.
  Pipeline.Exported keeps the timestamp as seconds instead of `str(ts)`.
- Pipeline.ValidEdits: timestamps are required to lie in the range Python's
  `datetime` can hold, which Python guarantees by construction.
- `\w`, `str.lower` and `re.IGNORECASE` are modelled on ASCII only. Whitespace, for `\s`,
  `split()` and `strip()`, is Python's full `str.isspace` set.
- Calendar.ParseDate: only zero-padded `YYYY-MM-DD` is accepted; `strptime` also
  accepts one-digit months and days, which `main.py` never produces.
- Float division is modelled as exact fractions, so float rounding is not modelled.
- Revisions.SortRevs: `list.sort` is modelled as insertion sort. Tuples are totally
  ordered, so the sorted permutation is the same.
- ExplicitGraph.BuildExplicitGraph: the per-entity sort by timestamp is left out,
  because it does not change the edge set.
- Revisions.BucketRevisionsByDelta: requires `delta_minutes > 0`. Zero raises
  `ZeroDivisionError` in Python, and negative deltas are not modelled.
- Pipeline.AddDays: the days are visited in any order, as `dict` order does not
  matter once the graphs go into a map.
- `is_revert` is modelled, but `main` does not call it.
- Snippet.SnippetCtx: a negative `win` is modelled as Python slices it, and its
  properties are proved for `win >= 0`.
- Dedup.Link: fields other than the two titles are an opaque map. A link missing a
  title, which raises `KeyError`, is not modelled.
