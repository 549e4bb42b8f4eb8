# usage_plotter, modelled in Dafny

`usage_plotter.py` scans a tree of web-server access logs of the ESGF data
archive and tallies how many distinct (requester, dataset) pairs asked for
E3SM data, per (realm, data type) bucket. This project models the three
pieces of logic that do the work and proves what they promise:

- **Line filter** (`LineFilter`): a line is kept when it contains `E3SM` and
  none of `CMIP6`, `xml`, `ico`, `cmip6_variables`, `html`, `catalog`,
  `aggregation`; a plain, case-sensitive substring test.
- **Record extractor** (`RecordExtractor`): the line is split on whitespace;
  field 8 is the status, field 6 the request path, field 0 the requester.
  A status without `20` is skipped. The text after the first
  `user_pub_work` and one more character is split on `/`, the last segment
  (the file name) is dropped and the rest joined with `.` to give the dataset
  identifier. Facet 4 of the identifier is the realm and facet 6 the data
  type. Each discard made while reading the line (status, marker, too few
  facets) is an `Outcome` of its own; a (realm, data type) outside the 20
  buckets is discarded when the record is counted, in `Aggregator.Step`.
- **Aggregator** (`Aggregator`, and the class `UsagePlotter.UsageTally` that
  holds the `datasets` dictionary and updates it in place): 20 buckets,
  one per element of `REALMS` x `DATA_TYPES`, each starting with
  `requests = 0` and no tags. A record is counted under the tag
  `requester:dataset_id`: a new tag gets count 1 and bumps `requests`, a
  known tag only has its count bumped.

`Strings` models the Python `str` operations used (`in`, `index`,
`split(sep)`, `join`, argument-less `split()`), with their own round-trip
lemmas. `Wrappers` holds an `Option` type for "raises" results.

The proved guarantee of a whole scan (`Aggregator.Tally`): the tally has
exactly the 20 keys; in every bucket `requests` is the number of distinct
tags; each tag's count is the number of kept lines that produced that tag in
that bucket; and a tag is present exactly when some line produced it.

Where the tool's evident intent and its code differ, the model follows the
code:

- The character after `user_pub_work` is skipped whatever it is, not only
  when it is a `/` (`usage_plotter.py:65`).
- An unknown (realm, data type) pair raises `KeyError` at
  `usage_plotter.py:77`, which the `except` at `:83` catches; after the
  debugger drop the loop goes on, so the line is discarded with every bucket
  unchanged. A dataset identifier with fewer than 7 facets takes the same
  path (`IndexError` at `:73-74`).
- Tags are built as `requester:dataset_id`. They always hold a colon and so
  never collide with a bucket's `requests` entry (`TagNotRequests`). They
  identify the (requester, dataset) pair only when the requester holds no
  colon (`TagInjective`); an IPv6 requester can in principle share a tag
  with another pair.

## Model

| member | source | states |
|---|---|---|
| `Strings.Contains` | usage_plotter.py:28-35 | the substring test `sub in s` holds exactly when `sub` occurs at some position of `s` |
| `Strings.IndexOf` | usage_plotter.py:65 | `str.index`: None exactly when the substring is absent; otherwise a position where it occurs with no occurrence before it |
| `Strings.SplitOn` | usage_plotter.py:69 | `str.split(c)`: at least one piece, and no piece holds the separator |
| `Strings.JoinWith` | usage_plotter.py:69 | `c.join(parts)`: the result is as long as all the parts together plus one separator between each two, and a single part is joined to itself |
| `Strings.JoinSnoc` | usage_plotter.py:69 | one more part adds one separator and that part at the end; with the single-part case this fixes the join of every list, parts holding the separator included |
| `Strings.JoinSplit` | usage_plotter.py:69 | joining the pieces of a split with the same separator gives back the text |
| `Strings.SplitJoin` | usage_plotter.py:69-72 | splitting a join of separator-free pieces gives back the pieces |
| `Strings.JoinAvoids` | usage_plotter.py:69 | a character in neither the separator nor any piece is absent from the join |
| `Strings.Fields` | usage_plotter.py:56 | `str.split()`: every field is non-empty and free of whitespace, and there are no fields exactly when the text is all whitespace |
| `Strings.FieldsWordThen` | usage_plotter.py:56 | a word followed by whitespace or by nothing is the first field, and the fields of the rest follow it |
| `Strings.FieldsWordSpace` | usage_plotter.py:56 | a word and one space are the first field, and the fields of the rest follow |
| `Strings.FieldsSpaceThen` | usage_plotter.py:56 | leading whitespace adds no field and changes none |
| `Strings.FieldsOfJoinThen` | usage_plotter.py:56 | non-empty whitespace-free words joined by spaces and followed by any whitespace split back into those words |
| `Strings.FieldsOfLine` | usage_plotter.py:27-56 | a line of leading whitespace, space-separated words and trailing whitespace (such as the `\n` that `readline` keeps) splits into exactly those words |
| `LineFilter.KeepLine` | usage_plotter.py:28-35 | a line is kept if and only if it contains `E3SM` and none of the seven excluded substrings |
| `LineFilter.Filtered` | usage_plotter.py:25-36 | the kept lines are lines of the log that pass the filter, and every line that passes is kept |
| `LineFilter.FilteredSingle` | usage_plotter.py:28-36 | a one-line log yields that line exactly when it passes |
| `LineFilter.FilteredAppend` | usage_plotter.py:27-36 | filtering two logs one after the other yields the first's kept lines followed by the second's: every appearance is decided on its own and the order is kept |
| `LineFilter.FilteredIdempotent` | usage_plotter.py:28-36 | filtering the filter's output changes nothing |
| `LineFilter.FilterLines` | usage_plotter.py:25-36 | the reading loop yields exactly the filtered lines of the log, in order |
| `RecordExtractor.Suffix` | usage_plotter.py:69 | Python's `s[i:]`: `|s| - i` characters (none once `i` is past the end), the j-th being `s[i + j]` |
| `RecordExtractor.AfterMarker` | usage_plotter.py:64-69 | None exactly when the path lacks `user_pub_work`; otherwise the text after its first occurrence and one more character |
| `RecordExtractor.Directories` | usage_plotter.py:69 | the `/`-segments without the last one: they hold no `/` and, with the last one appended, are all the segments |
| `RecordExtractor.DatasetId` | usage_plotter.py:64-69 | no identifier exactly when the path lacks the marker; an identifier never contains `/` |
| `RecordExtractor.FirstMarkerAfter` | usage_plotter.py:65 | when no marker starts inside the text before it, the first marker is found right after that text |
| `RecordExtractor.DatasetIdOfPath` | usage_plotter.py:62-69 | for a path `prefix + user_pub_work + sep + dirs/.../file`, the identifier is the directories joined by dots |
| `RecordExtractor.DatasetIdMarkerAtEnd` | usage_plotter.py:65-69 | a path that ends at the marker or one character after it has the empty dataset identifier |
| `RecordExtractor.FacetsAreDirectories` | usage_plotter.py:69-72 | when the directories hold no dots, the identifier's facets are exactly those directories |
| `RecordExtractor.ParseKeyFromDirectories` | usage_plotter.py:69-77 | for such paths, with a successful status, the line is counted under (5th directory, 7th directory) |
| `RecordExtractor.Parse` | usage_plotter.py:56-74 | a line is dropped for its status exactly when field 8 lacks `20`; otherwise for its path exactly when field 6 lacks the marker; otherwise for its identifier exactly when it has fewer than 7 facets |
| `RecordExtractor.ParseRecord` | usage_plotter.py:56-76 | a counted record has a successful status, its tag is field 0, a colon and the path's identifier, and its key is facets 4 and 6 |
| `RecordExtractor.ParseOfLine` | usage_plotter.py:56-77 | a whole log line of whitespace-separated fields, with a status holding `20` and a path of prefix, first marker, separator, seven or more dot-free directories and a file name, splits into those fields and is counted in (directory 4, directory 6) under `requester:` and the directories joined by dots |
| `RecordExtractor.Tag` | usage_plotter.py:76 | the tag is the requester, then a colon, then the dataset identifier, and nothing more |
| `RecordExtractor.TagNotRequests` | usage_plotter.py:76-79 | every tag holds a colon and differs from `requests` |
| `RecordExtractor.TagInjective` | usage_plotter.py:76 | for colon-free requesters, equal tags mean equal requester and equal dataset |
| `Aggregator.Pairs` | usage_plotter.py:51 | the keys (x, y) for each y, in order, and no others |
| `Aggregator.Product` | usage_plotter.py:51 | `itertools.product`: a key is produced exactly when its realm and data type are both listed |
| `Aggregator.ProductLength` | usage_plotter.py:51 | the product has one entry per pair of positions |
| `Aggregator.DistinctProduct` | usage_plotter.py:39-40 | distinct realms and data types give distinct keys |
| `Aggregator.KeyCount` | usage_plotter.py:39-51 | the number of distinct keys is the product of the list lengths |
| `Aggregator.RealmsAndDataTypesDistinct` | usage_plotter.py:39-40 | the four realms are distinct and so are the five data types |
| `Aggregator.InitialBuckets` | usage_plotter.py:39-52 | the initial map has a key exactly for each realm of REALMS paired with each data type of DATA_TYPES, each bucket with `requests = 0` and no tags |
| `Aggregator.InitialTally` | usage_plotter.py:39-52 | the initial map has exactly the 20 keys of REALMS x DATA_TYPES, each with `requests = 0` and no tags, and satisfies the tally invariant |
| `Aggregator.CountTag` | usage_plotter.py:77-81 | the tag's count rises by 1, other tags keep theirs, `requests` rises by 1 exactly when the tag was absent, and the bucket invariant is kept |
| `Aggregator.Step` | usage_plotter.py:56-86 | one line never adds or removes a key, and every bucket other than the record's own is unchanged |
| `Aggregator.StepBadStatus` | usage_plotter.py:57-60 | a line whose status lacks `20` leaves every bucket unchanged |
| `Aggregator.StepMissingMarker` | usage_plotter.py:62-68 | a path without the marker gives no identifier and leaves every bucket unchanged |
| `Aggregator.StepTooFewFacets` | usage_plotter.py:71-74 | an identifier with fewer than 7 facets leaves every bucket unchanged |
| `Aggregator.StepUnknownKey` | usage_plotter.py:77-86 | a record whose key is not in the map leaves every bucket unchanged |
| `Aggregator.StepTagCount` | usage_plotter.py:77-81 | a line adds 1 to the count of its own tag in its own bucket and 0 to every other (bucket, tag) |
| `Aggregator.StepPreservesValid` | usage_plotter.py:77-81 | one line keeps the invariant: the 20 keys, `requests` equal to the distinct tags, every count at least 1 |
| `Aggregator.Apply` | usage_plotter.py:55-86 | a sequence of kept lines, processed in order, keeps the key set |
| `Aggregator.ApplyPreservesValid` | usage_plotter.py:55-81 | a sequence of lines keeps the tally invariant |
| `Aggregator.ApplyTagCount` | usage_plotter.py:55-81 | a tag's count rises by the number of lines that produced it in that bucket |
| `Aggregator.RepeatedTag` | usage_plotter.py:77-81 | n lines with the same new tag raise `requests` by 1 and leave the tag's count at n; other buckets are unchanged |
| `Aggregator.FilteredHasFields` | usage_plotter.py:55-57 | when every passing line of a log has 9 fields, so does every filtered line |
| `Aggregator.ProcessLog` | usage_plotter.py:55-86 | one log keeps the key set, and a log with no passing line changes nothing |
| `Aggregator.RunLogs` | usage_plotter.py:54-86 | the logs processed one after another keep the key set |
| `Aggregator.TallyOf` | usage_plotter.py:50-86 | the tally of a whole scan has exactly the 20 keys and satisfies the tally invariant |
| `Aggregator.RunPreservesValid` | usage_plotter.py:54-81 | processing logs one after another keeps the tally invariant |
| `Aggregator.RunTagCount` | usage_plotter.py:54-81 | over many logs a tag's count rises by the number of kept lines of all logs that produced it |
| `Aggregator.Tally` | usage_plotter.py:50-81 | after a whole scan: the 20 keys, `requests` equal to the distinct tags of each bucket, each tag's count equal to the lines that produced it, and a tag present exactly when some line produced it |
| `UsagePlotter.UsageTally.constructor` | usage_plotter.py:50-52 | the new tally holds the initial buckets and satisfies the invariant |
| `UsagePlotter.UsageTally.CountLine` | usage_plotter.py:56-86 | the in-place update of one line leaves the map as the line's specified effect and keeps the invariant |
| `UsagePlotter.UsageTally.CountRecord` | usage_plotter.py:77-81 | the dictionary updates of one record replace its bucket by the bucket with the tag counted |
| `UsagePlotter.UsageTally.CountLog` | usage_plotter.py:55-86 | the inner loop leaves the map as the log's kept lines processed in order, keeping the invariant |
| `UsagePlotter.UsageTally.CountLogs` | usage_plotter.py:54-86 | the outer loop leaves the map as the logs processed in order, keeping the invariant |
| `UsagePlotter.Analyze` | usage_plotter.py:46-86 | a whole scan returns the specified tally, which has the 20 keys and `requests` equal to the distinct tags of every bucket |

## Left out

- `get_logs` (`usage_plotter.py:16-23`): directory traversal with `os.walk`; the logs arrive as a sequence of line sequences.
- Opening files and `readline` in `filter_lines` (`usage_plotter.py:26-27`): file I/O; each log is given as its sequence of lines.
- `parse_args` (`usage_plotter.py:11-14`): command-line parsing.
- The `tqdm` progress bar, the `print` diagnostics, the `ipdb` debugger drops and the final `pprint` (`usage_plotter.py:54`, `67`, `84-85`, `102-103`): presentation and interactive aids; a reported line is simply discarded.
- `plot_cmip6` (`usage_plotter.py:43-44`): an empty stub.
- The unused `IPWhois` import and the commented-out per-dataset aggregation (`usage_plotter.py:6`, `90-98`): no behaviour.
- A kept line with fewer than 9 fields makes `attrs[8]` raise and ends the run (`usage_plotter.py:57`); the model requires at least 9 fields of every kept line instead of modelling the crash.
- Integers are unbounded, as Python's are.
