/**
 * The record extractor of `main`'s loop body: from one kept access-log line
 * it reads the status, the request path and the requester, derives the
 * dataset identifier from the path and the (realm, data type) bucket key from
 * the identifier's dot-separated facets. Each discard that happens while
 * reading the line is an `Outcome` of its own; a key outside the 20 buckets
 * is discarded when the record is counted (`Aggregator.Step`).
 */
module RecordExtractor {
  import opened Wrappers
  import opened Strings

  /** The path segment after which the dataset's directories begin. */
  const MARKER := "user_pub_work"

  /** A status field counts as success when it contains this text. */
  const SUCCESS := "20"

  /** Field positions in a whitespace-split access-log line. */
  const REQUESTER_FIELD := 0
  const PATH_FIELD := 6
  const STATUS_FIELD := 8

  /** Facet positions in a dataset identifier. */
  const REALM_FACET := 4
  const DATA_TYPE_FACET := 6

  /** A bucket key: (realm, data type). */
  type Key = (string, string)

  /** Python's `s[i:]`: empty once `i` is past the end. */
  function Suffix(s: string, i: nat): (r: string)
    ensures |r| == if i <= |s| then |s| - i else 0
    ensures forall j :: 0 <= j < |r| ==> r[j] == s[i + j]
  {
    if i <= |s| then s[i..] else ""
  }

  /**
   * The text after the first marker and the one character that follows it
   * (the `/`, which is skipped unchecked); None where `str.index` raises.
   */
  function AfterMarker(path: string): (r: Option<string>)
    ensures r.None? <==> !Contains(path, MARKER)
    ensures r.Some? ==> exists i: nat ::
      && OccursAt(path, MARKER, i)
      && (forall j: nat :: j < i ==> !OccursAt(path, MARKER, j))
      && r.value == Suffix(path, i + |MARKER| + 1)
  {
    match IndexOf(path, MARKER)
    case None => None
    case Some(i) => Some(Suffix(path, i + |MARKER| + 1))
  }

  /** The `/`-separated segments of `tail` without the last one (the file name). */
  function Directories(tail: string): (r: seq<string>)
    ensures forall i :: 0 <= i < |r| ==> '/' !in r[i]
    ensures r + [SplitOn(tail, '/')[|SplitOn(tail, '/')| - 1]] == SplitOn(tail, '/')
  {
    var segs := SplitOn(tail, '/');
    segs[..|segs| - 1]
  }

  /** The dataset identifier of a request path: its directories after the marker, joined by dots. */
  function DatasetId(path: string): (r: Option<string>)
    ensures r.None? <==> !Contains(path, MARKER)
    ensures r.Some? ==> '/' !in r.value
  {
    match AfterMarker(path)
    case None => None
    case Some(tail) =>
      JoinAvoids(Directories(tail), '.', '/');
      Some(JoinWith(Directories(tail), '.'))
  }

  /** No occurrence of the marker can start before `prefix` ends when the lemma's guard holds. */
  lemma FirstMarkerAfter(prefix: string, rest: string)
    requires !Contains(prefix + MARKER[..|MARKER| - 1], MARKER)
    ensures IndexOf(prefix + MARKER + rest, MARKER) == Some(|prefix|)
  {
    var path := prefix + MARKER + rest;
    var head := prefix + MARKER[..|MARKER| - 1];
    assert OccursAt(path, MARKER, |prefix|) by {
      assert path[|prefix|..|prefix| + |MARKER|] == MARKER;
    }
    assert forall j: nat :: j < |prefix| && OccursAt(path, MARKER, j) ==> OccursAt(head, MARKER, j) by {
      forall j: nat | j < |prefix| && OccursAt(path, MARKER, j) ensures OccursAt(head, MARKER, j) {
        assert path[j..j + |MARKER|] == head[j..j + |MARKER|];
      }
    }
  }

  /**
   * A request path of the usual shape: whatever precedes the first marker,
   * the marker, one separator, directories and a file name. Its dataset
   * identifier is the directories joined by dots.
   */
  lemma DatasetIdOfPath(prefix: string, sep: char, dirs: seq<string>, file: string)
    requires !Contains(prefix + MARKER[..|MARKER| - 1], MARKER)
    requires forall i :: 0 <= i < |dirs| ==> '/' !in dirs[i]
    requires '/' !in file
    ensures DatasetId(prefix + MARKER + [sep] + JoinWith(dirs + [file], '/')) == Some(JoinWith(dirs, '.'))
  {
    var tail := JoinWith(dirs + [file], '/');
    var path := prefix + MARKER + [sep] + tail;
    assert path == prefix + MARKER + ([sep] + tail);
    FirstMarkerAfter(prefix, [sep] + tail);
    assert Suffix(path, |prefix| + |MARKER| + 1) == tail;
    SplitJoin(dirs + [file], '/');
    assert Directories(tail) == dirs;
  }

  /**
   * A path that ends right after the marker, or one character after it,
   * has the empty dataset identifier.
   */
  lemma DatasetIdMarkerAtEnd(prefix: string, rest: string)
    requires !Contains(prefix + MARKER[..|MARKER| - 1], MARKER)
    requires |rest| <= 1
    ensures DatasetId(prefix + MARKER + rest) == Some("")
  {
    FirstMarkerAfter(prefix, rest);
    assert Suffix(prefix + MARKER + rest, |prefix| + |MARKER| + 1) == "";
  }

  /** The deduplication key of a record: requester, a colon, and the dataset identifier. */
  function Tag(requester: string, datasetId: string): (r: string)
    ensures |r| == |requester| + 1 + |datasetId|
    ensures r[..|requester|] == requester && r[|requester|] == ':'
    ensures r[|requester| + 1..] == datasetId
  {
    requester + ":" + datasetId
  }

  /** What happens to one kept line. */
  datatype Outcome =
    | BadStatus(status: string)          // the status field lacks "20": skipped
    | MissingMarker(path: string)        // no marker in the path: reported and skipped
    | TooFewFacets(datasetId: string)    // fewer than seven facets: reported and skipped
    | Record(key: Key, tag: string)      // counted in bucket `key` under `tag`; an unknown
                                         // key is discarded later, by `Aggregator.Step`

  /** Enough whitespace-separated fields for the status to be read. */
  predicate HasFields(line: string)
  {
    |Fields(line)| > STATUS_FIELD
  }

  /** The extraction steps of the loop body, in the order `main` performs them. */
  function Parse(line: string): (o: Outcome)
    requires HasFields(line)
    ensures o.BadStatus? <==> !Contains(Fields(line)[STATUS_FIELD], SUCCESS)
    ensures o.MissingMarker? <==>
      Contains(Fields(line)[STATUS_FIELD], SUCCESS) && !Contains(Fields(line)[PATH_FIELD], MARKER)
    ensures o.TooFewFacets? <==>
      && Contains(Fields(line)[STATUS_FIELD], SUCCESS)
      && DatasetId(Fields(line)[PATH_FIELD]).Some?
      && |SplitOn(DatasetId(Fields(line)[PATH_FIELD]).value, '.')| <= DATA_TYPE_FACET
  {
    var fields := Fields(line);
    var status, path, requester := fields[STATUS_FIELD], fields[PATH_FIELD], fields[REQUESTER_FIELD];
    if !Contains(status, SUCCESS) then BadStatus(status)
    else
      match DatasetId(path)
      case None => MissingMarker(path)
      case Some(id) =>
        var facets := SplitOn(id, '.');
        if |facets| <= DATA_TYPE_FACET then TooFewFacets(id)
        else Record((facets[REALM_FACET], facets[DATA_TYPE_FACET]), Tag(requester, id))
  }

  /** A counted record's tag names the line's requester and the path's dataset identifier. */
  lemma ParseRecord(line: string)
    requires HasFields(line)
    requires Parse(line).Record?
    ensures Contains(Fields(line)[STATUS_FIELD], SUCCESS)
    ensures DatasetId(Fields(line)[PATH_FIELD]).Some?
    ensures Parse(line).tag == Tag(Fields(line)[REQUESTER_FIELD], DatasetId(Fields(line)[PATH_FIELD]).value)
    ensures var facets := SplitOn(DatasetId(Fields(line)[PATH_FIELD]).value, '.');
      |facets| > DATA_TYPE_FACET && Parse(line).key == (facets[REALM_FACET], facets[DATA_TYPE_FACET])
  {
  }

  /**
   * When the directories after the marker hold no dots themselves, the facets
   * of the dataset identifier are exactly those directories.
   */
  lemma FacetsAreDirectories(path: string, tail: string)
    requires AfterMarker(path) == Some(tail)
    requires |Directories(tail)| >= 1
    requires forall i :: 0 <= i < |Directories(tail)| ==> '.' !in Directories(tail)[i]
    ensures DatasetId(path).Some?
    ensures SplitOn(DatasetId(path).value, '.') == Directories(tail)
  {
    SplitJoin(Directories(tail), '.');
  }

  /**
   * For such dot-free directories, a counted line's realm is the fifth
   * directory after the marker and its data type the seventh.
   */
  lemma ParseKeyFromDirectories(line: string, tail: string)
    requires HasFields(line)
    requires Contains(Fields(line)[STATUS_FIELD], SUCCESS)
    requires AfterMarker(Fields(line)[PATH_FIELD]) == Some(tail)
    requires |Directories(tail)| > DATA_TYPE_FACET
    requires forall i :: 0 <= i < |Directories(tail)| ==> '.' !in Directories(tail)[i]
    ensures Parse(line).Record?
    ensures Parse(line).key == (Directories(tail)[REALM_FACET], Directories(tail)[DATA_TYPE_FACET])
  {
    FacetsAreDirectories(Fields(line)[PATH_FIELD], tail);
  }

  /**
   * A whole log line of the usual shape: whitespace-separated fields whose
   * status contains `20` and whose path is a prefix, the first marker, one
   * separator, seven or more dot-free directories and a file name. It is
   * counted in bucket (directory 4, directory 6) under the tag
   * `requester:directories-joined-by-dots`.
   */
  lemma ParseOfLine(lead: string, words: seq<string>, trail: string,
                    prefix: string, sep: char, dirs: seq<string>, file: string)
    requires AllSpace(lead) && AllSpace(trail)
    requires |words| > STATUS_FIELD
    requires forall i :: 0 <= i < |words| ==> words[i] != "" && NoSpace(words[i])
    requires Contains(words[STATUS_FIELD], SUCCESS)
    requires !Contains(prefix + MARKER[..|MARKER| - 1], MARKER)
    requires |dirs| > DATA_TYPE_FACET
    requires forall i :: 0 <= i < |dirs| ==> '/' !in dirs[i] && '.' !in dirs[i]
    requires '/' !in file
    requires words[PATH_FIELD] == prefix + MARKER + [sep] + JoinWith(dirs + [file], '/')
    ensures var line := lead + JoinWith(words, ' ') + trail;
      Fields(line) == words &&
      Parse(line) == Record((dirs[REALM_FACET], dirs[DATA_TYPE_FACET]), Tag(words[REQUESTER_FIELD], JoinWith(dirs, '.')))
  {
    FieldsOfLine(lead, words, trail);
    DatasetIdOfPath(prefix, sep, dirs, file);
    SplitJoin(dirs, '.');
  }

  /** A tag always holds a colon, so it never collides with the `requests` entry of a bucket. */
  lemma TagNotRequests(requester: string, datasetId: string)
    ensures ':' in Tag(requester, datasetId)
    ensures Tag(requester, datasetId) != "requests"
  {
    var t := Tag(requester, datasetId);
    assert t[|requester|] == ':';
    assert ':' !in "requests";
  }

  /**
   * For requesters without a colon (IPv4 addresses, host names), equal tags
   * mean the same requester and the same dataset: one tag per pair.
   */
  lemma TagInjective(r1: string, d1: string, r2: string, d2: string)
    requires ':' !in r1 && ':' !in r2
    requires Tag(r1, d1) == Tag(r2, d2)
    ensures r1 == r2 && d1 == d2
  {
    var t := Tag(r1, d1);
    assert t[|r1|] == ':' && t[|r2|] == ':';
    assert |r1| == |r2|;
    assert r1 == t[..|r1|] && r2 == t[..|r2|];
    assert d1 == t[|r1| + 1..] && d2 == t[|r2| + 1..];
  }
}
