/**
 * The aggregator of `main`: a map from every (realm, data type) key to a
 * bucket that counts each distinct requester:dataset tag once in `requests`
 * and records how many lines produced each tag. The functions here are the
 * specification the in-place updates of `UsagePlotter.UsageTally` follow.
 */
module Aggregator {
  import opened Strings
  import opened LineFilter
  import opened RecordExtractor

  const REALMS: seq<string> := ["ocean", "atmos", "land", "sea-ice"]
  const DATA_TYPES: seq<string> := ["time-series", "climo", "model-output", "mapping", "restart"]

  /**
   * One bucket. `main` keeps it as one dictionary whose `requests`
   * entry is the distinct-tag count and whose other entries are the tags;
   * `RecordExtractor.TagNotRequests` shows the two never collide.
   */
  datatype Bucket = Bucket(requests: int, tags: map<string, int>)

  /** How often `tag` has been counted in `b` (0 when never). */
  function TagCount(b: Bucket, tag: string): int
  {
    if tag in b.tags then b.tags[tag] else 0
  }

  /** The bucket invariant: `requests` is the number of distinct tags, and each tag was seen. */
  predicate WellFormed(b: Bucket)
  {
    b.requests == |b.tags| && forall t :: t in b.tags ==> b.tags[t] >= 1
  }

  predicate Distinct<T(==)>(s: seq<T>)
  {
    forall i, j :: 0 <= i < j < |s| ==> s[i] != s[j]
  }

  /** The keys `(x, y)` for each `y` of `ys`, in order. */
  function Pairs(x: string, ys: seq<string>): (r: seq<Key>)
    ensures |r| == |ys|
    ensures forall i :: 0 <= i < |r| ==> r[i] == (x, ys[i])
    ensures forall k: Key :: k in r <==> k.0 == x && k.1 in ys
  {
    var r := seq(|ys|, i requires 0 <= i < |ys| => (x, ys[i]));
    assert forall k: Key :: k.1 in ys && k.0 == x ==> k in r by {
      forall k: Key | k.1 in ys && k.0 == x ensures k in r {
        var i :| 0 <= i < |ys| && ys[i] == k.1;
        assert r[i] == k;
      }
    }
    r
  }

  /** `itertools.product(xs, ys)`: every pair, first component outermost. */
  function Product(xs: seq<string>, ys: seq<string>): (r: seq<Key>)
    ensures forall k: Key :: k in r <==> k.0 in xs && k.1 in ys
    decreases |xs|
  {
    if xs == [] then []
    else
      var r := Pairs(xs[0], ys) + Product(xs[1..], ys);
      assert forall x :: x in xs <==> x == xs[0] || x in xs[1..];
      r
  }

  lemma {:induction false} ProductLength(xs: seq<string>, ys: seq<string>)
    ensures |Product(xs, ys)| == |xs| * |ys|
    decreases |xs|
  {
    if xs != [] {
      var rest := Product(xs[1..], ys);
      assert Product(xs, ys) == Pairs(xs[0], ys) + rest;
      ProductLength(xs[1..], ys);
      assert |rest| == (|xs| - 1) * |ys|;
      MulSucc(|xs| - 1, |ys|);
    }
  }

  lemma MulSucc(a: nat, b: nat)
    ensures (a + 1) * b == a * b + b
  {
  }

  lemma DistinctConcat<T>(a: seq<T>, b: seq<T>)
    requires Distinct(a) && Distinct(b)
    requires forall x :: x in a ==> x !in b
    ensures Distinct(a + b)
  {
    var c := a + b;
    forall i, j | 0 <= i < j < |c| ensures c[i] != c[j] {
      if j < |a| {
        assert c[i] == a[i] && c[j] == a[j];
      } else if i >= |a| {
        assert c[i] == b[i - |a|] && c[j] == b[j - |a|];
      } else {
        assert c[i] == a[i] && a[i] in a;
        assert c[j] == b[j - |a|] && b[j - |a|] in b;
      }
    }
  }

  /** Distinct realms and data types give distinct bucket keys. */
  lemma {:induction false} DistinctProduct(xs: seq<string>, ys: seq<string>)
    requires Distinct(xs) && Distinct(ys)
    ensures Distinct(Product(xs, ys))
    decreases |xs|
  {
    if xs != [] {
      DistinctProduct(xs[1..], ys);
      var a := Pairs(xs[0], ys);
      assert Distinct(a);
      assert xs[0] !in xs[1..] by {
        forall j | 0 <= j < |xs[1..]| ensures xs[1..][j] != xs[0] {
          assert xs[1..][j] == xs[j + 1];
        }
      }
      DistinctConcat(a, Product(xs[1..], ys));
    }
  }

  /** A duplicate-free sequence has as many distinct elements as entries. */
  lemma {:induction false} DistinctCard<T>(s: seq<T>)
    requires Distinct(s)
    ensures |set x | x in s| == |s|
    decreases |s|
  {
    if s != [] {
      var init := s[..|s| - 1];
      assert Distinct(init);
      DistinctCard(init);
      assert (set x | x in s) == (set x | x in init) + {s[|s| - 1]};
      assert s[|s| - 1] !in (set x | x in init);
    }
  }

  /** Distinct components give as many distinct keys as the product has entries. */
  lemma KeyCount(xs: seq<string>, ys: seq<string>)
    requires Distinct(xs) && Distinct(ys)
    ensures |set k | k in Product(xs, ys)| == |xs| * |ys|
  {
    DistinctProduct(xs, ys);
    ProductLength(xs, ys);
    DistinctCard(Product(xs, ys));
  }

  /** The 20 bucket keys, in the order `main` creates them. */
  function BucketKeys(): seq<Key>
  {
    Product(REALMS, DATA_TYPES)
  }

  function KeySet(): set<Key>
  {
    set k | k in BucketKeys()
  }

  /** The dictionary comprehension that starts the run: every key, a zero count, no tags. */
  function InitialBuckets(): (m: map<Key, Bucket>)
    ensures forall k :: k in m <==> k.0 in REALMS && k.1 in DATA_TYPES
    ensures forall k :: k in m ==> m[k].requests == 0 && m[k].tags == map[]
  {
    map k | k in KeySet() :: Bucket(0, map[])
  }

  /** The invariant of the whole tally: exactly the 20 keys, each bucket well formed. */
  predicate ValidTally(m: map<Key, Bucket>)
  {
    m.Keys == KeySet() && forall k :: k in m ==> WellFormed(m[k])
  }

  lemma RealmsAndDataTypesDistinct()
    ensures Distinct(REALMS) && Distinct(DATA_TYPES)
  {
    assert Distinct(REALMS) by {
      assert REALMS[0][0] == 'o' && REALMS[1][0] == 'a' && REALMS[2][0] == 'l' && REALMS[3][0] == 's';
    }
    assert Distinct(DATA_TYPES) by {
      assert DATA_TYPES[0][0] == 't' && DATA_TYPES[1][0] == 'c' && DATA_TYPES[2][0] == 'm';
      assert DATA_TYPES[3][1] == 'a' && DATA_TYPES[4][0] == 'r' && DATA_TYPES[2][1] == 'o';
    }
  }

  /** The starting tally has exactly the 20 keys of REALMS x DATA_TYPES, all zero and empty. */
  lemma InitialTally()
    ensures ValidTally(InitialBuckets())
    ensures |InitialBuckets()| == 20
    ensures forall k :: k in InitialBuckets() <==> k.0 in REALMS && k.1 in DATA_TYPES
    ensures forall k :: k in InitialBuckets() ==>
      InitialBuckets()[k].requests == 0 && InitialBuckets()[k].tags == map[]
  {
    RealmsAndDataTypesDistinct();
    KeyCount(REALMS, DATA_TYPES);
    assert InitialBuckets().Keys == KeySet();
  }

  /**
   * Counting `tag` in `b`: its count rises by one, every other tag keeps its
   * count, and `requests` rises by one exactly when the tag is new.
   */
  function CountTag(b: Bucket, tag: string): (r: Bucket)
    ensures TagCount(r, tag) == TagCount(b, tag) + 1
    ensures forall t :: t != tag ==> TagCount(r, t) == TagCount(b, t)
    ensures r.requests == if tag in b.tags then b.requests else b.requests + 1
    ensures r.tags.Keys == b.tags.Keys + {tag}
    ensures WellFormed(b) ==> WellFormed(r)
  {
    if tag !in b.tags then Bucket(b.requests + 1, b.tags[tag := 1])
    else Bucket(b.requests, b.tags[tag := b.tags[tag] + 1])
  }

  /** The effect of one kept line on the tally; every discard leaves it as it was. */
  function Step(m: map<Key, Bucket>, line: string): (r: map<Key, Bucket>)
    requires HasFields(line)
    ensures r.Keys == m.Keys
    ensures forall k :: k in m && !(Parse(line).Record? && Parse(line).key == k) ==> r[k] == m[k]
  {
    match Parse(line)
    case Record(key, tag) => if key in m then m[key := CountTag(m[key], tag)] else m
    case _ => m
  }

  /** A line whose status lacks "20" changes no bucket. */
  lemma StepBadStatus(m: map<Key, Bucket>, line: string)
    requires HasFields(line)
    requires !Contains(Fields(line)[STATUS_FIELD], SUCCESS)
    ensures Step(m, line) == m
  {
  }

  /** A path without the marker yields no dataset identifier and changes no bucket. */
  lemma StepMissingMarker(m: map<Key, Bucket>, line: string)
    requires HasFields(line)
    requires !Contains(Fields(line)[PATH_FIELD], MARKER)
    ensures DatasetId(Fields(line)[PATH_FIELD]).None?
    ensures Step(m, line) == m
  {
  }

  /** A dataset identifier with fewer than seven facets changes no bucket. */
  lemma StepTooFewFacets(m: map<Key, Bucket>, line: string)
    requires HasFields(line)
    requires DatasetId(Fields(line)[PATH_FIELD]).Some?
    requires |SplitOn(DatasetId(Fields(line)[PATH_FIELD]).value, '.')| <= DATA_TYPE_FACET
    ensures Step(m, line) == m
  {
  }

  /** A record whose key is not one of the tally's keys changes nothing. */
  lemma StepUnknownKey(m: map<Key, Bucket>, line: string)
    requires HasFields(line)
    requires Parse(line).Record? && Parse(line).key !in m
    ensures Step(m, line) == m
  {
  }

  /**
   * Only the line's own bucket changes, and in it only its own tag: the
   * tag's count rises by one for a counted record and stays put otherwise.
   */
  lemma StepTagCount(m: map<Key, Bucket>, line: string, key: Key, tag: string)
    requires HasFields(line)
    requires key in m
    ensures key in Step(m, line)
    ensures TagCount(Step(m, line)[key], tag) ==
      TagCount(m[key], tag) + (if Parse(line) == Record(key, tag) then 1 else 0)
  {
  }

  lemma StepPreservesValid(m: map<Key, Bucket>, line: string)
    requires HasFields(line)
    requires ValidTally(m)
    ensures ValidTally(Step(m, line))
  {
  }

  predicate AllHaveFields(lines: seq<string>)
  {
    forall i :: 0 <= i < |lines| ==> HasFields(lines[i])
  }

  /** The effect of a sequence of kept lines, taken in order. */
  function Apply(m: map<Key, Bucket>, lines: seq<string>): (r: map<Key, Bucket>)
    requires AllHaveFields(lines)
    ensures r.Keys == m.Keys
    decreases |lines|
  {
    if lines == [] then m
    else Step(Apply(m, lines[..|lines| - 1]), lines[|lines| - 1])
  }

  /** How many of `lines` are records counted in bucket `key` under `tag`. */
  function Occurrences(lines: seq<string>, key: Key, tag: string): nat
    requires AllHaveFields(lines)
    decreases |lines|
  {
    if lines == [] then 0
    else
      Occurrences(lines[..|lines| - 1], key, tag)
      + (if Parse(lines[|lines| - 1]) == Record(key, tag) then 1 else 0)
  }

  /** The tally invariant survives any sequence of lines. */
  lemma {:induction false} ApplyPreservesValid(m: map<Key, Bucket>, lines: seq<string>)
    requires AllHaveFields(lines)
    requires ValidTally(m)
    ensures ValidTally(Apply(m, lines))
    decreases |lines|
  {
    if lines != [] {
      ApplyPreservesValid(m, lines[..|lines| - 1]);
      StepPreservesValid(Apply(m, lines[..|lines| - 1]), lines[|lines| - 1]);
    }
  }

  /** Each tag's count grows by exactly the number of lines that produced it in that bucket. */
  lemma {:induction false} ApplyTagCount(m: map<Key, Bucket>, lines: seq<string>, key: Key, tag: string)
    requires AllHaveFields(lines)
    requires key in m
    ensures key in Apply(m, lines)
    ensures TagCount(Apply(m, lines)[key], tag) == TagCount(m[key], tag) + Occurrences(lines, key, tag)
    decreases |lines|
  {
    if lines != [] {
      var init := lines[..|lines| - 1];
      ApplyTagCount(m, init, key, tag);
      StepTagCount(Apply(m, init), lines[|lines| - 1], key, tag);
    }
  }

  /**
   * A run of lines that all produce the same tag, new to its bucket, adds
   * one to `requests` however long the run is, and the tag's count is the
   * run's length.
   */
  lemma {:induction false} RepeatedTag(m: map<Key, Bucket>, lines: seq<string>, key: Key, tag: string)
    requires AllHaveFields(lines)
    requires key in m && tag !in m[key].tags
    requires |lines| > 0
    requires forall i :: 0 <= i < |lines| ==> Parse(lines[i]) == Record(key, tag)
    ensures Apply(m, lines).Keys == m.Keys
    ensures Apply(m, lines)[key].requests == m[key].requests + 1
    ensures TagCount(Apply(m, lines)[key], tag) == |lines|
    ensures forall k :: k in m && k != key ==> Apply(m, lines)[k] == m[k]
    decreases |lines|
  {
    var init := lines[..|lines| - 1];
    if init != [] {
      RepeatedTag(m, init, key, tag);
    }
  }

  /** A log is usable when each line the filter keeps has the fields the extractor reads. */
  predicate LogHasFields(log: seq<string>)
  {
    forall i :: 0 <= i < |log| && KeepLine(log[i]) ==> HasFields(log[i])
  }

  lemma FilteredHasFields(log: seq<string>)
    requires LogHasFields(log)
    ensures AllHaveFields(Filtered(log))
  {
  }

  /** The inner loop: one log's kept lines counted in order. */
  function ProcessLog(m: map<Key, Bucket>, log: seq<string>): (r: map<Key, Bucket>)
    requires LogHasFields(log)
    ensures r.Keys == m.Keys
    ensures (forall i :: 0 <= i < |log| ==> !KeepLine(log[i])) ==> r == m
  {
    FilteredHasFields(log);
    Apply(m, Filtered(log))
  }

  predicate AllLogsHaveFields(logs: seq<seq<string>>)
  {
    forall i :: 0 <= i < |logs| ==> LogHasFields(logs[i])
  }

  /** The outer loop: the logs processed one after another. */
  function RunLogs(m: map<Key, Bucket>, logs: seq<seq<string>>): (r: map<Key, Bucket>)
    requires AllLogsHaveFields(logs)
    ensures r.Keys == m.Keys
    decreases |logs|
  {
    if logs == [] then m
    else ProcessLog(RunLogs(m, logs[..|logs| - 1]), logs[|logs| - 1])
  }

  /** The tally after a whole scan. */
  function TallyOf(logs: seq<seq<string>>): (r: map<Key, Bucket>)
    requires AllLogsHaveFields(logs)
    ensures ValidTally(r)
    ensures forall k :: k in r <==> k.0 in REALMS && k.1 in DATA_TYPES
  {
    InitialTally();
    RunPreservesValid(InitialBuckets(), logs);
    RunLogs(InitialBuckets(), logs)
  }

  /** How many kept lines of all the logs are records counted in `key` under `tag`. */
  function LogOccurrences(logs: seq<seq<string>>, key: Key, tag: string): nat
    requires AllLogsHaveFields(logs)
    decreases |logs|
  {
    if logs == [] then 0
    else
      var log := logs[|logs| - 1];
      FilteredHasFields(log);
      LogOccurrences(logs[..|logs| - 1], key, tag) + Occurrences(Filtered(log), key, tag)
  }

  lemma {:induction false} RunPreservesValid(m: map<Key, Bucket>, logs: seq<seq<string>>)
    requires AllLogsHaveFields(logs)
    requires ValidTally(m)
    ensures ValidTally(RunLogs(m, logs))
    decreases |logs|
  {
    if logs != [] {
      var log := logs[|logs| - 1];
      RunPreservesValid(m, logs[..|logs| - 1]);
      FilteredHasFields(log);
      ApplyPreservesValid(RunLogs(m, logs[..|logs| - 1]), Filtered(log));
    }
  }

  lemma {:induction false} RunTagCount(m: map<Key, Bucket>, logs: seq<seq<string>>, key: Key, tag: string)
    requires AllLogsHaveFields(logs)
    requires key in m
    ensures key in RunLogs(m, logs)
    ensures TagCount(RunLogs(m, logs)[key], tag) == TagCount(m[key], tag) + LogOccurrences(logs, key, tag)
    decreases |logs|
  {
    if logs != [] {
      var log := logs[|logs| - 1];
      RunTagCount(m, logs[..|logs| - 1], key, tag);
      FilteredHasFields(log);
      ApplyTagCount(RunLogs(m, logs[..|logs| - 1]), Filtered(log), key, tag);
    }
  }

  /**
   * The guarantee of a full scan: the 20 keys and nothing else; in every
   * bucket `requests` is the number of distinct tags; each tag's count is
   * the number of kept lines that produced it there, and a tag is present
   * exactly when some line produced it.
   */
  lemma Tally(logs: seq<seq<string>>, key: Key, tag: string)
    requires AllLogsHaveFields(logs)
    requires key.0 in REALMS && key.1 in DATA_TYPES
    ensures ValidTally(TallyOf(logs))
    ensures key in TallyOf(logs)
    ensures TallyOf(logs)[key].requests == |TallyOf(logs)[key].tags|
    ensures TagCount(TallyOf(logs)[key], tag) == LogOccurrences(logs, key, tag)
    ensures tag in TallyOf(logs)[key].tags <==> LogOccurrences(logs, key, tag) > 0
  {
    InitialTally();
    RunPreservesValid(InitialBuckets(), logs);
    RunTagCount(InitialBuckets(), logs, key, tag);
  }
}
