/**
 * The scan loop of `main`: one tally object, created with every bucket at
 * zero, updated in place line by line and log by log.
 */
module UsagePlotter {
  import opened Strings
  import opened LineFilter
  import opened RecordExtractor
  import opened Aggregator

  class UsageTally {
    /** The `datasets` dictionary: one bucket per (realm, data type). */
    var buckets: map<Key, Bucket>

    ghost predicate Valid()
      reads this
    {
      ValidTally(buckets)
    }

    /** The dictionary comprehension over `itertools.product(REALMS, DATA_TYPES)`. */
    constructor ()
      ensures Valid()
      ensures buckets == InitialBuckets()
    {
      buckets := InitialBuckets();
      InitialTally();
    }

    /** The body of the inner loop for one kept line. */
    method CountLine(line: string)
      requires Valid()
      requires HasFields(line)
      modifies this
      ensures Valid()
      ensures buckets == Step(old(buckets), line)
    {
      StepPreservesValid(buckets, line);
      var fields := Fields(line);
      var status := fields[STATUS_FIELD];
      if !Contains(status, SUCCESS) {
        assert Parse(line) == BadStatus(status);
        return;
      }
      var fullpath, requester := fields[PATH_FIELD], fields[REQUESTER_FIELD];
      var id := DatasetId(fullpath);
      if id.None? {
        // `main` prints the path and skips the line
        assert Parse(line) == MissingMarker(fullpath);
        return;
      }
      var facets := SplitOn(id.value, '.');
      if |facets| <= DATA_TYPE_FACET {
        // IndexError in `main`, caught, reported and skipped
        assert Parse(line) == TooFewFacets(id.value);
        return;
      }
      var key := (facets[REALM_FACET], facets[DATA_TYPE_FACET]);
      var tag := Tag(requester, id.value);
      assert Parse(line) == Record(key, tag);
      if key !in buckets {
        // KeyError in `main`, caught, reported and skipped
        return;
      }
      CountRecord(key, tag);
    }

    /**
     * The dictionary updates for one record: a new tag is set to 1 and bumps
     * `requests`; a known tag only has its own count bumped.
     */
    method CountRecord(key: Key, tag: string)
      requires key in buckets
      modifies this
      ensures buckets == old(buckets)[key := CountTag(old(buckets)[key], tag)]
    {
      var bucket := buckets[key];
      if tag !in bucket.tags {
        bucket := bucket.(requests := bucket.requests + 1);
        bucket := bucket.(tags := bucket.tags[tag := 1]);
      } else {
        bucket := bucket.(tags := bucket.tags[tag := bucket.tags[tag] + 1]);
      }
      buckets := buckets[key := bucket];
    }

    /** The inner loop: the lines of one log that pass the filter. */
    method CountLog(log: seq<string>)
      requires Valid()
      requires LogHasFields(log)
      modifies this
      ensures Valid()
      ensures buckets == ProcessLog(old(buckets), log)
    {
      ghost var start := buckets;
      var kept := FilterLines(log);
      FilteredHasFields(log);
      for i := 0 to |kept|
        invariant Valid()
        invariant buckets == Apply(start, kept[..i])
      {
        assert kept[..i + 1][..i] == kept[..i];
        CountLine(kept[i]);
      }
      assert kept[..|kept|] == kept;
      assert buckets == Apply(start, Filtered(log));
    }

    /** The outer loop: every log found under the root directory, in the order given. */
    method CountLogs(logs: seq<seq<string>>)
      requires Valid()
      requires AllLogsHaveFields(logs)
      modifies this
      ensures Valid()
      ensures buckets == RunLogs(old(buckets), logs)
    {
      for i := 0 to |logs|
        invariant Valid()
        invariant buckets == RunLogs(old(buckets), logs[..i])
      {
        assert logs[..i + 1][..i] == logs[..i];
        CountLog(logs[i]);
      }
      assert logs[..|logs|] == logs;
    }
  }

  /**
   * A whole scan: the logs' lines (as the log locator and `readline` supply
   * them), tallied from the initial buckets.
   */
  method Analyze(logs: seq<seq<string>>) returns (result: map<Key, Bucket>)
    requires AllLogsHaveFields(logs)
    ensures result == TallyOf(logs)
    ensures ValidTally(result)
    ensures forall k :: k in result ==> result[k].requests == |result[k].tags|
  {
    var tally := new UsageTally();
    tally.CountLogs(logs);
    result := tally.buckets;
  }
}
