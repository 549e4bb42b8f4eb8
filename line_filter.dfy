/**
 * The line filter of `filter_lines`: a line of an access log is kept when it
 * mentions the E3SM archive and none of the request kinds the tool ignores
 * (CMIP6 data, catalogs, aggregations, HTML and XML pages, icons).
 */
module LineFilter {
  import opened Strings

  /** The substring a line must contain. */
  const ARCHIVE := "E3SM"

  /** The substrings a kept line must not contain, in the order they are tested. */
  const EXCLUDED: seq<string> := ["CMIP6", "xml", "ico", "cmip6_variables", "html", "catalog", "aggregation"]

  /** The filter predicate: the eight case-sensitive substring tests on the raw line. */
  predicate KeepLine(line: string): (r: bool)
    ensures r <==>
      && Contains(line, "E3SM")
      && !Contains(line, "CMIP6")
      && !Contains(line, "xml")
      && !Contains(line, "ico")
      && !Contains(line, "cmip6_variables")
      && !Contains(line, "html")
      && !Contains(line, "catalog")
      && !Contains(line, "aggregation")
  {
    var r := Contains(line, ARCHIVE) && forall i :: 0 <= i < |EXCLUDED| ==> !Contains(line, EXCLUDED[i]);
    assert r ==>
      && !Contains(line, EXCLUDED[0]) && !Contains(line, EXCLUDED[1]) && !Contains(line, EXCLUDED[2])
      && !Contains(line, EXCLUDED[3]) && !Contains(line, EXCLUDED[4]) && !Contains(line, EXCLUDED[5])
      && !Contains(line, EXCLUDED[6]);
    r
  }

  /** The lines of a log that pass the filter, in their original order. */
  function Filtered(lines: seq<string>): (r: seq<string>)
    ensures |r| <= |lines|
    ensures forall i :: 0 <= i < |r| ==> KeepLine(r[i]) && r[i] in lines
    ensures forall i :: 0 <= i < |lines| && KeepLine(lines[i]) ==> lines[i] in r
    decreases |lines|
  {
    if lines == [] then []
    else
      var init, last := lines[..|lines| - 1], lines[|lines| - 1];
      assert forall i :: 0 <= i < |init| ==> init[i] == lines[i];
      if KeepLine(last) then Filtered(init) + [last] else Filtered(init)
  }

  /** One line is kept on its own exactly when it passes. */
  lemma FilteredSingle(line: string)
    ensures Filtered([line]) == if KeepLine(line) then [line] else []
  {
    assert [line][..0] == [];
  }

  /**
   * Filtering distributes over concatenation: each line is kept or dropped on
   * its own, once per appearance, and the kept lines keep their order.
   */
  lemma {:induction false} FilteredAppend(a: seq<string>, b: seq<string>)
    ensures Filtered(a + b) == Filtered(a) + Filtered(b)
    decreases |b|
  {
    if b == [] {
      assert a + b == a;
    } else {
      var init := b[..|b| - 1];
      FilteredAppend(a, init);
      assert (a + b)[..|a + b| - 1] == a + init;
      assert (a + b)[|a + b| - 1] == b[|b| - 1];
    }
  }

  /** Filtering a filtered log changes nothing. */
  lemma {:induction false} FilteredIdempotent(lines: seq<string>)
    ensures Filtered(Filtered(lines)) == Filtered(lines)
    decreases |lines|
  {
    if lines != [] {
      var init := lines[..|lines| - 1];
      FilteredIdempotent(init);
      var f := Filtered(init);
      if KeepLine(lines[|lines| - 1]) {
        assert (f + [lines[|lines| - 1]])[..|f|] == f;
      }
    }
  }

  /** The reading loop of `filter_lines`, over the lines of one log. */
  method FilterLines(lines: seq<string>) returns (kept: seq<string>)
    ensures kept == Filtered(lines)
  {
    kept := [];
    for i := 0 to |lines|
      invariant kept == Filtered(lines[..i])
    {
      assert lines[..i + 1][..i] == lines[..i];
      if KeepLine(lines[i]) {
        kept := kept + [lines[i]];
      }
    }
    assert lines[..|lines|] == lines;
  }
}
