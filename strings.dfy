/**
 * The pieces of Python's `str` behaviour that the log scanner relies on:
 * `sub in s`, `s.index(sub)`, `s.split(sep)`, `sep.join(parts)` and the
 * argument-less `s.split()`. Strings are sequences of characters; every test
 * is case-sensitive and nothing is normalised.
 */
module Strings {
  import opened Wrappers

  /** `sub` occurs in `s` starting at position `i`. */
  predicate OccursAt(s: string, sub: string, i: nat)
  {
    i + |sub| <= |s| && s[i..i + |sub|] == sub
  }

  /** Dropping the first character shifts every occurrence one place left. */
  lemma OccursAtShift(s: string, sub: string)
    requires |s| > 0
    ensures forall i: nat :: 0 < i ==> (OccursAt(s, sub, i) <==> OccursAt(s[1..], sub, i - 1))
  {
    forall i: nat | 0 < i
      ensures OccursAt(s, sub, i) <==> OccursAt(s[1..], sub, i - 1)
    {
      if i + |sub| <= |s| {
        assert s[1..][i - 1..i - 1 + |sub|] == s[i..i + |sub|];
      }
    }
  }

  /** Python's `sub in s`, as a left-to-right scan: true exactly when `sub` occurs somewhere. */
  predicate Contains(s: string, sub: string): (r: bool)
    ensures r <==> exists i: nat :: OccursAt(s, sub, i)
    decreases |s|
  {
    if OccursAt(s, sub, 0) then true
    else if |s| == 0 then
      assert forall i: nat :: !OccursAt(s, sub, i);
      false
    else
      OccursAtShift(s, sub);
      var r := Contains(s[1..], sub);
      assert r ==> exists i: nat :: OccursAt(s, sub, i) by {
        if r {
          var i: nat :| OccursAt(s[1..], sub, i);
          assert OccursAt(s, sub, i + 1);
        }
      }
      r
  }

  /** Python's `s.index(sub)`: the first position of `sub`, or None where Python raises. */
  function IndexOf(s: string, sub: string): (r: Option<nat>)
    ensures r.None? <==> !Contains(s, sub)
    ensures r.Some? ==> OccursAt(s, sub, r.value)
    ensures r.Some? ==> forall j: nat :: j < r.value ==> !OccursAt(s, sub, j)
    decreases |s|
  {
    if OccursAt(s, sub, 0) then Some(0)
    else if |s| == 0 then None
    else
      OccursAtShift(s, sub);
      match IndexOf(s[1..], sub)
      case None => None
      case Some(i) => Some(i + 1)
  }

  /** Python's `s.split(c)` for a one-character separator `c`: empty pieces are kept. */
  function SplitOn(s: string, c: char): (r: seq<string>)
    ensures |r| >= 1
    ensures forall i :: 0 <= i < |r| ==> c !in r[i]
    decreases |s|
  {
    if |s| == 0 then [""]
    else
      var rest := SplitOn(s[1..], c);
      if s[0] == c then [""] + rest
      else [[s[0]] + rest[0]] + rest[1..]
  }

  /** The number of characters in all the parts together. */
  function TotalLength(parts: seq<string>): nat
    decreases |parts|
  {
    if parts == [] then 0 else |parts[0]| + TotalLength(parts[1..])
  }

  /** Python's `c.join(parts)` for a one-character separator `c`. */
  function JoinWith(parts: seq<string>, c: char): (r: string)
    ensures |r| == if parts == [] then 0 else TotalLength(parts) + |parts| - 1
    ensures |parts| == 1 ==> r == parts[0]
    decreases |parts|
  {
    if |parts| == 0 then ""
    else if |parts| == 1 then parts[0]
    else parts[0] + [c] + JoinWith(parts[1..], c)
  }

  /** One more part is added after one more separator; with `JoinWith`'s ensures this fixes every join. */
  lemma {:induction false} JoinSnoc(parts: seq<string>, p: string, c: char)
    requires parts != []
    ensures JoinWith(parts + [p], c) == JoinWith(parts, c) + [c] + p
    decreases |parts|
  {
    if |parts| == 1 {
      assert (parts + [p])[1..] == [p];
    } else {
      assert (parts + [p])[1..] == parts[1..] + [p];
      JoinSnoc(parts[1..], p, c);
    }
  }

  /** A character that neither the separator nor any part holds is not in the join. */
  lemma {:induction false} JoinAvoids(parts: seq<string>, c: char, d: char)
    requires d != c
    requires forall i :: 0 <= i < |parts| ==> d !in parts[i]
    ensures d !in JoinWith(parts, c)
    decreases |parts|
  {
    if |parts| > 1 {
      JoinAvoids(parts[1..], c, d);
    }
  }

  /** Joining a list whose head is `[x] + p` puts `x` in front of the join. */
  lemma JoinConsChar(x: char, p: string, q: seq<string>, c: char)
    ensures JoinWith([[x] + p] + q, c) == [x] + JoinWith([p] + q, c)
  {
    var l, l' := [[x] + p] + q, [p] + q;
    assert l[1..] == q && l'[1..] == q;
  }

  /** Splitting and joining again gives back the original text. */
  lemma {:induction false} JoinSplit(s: string, c: char)
    ensures JoinWith(SplitOn(s, c), c) == s
    decreases |s|
  {
    if |s| > 0 {
      var rest := SplitOn(s[1..], c);
      JoinSplit(s[1..], c);
      if s[0] == c {
        assert ([""] + rest)[1..] == rest;
        assert JoinWith([""] + rest, c) == "" + [c] + JoinWith(rest, c);
        assert s == [c] + s[1..];
      } else {
        assert [rest[0]] + rest[1..] == rest;
        JoinConsChar(s[0], rest[0], rest[1..], c);
        assert s == [s[0]] + s[1..];
      }
    }
  }

  /** A piece free of the separator splits to itself. */
  lemma {:induction false} SplitPiece(p: string, c: char)
    requires c !in p
    ensures SplitOn(p, c) == [p]
    decreases |p|
  {
    if |p| > 0 {
      SplitPiece(p[1..], c);
      assert [p[0]] + p[1..] == p;
    }
  }

  /** A separator-free piece, then the separator, then `t`: the piece is the first split. */
  lemma {:induction false} SplitPieceThen(p: string, c: char, t: string)
    requires c !in p
    ensures SplitOn(p + [c] + t, c) == [p] + SplitOn(t, c)
    decreases |p|
  {
    var s := p + [c] + t;
    if |p| == 0 {
      assert s[1..] == t;
    } else {
      assert s[1..] == p[1..] + [c] + t;
      SplitPieceThen(p[1..], c, t);
      assert [p[0]] + p[1..] == p;
    }
  }

  /** Joining separator-free pieces and splitting again gives back the pieces. */
  lemma {:induction false} SplitJoin(parts: seq<string>, c: char)
    requires |parts| >= 1
    requires forall i :: 0 <= i < |parts| ==> c !in parts[i]
    ensures SplitOn(JoinWith(parts, c), c) == parts
    decreases |parts|
  {
    if |parts| == 1 {
      SplitPiece(parts[0], c);
    } else {
      SplitJoin(parts[1..], c);
      SplitPieceThen(parts[0], c, JoinWith(parts[1..], c));
      assert [parts[0]] + parts[1..] == parts;
    }
  }

  /** The characters Python's argument-less `str.split()` treats as whitespace. */
  predicate IsSpace(ch: char)
  {
    var c := ch as int;
    (0x09 <= c <= 0x0D) || (0x1C <= c <= 0x20) || c == 0x85 || c == 0xA0 || c == 0x1680
    || (0x2000 <= c <= 0x200A) || c == 0x2028 || c == 0x2029 || c == 0x202F || c == 0x205F
    || c == 0x3000
  }

  predicate NoSpace(w: string)
  {
    forall i :: 0 <= i < |w| ==> !IsSpace(w[i])
  }

  predicate AllSpace(ws: string)
  {
    forall i :: 0 <= i < |ws| ==> IsSpace(ws[i])
  }

  /** The length of the run of non-whitespace characters at the front of `s`. */
  function WordLength(s: string): (n: nat)
    ensures n <= |s|
    ensures NoSpace(s[..n])
    ensures n < |s| ==> IsSpace(s[n])
    decreases |s|
  {
    if |s| == 0 || IsSpace(s[0]) then 0 else 1 + WordLength(s[1..])
  }

  /** Python's `s.split()`: the maximal runs of non-whitespace characters, in order. */
  function Fields(s: string): (r: seq<string>)
    ensures forall i :: 0 <= i < |r| ==> r[i] != "" && NoSpace(r[i])
    ensures r == [] <==> AllSpace(s)
    decreases |s|
  {
    if |s| == 0 then []
    else if IsSpace(s[0]) then Fields(s[1..])
    else
      var n := WordLength(s);
      [s[..n]] + Fields(s[n..])
  }

  lemma {:induction false} WordLengthOf(w: string, rest: string)
    requires NoSpace(w)
    requires rest == "" || IsSpace(rest[0])
    ensures WordLength(w + rest) == |w|
    decreases |w|
  {
    if |w| > 0 {
      assert (w + rest)[1..] == w[1..] + rest;
      WordLengthOf(w[1..], rest);
    } else {
      assert w + rest == rest;
    }
  }

  /** A word followed by whitespace (or nothing) is the first field. */
  lemma FieldsWordThen(w: string, rest: string)
    requires w != "" && NoSpace(w)
    requires rest == "" || IsSpace(rest[0])
    ensures Fields(w + rest) == [w] + Fields(rest)
  {
    var s := w + rest;
    WordLengthOf(w, rest);
    assert s[..|w|] == w && s[|w|..] == rest;
  }

  /** Leading whitespace is skipped: it adds no field and changes none. */
  lemma {:induction false} FieldsSpaceThen(ws: string, t: string)
    requires AllSpace(ws)
    ensures Fields(ws + t) == Fields(t)
    decreases |ws|
  {
    if |ws| > 0 {
      assert (ws + t)[1..] == ws[1..] + t;
      FieldsSpaceThen(ws[1..], t);
    } else {
      assert ws + t == t;
    }
  }

  /** A word and one space are the first field; the fields of the rest follow. */
  lemma FieldsWordSpace(w: string, u: string)
    requires w != "" && NoSpace(w)
    ensures Fields(w + [' '] + u) == [w] + Fields(u)
  {
    var rest := [' '] + u;
    assert w + [' '] + u == w + rest;
    FieldsWordThen(w, rest);
    FieldsSpaceThen([' '], u);
  }

  /**
   * Words separated by single spaces and followed by any whitespace (a
   * line's `\n`, say) split back into those words.
   */
  lemma {:induction false} FieldsOfJoinThen(words: seq<string>, trail: string)
    requires forall i :: 0 <= i < |words| ==> words[i] != "" && NoSpace(words[i])
    requires AllSpace(trail)
    ensures Fields(JoinWith(words, ' ') + trail) == words
    decreases |words|
  {
    if |words| == 0 {
      assert JoinWith(words, ' ') + trail == trail;
    } else if |words| == 1 {
      FieldsWordThen(words[0], trail);
    } else {
      var w, tail := words[0], JoinWith(words[1..], ' ');
      assert JoinWith(words, ' ') + trail == w + [' '] + (tail + trail);
      FieldsWordSpace(w, tail + trail);
      FieldsOfJoinThen(words[1..], trail);
      assert [w] + words[1..] == words;
    }
  }

  /**
   * The general shape of a log line: leading whitespace, single-space
   * separated fields, trailing whitespace. `s.split()` yields the fields.
   */
  lemma FieldsOfLine(lead: string, words: seq<string>, trail: string)
    requires AllSpace(lead) && AllSpace(trail)
    requires forall i :: 0 <= i < |words| ==> words[i] != "" && NoSpace(words[i])
    ensures Fields(lead + JoinWith(words, ' ') + trail) == words
  {
    assert lead + JoinWith(words, ' ') + trail == lead + (JoinWith(words, ' ') + trail);
    FieldsSpaceThen(lead, JoinWith(words, ' ') + trail);
    FieldsOfJoinThen(words, trail);
  }
}
