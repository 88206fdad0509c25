/**
 * The position locator: the `missingKeys.forEach` body of
 * `updateDecorations`, which turns each missing path into the character
 * span to highlight in the active editor's text.
 */
module PositionLocator {
  import opened Optional
  import opened TextSearch

  /** A highlight range as raw character offsets into the text: `[start, end)`. */
  datatype Span = Span(start: nat, end: nat)

  /** The token the final-segment pattern `"${key}"` looks for. */
  function Quote(key: string): string
  {
    "\"" + key + "\""
  }

  /** The first `m` characters of `t` are a run of `s`/`S` letters closed by a `}`. */
  predicate RunThenBrace(t: string, m: nat)
  {
    1 <= m <= |t| && t[m - 1] == '}' && forall i :: 0 <= i < m - 1 ==> t[i] == 's' || t[i] == 'S'
  }

  /** The length of a `[sS]*?}` match at the front of `t`, if there is one. */
  function BraceAfterRun(t: string): (n: Option<nat>)
    ensures n.Some? ==> RunThenBrace(t, n.value)
    ensures n.None? ==> forall m :: !RunThenBrace(t, m)
  {
    if t == [] then None
    else if t[0] == '}' then Some(1)
    else if t[0] == 's' || t[0] == 'S' then
      match BraceAfterRun(t[1..])
      case Some(n) => Some(n + 1)
      case None =>
        assert forall m: nat :: 2 <= m && RunThenBrace(t, m) ==> RunThenBrace(t[1..], m - 1);
        None
    else None
  }

  /** At index `j` of `text`, `open` occurs and is followed by a `[sS]*?}` run. */
  predicate NarrowsAt(text: string, open: string, j: int)
  {
    OccursAt(text, open, j) && BraceAfterRun(text[j + |open|..]).Some?
  }

  /** The index of the first match, at `i` or later, of `open` followed by a `[sS]*?}` run. */
  function NarrowIndex(text: string, open: string, i: nat): (r: Option<nat>)
    requires i <= |text|
    ensures r.Some? ==> i <= r.value && NarrowsAt(text, open, r.value)
    ensures r.Some? ==> forall j :: i <= j < r.value ==> !NarrowsAt(text, open, j)
    ensures r.None? ==> forall j :: i <= j ==> !NarrowsAt(text, open, j)
    decreases |text| - i
  {
    if NarrowsAt(text, open, i) then Some(i)
    else if i == |text| then None
    else NarrowIndex(text, open, i + 1)
  }

  /**
   * `RegExp(`"${key}": {([\s\S]*?)}`, "g").exec(group)[0]`. Inside a template
   * literal `\s` and `\S` lose their backslash, so the pattern is the literal
   * `"key": {`, a run of `s`/`S` letters, then `}`; the first match is kept.
   */
  function NarrowMatch(group: string, key: string): (found: Option<string>)
    ensures found.Some? ==> |found.value| >= |key| + 6 && found.value[..|key| + 5] == Quote(key) + ": {"
                            && found.value[|found.value| - 1] == '}'
  {
    var open := Quote(key) + ": {";
    match NarrowIndex(group, open, 0)
    case Some(j) => Some(group[j..j + |open| + BraceAfterRun(group[j + |open|..]).value])
    case None => None
  }

  /**
   * `RegExp(`"${segment}"`, "g").exec(text)` turned into a range: from the
   * match's index to that index plus the match's length.
   */
  function FindToken(text: string, segment: string): (span: Option<Span>)
    ensures span.Some? ==> span.value.end == span.value.start + |segment| + 2 <= |text|
  {
    var token := Quote(segment);
    match IndexOf(text, token)
    case Some(i) => Some(Span(i, i + |token|))
    case None => None
  }

  /**
   * The range found for a segment covers the first occurrence of the segment
   * in quotes, quotes included, and is `None` only when there is none.
   */
  lemma FindTokenFirstOccurrence(text: string, segment: string)
    ensures var span := FindToken(text, segment);
            && (span.Some? ==> span.value.end == span.value.start + |segment| + 2 <= |text|)
            && (span.Some? ==> text[span.value.start..span.value.end] == Quote(segment))
            && (span.Some? ==> forall j :: 0 <= j < span.value.start ==> !OccursAt(text, Quote(segment), j))
            && (span.None? ==> forall j :: !OccursAt(text, Quote(segment), j))
  {
  }

  /** Where a missing path is highlighted: the token of its final segment, searched in the whole text. */
  function Locate(text: string, longKey: string): (span: Option<Span>)
    ensures span.Some? ==> span.value.start <= span.value.end <= |text| && text[span.value.start..span.value.end] == Quote(LastSegment(longKey))
  {
    FindTokenFirstOccurrence(text, LastSegment(longKey));
    FindToken(text, LastSegment(longKey))
  }

  function Found(span: Option<Span>): seq<Span>
  {
    if span.Some? then [span.value] else []
  }

  /** The ranges `updateDecorations` collects: at most one per missing path, in order. */
  function Ranges(text: string, missingKeys: seq<string>): (ranges: seq<Span>)
    ensures |ranges| <= |missingKeys|
  {
    if missingKeys == [] then []
    else
      var n := |missingKeys| - 1;
      Ranges(text, missingKeys[..n]) + Found(Locate(text, missingKeys[n]))
  }

  /**
   * The `missingKeys.forEach` callback for one path: it walks the segments
   * of `longKey.split(".")`, pushing onto the shared `ranges` array (threaded
   * through as `ranges` in and `out` out). `capturingGroup` is declared afresh
   * from the whole text on every segment, so the narrowing a non-final
   * segment performs is dropped before the next segment, and only the final
   * segment's search can push a range.
   */
  method PushKeyRange(text: string, longKey: string, ranges: seq<Span>) returns (out: seq<Span>)
    ensures out == ranges + Found(Locate(text, longKey))
  {
    out := ranges;
    var tree := Split(longKey);
    for index := 0 to |tree|
      invariant out == if index == |tree| then ranges + Found(Locate(text, longKey)) else ranges
    {
      var key := tree[index];
      var capturingGroup := text;
      if index + 1 == |tree| {
        var pattern := Quote(key);
        var found := IndexOf(capturingGroup, pattern);
        if found.Some? {
          out := out + [Span(found.value, found.value + |pattern|)];
        }
      } else {
        var found := NarrowMatch(capturingGroup, key);
        if found.Some? {
          capturingGroup := found.value;
        }
      }
    }
  }

  /** The range-building loop of `updateDecorations`: one callback per missing path, in order. */
  method BuildRanges(text: string, missingKeys: seq<string>) returns (ranges: seq<Span>)
    ensures ranges == Ranges(text, missingKeys)
  {
    ranges := [];
    for n := 0 to |missingKeys|
      invariant ranges == Ranges(text, missingKeys[..n])
    {
      ranges := PushKeyRange(text, missingKeys[n], ranges);
      assert missingKeys[..n + 1][..n] == missingKeys[..n];
    }
    assert missingKeys[..|missingKeys|] == missingKeys;
  }

  /**
   * Non-final segments never matter: a path `p1. ... .pn.last` is located
   * exactly where the bare key `last` is. This is why a missing `b.c` is
   * marked at the first `"c"` in the text, whatever object it sits in.
   */
  lemma LocateIgnoresParents(text: string, parents: seq<string>, last: string)
    requires forall i :: 0 <= i < |parents| ==> '.' !in parents[i]
    requires '.' !in last
    ensures Locate(text, JoinDot(parents + [last])) == Locate(text, last)
  {
    LastSegmentOfPath(parents, last);
    LastSegmentOfPath([], last);
    assert [] + [last] == [last];
  }

  lemma RangesSnoc(text: string, missingKeys: seq<string>, key: string)
    ensures Ranges(text, missingKeys + [key]) == Ranges(text, missingKeys) + Found(Locate(text, key))
  {
    var whole := missingKeys + [key];
    assert whole[..|whole| - 1] == missingKeys;
  }

  /** Each missing path is located on its own: a path that is not found is skipped without affecting the others. */
  lemma {:induction false} RangesAppend(text: string, first: seq<string>, second: seq<string>)
    ensures Ranges(text, first + second) == Ranges(text, first) + Ranges(text, second)
    decreases |second|
  {
    if second == [] {
      assert first + second == first;
    } else {
      var n := |second| - 1;
      var before, last := second[..n], second[n];
      SplitLast(first, second);
      RangesAppend(text, first, before);
      RangesSnoc(text, first + before, last);
      RangesSnoc(text, before, last);
      AppendAssoc(Ranges(text, first), Ranges(text, before), Found(Locate(text, last)));
    }
  }

  /** Peeling the last key off `second` in `first + second`. */
  lemma SplitLast(first: seq<string>, second: seq<string>)
    requires second != []
    ensures first + second == (first + second[..|second| - 1]) + [second[|second| - 1]]
    ensures second == second[..|second| - 1] + [second[|second| - 1]]
  {
  }

  lemma AppendAssoc(x: seq<Span>, y: seq<Span>, z: seq<Span>)
    ensures (x + y) + z == x + (y + z)
  {
  }

  /** Every range covers the quoted final segment of some missing path, at that token's first occurrence. */
  lemma {:induction false} RangesCoverQuotedKeys(text: string, missingKeys: seq<string>)
    ensures forall r :: r in Ranges(text, missingKeys) ==>
              exists k :: k in missingKeys && Locate(text, k) == Some(r)
                       && r.end <= |text| && text[r.start..r.end] == Quote(LastSegment(k))
    decreases |missingKeys|
  {
    if missingKeys != [] {
      var n := |missingKeys| - 1;
      RangesCoverQuotedKeys(text, missingKeys[..n]);
      forall r | r in Ranges(text, missingKeys)
        ensures exists k :: k in missingKeys && Locate(text, k) == Some(r)
                         && r.end <= |text| && text[r.start..r.end] == Quote(LastSegment(k))
      {
        FindTokenFirstOccurrence(text, LastSegment(missingKeys[n]));
        if r in Ranges(text, missingKeys[..n]) {
          var k :| k in missingKeys[..n] && Locate(text, k) == Some(r)
                   && r.end <= |text| && text[r.start..r.end] == Quote(LastSegment(k));
          assert k in missingKeys;
        } else {
          assert Locate(text, missingKeys[n]) == Some(r);
        }
      }
    }
  }

  /** The ranges of a list: those of the keys before `i`, then key `i`'s own, then those after it. */
  lemma RangesSplitAt(text: string, missingKeys: seq<string>, i: nat)
    requires i < |missingKeys|
    ensures Ranges(text, missingKeys) ==
              Ranges(text, missingKeys[..i]) + Found(Locate(text, missingKeys[i])) + Ranges(text, missingKeys[i + 1..])
  {
    var k, before, after := missingKeys[i], missingKeys[..i], missingKeys[i + 1..];
    assert missingKeys == (before + [k]) + after;
    RangesAppend(text, before + [k], after);
    RangesSnoc(text, before, k);
  }

  /** A missing path whose quoted final segment occurs in the text does get a range. */
  lemma RangesCompleteness(text: string, missingKeys: seq<string>, i: nat)
    requires i < |missingKeys|
    requires exists j :: OccursAt(text, Quote(LastSegment(missingKeys[i])), j)
    ensures Locate(text, missingKeys[i]).Some?
    ensures Locate(text, missingKeys[i]).value in Ranges(text, missingKeys)
  {
    var span := Locate(text, missingKeys[i]);
    assert span.Some? by {
      FindTokenFirstOccurrence(text, LastSegment(missingKeys[i]));
      var j :| OccursAt(text, Quote(LastSegment(missingKeys[i])), j);
    }
    RangesSplitAt(text, missingKeys, i);
    var x := Ranges(text, missingKeys[..i]);
    assert Ranges(text, missingKeys)[|x|] == span.value;
  }
}
