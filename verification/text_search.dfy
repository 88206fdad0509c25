/**
 * The string operations the locator relies on: `String.prototype.split(".")`
 * and a first-occurrence search standing for `RegExp.prototype.exec` on a
 * pattern without metacharacters.
 */
module TextSearch {
  import opened Optional

  /** `pat` occurs in `text` starting at index `j`. */
  predicate OccursAt(text: string, pat: string, j: int)
  {
    0 <= j && j + |pat| <= |text| && text[j..j + |pat|] == pat
  }

  function IndexFrom(text: string, pat: string, i: nat): (r: Option<nat>)
    requires i <= |text|
    ensures r.Some? ==> i <= r.value && OccursAt(text, pat, r.value)
    ensures r.Some? ==> forall j :: i <= j < r.value ==> !OccursAt(text, pat, j)
    ensures r.None? ==> forall j :: i <= j ==> !OccursAt(text, pat, j)
    decreases |text| - i
  {
    if i + |pat| > |text| then None
    else if text[i..i + |pat|] == pat then Some(i)
    else IndexFrom(text, pat, i + 1)
  }

  /** The index of the first occurrence of `pat` in `text`, if any. */
  function IndexOf(text: string, pat: string): (r: Option<nat>)
    ensures r.Some? ==> OccursAt(text, pat, r.value)
    ensures r.Some? ==> forall j :: 0 <= j < r.value ==> !OccursAt(text, pat, j)
    ensures r.None? ==> forall j :: !OccursAt(text, pat, j)
  {
    IndexFrom(text, pat, 0)
  }

  /** `s.split(".")`: the pieces between dots; `""` splits into `[""]`. */
  function Split(s: string): (segments: seq<string>)
    ensures |segments| >= 1
    ensures forall i :: 0 <= i < |segments| ==> '.' !in segments[i]
  {
    if s == [] then [""]
    else if s[0] == '.' then [""] + Split(s[1..])
    else
      var rest := Split(s[1..]);
      [[s[0]] + rest[0]] + rest[1..]
  }

  /** Dot-joining segments, the inverse of `Split` used to state its round trip; the program itself never joins. */
  function JoinDot(segments: seq<string>): string
    requires |segments| >= 1
  {
    if |segments| == 1 then segments[0] else segments[0] + "." + JoinDot(segments[1..])
  }

  /** Splitting and re-joining gives back the original string. */
  lemma {:induction false} JoinSplit(s: string)
    ensures JoinDot(Split(s)) == s
  {
    if s != [] {
      JoinSplit(s[1..]);
      if s[0] != '.' {
        var rest := Split(s[1..]);
        if |rest| > 1 {
          assert JoinDot(rest) == rest[0] + "." + JoinDot(rest[1..]);
          assert Split(s)[1..] == rest[1..];
        }
      }
    }
  }

  /** Splitting a word without dots followed by `t` glues the word to `t`'s first piece. */
  lemma {:induction false} SplitAfterWord(word: string, t: string)
    requires '.' !in word
    ensures Split(word + t) == [word + Split(t)[0]] + Split(t)[1..]
  {
    if word != [] {
      SplitAfterWord(word[1..], t);
      assert (word + t)[0] == word[0];
      assert (word + t)[1..] == word[1..] + t;
      assert [word[0]] + (word[1..] + Split(t)[0]) == word + Split(t)[0];
    } else {
      assert word + t == t && word + Split(t)[0] == Split(t)[0];
    }
  }

  /** Joining dot-free pieces and splitting again gives back the pieces. */
  lemma {:induction false} SplitJoin(segments: seq<string>)
    requires |segments| >= 1
    requires forall i :: 0 <= i < |segments| ==> '.' !in segments[i]
    ensures Split(JoinDot(segments)) == segments
  {
    var word := segments[0];
    if |segments| == 1 {
      SplitAfterWord(word, "");
      assert word + "" == word;
    } else {
      var tail := JoinDot(segments[1..]);
      SplitJoin(segments[1..]);
      assert JoinDot(segments) == word + ("." + tail);
      SplitAfterWord(word, "." + tail);
      assert ("." + tail)[1..] == tail;
      assert Split("." + tail) == [""] + Split(tail);
      assert word + "" == word;
    }
  }

  /** The text after the last dot of `key`: the last element of `key.split(".")`. */
  function LastSegment(key: string): (last: string)
    ensures '.' !in last
  {
    var segments := Split(key);
    segments[|segments| - 1]
  }

  /** The last segment of a dotted path built from dot-free pieces is its last piece, whatever the pieces before it. */
  lemma LastSegmentOfPath(parents: seq<string>, last: string)
    requires forall i :: 0 <= i < |parents| ==> '.' !in parents[i]
    requires '.' !in last
    ensures LastSegment(JoinDot(parents + [last])) == last
  {
    var path := parents + [last];
    forall i | 0 <= i < |path|
      ensures '.' !in path[i]
    {
      if i < |parents| {
        assert path[i] == parents[i];
      }
    }
    SplitJoin(path);
  }
}
