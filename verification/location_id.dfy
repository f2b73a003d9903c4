/**
 The location id on the location page:
 `location.pathname.match(/\/location\/(\w+)/)`, then the first capture
 group, or null when nothing matches.
 */
module LocationPath {
  import opened Wrappers

  /** The literal part of the pattern. */
  const Prefix: string := "/location/"

  /** `\w` without the `u` flag: ASCII letters, digits and the underscore. */
  predicate IsWordChar(c: char) {
    ('A' <= c <= 'Z') || ('a' <= c <= 'z') || ('0' <= c <= '9') || c == '_'
  }

  /** The pattern matches at `i`: the prefix followed by at least one word
      character. */
  predicate MatchesAt(path: string, i: nat) {
    i + |Prefix| < |path| && path[i..i + |Prefix|] == Prefix && IsWordChar(path[i + |Prefix|])
  }

  /** `i` is where the regular expression engine reports the match: the
      pattern matches there and at no earlier position. */
  ghost predicate LeftmostMatch(path: string, i: nat) {
    MatchesAt(path, i) && forall k: nat :: k < i ==> !MatchesAt(path, k)
  }

  /** `w` is the maximal run of word characters starting at `j`, which is
      what the greedy `\w+` captures. */
  ghost predicate MaximalRunAt(path: string, j: nat, w: string) {
    && j + |w| <= |path|
    && path[j..j + |w|] == w
    && (forall k :: 0 <= k < |w| ==> IsWordChar(w[k]))
    && (j + |w| == |path| || !IsWordChar(path[j + |w|]))
  }

  /** The length of the run of word characters that starts at `j`. */
  function WordRunLength(path: string, j: nat): (n: nat)
    requires j <= |path|
    ensures j + n <= |path|
    ensures forall k :: j <= k < j + n ==> IsWordChar(path[k])
    ensures j + n == |path| || !IsWordChar(path[j + n])
    decreases |path| - j
  {
    if j == |path| || !IsWordChar(path[j]) then 0 else 1 + WordRunLength(path, j + 1)
  }

  /** The leftmost position at or after `from` where the pattern matches. */
  function FindMatch(path: string, from: nat): (r: Option<nat>)
    requires from <= |path|
    ensures r.Some? ==> from <= r.value && MatchesAt(path, r.value)
    ensures r.Some? ==> forall k: nat :: from <= k < r.value ==> !MatchesAt(path, k)
    ensures r.None? ==> forall k: nat :: from <= k ==> !MatchesAt(path, k)
    decreases |path| - from
  {
    if from == |path| then None
    else if MatchesAt(path, from) then Some(from)
    else FindMatch(path, from + 1)
  }

  /** `match ? match[1] : null`. */
  function LocationId(path: string): (r: Option<string>)
    ensures r.Some? ==> |r.value| > 0 && '/' !in r.value
  {
    match FindMatch(path, 0)
    case None => None
    case Some(i) =>
      var j := i + |Prefix|;
      var n := WordRunLength(path, j);
      var w := path[j..j + n];
      assert forall k :: 0 <= k < |w| ==> w[k] == path[j + k];
      Some(w)
  }

  // ---------------------------------------------------------------------
  // What the extraction means
  // ---------------------------------------------------------------------

  lemma MaximalRunIsUnique(path: string, j: nat, w1: string, w2: string)
    requires MaximalRunAt(path, j, w1) && MaximalRunAt(path, j, w2)
    ensures w1 == w2
  {
    assert forall k :: 0 <= k < |w1| ==> path[j + k] == w1[k];
    assert forall k :: 0 <= k < |w2| ==> path[j + k] == w2[k];
    assert |w1| == |w2|;
    assert w1 == path[j..j + |w1|] == w2;
  }

  /** The id is null exactly when `/location/` followed by a word character
      occurs nowhere in the path. */
  lemma LocationIdIsNullIffNoMatch(path: string)
    ensures LocationId(path).None? <==> forall i: nat :: !MatchesAt(path, i)
  {
    if LocationId(path).Some? {
      assert MatchesAt(path, FindMatch(path, 0).value);
    }
  }

  /** Otherwise the id is the maximal run of word characters after the
      leftmost occurrence, and only that string. */
  lemma LocationIdIsLeftmostCapture(path: string, w: string)
    ensures LocationId(path) == Some(w) <==>
      exists i: nat :: LeftmostMatch(path, i) && MaximalRunAt(path, i + |Prefix|, w)
  {
    match FindMatch(path, 0)
    case None =>
    case Some(i) =>
      var j := i + |Prefix|;
      var v := path[j..j + WordRunLength(path, j)];
      assert LocationId(path) == Some(v);
      assert MaximalRunAt(path, j, v);
      assert LeftmostMatch(path, i);
      if exists i': nat :: LeftmostMatch(path, i') && MaximalRunAt(path, i' + |Prefix|, w) {
        var i': nat :| LeftmostMatch(path, i') && MaximalRunAt(path, i' + |Prefix|, w);
        assert i' == i;
        MaximalRunIsUnique(path, j, v, w);
      }
  }

  /** The page redirects on `!id`; as the capture is never empty, that is
      exactly the case where there is no match. */
  lemma RedirectsExactlyWithoutMatch(path: string)
    ensures (LocationId(path).None? || LocationId(path).value == "") <==>
      forall i: nat :: !MatchesAt(path, i)
  {
    LocationIdIsNullIffNoMatch(path);
  }

  lemma Examples()
    ensures LocationId("/location/abc/requests") == Some("abc")
    ensures LocationId("/location/") == None
  {
    var p := "/location/abc/requests";
    assert MatchesAt(p, 0);
    assert WordRunLength(p, 13) == 0;
    assert WordRunLength(p, 10) == 3;
    assert FindMatch(p, 0) == Some(0);
    assert p[10..13] == "abc";
  }
}
