/**
 * Dotted key paths such as `listing.api.endpoint`: validation, splitting,
 * joining and normalisation.
 */
module KeyPath {
  import opened JsString

  /** The character class `[a-zA-Z0-9_-]` of the validation pattern. */
  predicate IsSegmentChar(c: char) {
    ('a' <= c <= 'z') || ('A' <= c <= 'Z') || ('0' <= c <= '9') || c == '_' || c == '-'
  }

  predicate SegmentChars(s: string) {
    forall i :: 0 <= i < |s| ==> IsSegmentChar(s[i])
  }

  /** One segment: `[a-zA-Z0-9_-]+`. */
  predicate IsSegment(s: string) {
    |s| > 0 && SegmentChars(s)
  }

  predicate AllSegments(parts: seq<string>) {
    forall k :: 0 <= k < |parts| ==> IsSegment(parts[k])
  }

  /**
   * The pattern `^[a-zA-Z0-9_-]+(\.[a-zA-Z0-9_-]+)*$` as a two-state automaton:
   * `inSegment` is false at the start and after each dot (a segment character
   * must follow) and true after a segment character (a dot or the end may follow).
   */
  function PatternAccepts(t: string, inSegment: bool): bool {
    if t == [] then inSegment
    else if IsSegmentChar(t[0]) then PatternAccepts(t[1..], true)
    else if t[0] == '.' && inSegment then PatternAccepts(t[1..], false)
    else false
  }

  /** `isValidKeyPath`: non-empty, unpadded, and matched by the pattern. */
  function IsValidKeyPath(text: string): bool {
    if text == [] || Trim(text) != text then false
    else PatternAccepts(text, false)
  }

  /** `splitKeyPath`. */
  function SplitKeyPath(keyPath: string): seq<string> {
    Split(keyPath, '.')
  }

  /** `joinKeyPath`. */
  function JoinKeyPath(segments: seq<string>): string {
    Join(segments, '.')
  }

  /** `normalizeKeyPath`. */
  function NormalizeKeyPath(keyPath: string): string {
    Trim(keyPath)
  }

  /**
   * What the automaton accepts, stated over the dot-separated parts of `t`:
   * from the start state every part must be a segment; after a segment character
   * the first part may be empty (it continues the segment already read).
   */
  lemma {:induction false} PatternAcceptsParts(t: string, inSegment: bool)
    ensures PatternAccepts(t, inSegment) <==>
      var parts := Split(t, '.');
      && SegmentChars(parts[0])
      && (inSegment || parts[0] != [])
      && AllSegments(parts[1..])
  {
    var parts := Split(t, '.');
    if t != [] {
      PatternAcceptsParts(t[1..], true);
      PatternAcceptsParts(t[1..], false);
      var rest := Split(t[1..], '.');
      if IsSegmentChar(t[0]) {
        assert parts[0] == [t[0]] + rest[0] && parts[1..] == rest[1..];
        assert SegmentChars(parts[0]) <==> SegmentChars(rest[0]) by {
          assert forall i :: 0 < i < |parts[0]| ==> parts[0][i] == rest[0][i - 1];
          assert forall i :: 0 <= i < |rest[0]| ==> rest[0][i] == parts[0][i + 1];
        }
      } else if t[0] == '.' {
        assert parts == [[]] + rest;
        assert parts[1..] == rest;
        assert AllSegments(rest) <==> IsSegment(rest[0]) && AllSegments(rest[1..]) by {
          if AllSegments(rest) {
            assert IsSegment(rest[0]);
            assert forall k :: 0 <= k < |rest[1..]| ==> rest[1..][k] == rest[k + 1];
          }
          if IsSegment(rest[0]) && AllSegments(rest[1..]) {
            assert forall k :: 1 <= k < |rest| ==> rest[k] == rest[1..][k - 1];
          }
        }
      } else {
        assert parts[0][0] == t[0];
      }
    }
  }

  lemma SegmentsUnpadded(t: string)
    requires t != [] && (IsSegmentChar(t[0]) || t[0] == '.')
    requires IsSegmentChar(t[|t| - 1]) || t[|t| - 1] == '.'
    ensures Trim(t) == t
  {
    UnpaddedTrimmed(t);
  }

  lemma {:induction false} PatternAcceptsEnds(t: string, inSegment: bool)
    requires PatternAccepts(t, inSegment) && t != []
    ensures IsSegmentChar(t[|t| - 1])
  {
    if |t| > 1 {
      PatternAcceptsEnds(t[1..], IsSegmentChar(t[0]));
    }
  }

  /** The empty and whitespace guards add nothing: the pattern alone decides validity. */
  lemma ValidIffPattern(t: string)
    ensures IsValidKeyPath(t) == PatternAccepts(t, false)
  {
    if t != [] && PatternAccepts(t, false) {
      PatternAcceptsEnds(t, false);
      SegmentsUnpadded(t);
    }
  }

  /** A text is valid exactly when each of its dot-separated parts is a non-empty `[a-zA-Z0-9_-]` run. */
  lemma ValidIffAllPartsSegments(t: string)
    ensures IsValidKeyPath(t) <==> AllSegments(SplitKeyPath(t))
  {
    ValidIffPattern(t);
    PatternAcceptsParts(t, false);
    var parts := SplitKeyPath(t);
    if AllSegments(parts) {
      assert forall k :: 0 <= k < |parts[1..]| ==> parts[1..][k] == parts[k + 1];
    }
    if IsSegment(parts[0]) && AllSegments(parts[1..]) {
      assert forall k :: 1 <= k < |parts| ==> parts[k] == parts[1..][k - 1];
    }
  }

  /** Joining one or more segments gives a valid path. */
  lemma JoinOfSegmentsValid(segs: seq<string>)
    requires |segs| > 0 && AllSegments(segs)
    ensures IsValidKeyPath(JoinKeyPath(segs))
  {
    assert AllNoSep(segs, '.') by {
      forall k | 0 <= k < |segs| ensures NoSep(segs[k], '.') {
        assert IsSegment(segs[k]);
      }
    }
    SplitJoin(segs, '.');
    ValidIffAllPartsSegments(JoinKeyPath(segs));
  }

  /**
   * The validity characterisation: a text is valid exactly when it is one or more
   * segments joined by single dots.
   */
  lemma ValidIffJoinOfSegments(t: string)
    ensures IsValidKeyPath(t) <==>
      exists segs :: |segs| > 0 && AllSegments(segs) && JoinKeyPath(segs) == t
  {
    if IsValidKeyPath(t) {
      ValidIffAllPartsSegments(t);
      JoinSplit(t, '.');
      assert |SplitKeyPath(t)| > 0 && AllSegments(SplitKeyPath(t)) && JoinKeyPath(SplitKeyPath(t)) == t;
    }
    if exists segs :: |segs| > 0 && AllSegments(segs) && JoinKeyPath(segs) == t {
      var segs :| |segs| > 0 && AllSegments(segs) && JoinKeyPath(segs) == t;
      JoinOfSegmentsValid(segs);
    }
  }

  /** A valid path splits into a non-empty list of segments, each non-empty, dot-free and in the charset. */
  lemma ValidSplitSegments(p: string)
    requires IsValidKeyPath(p)
    ensures var segs := SplitKeyPath(p);
      |segs| > 0 && AllSegments(segs) && AllNoSep(segs, '.')
  {
    ValidIffAllPartsSegments(p);
    SplitPartsNoSep(p, '.');
  }

  /** Any text survives a split followed by a join. */
  lemma JoinSplitKeyPath(p: string)
    ensures JoinKeyPath(SplitKeyPath(p)) == p
  {
    JoinSplit(p, '.');
  }

  /** A non-empty list of dot-free segments survives a join followed by a split. */
  lemma SplitJoinKeyPath(segs: seq<string>)
    requires |segs| > 0 && AllNoSep(segs, '.')
    ensures SplitKeyPath(JoinKeyPath(segs)) == segs
  {
    SplitJoin(segs, '.');
  }

  /** The round trip fails for the empty list: `"".split('.')` is `[""]`. */
  lemma SplitJoinKeyPathEmpty()
    ensures SplitKeyPath(JoinKeyPath([])) == [[]]
  {
  }

  /** Normalising twice is normalising once, and the result has no whitespace at either end. */
  lemma NormalizeIdempotent(p: string)
    ensures NormalizeKeyPath(NormalizeKeyPath(p)) == NormalizeKeyPath(p)
    ensures Unpadded(NormalizeKeyPath(p))
  {
    TrimIdempotent(p);
    TrimShape(p);
  }

  /** A single segment is a valid path. */
  lemma SegmentValid(s: string)
    requires IsSegment(s)
    ensures IsValidKeyPath(s)
  {
    assert JoinKeyPath([s]) == s;
    JoinOfSegmentsValid([s]);
  }

  /** The accepted examples of the source's documentation comment, and `a-b-c`, which the pattern accepts too. */
  lemma AcceptedExamples()
    ensures IsValidKeyPath("a") && IsValidKeyPath("a.b") && IsValidKeyPath("a-b-c")
  {
    SegmentValid("a");
    SegmentValid("a-b-c");
    AcceptedPair();
  }

  lemma AcceptedPair()
    ensures IsValidKeyPath("a.b")
  {
    assert IsSegment("a") && IsSegment("b");
    assert JoinKeyPath(["a", "b"]) == "a.b";
    JoinOfSegmentsValid(["a", "b"]);
  }

  lemma AcceptedLongExample()
    ensures IsValidKeyPath("listing.api.endpoint")
  {
    var segs := ["listing", "api", "endpoint"];
    assert segs[1..] == ["api", "endpoint"] && segs[1..][1..] == ["endpoint"];
    assert JoinKeyPath(["api", "endpoint"]) == "api.endpoint";
    assert JoinKeyPath(segs) == "listing.api.endpoint";
    assert IsSegment("listing");
    assert IsSegment("api");
    assert IsSegment("endpoint");
    JoinOfSegmentsValid(segs);
  }

  /** The rejected examples of the source's documentation comment, and padded text. */
  lemma RejectedExamples()
    ensures !IsValidKeyPath("") && !IsValidKeyPath("a.") && !IsValidKeyPath(".b")
    ensures !IsValidKeyPath("a..b") && !IsValidKeyPath("a b") && !IsValidKeyPath(" a")
  {
    ValidIffPattern("a.");
    ValidIffPattern(".b");
    ValidIffPattern("a..b");
    ValidIffPattern("a b");
    ValidIffPattern(" a");
  }
}
