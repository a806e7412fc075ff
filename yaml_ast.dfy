/**
 * Navigation over a parsed YAML document: exact lookup of a key chain, the key
 * under an offset, the last line of a subtree, and the longest existing prefix
 * of a key chain together with the place where the rest would be inserted.
 *
 * The document is the `yaml` library's tree, taken as given: mappings hold
 * ordered pairs, scalars carry their value and source range, and every other
 * node kind (sequences, aliases, ...) is `Other`.
 */
module YamlAst {
  import opened Wrappers
  import opened LineCounter

  /** A scalar's value: a string, or a non-string (number, boolean, null) together with what `String(value)` renders. */
  datatype ScalarValue = Str(s: string) | NonStr(rendered: string)

  /** `range[0]` and `range[1]` of a node: where it starts and where its value ends. */
  datatype Range = Range(start: nat, end: nat)

  datatype Node =
    | Scalar(value: ScalarValue, range: Option<Range>)
    | Map(items: seq<Pair>)
    | Other

  datatype Pair = Pair(key: Node, value: Option<Node>)

  /** `doc.contents`, which is null for an empty document. */
  datatype Document = Document(contents: Option<Node>)

  /** A 0-based line and column, and the key node found there. */
  datatype KeyLocation = KeyLocation(line: nat, column: nat, keyNode: Node)

  datatype PartialKeyPathResult = PartialKeyPathResult(
    existingDepth: nat,
    insertLocation: Option<KeyLocation>,
    siblingKeyLocation: Option<KeyLocation>,
    remainingSegments: seq<string>)

  /** A position in the editor: 0-based line and character. */
  datatype Position = Position(line: nat, character: nat)

  /** `String(value)`. */
  function Render(v: ScalarValue): string {
    match v
    case Str(s) => s
    case NonStr(t) => t
  }

  // ---------------------------------------------------------------------------
  // Lookup by key chain (findKeyPath, findPartialKeyPath)
  // ---------------------------------------------------------------------------

  /** `item.key instanceof Scalar && item.key.value === segment`: only string keys can equal a segment. */
  predicate KeyMatches(p: Pair, segment: string) {
    p.key.Scalar? && p.key.value == Str(segment)
  }

  predicate IsFirstMatch(items: seq<Pair>, segment: string, k: nat) {
    && k < |items|
    && KeyMatches(items[k], segment)
    && forall j :: 0 <= j < k ==> !KeyMatches(items[j], segment)
  }

  /** `items.find(...)`, returning the index of the pair found. */
  function FindPair(items: seq<Pair>, segment: string): (r: Option<nat>)
    ensures r.Some? ==> IsFirstMatch(items, segment, r.value)
    ensures r.None? ==> forall j :: 0 <= j < |items| ==> !KeyMatches(items[j], segment)
  {
    if items == [] then None
    else if KeyMatches(items[0], segment) then Some(0)
    else match FindPair(items[1..], segment)
      case None => None
      case Some(k) => Some(k + 1)
  }

  /** What the segment-by-segment walk produces: the pairs matched, and the last mapping entered (`lastValidMap`). */
  datatype Descent = Descent(matched: seq<Pair>, lastMap: Option<seq<Pair>>)

  /**
   * The walk that findKeyPath and findPartialKeyPath share, from node `current`
   * with `enclosing` the mapping the previous segment was matched in. It stops
   * when the current node is not a mapping (keeping `enclosing`) or when no pair
   * matches (recording the current mapping).
   */
  function Descend(current: Option<Node>, segments: seq<string>, enclosing: Option<seq<Pair>>): (d: Descent)
    ensures |d.matched| <= |segments|
    decreases |segments|
  {
    if segments == [] then Descent([], enclosing)
    else match current
      case Some(Map(items)) =>
        (match FindPair(items, segments[0])
         case None => Descent([], Some(items))
         case Some(k) =>
           var rest := Descend(items[k].value, segments[1..], Some(items));
           Descent([items[k]] + rest.matched, rest.lastMap))
      case _ => Descent([], enclosing)
  }

  /** One step of the walk, from position `i` of the segments, in a mapping where segment `i` is found at `k`. */
  lemma DescendStep(items: seq<Pair>, segments: seq<string>, i: nat, enclosing: Option<seq<Pair>>, k: nat)
    requires i < |segments| && FindPair(items, segments[i]) == Some(k)
    ensures Descend(Some(Map(items)), segments[i..], enclosing) ==
      var rest := Descend(items[k].value, segments[i + 1..], Some(items));
      Descent([items[k]] + rest.matched, rest.lastMap)
  {
    assert segments[i..][0] == segments[i];
    assert segments[i..][1..] == segments[i + 1..];
  }

  /** The 0-based line and column of `linePos(range[0])` of a ranged scalar key; null for any other key. */
  function KeyStartLocation(key: Node, lc: LineStarts): (loc: Option<KeyLocation>)
    ensures loc.Some? <==> key.Scalar? && key.range.Some?
    ensures loc.Some? ==> loc.value.line == LineIndex(lc, key.range.value.start) && loc.value.keyNode == key
  {
    match key
    case Scalar(_, Some(r)) =>
      var pos := LinePosOf(lc, r.start);
      Some(KeyLocation(pos.line - 1, pos.col - 1, key))
    case _ => None
  }

  /** What findKeyPath returns: the start of the last key of a full first-match chain. */
  function KeyPathLocation(doc: Document, lc: LineStarts, segments: seq<string>): Option<KeyLocation> {
    var m := Descend(doc.contents, segments, None).matched;
    if segments != [] && |m| == |segments| then KeyStartLocation(m[|m| - 1].key, lc) else None
  }

  /** Where the walk stops at position `i`: the current node is not a mapping, or has no pair for segment `i`. */
  lemma DescendStops(current: Option<Node>, segments: seq<string>, i: nat, enclosing: Option<seq<Pair>>)
    requires i < |segments|
    requires !(current.Some? && current.value.Map?) || FindPair(current.value.items, segments[i]).None?
    ensures Descend(current, segments[i..], enclosing).matched == []
  {
    assert segments[i..][0] == segments[i];
  }

  /** The pairs matched from the root, split at position `i` of the segments, move one pair across when segment `i` is found at `k`. */
  lemma DescendMoves(m: seq<Pair>, matched: seq<Pair>, items: seq<Pair>, segments: seq<string>, i: nat,
                     enclosing: Option<seq<Pair>>, k: nat)
    requires i < |segments| && FindPair(items, segments[i]) == Some(k)
    requires m == matched + Descend(Some(Map(items)), segments[i..], enclosing).matched
    ensures m == (matched + [items[k]]) + Descend(items[k].value, segments[i + 1..], Some(items)).matched
    ensures i == |segments| - 1 ==> m == matched + [items[k]]
  {
    DescendStep(items, segments, i, enclosing, k);
    if i == |segments| - 1 {
      assert segments[i + 1..] == [];
    }
  }

  /** The tail of findKeyPath: the 0-based position of the key's `range[0]`, or null when the key has no range. */
  method LocateKey(keyNode: Node, lc: LineStarts) returns (r: Option<KeyLocation>)
    requires keyNode.Scalar?
    ensures r == KeyStartLocation(keyNode, lc)
  {
    if keyNode.range.Some? {
      var pos := LinePosOf(lc, keyNode.range.value.start);
      return Some(KeyLocation(pos.line - 1, pos.col - 1, keyNode));
    }
    return None;
  }

  /** `findKeyPath`. */
  method FindKeyPath(doc: Document, lc: LineStarts, keySegments: seq<string>) returns (r: Option<KeyLocation>)
    ensures r == KeyPathLocation(doc, lc, keySegments)
  {
    var current := doc.contents;
    ghost var m := Descend(doc.contents, keySegments, None).matched;
    ghost var matched: seq<Pair> := [];
    ghost var enclosing: Option<seq<Pair>> := None;
    for i := 0 to |keySegments|
      invariant |matched| == i
      invariant keySegments == [] || i < |keySegments|
      invariant m == matched + Descend(current, keySegments[i..], enclosing).matched
    {
      var segment := keySegments[i];
      if !(current.Some? && current.value.Map?) {
        DescendStops(current, keySegments, i, enclosing);
        return None;
      }
      var items := current.value.items;
      var found := FindPair(items, segment);
      if found.None? {
        DescendStops(current, keySegments, i, enclosing);
        return None;
      }
      var pair := items[found.value];
      DescendMoves(m, matched, items, keySegments, i, enclosing, found.value);
      if i == |keySegments| - 1 {
        r := LocateKey(pair.key, lc);
        return;
      }
      matched := matched + [pair];
      enclosing := Some(items);
      current := pair.value;
    }
    return None;
  }

  /** The node in which segment `k` of a chain is looked up: the root, then the value of the previous pair. */
  function LookupNode(root: Option<Node>, chain: seq<Pair>, k: nat): Option<Node>
    requires k <= |chain|
  {
    if k == 0 then root else chain[k - 1].value
  }

  /** `p` is the first pair of mapping `node` whose key equals `segment`. */
  predicate IsFirstMatchIn(node: Option<Node>, segment: string, p: Pair) {
    node.Some? && node.value.Map? &&
    exists k :: 0 <= k < |node.value.items| && IsFirstMatch(node.value.items, segment, k) && node.value.items[k] == p
  }

  /** `node` is not a mapping, or no pair of it has `segment` as key: the walk stops here. */
  predicate Stuck(node: Option<Node>, segment: string) {
    !(node.Some? && node.value.Map?) ||
    forall k :: 0 <= k < |node.value.items| ==> !KeyMatches(node.value.items[k], segment)
  }

  /** The chain of pairs found by first match, each in the value of the one before, for the leading segments. */
  predicate IsFirstMatchChain(root: Option<Node>, segments: seq<string>, chain: seq<Pair>) {
    |chain| <= |segments| &&
    forall k {:trigger LookupNode(root, chain, k)} :: 0 <= k < |chain| ==> IsFirstMatchIn(LookupNode(root, chain, k), segments[k], chain[k])
  }

  /**
   * The walk matches the longest first-match chain: each matched pair is the
   * first pair equal to its segment in the value of the previous one, and the
   * walk stops only where the next lookup cannot succeed.
   */
  lemma {:induction false} DescendIsLongestChain(root: Option<Node>, segments: seq<string>, enclosing: Option<seq<Pair>>)
    ensures var m := Descend(root, segments, enclosing).matched;
      IsFirstMatchChain(root, segments, m) &&
      (|m| < |segments| ==> Stuck(LookupNode(root, m, |m|), segments[|m|]))
  {
    var m := Descend(root, segments, enclosing).matched;
    if segments != [] && root.Some? && root.value.Map? {
      var items := root.value.items;
      var found := FindPair(items, segments[0]);
      if found.Some? {
        var k := found.value;
        var tail := Descend(items[k].value, segments[1..], Some(items)).matched;
        DescendIsLongestChain(items[k].value, segments[1..], Some(items));
        assert m == [items[k]] + tail;
        assert IsFirstMatchIn(root, segments[0], items[k]);
        ChainCons(root, segments, items[k], tail);
      } else {
        assert m == [];
      }
    } else {
      assert m == [];
    }
  }

  /** A first match in the root followed by a chain from its value is a chain from the root. */
  lemma ChainCons(root: Option<Node>, segments: seq<string>, p: Pair, tail: seq<Pair>)
    requires segments != [] && IsFirstMatchIn(root, segments[0], p)
    requires IsFirstMatchChain(p.value, segments[1..], tail)
    ensures IsFirstMatchChain(root, segments, [p] + tail)
    ensures |tail| < |segments| - 1 ==> LookupNode(root, [p] + tail, |tail| + 1) == LookupNode(p.value, tail, |tail|)
  {
    var m := [p] + tail;
    forall j | 1 <= j < |m|
      ensures IsFirstMatchIn(LookupNode(root, m, j), segments[j], m[j])
    {
      if j > 1 {
        assert m[j - 1] == tail[j - 2];
      }
      assert LookupNode(root, m, j) == LookupNode(p.value, tail, j - 1);
      assert segments[j] == segments[1..][j - 1] && m[j] == tail[j - 1];
    }
  }

  /** The pairs of a mapping node; empty for anything else. */
  function ItemsOf(node: Option<Node>): seq<Pair> {
    if node.Some? && node.value.Map? then node.value.items else []
  }

  /** Which mapping the walk records as `lastValidMap`, told by where it stopped. */
  lemma {:induction false} DescendLastMap(root: Option<Node>, segments: seq<string>, enclosing: Option<seq<Pair>>)
    ensures var d := Descend(root, segments, enclosing);
      var m := d.matched;
      var stop := LookupNode(root, m, |m|);
      d.lastMap ==
        if |m| < |segments| && stop.Some? && stop.value.Map? then Some(stop.value.items)
        else if |m| > 0 then Some(ItemsOf(LookupNode(root, m, |m| - 1)))
        else enclosing
  {
    if segments != [] && root.Some? && root.value.Map? {
      var items := root.value.items;
      var found := FindPair(items, segments[0]);
      if found.Some? {
        var k := found.value;
        var tail := Descend(items[k].value, segments[1..], Some(items));
        DescendLastMap(items[k].value, segments[1..], Some(items));
        var m := [items[k]] + tail.matched;
        assert LookupNode(root, m, |m|) == LookupNode(items[k].value, tail.matched, |tail.matched|);
        if |tail.matched| > 0 {
          assert LookupNode(root, m, |m| - 1) == LookupNode(items[k].value, tail.matched, |tail.matched| - 1);
        }
      }
    }
  }

  /** Every match records its mapping, so once a segment has matched, `lastValidMap` is set. */
  lemma MatchSetsLastMap(root: Option<Node>, segments: seq<string>)
    ensures var d := Descend(root, segments, None);
      |d.matched| > 0 ==> d.lastMap.Some?
  {
    DescendLastMap(root, segments, None);
  }

  /** findKeyPath is null for an empty list of segments. */
  lemma KeyPathLocationEmpty(doc: Document, lc: LineStarts)
    ensures KeyPathLocation(doc, lc, []) == None
  {
  }

  /**
   * findKeyPath succeeds exactly when the first-match chain covers every
   * segment and its final key is a ranged scalar, and then it reports the line
   * and column of that key's start.
   */
  lemma KeyPathLocationChain(doc: Document, lc: LineStarts, segments: seq<string>)
    ensures var loc := KeyPathLocation(doc, lc, segments);
      var m := Descend(doc.contents, segments, None).matched;
      IsFirstMatchChain(doc.contents, segments, m) &&
      (loc.Some? <==> segments != [] && |m| == |segments| && m[|m| - 1].key.Scalar? && m[|m| - 1].key.range.Some?) &&
      (loc.Some? ==>
         var r := m[|m| - 1].key.range.value;
         && loc.value.line == LineIndex(lc, r.start)
         && loc.value.column == r.start - lc[LineIndex(lc, r.start)]
         && loc.value.keyNode == m[|m| - 1].key)
  {
    DescendIsLongestChain(doc.contents, segments, None);
    var m := Descend(doc.contents, segments, None).matched;
    if segments != [] && |m| == |segments| {
      assert IsFirstMatchIn(LookupNode(doc.contents, m, |m| - 1), segments[|m| - 1], m[|m| - 1]);
    }
  }

  /** findKeyPath is null once the walk meets a node that is not a mapping, or a mapping without the segment. */
  lemma KeyPathLocationStuck(doc: Document, lc: LineStarts, segments: seq<string>, chain: seq<Pair>)
    requires IsFirstMatchChain(doc.contents, segments, chain) && |chain| < |segments|
    requires Stuck(LookupNode(doc.contents, chain, |chain|), segments[|chain|])
    ensures KeyPathLocation(doc, lc, segments) == None
  {
    DescendIsLongestChain(doc.contents, segments, None);
    var m := Descend(doc.contents, segments, None).matched;
    FirstMatchChainsAgree(doc.contents, segments, chain, m);
  }

  /** Two first-match chains that agree below position `k` agree at `k` too. */
  lemma ChainStepAgrees(root: Option<Node>, segments: seq<string>, a: seq<Pair>, b: seq<Pair>, k: nat)
    requires IsFirstMatchChain(root, segments, a) && IsFirstMatchChain(root, segments, b)
    requires k < |a| && k < |b| && (k > 0 ==> a[k - 1] == b[k - 1])
    ensures a[k] == b[k]
  {
    assert LookupNode(root, a, k) == LookupNode(root, b, k);
    FirstMatchUnique(LookupNode(root, a, k), segments[k], a[k], b[k]);
  }

  lemma {:induction false} ChainsAgreeBelow(root: Option<Node>, segments: seq<string>, a: seq<Pair>, b: seq<Pair>, n: nat)
    requires IsFirstMatchChain(root, segments, a) && IsFirstMatchChain(root, segments, b)
    requires n <= |a| && n <= |b|
    ensures forall j :: 0 <= j < n ==> a[j] == b[j]
  {
    if n > 0 {
      ChainsAgreeBelow(root, segments, a, b, n - 1);
      ChainStepAgrees(root, segments, a, b, n - 1);
    }
  }

  /** Where the shorter of two agreeing chains ends, the longer one shows that the lookup can go on. */
  lemma ShorterChainNotStuck(root: Option<Node>, segments: seq<string>, a: seq<Pair>, b: seq<Pair>)
    requires IsFirstMatchChain(root, segments, b)
    requires |a| < |b| && (|a| > 0 ==> a[|a| - 1] == b[|a| - 1])
    ensures !Stuck(LookupNode(root, a, |a|), segments[|a|])
  {
    assert LookupNode(root, a, |a|) == LookupNode(root, b, |a|);
    assert IsFirstMatchIn(LookupNode(root, b, |a|), segments[|a|], b[|a|]);
  }

  /** First match is deterministic: two first-match chains for the same segments agree on their common length. */
  lemma FirstMatchChainsAgree(root: Option<Node>, segments: seq<string>, a: seq<Pair>, b: seq<Pair>)
    requires IsFirstMatchChain(root, segments, a) && IsFirstMatchChain(root, segments, b)
    ensures forall k :: 0 <= k < |a| && k < |b| ==> a[k] == b[k]
    ensures |a| < |b| ==> !Stuck(LookupNode(root, a, |a|), segments[|a|])
  {
    ChainsAgreeBelow(root, segments, a, b, if |a| < |b| then |a| else |b|);
    if |a| < |b| {
      ShorterChainNotStuck(root, segments, a, b);
    }
  }

  /** A mapping has one first pair for a segment. */
  lemma FirstMatchUnique(node: Option<Node>, segment: string, p: Pair, q: Pair)
    requires IsFirstMatchIn(node, segment, p) && IsFirstMatchIn(node, segment, q)
    ensures p == q
  {
    var items := node.value.items;
    var i: nat :| i < |items| && IsFirstMatch(items, segment, i) && items[i] == p;
    var j: nat :| j < |items| && IsFirstMatch(items, segment, j) && items[j] == q;
    assert i == j;
  }

  // ---------------------------------------------------------------------------
  // The key under an offset (getKeyPathAtPosition, isPositionOnKey)
  // ---------------------------------------------------------------------------

  /**
   * `lineCounter.lineStarts[position.line] + position.character`; a line past
   * the table reads `undefined` and the sum is NaN, modelled as None.
   */
  function OffsetOf(lc: LineStarts, position: Position): Option<nat> {
    if position.line < |lc| then Some(lc[position.line] + position.character) else None
  }

  /** `offset >= start && offset <= end`: both ends inclusive; NaN satisfies neither comparison. */
  predicate Covers(r: Range, offset: Option<nat>) {
    offset.Some? && r.start <= offset.value <= r.end
  }

  /** `visit(node, currentPath)`: the path pushed on a match, or None. */
  function VisitNode(n: Node, offset: Option<nat>, currentPath: seq<string>): Option<seq<string>>
    decreases n
  {
    match n
    case Map(items) => VisitItems(items, offset, currentPath)
    case _ => None
  }

  function VisitItems(items: seq<Pair>, offset: Option<nat>, currentPath: seq<string>): Option<seq<string>>
    decreases items
  {
    if items == [] then None
    else
      match VisitPair(items[0], offset, currentPath)
      case Some(path) => Some(path)
      case None => VisitItems(items[1..], offset, currentPath)
  }

  /** One pair: only a ranged scalar key is examined, and only below such a key does the search descend. */
  function VisitPair(p: Pair, offset: Option<nat>, currentPath: seq<string>): Option<seq<string>>
    decreases p
  {
    match p.key
    case Scalar(v, Some(r)) =>
      if Covers(r, offset) then Some(currentPath + [Render(v)])
      else (match p.value
        case Some(child) => VisitNode(child, offset, currentPath + [Render(v)])
        case None => None)
    case _ => None
  }

  /** `visit`, with the segments it pushes onto the outer path returned instead. */
  method Visit(n: Node, offset: Option<nat>, currentPath: seq<string>) returns (found: bool, pushed: seq<string>)
    ensures found == VisitNode(n, offset, currentPath).Some?
    ensures pushed == if found then VisitNode(n, offset, currentPath).value else []
    decreases n
  {
    if !n.Map? {
      return false, [];
    }
    var items := n.items;
    for i := 0 to |items|
      invariant VisitItems(items, offset, currentPath) == VisitItems(items[i..], offset, currentPath)
    {
      var item := items[i];
      assert items[i..][1..] == items[i + 1..];
      var keyNode := item.key;
      if keyNode.Scalar? && keyNode.range.Some? {
        var r := keyNode.range.value;
        if offset.Some? && offset.value >= r.start && offset.value <= r.end {
          return true, currentPath + [Render(keyNode.value)];
        }
        if item.value.Some? {
          var newPath := currentPath + [Render(keyNode.value)];
          var childFound, childPushed := Visit(item.value.value, offset, newPath);
          if childFound {
            return true, childPushed;
          }
        }
      }
    }
    return false, [];
  }

  /** What getKeyPathAtPosition returns. */
  function KeyPathAt(doc: Document, lc: LineStarts, position: Position): Option<seq<string>> {
    match doc.contents
    case Some(n) => VisitNode(n, OffsetOf(lc, position), [])
    case None => None
  }

  /** `getKeyPathAtPosition`: never returns an empty path. */
  method GetKeyPathAtPosition(doc: Document, lc: LineStarts, position: Position) returns (r: Option<seq<string>>)
    ensures r == KeyPathAt(doc, lc, position)
    ensures r.Some? ==> |r.value| > 0
  {
    var offset := OffsetOf(lc, position);
    var path: seq<string> := [];
    if doc.contents.Some? {
      var found, pushed := Visit(doc.contents.value, offset, []);
      VisitPathExtends(doc.contents.value, offset, []);
      path := path + pushed;
      assert path == pushed;
    }
    r := if |path| > 0 then Some(path) else None;
  }

  /** One entry of the pre-order listing: the path of a ranged scalar key and its range. */
  datatype KeyEntry = KeyEntry(path: seq<string>, range: Range)

  /** The ranged scalar keys that the search can reach, in pre-order, with their paths. */
  function NodeKeys(n: Node, prefix: seq<string>): seq<KeyEntry>
    decreases n
  {
    match n
    case Map(items) => ItemsKeys(items, prefix)
    case _ => []
  }

  function ItemsKeys(items: seq<Pair>, prefix: seq<string>): seq<KeyEntry>
    decreases items
  {
    if items == [] then [] else PairKeys(items[0], prefix) + ItemsKeys(items[1..], prefix)
  }

  function PairKeys(p: Pair, prefix: seq<string>): seq<KeyEntry>
    decreases p
  {
    match p.key
    case Scalar(v, Some(r)) =>
      [KeyEntry(prefix + [Render(v)], r)] +
      (match p.value
       case Some(child) => NodeKeys(child, prefix + [Render(v)])
       case None => [])
    case _ => []
  }

  /** The path of the first entry whose range covers the offset. */
  function FirstCovering(entries: seq<KeyEntry>, offset: Option<nat>): (r: Option<seq<string>>)
    ensures r.Some? <==> exists i :: 0 <= i < |entries| && Covers(entries[i].range, offset)
    ensures r.Some? ==>
      exists i :: 0 <= i < |entries| && Covers(entries[i].range, offset) && entries[i].path == r.value
        && forall j :: 0 <= j < i ==> !Covers(entries[j].range, offset)
  {
    if entries == [] then None
    else if Covers(entries[0].range, offset) then Some(entries[0].path)
    else
      var r := FirstCovering(entries[1..], offset);
      assert forall i :: 1 <= i < |entries| ==> entries[i] == entries[1..][i - 1];
      r
  }

  lemma {:induction false} FirstCoveringAppend(a: seq<KeyEntry>, b: seq<KeyEntry>, offset: Option<nat>)
    ensures FirstCovering(a + b, offset) ==
      if FirstCovering(a, offset).Some? then FirstCovering(a, offset) else FirstCovering(b, offset)
  {
    if a == [] {
      assert a + b == b;
    } else {
      FirstCoveringAppend(a[1..], b, offset);
      assert (a + b)[0] == a[0];
      assert (a + b)[1..] == a[1..] + b;
    }
  }

  /**
   * getKeyPathAtPosition is a first-match search over the pre-order listing of
   * ranged scalar keys: it answers with the path of the first key, in pre-order,
   * whose inclusive range covers the offset, and halts there.
   */
  lemma {:induction false} VisitIsFirstCoveringKey(n: Node, offset: Option<nat>, prefix: seq<string>)
    ensures VisitNode(n, offset, prefix) == FirstCovering(NodeKeys(n, prefix), offset)
    decreases n
  {
    if n.Map? {
      VisitItemsIsFirstCoveringKey(n.items, offset, prefix);
    }
  }

  lemma {:induction false} VisitItemsIsFirstCoveringKey(items: seq<Pair>, offset: Option<nat>, prefix: seq<string>)
    ensures VisitItems(items, offset, prefix) == FirstCovering(ItemsKeys(items, prefix), offset)
    decreases items
  {
    if items != [] {
      VisitPairIsFirstCoveringKey(items[0], offset, prefix);
      VisitItemsIsFirstCoveringKey(items[1..], offset, prefix);
      FirstCoveringAppend(PairKeys(items[0], prefix), ItemsKeys(items[1..], prefix), offset);
    }
  }

  lemma {:induction false} VisitPairIsFirstCoveringKey(p: Pair, offset: Option<nat>, prefix: seq<string>)
    ensures VisitPair(p, offset, prefix) == FirstCovering(PairKeys(p, prefix), offset)
    decreases p
  {
    if p.key.Scalar? && p.key.range.Some? {
      var path := prefix + [Render(p.key.value)];
      var head := [KeyEntry(path, p.key.range.value)];
      var below := if p.value.Some? then NodeKeys(p.value.value, path) else [];
      if p.value.Some? {
        VisitIsFirstCoveringKey(p.value.value, offset, path);
      }
      FirstCoveringAppend(head, below, offset);
    }
  }

  /** A path the search reports extends the current path by at least the matched key. */
  lemma {:induction false} VisitPathExtends(n: Node, offset: Option<nat>, prefix: seq<string>)
    ensures var r := VisitNode(n, offset, prefix);
      r.Some? ==> |r.value| > |prefix| && r.value[..|prefix|] == prefix
    decreases n
  {
    if n.Map? {
      VisitItemsPathExtends(n.items, offset, prefix);
    }
  }

  lemma {:induction false} VisitItemsPathExtends(items: seq<Pair>, offset: Option<nat>, prefix: seq<string>)
    ensures var r := VisitItems(items, offset, prefix);
      r.Some? ==> |r.value| > |prefix| && r.value[..|prefix|] == prefix
    decreases items
  {
    if items != [] {
      VisitPairPathExtends(items[0], offset, prefix);
      VisitItemsPathExtends(items[1..], offset, prefix);
    }
  }

  lemma {:induction false} VisitPairPathExtends(p: Pair, offset: Option<nat>, prefix: seq<string>)
    ensures var r := VisitPair(p, offset, prefix);
      r.Some? ==> |r.value| > |prefix| && r.value[..|prefix|] == prefix
    decreases p
  {
    if p.key.Scalar? && p.key.range.Some? {
      var path := prefix + [Render(p.key.value)];
      assert path[..|prefix|] == prefix;
      if p.value.Some? {
        VisitPathExtends(p.value.value, offset, path);
        var r := VisitNode(p.value.value, offset, path);
        if r.Some? {
          assert r.value[..|prefix|] == r.value[..|path|][..|prefix|];
        }
      }
    }
  }

  /** `checkNode`: does any key the walk examines cover the offset? */
  function CheckNode(n: Node, offset: Option<nat>): bool
    decreases n
  {
    match n
    case Map(items) => CheckItems(items, offset)
    case _ => false
  }

  function CheckItems(items: seq<Pair>, offset: Option<nat>): bool
    decreases items
  {
    items != [] && (CheckPair(items[0], offset) || CheckItems(items[1..], offset))
  }

  /** One pair: a ranged scalar key is tested, and the value is searched whatever the key is. */
  function CheckPair(p: Pair, offset: Option<nat>): bool
    decreases p
  {
    || (p.key.Scalar? && p.key.range.Some? && Covers(p.key.range.value, offset))
    || (p.value.Some? && CheckNode(p.value.value, offset))
  }

  /** `isPositionOnKey`. */
  function IsPositionOnKey(doc: Document, lc: LineStarts, position: Position): bool {
    match doc.contents
    case Some(n) => CheckNode(n, OffsetOf(lc, position))
    case None => false
  }

  /** The cheap pre-check never rejects a position that getKeyPathAtPosition resolves. */
  lemma KeyPathAtImpliesOnKey(doc: Document, lc: LineStarts, position: Position)
    ensures KeyPathAt(doc, lc, position).Some? ==> IsPositionOnKey(doc, lc, position)
  {
    if doc.contents.Some? {
      VisitImpliesCheck(doc.contents.value, OffsetOf(lc, position), []);
    }
  }

  lemma {:induction false} VisitImpliesCheck(n: Node, offset: Option<nat>, prefix: seq<string>)
    ensures VisitNode(n, offset, prefix).Some? ==> CheckNode(n, offset)
    decreases n
  {
    if n.Map? {
      VisitItemsImpliesCheck(n.items, offset, prefix);
    }
  }

  lemma {:induction false} VisitItemsImpliesCheck(items: seq<Pair>, offset: Option<nat>, prefix: seq<string>)
    ensures VisitItems(items, offset, prefix).Some? ==> CheckItems(items, offset)
    decreases items
  {
    if items != [] {
      VisitPairImpliesCheck(items[0], offset, prefix);
      VisitItemsImpliesCheck(items[1..], offset, prefix);
    }
  }

  lemma {:induction false} VisitPairImpliesCheck(p: Pair, offset: Option<nat>, prefix: seq<string>)
    ensures VisitPair(p, offset, prefix).Some? ==> CheckPair(p, offset)
    decreases p
  {
    if p.key.Scalar? && p.key.range.Some? && p.value.Some? {
      VisitImpliesCheck(p.value.value, offset, prefix + [Render(p.key.value)]);
    }
  }

  /** Every key of every mapping in the tree is a scalar with a range. */
  predicate AllKeysRanged(n: Node)
    decreases n
  {
    match n
    case Map(items) => forall k :: 0 <= k < |items| ==> PairKeysRanged(items[k])
    case _ => true
  }

  predicate PairKeysRanged(p: Pair)
    decreases p
  {
    p.key.Scalar? && p.key.range.Some? && (p.value.Some? ==> AllKeysRanged(p.value.value))
  }

  /** When every key is a ranged scalar, the pre-check and the search agree. */
  lemma {:induction false} CheckImpliesVisit(n: Node, offset: Option<nat>, prefix: seq<string>)
    requires AllKeysRanged(n)
    ensures CheckNode(n, offset) ==> VisitNode(n, offset, prefix).Some?
    decreases n
  {
    if n.Map? {
      CheckItemsImpliesVisit(n.items, offset, prefix);
    }
  }

  lemma {:induction false} CheckItemsImpliesVisit(items: seq<Pair>, offset: Option<nat>, prefix: seq<string>)
    requires forall k :: 0 <= k < |items| ==> PairKeysRanged(items[k])
    ensures CheckItems(items, offset) ==> VisitItems(items, offset, prefix).Some?
    decreases items
  {
    if items != [] {
      assert forall k :: 0 <= k < |items[1..]| ==> items[1..][k] == items[k + 1];
      CheckPairImpliesVisit(items[0], offset, prefix);
      CheckItemsImpliesVisit(items[1..], offset, prefix);
    }
  }

  lemma {:induction false} CheckPairImpliesVisit(p: Pair, offset: Option<nat>, prefix: seq<string>)
    requires PairKeysRanged(p)
    ensures CheckPair(p, offset) ==> VisitPair(p, offset, prefix).Some?
    decreases p
  {
    if p.value.Some? {
      CheckImpliesVisit(p.value.value, offset, prefix + [Render(p.key.value)]);
    }
  }

  /**
   * Without that condition the converse fails: below a key that has no range
   * the pre-check still finds a covered key, while the search never descends there.
   */
  lemma OnKeyWithoutKeyPath()
    ensures var inner := Map([Pair(Scalar(Str("b"), Some(Range(0, 1))), None)]);
      var doc := Document(Some(Map([Pair(Scalar(Str("a"), None), Some(inner))])));
      IsPositionOnKey(doc, [0], Position(0, 0)) && KeyPathAt(doc, [0], Position(0, 0)) == None
  {
  }

  // ---------------------------------------------------------------------------
  // The last line of a subtree (findLastLineOfNode)
  // ---------------------------------------------------------------------------

  /** `linePos(range[1]).line - 1`. */
  function EndLine(r: Range, lc: LineStarts): nat {
    LineIndex(lc, r.end)
  }

  /** The end lines that traverse passes to updateLastLine for a node: ranged scalars and the keys and values of mapping pairs. */
  function NodeEndLines(n: Node, lc: LineStarts): seq<nat>
    decreases n
  {
    match n
    case Scalar(_, Some(r)) => [EndLine(r, lc)]
    case Scalar(_, None) => []
    case Map(items) => ItemsEndLines(items, lc)
    case Other => []
  }

  function ItemsEndLines(items: seq<Pair>, lc: LineStarts): seq<nat>
    decreases items
  {
    if items == [] then []
    else ItemsEndLines(items[..|items| - 1], lc) + PairEndLines(items[|items| - 1], lc)
  }

  function PairEndLines(p: Pair, lc: LineStarts): seq<nat>
    decreases p
  {
    (match p.key
     case Scalar(_, Some(r)) => [EndLine(r, lc)]
     case _ => []) +
    (match p.value
     case Some(v) => NodeEndLines(v, lc)
     case None => [])
  }

  /** The largest line of a list, or None for an empty one. */
  function Greatest(lines: seq<nat>): (r: Option<nat>)
    ensures r.None? <==> lines == []
    ensures r.Some? ==> r.value in lines && forall i :: 0 <= i < |lines| ==> lines[i] <= r.value
  {
    if lines == [] then None
    else
      var rest := Greatest(lines[1..]);
      assert forall i :: 1 <= i < |lines| ==> lines[i] == lines[1..][i - 1];
      if rest.None? || lines[0] > rest.value then Some(lines[0]) else rest
  }

  /** `updateLastLine`: keep the later of the line so far and a new line. */
  function Later(lastLine: Option<nat>, line: nat): Option<nat> {
    if lastLine.None? || line > lastLine.value then Some(line) else lastLine
  }

  function LaterOpt(lastLine: Option<nat>, line: Option<nat>): Option<nat> {
    match line
    case None => lastLine
    case Some(l) => Later(lastLine, l)
  }

  /** A member of the lines that no line exceeds is the greatest one. */
  lemma GreatestIs(lines: seq<nat>, x: nat)
    requires x in lines && forall i :: 0 <= i < |lines| ==> lines[i] <= x
    ensures Greatest(lines) == Some(x)
  {
    var g := Greatest(lines).value;
    assert lines[IndexOf(lines, x)] <= g;
    assert lines[IndexOf(lines, g)] <= x;
  }

  /** The greatest line of a concatenation is the later of the two greatest lines. */
  lemma GreatestConcat(a: seq<nat>, b: seq<nat>)
    requires a != [] && b != []
    ensures Greatest(a + b) == LaterOpt(Greatest(a), Greatest(b))
  {
    var ga, gb := Greatest(a).value, Greatest(b).value;
    var g := if gb > ga then gb else ga;
    var ab := a + b;
    forall i | 0 <= i < |ab|
      ensures ab[i] <= g
    {
      if i < |a| {
        assert ab[i] == a[i];
      } else {
        assert ab[i] == b[i - |a|];
      }
    }
    if gb > ga {
      assert ab[|a| + IndexOf(b, gb)] == g;
    } else {
      assert ab[IndexOf(a, ga)] == g;
    }
    GreatestIs(ab, g);
  }

  lemma GreatestAppend(acc: Option<nat>, a: seq<nat>, b: seq<nat>)
    ensures LaterOpt(LaterOpt(acc, Greatest(a)), Greatest(b)) == LaterOpt(acc, Greatest(a + b))
  {
    if a == [] {
      assert a + b == b;
    } else if b == [] {
      assert a + b == a;
    } else {
      GreatestConcat(a, b);
    }
  }

  function IndexOf(s: seq<nat>, x: nat): (i: nat)
    requires x in s
    ensures i < |s| && s[i] == x
  {
    if s[0] == x then 0 else 1 + IndexOf(s[1..], x)
  }

  /** `traverse` on a node, with the line found so far passed in and the updated line returned. */
  method TraverseNode(n: Node, lc: LineStarts, lastLine: Option<nat>) returns (r: Option<nat>)
    ensures r == LaterOpt(lastLine, Greatest(NodeEndLines(n, lc)))
    decreases n
  {
    r := lastLine;
    match n {
      case Scalar(_, range) =>
        if range.Some? {
          r := Later(r, LinePosOf(lc, range.value.end).line - 1);
        }
      case Map(items) =>
        for i := 0 to |items|
          invariant r == LaterOpt(lastLine, Greatest(ItemsEndLines(items[..i], lc)))
        {
          assert items[..i + 1][..i] == items[..i];
          GreatestAppend(lastLine, ItemsEndLines(items[..i], lc), PairEndLines(items[i], lc));
          r := TraversePair(items[i], lc, r);
        }
        assert items[..|items|] == items;
      case Other =>
    }
  }

  /** `traverse` on a pair: its key if it is a ranged scalar, then its value. */
  method TraversePair(p: Pair, lc: LineStarts, lastLine: Option<nat>) returns (r: Option<nat>)
    ensures r == LaterOpt(lastLine, Greatest(PairEndLines(p, lc)))
    decreases p
  {
    r := lastLine;
    var keyLines: seq<nat> := [];
    if p.key.Scalar? && p.key.range.Some? {
      keyLines := [EndLine(p.key.range.value, lc)];
      r := Later(r, LinePosOf(lc, p.key.range.value.end).line - 1);
    }
    var valueLines := if p.value.Some? then NodeEndLines(p.value.value, lc) else [];
    assert PairEndLines(p, lc) == keyLines + valueLines;
    GreatestAppend(lastLine, keyLines, valueLines);
    if p.value.Some? {
      r := TraverseNode(p.value.value, lc, r);
    }
  }

  /**
   * `findLastLineOfNode`, applied to a mapping pair: the greatest 0-based end
   * line over the pair's key and every key and scalar below it, or null if
   * none of them is a ranged scalar.
   */
  method FindLastLineOfNode(p: Pair, lc: LineStarts) returns (r: Option<nat>)
    ensures r == Greatest(PairEndLines(p, lc))
    ensures r.None? <==> PairEndLines(p, lc) == []
    ensures r.Some? ==>
      r.value in PairEndLines(p, lc) && forall i :: 0 <= i < |PairEndLines(p, lc)| ==> PairEndLines(p, lc)[i] <= r.value
  {
    r := TraversePair(p, lc, None);
  }

  /** Nodes that are neither scalars nor mappings contribute no line. */
  lemma OtherHasNoEndLine(lc: LineStarts)
    ensures Greatest(NodeEndLines(Other, lc)) == None
  {
  }

  // ---------------------------------------------------------------------------
  // The longest existing prefix and where to insert the rest (findPartialKeyPath)
  // ---------------------------------------------------------------------------

  /** Branch 1 of the insertion policy: the last item of the mapping where the missing segment belongs. */
  function LastItemAnchors(items: seq<Pair>, lc: LineStarts): (Option<KeyLocation>, Option<KeyLocation>) {
    if |items| == 0 then (None, None)
    else
      var lastItem := items[|items| - 1];
      match lastItem.key
      case Scalar(_, Some(r)) =>
        var keyPos := LinePosOf(lc, r.start);
        var sibling := KeyLocation(keyPos.line - 1, keyPos.col - 1, lastItem.key);
        var lastLine := Greatest(PairEndLines(lastItem, lc));
        (if lastLine.Some? then Some(KeyLocation(lastLine.value, 0, lastItem.key)) else None, Some(sibling))
      case _ => (None, None)
  }

  /** Branch 2 of the insertion policy: both anchors at the last matched key, when its value is a mapping. */
  function ParentKeyAnchors(lastPair: Pair, lc: LineStarts): (Option<KeyLocation>, Option<KeyLocation>) {
    var loc := KeyStartLocation(lastPair.key, lc);
    (loc, loc)
  }

  /** The insertion and sibling anchors, branch by branch as the source tests them. */
  function Anchors(lastMap: Option<seq<Pair>>, lastPair: Option<Pair>, remaining: seq<string>, lc: LineStarts)
    : (Option<KeyLocation>, Option<KeyLocation>)
  {
    if lastMap.Some? && |remaining| > 0 then LastItemAnchors(lastMap.value, lc)
    else if lastPair.Some? && lastPair.value.value.Some? && lastPair.value.value.value.Map? && |remaining| > 0
    then ParentKeyAnchors(lastPair.value, lc)
    else (None, None)
  }

  /** What findPartialKeyPath returns. */
  function PartialKeyPath(doc: Document, lc: LineStarts, segments: seq<string>): PartialKeyPathResult {
    var d := Descend(doc.contents, segments, None);
    var depth := |d.matched|;
    var remaining := segments[depth..];
    var lastPair := if depth == 0 then None else Some(d.matched[depth - 1]);
    var anchors := Anchors(d.lastMap, lastPair, remaining, lc);
    PartialKeyPathResult(depth, anchors.0, anchors.1, remaining)
  }

  /** The whole walk from the root, split at position `i`: one step moves the matched pair across and enters its value. */
  lemma DescentMoves(d: Descent, matched: seq<Pair>, items: seq<Pair>, segments: seq<string>, i: nat,
                     enclosing: Option<seq<Pair>>, k: nat)
    requires i < |segments| && FindPair(items, segments[i]) == Some(k)
    requires d == var e := Descend(Some(Map(items)), segments[i..], enclosing); Descent(matched + e.matched, e.lastMap)
    ensures d == var e := Descend(items[k].value, segments[i + 1..], Some(items));
      Descent((matched + [items[k]]) + e.matched, e.lastMap)
  {
    DescendStep(items, segments, i, enclosing, k);
  }

  /** The whole walk from the root, split at position `i`, when the walk stops there (or the segments are used up). */
  lemma DescentEnds(d: Descent, matched: seq<Pair>, current: Option<Node>, segments: seq<string>, i: nat,
                    enclosing: Option<seq<Pair>>)
    requires i <= |segments|
    requires d == var e := Descend(current, segments[i..], enclosing); Descent(matched + e.matched, e.lastMap)
    requires i < |segments| ==> !(current.Some? && current.value.Map?)
    ensures d == Descent(matched, enclosing)
  {
    if i < |segments| {
      assert segments[i..][0] == segments[i];
    } else {
      assert segments[i..] == [];
    }
  }

  /** The walk stops in a mapping with no pair for segment `i`: that mapping becomes the last one entered. */
  lemma DescentMisses(d: Descent, matched: seq<Pair>, items: seq<Pair>, segments: seq<string>, i: nat,
                      enclosing: Option<seq<Pair>>)
    requires i < |segments| && FindPair(items, segments[i]).None?
    requires d == var e := Descend(Some(Map(items)), segments[i..], enclosing); Descent(matched + e.matched, e.lastMap)
    ensures d == Descent(matched, Some(items))
  {
    assert segments[i..][0] == segments[i];
  }

  /** The second half of findPartialKeyPath: the insertion and sibling anchors, tested branch by branch. */
  method PlaceAnchors(lastValidMap: Option<seq<Pair>>, lastValidPair: Option<Pair>, remainingSegments: seq<string>,
                      lc: LineStarts)
    returns (insertLocation: Option<KeyLocation>, siblingKeyLocation: Option<KeyLocation>)
    requires lastValidPair.Some? ==> lastValidMap.Some?
    ensures (insertLocation, siblingKeyLocation) == Anchors(lastValidMap, lastValidPair, remainingSegments, lc)
  {
    insertLocation, siblingKeyLocation := None, None;
    if lastValidMap.Some? && |remainingSegments| > 0 {
      var items := lastValidMap.value;
      if |items| > 0 {
        var lastItem := items[|items| - 1];
        if lastItem.key.Scalar? && lastItem.key.range.Some? {
          var keyNode := lastItem.key;
          var keyPos := LinePosOf(lc, keyNode.range.value.start);
          siblingKeyLocation := Some(KeyLocation(keyPos.line - 1, keyPos.col - 1, keyNode));
          var lastLineOfSubtree := FindLastLineOfNode(lastItem, lc);
          if lastLineOfSubtree.Some? {
            insertLocation := Some(KeyLocation(lastLineOfSubtree.value, 0, keyNode));
          }
        }
      }
    } else if lastValidPair.Some? && lastValidPair.value.value.Some? && lastValidPair.value.value.value.Map?
              && |remainingSegments| > 0 {
      // The empty-map fallback after the parent key: every match also sets
      // lastValidMap, so this branch is never taken.
      assert false;
    }
  }

  /** `findPartialKeyPath`. */
  method FindPartialKeyPath(doc: Document, lc: LineStarts, keySegments: seq<string>) returns (r: PartialKeyPathResult)
    ensures r == PartialKeyPath(doc, lc, keySegments)
    ensures r.existingDepth <= |keySegments|
    ensures r.remainingSegments == keySegments[r.existingDepth..]
  {
    var current := doc.contents;
    var lastValidPair: Option<Pair> := None;
    var lastValidMap: Option<seq<Pair>> := None;
    var existingDepth := 0;
    ghost var d := Descend(doc.contents, keySegments, None);
    ghost var matched: seq<Pair> := [];
    var i := 0;
    while i < |keySegments|
      invariant i <= |keySegments| && existingDepth == i == |matched|
      invariant lastValidPair == if i == 0 then None else Some(matched[i - 1])
      invariant lastValidPair.Some? ==> lastValidMap.Some?
      invariant d == var e := Descend(current, keySegments[i..], lastValidMap); Descent(matched + e.matched, e.lastMap)
    {
      var segment := keySegments[i];
      if !(current.Some? && current.value.Map?) {
        DescentEnds(d, matched, current, keySegments, i, lastValidMap);
        break;
      }
      var items := current.value.items;
      var found := FindPair(items, segment);
      if found.None? {
        DescentMisses(d, matched, items, keySegments, i, lastValidMap);
        lastValidMap := Some(items);
        break;
      }
      var pair := items[found.value];
      DescentMoves(d, matched, items, keySegments, i, lastValidMap, found.value);
      existingDepth := i + 1;
      lastValidPair := Some(pair);
      lastValidMap := Some(items);
      matched := matched + [pair];
      current := pair.value;
      i := i + 1;
    }
    if i == |keySegments| {
      DescentEnds(d, matched, current, keySegments, i, lastValidMap);
    }

    var remainingSegments := keySegments[existingDepth..];
    var insertLocation, siblingKeyLocation := PlaceAnchors(lastValidMap, lastValidPair, remainingSegments, lc);
    r := PartialKeyPathResult(existingDepth, insertLocation, siblingKeyLocation, remainingSegments);
  }

  /** The matched prefix is the same first-match chain findKeyPath follows, and the remaining segments are the rest. */
  lemma PartialPrefixIsChain(doc: Document, lc: LineStarts, segments: seq<string>)
    ensures var r := PartialKeyPath(doc, lc, segments);
      var m := Descend(doc.contents, segments, None).matched;
      && r.existingDepth == |m| <= |segments|
      && r.remainingSegments == segments[r.existingDepth..]
      && IsFirstMatchChain(doc.contents, segments, m)
      && (r.existingDepth < |segments| ==> Stuck(LookupNode(doc.contents, m, |m|), segments[|m|]))
  {
    DescendIsLongestChain(doc.contents, segments, None);
  }

  /** findKeyPath succeeds exactly when every segment already exists and the final key has a range. */
  lemma KeyPathLocationIffFullDepth(doc: Document, lc: LineStarts, segments: seq<string>)
    ensures var m := Descend(doc.contents, segments, None).matched;
      KeyPathLocation(doc, lc, segments).Some? <==>
        segments != [] && PartialKeyPath(doc, lc, segments).existingDepth == |segments|
        && m[|m| - 1].key.Scalar? && m[|m| - 1].key.range.Some?
  {
    KeyPathLocationChain(doc, lc, segments);
  }

  /**
   * Branch 2 of the insertion policy never fires: once a segment has matched,
   * lastValidMap is set, so the anchors always come from branch 1 or are null.
   */
  lemma ParentKeyBranchUnreachable(doc: Document, lc: LineStarts, segments: seq<string>)
    ensures var r := PartialKeyPath(doc, lc, segments);
      var d := Descend(doc.contents, segments, None);
      (r.insertLocation, r.siblingKeyLocation) ==
        if d.lastMap.Some? && |r.remainingSegments| > 0 then LastItemAnchors(d.lastMap.value, lc) else (None, None)
  {
    MatchSetsLastMap(doc.contents, segments);
  }

  /** With nothing left to insert there is no anchor. */
  lemma NothingRemainsNoAnchors(doc: Document, lc: LineStarts, segments: seq<string>)
    ensures var r := PartialKeyPath(doc, lc, segments);
      r.remainingSegments == [] ==> r.insertLocation == None && r.siblingKeyLocation == None
  {
  }

  /** Every range of a tree starts no later than it ends, as the parser produces them. */
  predicate OrderedNode(n: Node)
    decreases n
  {
    match n
    case Scalar(_, Some(r)) => r.start <= r.end
    case Scalar(_, None) => true
    case Map(items) => forall k :: 0 <= k < |items| ==> OrderedPair(items[k])
    case Other => true
  }

  predicate OrderedPair(p: Pair)
    decreases p
  {
    OrderedNode(p.key) && (p.value.Some? ==> OrderedNode(p.value.value))
  }

  lemma {:induction false} DescendOrdered(current: Option<Node>, segments: seq<string>, enclosing: Option<seq<Pair>>)
    requires current.Some? ==> OrderedNode(current.value)
    requires enclosing.Some? ==> forall k :: 0 <= k < |enclosing.value| ==> OrderedPair(enclosing.value[k])
    ensures var d := Descend(current, segments, enclosing);
      d.lastMap.Some? ==> forall k :: 0 <= k < |d.lastMap.value| ==> OrderedPair(d.lastMap.value[k])
    decreases |segments|
  {
    if segments != [] && current.Some? && current.value.Map? {
      var items := current.value.items;
      assert forall k :: 0 <= k < |items| ==> OrderedPair(items[k]);
      var found := FindPair(items, segments[0]);
      if found.Some? {
        assert OrderedPair(items[found.value]);
        assert segments[0..] == segments;
        DescendStep(items, segments, 0, enclosing, found.value);
        DescendOrdered(items[found.value].value, segments[1..], Some(items));
      }
    }
  }

  /**
   * When something remains and an insertion point exists, the sibling anchor is
   * the start of the last item's key in lastValidMap and the insertion anchor is
   * column 0 of the last line of that item's whole subtree.
   */
  lemma InsertAnchorsShape(doc: Document, lc: LineStarts, segments: seq<string>)
    ensures var r := PartialKeyPath(doc, lc, segments);
      var d := Descend(doc.contents, segments, None);
      r.insertLocation.Some? ==>
        && r.remainingSegments != [] && d.lastMap.Some? && |d.lastMap.value| > 0
        && var lastItem := d.lastMap.value[|d.lastMap.value| - 1];
        && lastItem.key.Scalar? && lastItem.key.range.Some?
        && r.siblingKeyLocation == KeyStartLocation(lastItem.key, lc)
        && Greatest(PairEndLines(lastItem, lc)) == Some(r.insertLocation.value.line)
        && r.insertLocation.value.column == 0
  {
    ParentKeyBranchUnreachable(doc, lc, segments);
  }

  /** In a tree whose ranges are ordered, the insertion line is never above the sibling's line. */
  lemma InsertNotAboveSibling(doc: Document, lc: LineStarts, segments: seq<string>)
    requires doc.contents.Some? ==> OrderedNode(doc.contents.value)
    ensures var r := PartialKeyPath(doc, lc, segments);
      r.insertLocation.Some? ==>
        r.siblingKeyLocation.Some? && r.insertLocation.value.line >= r.siblingKeyLocation.value.line
  {
    var r := PartialKeyPath(doc, lc, segments);
    if r.insertLocation.Some? {
      InsertAnchorsShape(doc, lc, segments);
      DescendOrdered(doc.contents, segments, None);
      var items := Descend(doc.contents, segments, None).lastMap.value;
      var lastItem := items[|items| - 1];
      assert OrderedPair(lastItem);
      var kr := lastItem.key.range.value;
      assert OrderedNode(lastItem.key);
      assert PairEndLines(lastItem, lc)[0] == EndLine(kr, lc);
      LineIndexMonotone(lc, kr.start, kr.end);
    }
  }

  /** The insertion anchor is reported exactly when the sibling anchor is. */
  lemma InsertIffSibling(doc: Document, lc: LineStarts, segments: seq<string>)
    ensures var r := PartialKeyPath(doc, lc, segments);
      r.insertLocation.Some? <==> r.siblingKeyLocation.Some?
  {
    ParentKeyBranchUnreachable(doc, lc, segments);
    var d := Descend(doc.contents, segments, None);
    if d.lastMap.Some? && |d.lastMap.value| > 0 {
      var lastItem := d.lastMap.value[|d.lastMap.value| - 1];
      if lastItem.key.Scalar? && lastItem.key.range.Some? {
        assert PairEndLines(lastItem, lc) != [];
      }
    }
  }
}
