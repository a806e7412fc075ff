/**
 * The paste command: a dotted key path on the clipboard becomes nested YAML
 * keys. If the whole path exists the cursor goes to it; if a prefix exists
 * only the missing segments are inserted below that prefix's subtree;
 * otherwise the whole structure is inserted at the cursor.
 *
 * The editor is a list of lines with no line break in any of them, a cursor
 * and the two indentation settings. The clipboard text and the parsed
 * document with its line table are passed in.
 */
module PasteKeyPath {
  import opened Wrappers
  import opened JsString
  import opened LineCounter
  import opened KeyPath
  import opened YamlAst

  // ---------------------------------------------------------------------------
  // Indentation and the generated structure
  // ---------------------------------------------------------------------------

  lemma {:induction false} RepeatSpaces(n: nat)
    ensures forall k :: 0 <= k < n ==> Repeat(" ", n)[k] == ' '
  {
    if n > 0 {
      RepeatSpaces(n - 1);
      assert Repeat(" ", n) == " " + Repeat(" ", n - 1);
    }
  }

  /** `getIndentUnit`: `tabSize` spaces, or one tab. */
  function IndentUnit(insertSpaces: bool, tabSize: nat): (u: string)
    ensures AllWhitespace(u) && NoSep(u, '\n')
    ensures insertSpaces ==> |u| == tabSize && forall k :: 0 <= k < |u| ==> u[k] == ' '
    ensures !insertSpaces ==> u == "\t"
  {
    if insertSpaces then RepeatSpaces(tabSize); Repeat(" ", tabSize) else "\t"
  }

  /** `getBaseIndent` and the sibling lookup: the leading whitespace `/^(\s*)/` captures. */
  function BaseIndent(lineText: string): (b: string)
    ensures |b| <= |lineText| && b == lineText[..|b|] && AllWhitespace(b)
    ensures b + TrimStart(lineText) == lineText
  {
    LeadingWhitespaceTrimStart(lineText);
    LeadingWhitespace(lineText)
  }

  /** Line `i` of the generated structure: the base indent, `i` indent units, the segment and a colon. */
  function StructureLine(keySegments: seq<string>, baseIndent: string, indentUnit: string, i: nat): string
    requires i < |keySegments|
  {
    baseIndent + Repeat(indentUnit, i) + keySegments[i] + ":"
  }

  function StructureLines(keySegments: seq<string>, baseIndent: string, indentUnit: string): (ls: seq<string>)
    ensures |ls| == |keySegments|
    ensures forall i :: 0 <= i < |ls| ==> ls[i] == StructureLine(keySegments, baseIndent, indentUnit, i)
  {
    seq(|keySegments|, i requires 0 <= i < |keySegments| => StructureLine(keySegments, baseIndent, indentUnit, i))
  }

  /** What generateYamlStructure returns: the structure's lines joined by line breaks. */
  function Structure(keySegments: seq<string>, baseIndent: string, indentUnit: string): string {
    Join(StructureLines(keySegments, baseIndent, indentUnit), '\n')
  }

  /** `generateYamlStructure`; its two branches push the same line. */
  method GenerateYamlStructure(keySegments: seq<string>, baseIndent: string, indentUnit: string) returns (r: string)
    ensures r == Structure(keySegments, baseIndent, indentUnit)
  {
    var lines: seq<string> := [];
    for i := 0 to |keySegments|
      invariant |lines| == i
      invariant forall k :: 0 <= k < i ==> lines[k] == StructureLine(keySegments, baseIndent, indentUnit, k)
    {
      var segment := keySegments[i];
      var currentIndent := baseIndent + Repeat(indentUnit, i);
      if i == |keySegments| - 1 {
        lines := lines + [currentIndent + segment + ":"];
      } else {
        lines := lines + [currentIndent + segment + ":"];
      }
    }
    assert lines == StructureLines(keySegments, baseIndent, indentUnit);
    return Join(lines, '\n');
  }

  /** Every segment character is printable and not whitespace. */
  lemma SegmentHasNoBreak(s: string)
    requires SegmentChars(s)
    ensures NoSep(s, '\n') && (s != [] ==> !IsWhitespace(s[0]))
  {
  }

  /** With line-free indentation and segments, no structure line holds a line break. */
  lemma StructureLinesNoBreak(keySegments: seq<string>, baseIndent: string, indentUnit: string)
    requires AllSegments(keySegments) && NoSep(baseIndent, '\n') && NoSep(indentUnit, '\n')
    ensures AllNoSep(StructureLines(keySegments, baseIndent, indentUnit), '\n')
  {
    var ls := StructureLines(keySegments, baseIndent, indentUnit);
    forall i | 0 <= i < |ls|
      ensures NoSep(ls[i], '\n')
    {
      RepeatNoSep(indentUnit, i, '\n');
      SegmentHasNoBreak(keySegments[i]);
      var a, b := baseIndent + Repeat(indentUnit, i), keySegments[i];
      assert forall k :: 0 <= k < |a| ==> a[k] != '\n';
      assert ls[i] == a + b + ":";
    }
  }

  /**
   * Splitting the generated structure at its line breaks gives one line per
   * segment, so the cursor arithmetic of the paste command counts segments.
   */
  lemma StructureSplits(keySegments: seq<string>, baseIndent: string, indentUnit: string)
    requires |keySegments| > 0 && AllSegments(keySegments) && NoSep(baseIndent, '\n') && NoSep(indentUnit, '\n')
    ensures Split(Structure(keySegments, baseIndent, indentUnit), '\n') == StructureLines(keySegments, baseIndent, indentUnit)
  {
    StructureLinesNoBreak(keySegments, baseIndent, indentUnit);
    SplitJoin(StructureLines(keySegments, baseIndent, indentUnit), '\n');
  }

  /** No segments give no text. */
  lemma StructureEmpty(baseIndent: string, indentUnit: string)
    ensures Structure([], baseIndent, indentUnit) == ""
  {
  }

  /**
   * Line `i` is indented by the base indent and exactly `i` units, and what
   * follows the indentation is the segment and its colon: each key is nested
   * one level under the one before.
   */
  lemma StructureLineNesting(keySegments: seq<string>, baseIndent: string, indentUnit: string, i: nat)
    requires i < |keySegments| && AllSegments(keySegments) && AllWhitespace(baseIndent) && AllWhitespace(indentUnit)
    ensures var line := StructureLine(keySegments, baseIndent, indentUnit, i);
      BaseIndent(line) == baseIndent + Repeat(indentUnit, i) && TrimStart(line) == keySegments[i] + ":"
  {
    var indent := baseIndent + Repeat(indentUnit, i);
    var rest := keySegments[i] + ":";
    var line := StructureLine(keySegments, baseIndent, indentUnit, i);
    RepeatAllWhitespace(indentUnit, i);
    SegmentHasNoBreak(keySegments[i]);
    assert line == indent + rest;
    assert AllWhitespace(indent);
    assert !IsWhitespace(rest[0]);
    LeadingWhitespaceOfPrefix(indent, rest);
    assert BaseIndent(line) + TrimStart(line) == line;
  }

  // ---------------------------------------------------------------------------
  // The editor's edit
  // ---------------------------------------------------------------------------

  function Min(a: nat, b: nat): nat {
    if a <= b then a else b
  }

  /** A well-formed document: at least one line, and no line break inside a line. */
  predicate IsLines(lines: seq<string>) {
    |lines| > 0 && AllNoSep(lines, '\n')
  }

  /**
   * VS Code's `validatePosition`: a line past the end is the end of the
   * document, and a character past the end of its line is that line's end.
   */
  function ValidatePosition(lines: seq<string>, p: Position): (v: Position)
    requires |lines| > 0
    ensures v.line < |lines| && v.character <= |lines[v.line]|
    ensures p.line < |lines| && p.character <= |lines[p.line]| ==> v == p
  {
    if p.line >= |lines| then Position(|lines| - 1, |lines[|lines| - 1]|)
    else if p.character > |lines[p.line]| then Position(p.line, |lines[p.line]|)
    else p
  }

  /** `editBuilder.insert(position, text)`: the line at the position is cut there, the text goes in, and line breaks in it start new lines. */
  function ApplyInsert(lines: seq<string>, position: Position, text: string): (r: seq<string>)
    requires |lines| > 0
    ensures |r| > 0
  {
    var p := ValidatePosition(lines, position);
    var line := lines[p.line];
    lines[..p.line] + Split(line[..p.character] + text + line[p.character..], '\n') + lines[p.line + 1..]
  }

  /** An edit keeps a document well formed. */
  lemma ApplyInsertKeepsLines(lines: seq<string>, position: Position, text: string)
    requires IsLines(lines)
    ensures IsLines(ApplyInsert(lines, position, text))
  {
    var p := ValidatePosition(lines, position);
    var line := lines[p.line];
    var mid := Split(line[..p.character] + text + line[p.character..], '\n');
    SplitPartsNoSep(line[..p.character] + text + line[p.character..], '\n');
    var r := ApplyInsert(lines, position, text);
    assert r == lines[..p.line] + mid + lines[p.line + 1..];
    forall k | 0 <= k < |r|
      ensures NoSep(r[k], '\n')
    {
      if k < p.line {
        assert r[k] == lines[k];
      } else if k < p.line + |mid| {
        assert r[k] == mid[k - p.line];
      } else {
        assert r[k] == lines[k - |mid| + 1];
      }
    }
  }

  // ---------------------------------------------------------------------------
  // The paste decision
  // ---------------------------------------------------------------------------

  /** What the paste command does. */
  datatype PasteOutcome =
    | DefaultPaste
      // the clipboard is not a key path: the editor's own paste runs
    | Navigated(target: Position)
      // the whole path exists: the cursor moves to its last key
    | InsertedRemaining(at: Position, text: string, cursor: Position)
      // a prefix exists: the missing segments are inserted below its subtree
    | InsertedFull(at: Position, text: string, cursor: Position)
      // nothing usable exists: the whole structure is inserted at the cursor

  /** The last line of a text split at its line breaks. */
  function LastLine(text: string): string {
    var parts := Split(text, '\n');
    parts[|parts| - 1]
  }

  function LineCount(text: string): nat {
    |Split(text, '\n')|
  }

  /** The line after which the remaining segments go: the insertion line, kept inside the document. */
  function SafeInsertLine(partial: PartialKeyPathResult, lines: seq<string>): (s: nat)
    requires |lines| > 0 && partial.insertLocation.Some?
    ensures s < |lines|
  {
    Min(partial.insertLocation.value.line, |lines| - 1)
  }

  /** The indentation of the remaining segments: that of the sibling key's line, else that of the insertion line. */
  function RemainingBaseIndent(partial: PartialKeyPathResult, lines: seq<string>): string
    requires |lines| > 0 && partial.insertLocation.Some?
  {
    if partial.siblingKeyLocation.Some?
    then BaseIndent(lines[Min(partial.siblingKeyLocation.value.line, |lines| - 1)])
    else BaseIndent(lines[SafeInsertLine(partial, lines)])
  }

  /** The partial-path branch: where the remaining segments go, what is inserted, and where the cursor ends. */
  function PlanRemaining(partial: PartialKeyPathResult, lines: seq<string>, indentUnit: string): PasteOutcome
    requires |lines| > 0 && partial.insertLocation.Some?
  {
    var lastLineNumber := |lines| - 1;
    var safeInsertLine := SafeInsertLine(partial, lines);
    var yamlStructure := Structure(partial.remainingSegments, RemainingBaseIndent(partial, lines), indentUnit);
    var insertPosition := Position(safeInsertLine + 1, 0);
    var textToInsert := if safeInsertLine == lastLineNumber then "\n" + yamlStructure else yamlStructure + "\n";
    InsertedRemaining(insertPosition, textToInsert,
      Position(insertPosition.line + LineCount(yamlStructure) - 1, |LastLine(yamlStructure)|))
  }

  /** The cursor after a full insert, as the source computes it: the column is the length of the last inserted line. */
  function FullInsertCursorAsWritten(position: Position, yamlStructure: string): Position {
    Position(position.line + LineCount(yamlStructure) - 1, |LastLine(yamlStructure)|)
  }

  /** The cursor after a full insert, at the end of the inserted text: on a one-line insert the text starts at the old column. */
  function FullInsertCursor(position: Position, yamlStructure: string): Position {
    var n := LineCount(yamlStructure);
    Position(position.line + n - 1, (if n == 1 then position.character else 0) + |LastLine(yamlStructure)|)
  }

  /**
   * The full-insert branch: the whole structure at the cursor, indented like
   * the cursor's line, with the cursor moved as the source moves it.
   */
  function PlanFull(keySegments: seq<string>, lines: seq<string>, cursor: Position, indentUnit: string): PasteOutcome
    requires cursor.line < |lines|
  {
    var yamlStructure := Structure(keySegments, BaseIndent(lines[cursor.line]), indentUnit);
    InsertedFull(cursor, yamlStructure, FullInsertCursorAsWritten(cursor, yamlStructure))
  }

  /** An outcome with the cursor of a full insert moved to the end of the inserted text; other outcomes unchanged. */
  function WithIntendedCursor(outcome: PasteOutcome): PasteOutcome {
    match outcome
    case InsertedFull(at, text, _) => InsertedFull(at, text, FullInsertCursor(at, text))
    case _ => outcome
  }

  /** The full-insert branch with the cursor where the comment of `pasteKeyPath` puts it: after the last colon. */
  function PlanFullIntended(keySegments: seq<string>, lines: seq<string>, cursor: Position, indentUnit: string): PasteOutcome
    requires cursor.line < |lines|
  {
    WithIntendedCursor(PlanFull(keySegments, lines, cursor, indentUnit))
  }

  /** The branch `pasteKeyPath` takes, and what it does there. */
  function PlanPaste(clipboardText: string, doc: Document, lc: LineStarts, lines: seq<string>, cursor: Position,
                     insertSpaces: bool, tabSize: nat): PasteOutcome
    requires cursor.line < |lines|
  {
    var normalizedText := NormalizeKeyPath(clipboardText);
    if !IsValidKeyPath(normalizedText) then DefaultPaste
    else
      PlanKeyPath(doc, lc, SplitKeyPath(normalizedText), lines, cursor, IndentUnit(insertSpaces, tabSize))
  }

  /** A valid path: navigation to its last key when it exists as a whole, an insertion otherwise. */
  function PlanKeyPath(doc: Document, lc: LineStarts, keySegments: seq<string>, lines: seq<string>, cursor: Position,
                       indentUnit: string): (r: PasteOutcome)
    requires cursor.line < |lines|
    ensures !r.DefaultPaste?
  {
    var existingLocation := KeyPathLocation(doc, lc, keySegments);
    if existingLocation.Some? then Navigated(Position(existingLocation.value.line, existingLocation.value.column))
    else PlanInsert(doc, lc, keySegments, lines, cursor, indentUnit)
  }

  /** A path that is not found as a whole: its missing part below the longest existing prefix, or all of it at the cursor. */
  function PlanInsert(doc: Document, lc: LineStarts, keySegments: seq<string>, lines: seq<string>, cursor: Position,
                      indentUnit: string): (r: PasteOutcome)
    requires cursor.line < |lines|
    ensures r.InsertedRemaining? || r.InsertedFull?
  {
    var partialResult := PartialKeyPath(doc, lc, keySegments);
    if partialResult.existingDepth > 0 && partialResult.insertLocation.Some? && |partialResult.remainingSegments| > 0
    then PlanRemaining(partialResult, lines, indentUnit)
    else PlanFull(keySegments, lines, cursor, indentUnit)
  }

  /** `pasteKeyPath` with the full insert's cursor corrected; every other branch as in `PlanPaste`. */
  function PlanPasteIntended(clipboardText: string, doc: Document, lc: LineStarts, lines: seq<string>, cursor: Position,
                             insertSpaces: bool, tabSize: nat): PasteOutcome
    requires cursor.line < |lines|
  {
    WithIntendedCursor(PlanPaste(clipboardText, doc, lc, lines, cursor, insertSpaces, tabSize))
  }

  /** The document after the outcome: only the two insert outcomes edit it. */
  function LinesAfter(lines: seq<string>, outcome: PasteOutcome): seq<string>
    requires |lines| > 0
  {
    match outcome
    case InsertedRemaining(at, text, _) => ApplyInsert(lines, at, text)
    case InsertedFull(at, text, _) => ApplyInsert(lines, at, text)
    case _ => lines
  }

  /** The selection after the outcome, validated against the document after it; the default paste is left to the editor. */
  function SelectionAfter(lines: seq<string>, selection: Position, outcome: PasteOutcome): Position
    requires |lines| > 0
  {
    var after := LinesAfter(lines, outcome);
    match outcome
    case DefaultPaste => selection
    case Navigated(target) => ValidatePosition(after, target)
    case InsertedRemaining(_, _, cursor) => ValidatePosition(after, cursor)
    case InsertedFull(_, _, cursor) => ValidatePosition(after, cursor)
  }

  // ---------------------------------------------------------------------------
  // What each branch does to the document and the cursor
  // ---------------------------------------------------------------------------

  /** The lines an insert of joined `parts` produces inside a line cut into `prefix` and `suffix`. */
  function Splice(prefix: string, parts: seq<string>, suffix: string): (r: seq<string>)
    requires |parts| > 0
    ensures |r| == |parts|
    ensures r[|r| - 1] == (if |parts| == 1 then prefix else []) + parts[|parts| - 1] + suffix
    decreases |parts|
  {
    if |parts| == 1 then [prefix + parts[0] + suffix]
    else [prefix + parts[0]] + Splice([], parts[1..], suffix)
  }

  lemma {:induction false} SplitSplice(prefix: string, parts: seq<string>, suffix: string)
    requires |parts| > 0 && AllNoSep(parts, '\n') && NoSep(prefix, '\n') && NoSep(suffix, '\n')
    ensures Split(prefix + Join(parts, '\n') + suffix, '\n') == Splice(prefix, parts, suffix)
    decreases |parts|
  {
    if |parts| == 1 {
      assert NoSep(prefix + parts[0] + suffix, '\n');
      SplitNoSep(prefix + parts[0] + suffix, '\n');
    } else {
      var tail := Join(parts[1..], '\n');
      assert prefix + Join(parts, '\n') + suffix == (prefix + parts[0]) + ['\n'] + (tail + suffix);
      assert NoSep(prefix + parts[0], '\n');
      SplitConcat(prefix + parts[0], tail + suffix, '\n');
      SplitNoSep(prefix + parts[0], '\n');
      SplitSplice([], parts[1..], suffix);
      assert [] + tail + suffix == tail + suffix;
    }
  }

  /**
   * The partial-path insert adds exactly the structure lines of the remaining
   * segments right after the safe insertion line, leaves every other line as it
   * was, and puts the cursor at the end of the last added line.
   */
  lemma RemainingInsertShape(partial: PartialKeyPathResult, lines: seq<string>, indentUnit: string)
    requires IsLines(lines) && partial.insertLocation.Some?
    requires |partial.remainingSegments| > 0 && AllSegments(partial.remainingSegments) && NoSep(indentUnit, '\n')
    ensures PlanRemaining(partial, lines, indentUnit).InsertedRemaining?
    ensures var o := PlanRemaining(partial, lines, indentUnit);
      var s := SafeInsertLine(partial, lines);
      var added := StructureLines(partial.remainingSegments, RemainingBaseIndent(partial, lines), indentUnit);
      var after := ApplyInsert(lines, o.at, o.text);
      && after == lines[..s + 1] + added + lines[s + 1..]
      && o.cursor.line == s + |added| && o.cursor.line < |after|
      && after[o.cursor.line] == added[|added| - 1]
      && o.cursor.character == |after[o.cursor.line]|
  {
    var s := SafeInsertLine(partial, lines);
    var added := StructureLines(partial.remainingSegments, RemainingBaseIndent(partial, lines), indentUnit);
    RemainingInsertLines(partial, lines, indentUnit);
    InBlock(lines[..s + 1], added, lines[s + 1..], |added| - 1);
  }

  /** The lines of the partial-path insert, and the structure's own split into lines. */
  lemma RemainingInsertLines(partial: PartialKeyPathResult, lines: seq<string>, indentUnit: string)
    requires IsLines(lines) && partial.insertLocation.Some?
    requires |partial.remainingSegments| > 0 && AllSegments(partial.remainingSegments) && NoSep(indentUnit, '\n')
    ensures var o := PlanRemaining(partial, lines, indentUnit);
      var b := RemainingBaseIndent(partial, lines);
      var added := StructureLines(partial.remainingSegments, b, indentUnit);
      && Split(Structure(partial.remainingSegments, b, indentUnit), '\n') == added
      && ApplyInsert(lines, o.at, o.text) == lines[..SafeInsertLine(partial, lines) + 1] + added + lines[SafeInsertLine(partial, lines) + 1..]
  {
    var s := SafeInsertLine(partial, lines);
    var b := RemainingBaseIndent(partial, lines);
    var g := Structure(partial.remainingSegments, b, indentUnit);
    var sourceLine := if partial.siblingKeyLocation.Some? then Min(partial.siblingKeyLocation.value.line, |lines| - 1) else s;
    assert NoSep(lines[sourceLine], '\n');
    PrefixNoSep(lines[sourceLine], b);
    StructureSplits(partial.remainingSegments, b, indentUnit);
    var o := PlanRemaining(partial, lines, indentUnit);
    assert o.at == Position(s + 1, 0);
    assert o.text == if s == |lines| - 1 then "\n" + g else g + "\n";
    InsertBelowLine(lines, s, g);
  }

  /** The partial-path edit: the text's lines go right below line `s`, with the line break placed so that this also holds for the last line. */
  lemma InsertBelowLine(lines: seq<string>, s: nat, g: string)
    requires IsLines(lines) && s < |lines|
    ensures ApplyInsert(lines, Position(s + 1, 0), if s == |lines| - 1 then "\n" + g else g + "\n")
      == lines[..s + 1] + Split(g, '\n') + lines[s + 1..]
  {
    if s == |lines| - 1 {
      InsertPastEnd(lines, g);
      DropLast(lines);
    } else {
      InsertAtLineStart(lines, s + 1, g);
    }
  }

  lemma PrefixNoSep(line: string, b: string)
    requires NoSep(line, '\n') && |b| <= |line| && b == line[..|b|]
    ensures NoSep(b, '\n')
  {
    assert forall k :: 0 <= k < |b| ==> b[k] == line[k];
  }

  lemma InBlock(pre: seq<string>, mid: seq<string>, post: seq<string>, i: nat)
    requires i < |mid|
    ensures |pre| + i < |pre + mid + post| && (pre + mid + post)[|pre| + i] == mid[i]
  {
  }

  lemma CutAtStart(line: string, t: string)
    ensures line[..0] + t + line[0..] == t + line
  {
  }

  lemma CutAtEnd(line: string, t: string)
    ensures line[..|line|] + t + line[|line|..] == line + t
  {
  }

  /** Inserting a line break and a text past the end of the document appends the text's lines. */
  lemma InsertPastEnd(lines: seq<string>, g: string)
    requires |lines| > 0 && NoSep(lines[|lines| - 1], '\n')
    ensures ApplyInsert(lines, Position(|lines|, 0), "\n" + g) == lines + Split(g, '\n')
  {
    var s := |lines| - 1;
    var line := lines[s];
    assert ValidatePosition(lines, Position(|lines|, 0)) == Position(s, |line|);
    CutAtEnd(line, "\n" + g);
    assert ApplyInsert(lines, Position(|lines|, 0), "\n" + g) == lines[..s] + Split(line + ("\n" + g), '\n') + lines[s + 1..];
    SplitAfterLine(line, g);
    DropLast(lines);
    AppendRegroup(lines[..s], line, Split(g, '\n'));
  }

  lemma SplitAfterLine(line: string, g: string)
    requires NoSep(line, '\n')
    ensures Split(line + ("\n" + g), '\n') == [line] + Split(g, '\n')
  {
    assert line + ("\n" + g) == line + ['\n'] + g;
    SplitConcat(line, g, '\n');
    SplitNoSep(line, '\n');
  }

  lemma AppendRegroup(pre: seq<string>, line: string, rest: seq<string>)
    ensures pre + ([line] + rest) + [] == pre + [line] + rest
  {
  }

  lemma DropLast(lines: seq<string>)
    requires |lines| > 0
    ensures lines[..|lines| - 1] + [lines[|lines| - 1]] == lines && lines[|lines|..] == [] && lines[..|lines|] == lines
  {
  }

  /** Inserting a text and a line break at the start of line `k` puts the text's lines before it. */
  lemma InsertAtLineStart(lines: seq<string>, k: nat, g: string)
    requires k < |lines| && NoSep(lines[k], '\n')
    ensures ApplyInsert(lines, Position(k, 0), g + "\n") == lines[..k] + Split(g, '\n') + lines[k..]
  {
    var line := lines[k];
    assert ValidatePosition(lines, Position(k, 0)) == Position(k, 0);
    CutAtStart(line, g + "\n");
    SplitConcat(g, line, '\n');
    SplitNoSep(line, '\n');
    assert ApplyInsert(lines, Position(k, 0), g + "\n") == lines[..k] + (Split(g, '\n') + [line]) + lines[k + 1..];
    assert [line] + lines[k + 1..] == lines[k..];
    BlockRegroup(lines[..k], Split(g, '\n'), line, lines[k + 1..]);
  }

  lemma BlockRegroup(pre: seq<string>, mid: seq<string>, line: string, post: seq<string>)
    ensures pre + (mid + [line]) + post == pre + mid + ([line] + post)
  {
  }

  /**
   * The full insert splices the structure lines into the cursor's line at the
   * cursor. The new cursor is on the last inserted line, at the column equal to
   * that structure line's length; that line holds the last structure line
   * (preceded by the old text before the cursor on a one-line insert) followed
   * by the old text after the cursor.
   */
  lemma FullInsertShape(keySegments: seq<string>, lines: seq<string>, cursor: Position, indentUnit: string)
    requires IsLines(lines) && cursor.line < |lines| && cursor.character <= |lines[cursor.line]|
    requires |keySegments| > 0 && AllSegments(keySegments) && NoSep(indentUnit, '\n')
    ensures PlanFull(keySegments, lines, cursor, indentUnit).InsertedFull?
    ensures var o := PlanFull(keySegments, lines, cursor, indentUnit);
      var line := lines[cursor.line];
      var before, rest := line[..cursor.character], line[cursor.character..];
      var added := StructureLines(keySegments, BaseIndent(line), indentUnit);
      var after := ApplyInsert(lines, o.at, o.text);
      && o.at == cursor
      && after == lines[..cursor.line] + Splice(before, added, rest) + lines[cursor.line + 1..]
      && o.cursor == Position(cursor.line + |added| - 1, |added[|added| - 1]|)
      && o.cursor.line < |after|
      && after[o.cursor.line] == (if |added| == 1 then before else []) + added[|added| - 1] + rest
  {
    var o := PlanFull(keySegments, lines, cursor, indentUnit);
    var line := lines[cursor.line];
    var before, rest := line[..cursor.character], line[cursor.character..];
    var added := StructureLines(keySegments, BaseIndent(line), indentUnit);
    FullInsertLines(keySegments, lines, cursor, indentUnit);
    assert o.cursor == Position(cursor.line + |added| - 1, |added[|added| - 1]|);
    SpliceCursor(lines[..cursor.line], before, added, rest, lines[cursor.line + 1..]);
  }

  /** The lines of the full insert, and the structure's own split into lines. */
  lemma FullInsertLines(keySegments: seq<string>, lines: seq<string>, cursor: Position, indentUnit: string)
    requires IsLines(lines) && cursor.line < |lines| && cursor.character <= |lines[cursor.line]|
    requires |keySegments| > 0 && AllSegments(keySegments) && NoSep(indentUnit, '\n')
    ensures var o := PlanFull(keySegments, lines, cursor, indentUnit);
      var line := lines[cursor.line];
      var added := StructureLines(keySegments, BaseIndent(line), indentUnit);
      && Split(o.text, '\n') == added
      && ApplyInsert(lines, o.at, o.text) ==
           lines[..cursor.line] + Splice(line[..cursor.character], added, line[cursor.character..]) + lines[cursor.line + 1..]
  {
    var line := lines[cursor.line];
    var b := BaseIndent(line);
    var added := StructureLines(keySegments, b, indentUnit);
    assert NoSep(line, '\n');
    PrefixNoSep(line, b);
    StructureSplits(keySegments, b, indentUnit);
    StructureLinesNoBreak(keySegments, b, indentUnit);
    assert ValidatePosition(lines, cursor) == cursor;
    SuffixNoSep(line, cursor.character);
    PrefixNoSep(line, line[..cursor.character]);
    SplitSplice(line[..cursor.character], added, line[cursor.character..]);
  }

  lemma SuffixNoSep(line: string, k: nat)
    requires NoSep(line, '\n') && k <= |line|
    ensures NoSep(line[k..], '\n')
  {
    assert forall i :: 0 <= i < |line| - k ==> line[k..][i] == line[k + i];
  }

  /**
   * In a document whose line block `pre` is followed by the spliced lines, the
   * position at the end of the inserted text has the inserted text's last line
   * (after the old prefix on a one-line insert) before it and the old suffix after it.
   */
  lemma SpliceCursor(pre: seq<string>, before: string, added: seq<string>, rest: string, post: seq<string>)
    requires |added| > 0
    ensures var after := pre + Splice(before, added, rest) + post;
      var head := (if |added| == 1 then before else []) + added[|added| - 1];
      var line := |pre| + |added| - 1;
      && line < |after| && |head| <= |after[line]|
      && after[line] == head + rest
      && after[line][..|head|] == head
      && after[line][|head|..] == rest
  {
    var mid := Splice(before, added, rest);
    InBlock(pre, mid, post, |added| - 1);
  }

  // ---------------------------------------------------------------------------
  // The decision, branch by branch
  // ---------------------------------------------------------------------------

  /** The default paste runs exactly when the trimmed clipboard text is not a key path. */
  lemma PasteDefaultIff(clipboardText: string, doc: Document, lc: LineStarts, lines: seq<string>, cursor: Position,
                        insertSpaces: bool, tabSize: nat)
    requires cursor.line < |lines|
    ensures PlanPaste(clipboardText, doc, lc, lines, cursor, insertSpaces, tabSize).DefaultPaste? <==>
      !IsValidKeyPath(NormalizeKeyPath(clipboardText))
  {
  }

  /** A valid path is navigated to exactly when findKeyPath finds it as a whole, and then to the key it found. */
  lemma PlanKeyPathNavigatesIff(doc: Document, lc: LineStarts, keySegments: seq<string>, lines: seq<string>,
                                cursor: Position, indentUnit: string)
    requires cursor.line < |lines|
    ensures var r := PlanKeyPath(doc, lc, keySegments, lines, cursor, indentUnit);
      var loc := KeyPathLocation(doc, lc, keySegments);
      && (r.Navigated? <==> loc.Some?)
      && (r.Navigated? ==> r.target == Position(loc.value.line, loc.value.column))
  {
  }

  /** The command navigates exactly when findKeyPath finds the whole path, and then to the key it found. */
  lemma PasteNavigatesIff(clipboardText: string, doc: Document, lc: LineStarts, lines: seq<string>, cursor: Position,
                          insertSpaces: bool, tabSize: nat)
    requires cursor.line < |lines|
    ensures var o := PlanPaste(clipboardText, doc, lc, lines, cursor, insertSpaces, tabSize);
      var t := NormalizeKeyPath(clipboardText);
      var loc := KeyPathLocation(doc, lc, SplitKeyPath(t));
      && (o.Navigated? <==> IsValidKeyPath(t) && loc.Some?)
      && (o.Navigated? ==> o.target == Position(loc.value.line, loc.value.column))
  {
    var t := NormalizeKeyPath(clipboardText);
    if IsValidKeyPath(t) {
      PlanKeyPathNavigatesIff(doc, lc, SplitKeyPath(t), lines, cursor, IndentUnit(insertSpaces, tabSize));
    }
  }

  /**
   * For a path not found as a whole: the partial insert happens exactly when
   * a proper non-empty prefix exists and has an insertion point, and the full
   * insert, at the cursor, otherwise.
   */
  lemma PlanInsertIff(doc: Document, lc: LineStarts, keySegments: seq<string>, lines: seq<string>, cursor: Position,
                      indentUnit: string)
    requires cursor.line < |lines|
    ensures var r := PlanInsert(doc, lc, keySegments, lines, cursor, indentUnit);
      var partial := PartialKeyPath(doc, lc, keySegments);
      && (r.InsertedRemaining? <==> 0 < partial.existingDepth < |keySegments| && partial.insertLocation.Some?)
      && (r.InsertedFull? ==> r.at == cursor)
  {
    PartialPrefixIsChain(doc, lc, keySegments);
  }

  /**
   * The partial insert happens exactly when the path is valid and not found
   * as a whole, a proper non-empty prefix of it exists, and that prefix has
   * an insertion point; otherwise a valid path that is not found is inserted
   * in full at the cursor.
   */
  lemma PasteRemainingIff(clipboardText: string, doc: Document, lc: LineStarts, lines: seq<string>, cursor: Position,
                          insertSpaces: bool, tabSize: nat)
    requires cursor.line < |lines|
    ensures var o := PlanPaste(clipboardText, doc, lc, lines, cursor, insertSpaces, tabSize);
      var t := NormalizeKeyPath(clipboardText);
      var segs := SplitKeyPath(t);
      var partial := PartialKeyPath(doc, lc, segs);
      var inserts := IsValidKeyPath(t) && KeyPathLocation(doc, lc, segs).None?;
      && (o.InsertedRemaining? <==>
            inserts && 0 < partial.existingDepth < |segs| && partial.insertLocation.Some?)
      && (o.InsertedFull? <==>
            inserts && !(0 < partial.existingDepth < |segs| && partial.insertLocation.Some?))
      && (o.InsertedFull? ==> o.at == cursor)
  {
    var t := NormalizeKeyPath(clipboardText);
    if IsValidKeyPath(t) {
      var segs := SplitKeyPath(t);
      if KeyPathLocation(doc, lc, segs).None? {
        PlanInsertIff(doc, lc, segs, lines, cursor, IndentUnit(insertSpaces, tabSize));
      }
    }
  }

  /** A valid path is planned from its segments and the indent unit of the settings. */
  lemma PlanPasteOfValid(clipboardText: string, doc: Document, lc: LineStarts, lines: seq<string>, cursor: Position,
                         insertSpaces: bool, tabSize: nat)
    requires cursor.line < |lines| && IsValidKeyPath(NormalizeKeyPath(clipboardText))
    ensures PlanPaste(clipboardText, doc, lc, lines, cursor, insertSpaces, tabSize) ==
      PlanKeyPath(doc, lc, SplitKeyPath(NormalizeKeyPath(clipboardText)), lines, cursor, IndentUnit(insertSpaces, tabSize))
  {
  }

  /** The segments of a valid path from position `d` on are segments too. */
  lemma TailSegments(t: string, d: nat)
    requires IsValidKeyPath(t) && d <= |SplitKeyPath(t)|
    ensures AllSegments(SplitKeyPath(t)[d..])
  {
    ValidSplitSegments(t);
    var segs := SplitKeyPath(t);
    assert forall k :: 0 <= k < |segs| - d ==> segs[d..][k] == segs[d + k];
  }

  /**
   * The partial-path branch inserts one line per missing segment, indented
   * like the sibling key and each one unit deeper, right after the safe
   * insertion line; nothing else in the document changes, and the cursor
   * ends at the end of the last inserted line.
   */
  lemma PasteRemainingEffect(clipboardText: string, doc: Document, lc: LineStarts, lines: seq<string>, cursor: Position,
                             insertSpaces: bool, tabSize: nat)
    requires IsLines(lines) && cursor.line < |lines|
    ensures var o := PlanPaste(clipboardText, doc, lc, lines, cursor, insertSpaces, tabSize);
      var segs := SplitKeyPath(NormalizeKeyPath(clipboardText));
      var partial := PartialKeyPath(doc, lc, segs);
      o.InsertedRemaining? ==>
        && partial.insertLocation.Some?
        && var s := SafeInsertLine(partial, lines);
        && var added := StructureLines(segs[partial.existingDepth..], RemainingBaseIndent(partial, lines),
                                       IndentUnit(insertSpaces, tabSize));
        && var after := LinesAfter(lines, o);
        && after == lines[..s + 1] + added + lines[s + 1..]
        && SelectionAfter(lines, cursor, o) == Position(s + |added|, |added[|added| - 1]|)
  {
    var o := PlanPaste(clipboardText, doc, lc, lines, cursor, insertSpaces, tabSize);
    if o.InsertedRemaining? {
      var t := NormalizeKeyPath(clipboardText);
      var segs := SplitKeyPath(t);
      var partial := PartialKeyPath(doc, lc, segs);
      PlanPasteRemaining(clipboardText, doc, lc, lines, cursor, insertSpaces, tabSize);
      TailSegments(t, partial.existingDepth);
      RemainingEffect(partial, lines, cursor, IndentUnit(insertSpaces, tabSize));
    }
  }

  /** The partial insert of the command is the partial-path branch on the remaining segments of the path. */
  lemma PlanPasteRemaining(clipboardText: string, doc: Document, lc: LineStarts, lines: seq<string>, cursor: Position,
                           insertSpaces: bool, tabSize: nat)
    requires cursor.line < |lines|
    ensures var o := PlanPaste(clipboardText, doc, lc, lines, cursor, insertSpaces, tabSize);
      var t := NormalizeKeyPath(clipboardText);
      var partial := PartialKeyPath(doc, lc, SplitKeyPath(t));
      o.InsertedRemaining? ==>
        && IsValidKeyPath(t)
        && partial.insertLocation.Some?
        && partial.existingDepth <= |SplitKeyPath(t)|
        && 0 < |partial.remainingSegments|
        && partial.remainingSegments == SplitKeyPath(t)[partial.existingDepth..]
        && o == PlanRemaining(partial, lines, IndentUnit(insertSpaces, tabSize))
  {
    var t := NormalizeKeyPath(clipboardText);
    if IsValidKeyPath(t) {
      var segs := SplitKeyPath(t);
      if KeyPathLocation(doc, lc, segs).None? {
        PartialPrefixIsChain(doc, lc, segs);
      }
    }
  }

  /** The document and the selection after the partial-path branch. */
  lemma RemainingEffect(partial: PartialKeyPathResult, lines: seq<string>, cursor: Position, indentUnit: string)
    requires IsLines(lines) && partial.insertLocation.Some?
    requires |partial.remainingSegments| > 0 && AllSegments(partial.remainingSegments) && NoSep(indentUnit, '\n')
    ensures var o := PlanRemaining(partial, lines, indentUnit);
      var s := SafeInsertLine(partial, lines);
      var added := StructureLines(partial.remainingSegments, RemainingBaseIndent(partial, lines), indentUnit);
      && LinesAfter(lines, o) == lines[..s + 1] + added + lines[s + 1..]
      && SelectionAfter(lines, cursor, o) == Position(s + |added|, |added[|added| - 1]|)
  {
    RemainingInsertShape(partial, lines, indentUnit);
    InsertCursorKept(lines, cursor, PlanRemaining(partial, lines, indentUnit));
  }

  /** An insert's cursor that lies inside the edited document is where the selection ends. */
  lemma InsertCursorKept(lines: seq<string>, selection: Position, o: PasteOutcome)
    requires |lines| > 0 && (o.InsertedRemaining? || o.InsertedFull?)
    requires var after := ApplyInsert(lines, o.at, o.text);
      o.cursor.line < |after| && o.cursor.character <= |after[o.cursor.line]|
    ensures LinesAfter(lines, o) == ApplyInsert(lines, o.at, o.text)
    ensures SelectionAfter(lines, selection, o) == o.cursor
  {
  }

  /**
   * The full-insert branch splices one line per segment into the cursor's
   * line. The cursor ends on the last inserted line at the column equal to the
   * last structure line's length: right after the last colon when the
   * structure has several lines or was inserted at column 0.
   */
  lemma PasteFullEffect(clipboardText: string, doc: Document, lc: LineStarts, lines: seq<string>, cursor: Position,
                        insertSpaces: bool, tabSize: nat)
    requires IsLines(lines) && cursor.line < |lines| && cursor.character <= |lines[cursor.line]|
    ensures var o := PlanPaste(clipboardText, doc, lc, lines, cursor, insertSpaces, tabSize);
      var segs := SplitKeyPath(NormalizeKeyPath(clipboardText));
      var line := lines[cursor.line];
      var added := StructureLines(segs, BaseIndent(line), IndentUnit(insertSpaces, tabSize));
      o.InsertedFull? ==>
        && |added| > 0
        && var after := LinesAfter(lines, o);
        && var c := SelectionAfter(lines, cursor, o);
        && after == lines[..cursor.line] + Splice(line[..cursor.character], added, line[cursor.character..])
                    + lines[cursor.line + 1..]
        && c == Position(cursor.line + |added| - 1, |added[|added| - 1]|)
        && after[c.line] ==
             (if |added| == 1 then line[..cursor.character] else []) + added[|added| - 1] + line[cursor.character..]
        && (|added| > 1 || cursor.character == 0 ==>
              after[c.line][..c.character] == added[|added| - 1] && after[c.line][c.character..] == line[cursor.character..])
  {
    var o := PlanPaste(clipboardText, doc, lc, lines, cursor, insertSpaces, tabSize);
    if o.InsertedFull? {
      var t := NormalizeKeyPath(clipboardText);
      PlanPasteFull(clipboardText, doc, lc, lines, cursor, insertSpaces, tabSize);
      ValidSplitSegments(t);
      FullEffect(SplitKeyPath(t), lines, cursor, IndentUnit(insertSpaces, tabSize));
    }
  }

  /**
   * With the corrected cursor, the full insert of the command leaves the same
   * document and the cursor right after the inserted text, that is after the
   * last colon, with the old text after the cursor following it.
   */
  lemma PasteIntendedFullEffect(clipboardText: string, doc: Document, lc: LineStarts, lines: seq<string>, cursor: Position,
                                insertSpaces: bool, tabSize: nat)
    requires IsLines(lines) && cursor.line < |lines| && cursor.character <= |lines[cursor.line]|
    ensures var o := PlanPasteIntended(clipboardText, doc, lc, lines, cursor, insertSpaces, tabSize);
      var segs := SplitKeyPath(NormalizeKeyPath(clipboardText));
      var line := lines[cursor.line];
      var added := StructureLines(segs, BaseIndent(line), IndentUnit(insertSpaces, tabSize));
      o.InsertedFull? ==>
        && |added| > 0
        && var after := LinesAfter(lines, o);
        && var c := SelectionAfter(lines, cursor, o);
        && after == lines[..cursor.line] + Splice(line[..cursor.character], added, line[cursor.character..])
                    + lines[cursor.line + 1..]
        && c.line == cursor.line + |added| - 1
        && c.character <= |after[c.line]|
        && after[c.line][..c.character] ==
             (if |added| == 1 then line[..cursor.character] else []) + added[|added| - 1]
        && after[c.line][c.character..] == line[cursor.character..]
  {
    var o := PlanPasteIntended(clipboardText, doc, lc, lines, cursor, insertSpaces, tabSize);
    if o.InsertedFull? {
      var t := NormalizeKeyPath(clipboardText);
      PlanPasteFull(clipboardText, doc, lc, lines, cursor, insertSpaces, tabSize);
      ValidSplitSegments(t);
      assert PlanPasteIntended(clipboardText, doc, lc, lines, cursor, insertSpaces, tabSize) ==
        PlanFullIntended(SplitKeyPath(t), lines, cursor, IndentUnit(insertSpaces, tabSize));
      IntendedFullEffect(SplitKeyPath(t), lines, cursor, IndentUnit(insertSpaces, tabSize));
    }
  }

  /** The full insert of the command is the full-insert branch on the segments of the path. */
  lemma PlanPasteFull(clipboardText: string, doc: Document, lc: LineStarts, lines: seq<string>, cursor: Position,
                      insertSpaces: bool, tabSize: nat)
    requires cursor.line < |lines|
    ensures var o := PlanPaste(clipboardText, doc, lc, lines, cursor, insertSpaces, tabSize);
      var t := NormalizeKeyPath(clipboardText);
      o.InsertedFull? ==>
        IsValidKeyPath(t) && o == PlanFull(SplitKeyPath(t), lines, cursor, IndentUnit(insertSpaces, tabSize))
  {
    var t := NormalizeKeyPath(clipboardText);
    if IsValidKeyPath(t) {
      var segs := SplitKeyPath(t);
      if KeyPathLocation(doc, lc, segs).None? {
        var partial := PartialKeyPath(doc, lc, segs);
        if partial.existingDepth > 0 && partial.insertLocation.Some? && |partial.remainingSegments| > 0 {
          assert PlanInsert(doc, lc, segs, lines, cursor, IndentUnit(insertSpaces, tabSize)).InsertedRemaining?;
        }
      }
    }
  }

  /**
   * The document and the selection after the full-insert branch: the selection
   * is the plan's cursor, and it has exactly the last structure line before it
   * when the structure has several lines or the cursor was at column 0.
   */
  lemma FullEffect(keySegments: seq<string>, lines: seq<string>, cursor: Position, indentUnit: string)
    requires IsLines(lines) && cursor.line < |lines| && cursor.character <= |lines[cursor.line]|
    requires |keySegments| > 0 && AllSegments(keySegments) && NoSep(indentUnit, '\n')
    ensures var o := PlanFull(keySegments, lines, cursor, indentUnit);
      var line := lines[cursor.line];
      var added := StructureLines(keySegments, BaseIndent(line), indentUnit);
      var after := LinesAfter(lines, o);
      var c := SelectionAfter(lines, cursor, o);
      && after == lines[..cursor.line] + Splice(line[..cursor.character], added, line[cursor.character..])
                  + lines[cursor.line + 1..]
      && c == o.cursor && c == Position(cursor.line + |added| - 1, |added[|added| - 1]|)
      && after[c.line] == (if |added| == 1 then line[..cursor.character] else []) + added[|added| - 1] + line[cursor.character..]
      && (|added| > 1 || cursor.character == 0 ==>
            after[c.line][..c.character] == added[|added| - 1] && after[c.line][c.character..] == line[cursor.character..])
  {
    var o := PlanFull(keySegments, lines, cursor, indentUnit);
    var line := lines[cursor.line];
    var added := StructureLines(keySegments, BaseIndent(line), indentUnit);
    FullInsertShape(keySegments, lines, cursor, indentUnit);
    InsertCursorKept(lines, cursor, o);
    if |added| > 1 || cursor.character == 0 {
      LastLineWhole(line[..cursor.character], added, line[cursor.character..]);
    }
  }

  /** With nothing before it on its line, the last structure line is exactly what precedes its own length. */
  lemma LastLineWhole(before: string, added: seq<string>, rest: string)
    requires |added| > 0 && (|added| > 1 || before == [])
    ensures var l := (if |added| == 1 then before else []) + added[|added| - 1] + rest;
      var k := |added[|added| - 1]|;
      k <= |l| && l[..k] == added[|added| - 1] && l[k..] == rest
  {
  }

  /**
   * The document and the selection after the full-insert branch with the
   * corrected cursor: the same document, and the cursor right after the
   * inserted text, with the old text after the cursor following it.
   */
  lemma IntendedFullEffect(keySegments: seq<string>, lines: seq<string>, cursor: Position, indentUnit: string)
    requires IsLines(lines) && cursor.line < |lines| && cursor.character <= |lines[cursor.line]|
    requires |keySegments| > 0 && AllSegments(keySegments) && NoSep(indentUnit, '\n')
    ensures var o := PlanFullIntended(keySegments, lines, cursor, indentUnit);
      var line := lines[cursor.line];
      var added := StructureLines(keySegments, BaseIndent(line), indentUnit);
      var after := LinesAfter(lines, o);
      var c := SelectionAfter(lines, cursor, o);
      && after == lines[..cursor.line] + Splice(line[..cursor.character], added, line[cursor.character..])
                  + lines[cursor.line + 1..]
      && c == o.cursor && c.line == cursor.line + |added| - 1
      && c.character <= |after[c.line]|
      && after[c.line][..c.character] == (if |added| == 1 then line[..cursor.character] else []) + added[|added| - 1]
      && after[c.line][c.character..] == line[cursor.character..]
  {
    var p := PlanFull(keySegments, lines, cursor, indentUnit);
    var o := PlanFullIntended(keySegments, lines, cursor, indentUnit);
    var line := lines[cursor.line];
    var added := StructureLines(keySegments, BaseIndent(line), indentUnit);
    var head := (if |added| == 1 then line[..cursor.character] else []) + added[|added| - 1];
    FullInsertShape(keySegments, lines, cursor, indentUnit);
    FullInsertLines(keySegments, lines, cursor, indentUnit);
    assert o.cursor == Position(cursor.line + |added| - 1, |head|);
    var l := ApplyInsert(lines, p.at, p.text)[p.cursor.line];
    assert l == head + line[cursor.character..];
    InsertCursorKept(lines, cursor, o);
  }

  // ---------------------------------------------------------------------------
  // The cursor after a one-line full insert
  // ---------------------------------------------------------------------------

  /** The two cursor formulas agree on a structure of several lines and differ by the old column on a one-line structure. */
  lemma FullInsertCursorFormulas(position: Position, yamlStructure: string)
    ensures LineCount(yamlStructure) > 1 ==>
      FullInsertCursorAsWritten(position, yamlStructure) == FullInsertCursor(position, yamlStructure)
    ensures LineCount(yamlStructure) == 1 ==>
      FullInsertCursor(position, yamlStructure).character ==
        position.character + FullInsertCursorAsWritten(position, yamlStructure).character
  {
  }

  /** A document with no contents has no key of any path: a valid path is inserted in full at the cursor. */
  lemma EmptyDocumentInsertsFull(clipboardText: string, lc: LineStarts, lines: seq<string>, cursor: Position,
                                 insertSpaces: bool, tabSize: nat)
    requires cursor.line < |lines| && IsValidKeyPath(NormalizeKeyPath(clipboardText))
    ensures PlanPaste(clipboardText, Document(None), lc, lines, cursor, insertSpaces, tabSize) ==
      PlanFull(SplitKeyPath(NormalizeKeyPath(clipboardText)), lines, cursor, IndentUnit(insertSpaces, tabSize))
  {
  }

  lemma ClipboardX(t: string)
    requires t == "x"
    ensures NormalizeKeyPath(t) == t && IsValidKeyPath(t) && SplitKeyPath(t) == ["x"]
  {
    SegmentX(t);
    SegmentValid(t);
    SplitNoSep(t, '.');
  }

  lemma SegmentX(t: string)
    requires t == "x"
    ensures IsSegment(t) && NoSep(t, '.')
  {
  }

  lemma ClipboardXY(t: string)
    requires t == "x.y"
    ensures NormalizeKeyPath(t) == t && IsValidKeyPath(t) && SplitKeyPath(t) == ["x", "y"]
  {
    var segs := ["x", "y"];
    SegmentsXY(segs);
    JoinXY(segs, t);
    JoinOfSegmentsValid(segs);
    SplitJoinKeyPath(segs);
  }

  lemma SegmentsXY(segs: seq<string>)
    requires segs == ["x", "y"]
    ensures |segs| > 0 && AllSegments(segs) && AllNoSep(segs, '.')
  {
    SegmentX(segs[0]);
    assert IsSegment(segs[1]) && NoSep(segs[1], '.');
  }

  lemma JoinXY(segs: seq<string>, t: string)
    requires segs == ["x", "y"] && t == "x.y"
    ensures JoinKeyPath(segs) == t
  {
    assert segs[0] == "x" && segs[1..] == ["y"] && Join(segs[1..], '.') == "y";
    assert Join(segs, '.') == segs[0] + ['.'] + Join(segs[1..], '.');
    assert "x" + ['.'] + "y" == t;
  }

  lemma TwoSpaceUnit()
    ensures IndentUnit(true, 2) == "  "
  {
    RepeatSpaces(2);
  }

  lemma StructureOfX()
    ensures Structure(["x"], "  ", "  ") == "  x:"
    ensures Split("  x:", '\n') == ["  x:"]
  {
    assert Repeat("  ", 0) == "";
    assert StructureLine(["x"], "  ", "  ", 0) == "  x:";
    assert StructureLines(["x"], "  ", "  ") == ["  x:"];
    SplitNoSep("  x:", '\n');
  }

  lemma StructureOfXY()
    ensures StructureLines(["x", "y"], "", "  ") == ["x:", "  y:"]
    ensures Structure(["x", "y"], "", "  ") == "x:\n  y:"
    ensures Split("x:\n  y:", '\n') == ["x:", "  y:"]
  {
    StructureLinesOfXY();
    JoinLinesOfXY(["x:", "  y:"]);
    SplitJoin(["x:", "  y:"], '\n');
  }

  lemma StructureLinesOfXY()
    ensures StructureLines(["x", "y"], "", "  ") == ["x:", "  y:"]
  {
    assert Repeat("  ", 0) == "" && Repeat("  ", 1) == "  ";
    assert StructureLine(["x", "y"], "", "  ", 0) == "x:";
    assert StructureLine(["x", "y"], "", "  ", 1) == "  y:";
  }

  lemma JoinLinesOfXY(ls: seq<string>)
    requires ls == ["x:", "  y:"]
    ensures Join(ls, '\n') == "x:\n  y:" && AllNoSep(ls, '\n')
  {
    assert ls[1..] == ["  y:"] && Join(ls[1..], '\n') == "  y:";
    assert Join(ls, '\n') == ls[0] + ['\n'] + Join(ls[1..], '\n');
  }

  lemma PlanFullX()
    ensures PlanFull(["x"], ["  "], Position(0, 2), "  ") == InsertedFull(Position(0, 2), "  x:", Position(0, 4))
    ensures FullInsertCursor(Position(0, 2), "  x:") == Position(0, 6)
  {
    assert BaseIndent("  ") == "  ";
    StructureOfX();
  }

  lemma InsertX()
    ensures ApplyInsert(["  "], Position(0, 2), "  x:") == ["    x:"] && "    x:"[4..] == "x:"
  {
    assert "  "[..2] + "  x:" + "  "[2..] == "    x:";
    SplitNoSep("    x:", '\n');
  }

  lemma PlanFullXY()
    ensures PlanFull(["x", "y"], [""], Position(0, 0), "  ") == InsertedFull(Position(0, 0), "x:\n  y:", Position(1, 4))
  {
    assert BaseIndent("") == "";
    StructureOfXY();
  }

  lemma InsertXY()
    ensures ApplyInsert([""], Position(0, 0), "x:\n  y:") == ["x:", "  y:"]
  {
    assert ""[..0] + "x:\n  y:" + ""[0..] == "x:\n  y:";
    StructureOfXY();
  }

  /**
   * As written, the cursor after a one-line full insert stops short of the
   * end of the inserted key by the old column: the source's column is the
   * length of the inserted text, while the text before the cursor and the
   * inserted text together end at the old column plus that length.
   */
  lemma AsWrittenCursorShort(clipboardText: string, doc: Document, lc: LineStarts, lines: seq<string>, cursor: Position,
                             insertSpaces: bool, tabSize: nat)
    requires IsLines(lines) && cursor.line < |lines| && cursor.character <= |lines[cursor.line]|
    requires |SplitKeyPath(NormalizeKeyPath(clipboardText))| == 1
    ensures var o := PlanPaste(clipboardText, doc, lc, lines, cursor, insertSpaces, tabSize);
      o.InsertedFull? ==>
        var c := SelectionAfter(lines, cursor, o);
        var e := Position(cursor.line, cursor.character + |o.text|);
        && c == Position(cursor.line, |o.text|)
        && e.character <= |LinesAfter(lines, o)[e.line]|
        && LinesAfter(lines, o)[e.line][..e.character] == lines[cursor.line][..cursor.character] + o.text
        && (cursor.character > 0 ==> c.character < e.character)
  {
    var o := PlanPaste(clipboardText, doc, lc, lines, cursor, insertSpaces, tabSize);
    if o.InsertedFull? {
      var segs := SplitKeyPath(NormalizeKeyPath(clipboardText));
      var unit := IndentUnit(insertSpaces, tabSize);
      PlanPasteFull(clipboardText, doc, lc, lines, cursor, insertSpaces, tabSize);
      ValidSplitSegments(NormalizeKeyPath(clipboardText));
      OneLineFull(segs, lines, cursor, unit);
    }
  }

  lemma OneLineFull(keySegments: seq<string>, lines: seq<string>, cursor: Position, indentUnit: string)
    requires IsLines(lines) && cursor.line < |lines| && cursor.character <= |lines[cursor.line]|
    requires |keySegments| == 1 && AllSegments(keySegments) && NoSep(indentUnit, '\n')
    ensures var o := PlanFull(keySegments, lines, cursor, indentUnit);
      var c := SelectionAfter(lines, cursor, o);
      var e := Position(cursor.line, cursor.character + |o.text|);
      && c == Position(cursor.line, |o.text|)
      && e.line < |LinesAfter(lines, o)| && e.character <= |LinesAfter(lines, o)[e.line]|
      && LinesAfter(lines, o)[e.line][..e.character] == lines[cursor.line][..cursor.character] + o.text
  {
    var o := PlanFull(keySegments, lines, cursor, indentUnit);
    var line := lines[cursor.line];
    var added := StructureLines(keySegments, BaseIndent(line), indentUnit);
    FullInsertLines(keySegments, lines, cursor, indentUnit);
    FullEffect(keySegments, lines, cursor, indentUnit);
    assert |added| == 1;
    JoinSplit(o.text, '\n');
    assert o.text == added[0];
    var l := LinesAfter(lines, o)[cursor.line];
    assert l == line[..cursor.character] + o.text + line[cursor.character..];
  }

  /**
   * Pasting `x` on the line `"  "` with the cursor at its end inserts `"  x:"`
   * there, giving the line `"    x:"` (see InsertX); the source's cursor
   * column 4 lands before `x:` instead of after the colon, where the column 6
   * of the corrected formula puts it.
   */
  lemma AsWrittenCursorMisplaced(clipboardText: string, lines: seq<string>, cursor: Position)
    requires clipboardText == "x" && lines == ["  "] && cursor == Position(0, 2)
    ensures var o := PlanPaste(clipboardText, Document(None), [0], lines, cursor, true, 2);
      && o == InsertedFull(cursor, "  x:", Position(0, 4))
      && FullInsertCursor(o.at, o.text) == Position(0, 6)
  {
    PasteX(clipboardText, lines, cursor);
    PlanFullX();
  }

  lemma PasteX(clipboardText: string, lines: seq<string>, cursor: Position)
    requires clipboardText == "x" && lines == ["  "] && cursor == Position(0, 2)
    ensures PlanPaste(clipboardText, Document(None), [0], lines, cursor, true, 2) == InsertedFull(cursor, "  x:", Position(0, 4))
  {
    ClipboardX(clipboardText);
    var lc: LineStarts := [0];
    EmptyDocumentInsertsFull(clipboardText, lc, lines, cursor, true, 2);
    TwoSpaceUnit();
    PlanFullX();
  }

  /** Pasting `x.y` into an empty document writes two nested keys and leaves the cursor after the last colon. */
  lemma EmptyDocumentPaste(clipboardText: string, lines: seq<string>, cursor: Position)
    requires clipboardText == "x.y" && lines == [""] && cursor == Position(0, 0)
    ensures var o := PlanPaste(clipboardText, Document(None), [0], lines, cursor, true, 2);
      && o == InsertedFull(cursor, "x:\n  y:", Position(1, 4))
      && LinesAfter(lines, o) == ["x:", "  y:"]
  {
    PasteXY(clipboardText, lines, cursor);
    InsertXY();
  }

  lemma PasteXY(clipboardText: string, lines: seq<string>, cursor: Position)
    requires clipboardText == "x.y" && lines == [""] && cursor == Position(0, 0)
    ensures PlanPaste(clipboardText, Document(None), [0], lines, cursor, true, 2) == InsertedFull(cursor, "x:\n  y:", Position(1, 4))
  {
    ClipboardXY(clipboardText);
    var lc: LineStarts := [0];
    EmptyDocumentInsertsFull(clipboardText, lc, lines, cursor, true, 2);
    TwoSpaceUnit();
    PlanFullXY();
  }

  /**
   * The indentation of the sibling key's line, clamped into the document, or
   * else that of the insertion line; the line is chosen first and read once.
   */
  method SiblingIndent(partialResult: PartialKeyPathResult, lines: seq<string>, safeInsertLine: nat) returns (baseIndent: string)
    requires |lines| > 0 && partialResult.insertLocation.Some?
    requires safeInsertLine == SafeInsertLine(partialResult, lines)
    ensures baseIndent == RemainingBaseIndent(partialResult, lines)
  {
    var indentLine := safeInsertLine;
    if partialResult.siblingKeyLocation.Some? {
      indentLine := Min(partialResult.siblingKeyLocation.value.line, |lines| - 1);
    }
    baseIndent := BaseIndent(lines[indentLine]);
  }

  /** The steps of the partial-path branch up to the edit: where it goes, what it inserts, and the new cursor. */
  method RemainingEdit(partialResult: PartialKeyPathResult, lines: seq<string>, indentUnit: string)
    returns (insertPosition: Position, textToInsert: string, newPosition: Position)
    requires |lines| > 0 && partialResult.insertLocation.Some?
    ensures var plan := PlanRemaining(partialResult, lines, indentUnit);
      insertPosition == plan.at && textToInsert == plan.text && newPosition == plan.cursor
  {
    var insertLine := partialResult.insertLocation.value.line;
    var lastLineNumber: nat := |lines| - 1;
    var safeInsertLine := Min(insertLine, lastLineNumber);
    var baseIndent := SiblingIndent(partialResult, lines, safeInsertLine);
    var yamlStructure := GenerateYamlStructure(partialResult.remainingSegments, baseIndent, indentUnit);
    insertPosition := Position(safeInsertLine + 1, 0);
    var isLastLine := safeInsertLine == lastLineNumber;
    textToInsert := if isLastLine then "\n" + yamlStructure else yamlStructure + "\n";
    var structureLines := Split(yamlStructure, '\n');
    newPosition := Position(insertPosition.line + |structureLines| - 1, |structureLines[|structureLines| - 1]|);
  }

  // ---------------------------------------------------------------------------
  // The command over an editor
  // ---------------------------------------------------------------------------

  /** A well-formed document with the cursor inside it. */
  predicate IsEditorState(lines: seq<string>, selection: Position) {
    IsLines(lines) && selection.line < |lines| && selection.character <= |lines[selection.line]|
  }

  /** The editor the command runs in: the document's lines, the cursor, and the indentation settings. */
  class Editor {
    var lines: seq<string>
    var selection: Position
    const insertSpaces: bool
    const tabSize: nat

    ghost predicate Valid()
      reads this
    {
      IsEditorState(lines, selection)
    }

    constructor(lines: seq<string>, selection: Position, insertSpaces: bool, tabSize: nat)
      requires IsEditorState(lines, selection)
      ensures Valid()
      ensures this.lines == lines && this.selection == selection
      ensures this.insertSpaces == insertSpaces && this.tabSize == tabSize
    {
      this.lines := lines;
      this.selection := selection;
      this.insertSpaces := insertSpaces;
      this.tabSize := tabSize;
    }

    /** `editBuilder.insert` followed by the selection update. */
    method Insert(at: Position, text: string, cursor: Position)
      requires Valid()
      modifies this
      ensures Valid()
      ensures lines == ApplyInsert(old(lines), at, text)
      ensures selection == ValidatePosition(lines, cursor)
    {
      ApplyInsertKeepsLines(lines, at, text);
      lines := ApplyInsert(lines, at, text);
      selection := ValidatePosition(lines, cursor);
    }

    /** The partial-path branch of `pasteKeyPath`: the remaining segments go below the existing subtree. */
    method InsertRemaining(partialResult: PartialKeyPathResult) returns (outcome: PasteOutcome)
      requires Valid() && partialResult.insertLocation.Some?
      modifies this
      ensures Valid()
      ensures outcome == PlanRemaining(partialResult, old(lines), IndentUnit(insertSpaces, tabSize))
      ensures lines == LinesAfter(old(lines), outcome)
      ensures selection == SelectionAfter(old(lines), old(selection), outcome)
    {
      var insertPosition, textToInsert, newPosition := RemainingEdit(partialResult, lines, IndentUnit(insertSpaces, tabSize));
      outcome := InsertedRemaining(insertPosition, textToInsert, newPosition);
      Insert(insertPosition, textToInsert, newPosition);
    }

    /** The full-insert branch of `pasteKeyPath`: the whole structure goes in at the cursor. */
    method InsertFull(keySegments: seq<string>) returns (outcome: PasteOutcome)
      requires Valid()
      modifies this
      ensures Valid()
      ensures outcome == PlanFull(keySegments, old(lines), old(selection), IndentUnit(insertSpaces, tabSize))
      ensures lines == LinesAfter(old(lines), outcome)
      ensures selection == SelectionAfter(old(lines), old(selection), outcome)
    {
      var baseIndent := BaseIndent(lines[selection.line]);
      var indentUnit := IndentUnit(insertSpaces, tabSize);
      var yamlStructure := GenerateYamlStructure(keySegments, baseIndent, indentUnit);
      var position := selection;
      var structureLines := Split(yamlStructure, '\n');
      var newPosition := Position(position.line + |structureLines| - 1, |structureLines[|structureLines| - 1]|);
      outcome := InsertedFull(position, yamlStructure, newPosition);
      Insert(position, yamlStructure, newPosition);
    }

    /** `pasteKeyPath`, with the clipboard text and the parsed document passed in. */
    method PasteKeyPath(clipboardText: string, doc: Document, lc: LineStarts) returns (outcome: PasteOutcome)
      requires Valid()
      modifies this
      ensures Valid()
      ensures outcome == PlanPaste(clipboardText, doc, lc, old(lines), old(selection), insertSpaces, tabSize)
      ensures lines == LinesAfter(old(lines), outcome)
      ensures selection == SelectionAfter(old(lines), old(selection), outcome)
    {
      var normalizedText := NormalizeKeyPath(clipboardText);
      if !IsValidKeyPath(normalizedText) {
        outcome := DefaultPaste;
        PasteDefaultIff(clipboardText, doc, lc, lines, selection, insertSpaces, tabSize);
      } else {
        outcome := PasteValidPath(clipboardText, doc, lc);
      }
    }

    /** `pasteKeyPath` once the clipboard text is known to be a key path. */
    method PasteValidPath(clipboardText: string, doc: Document, lc: LineStarts) returns (outcome: PasteOutcome)
      requires Valid() && IsValidKeyPath(NormalizeKeyPath(clipboardText))
      modifies this
      ensures Valid()
      ensures outcome == PlanPaste(clipboardText, doc, lc, old(lines), old(selection), insertSpaces, tabSize)
      ensures lines == LinesAfter(old(lines), outcome)
      ensures selection == SelectionAfter(old(lines), old(selection), outcome)
    {
      var keySegments := SplitKeyPath(NormalizeKeyPath(clipboardText));
      PlanPasteOfValid(clipboardText, doc, lc, lines, selection, insertSpaces, tabSize);
      outcome := NavigateOrInsert(doc, lc, keySegments);
    }

    /** `pasteKeyPath` from the split path on: move to the path if it exists, insert what is missing otherwise. */
    method NavigateOrInsert(doc: Document, lc: LineStarts, keySegments: seq<string>) returns (outcome: PasteOutcome)
      requires Valid()
      modifies this
      ensures Valid()
      ensures outcome == PlanKeyPath(doc, lc, keySegments, old(lines), old(selection), IndentUnit(insertSpaces, tabSize))
      ensures lines == LinesAfter(old(lines), outcome)
      ensures selection == SelectionAfter(old(lines), old(selection), outcome)
    {
      var existingLocation := FindKeyPath(doc, lc, keySegments);
      if existingLocation.Some? {
        var position := Position(existingLocation.value.line, existingLocation.value.column);
        selection := ValidatePosition(lines, position);
        return Navigated(position);
      }
      outcome := InsertMissing(doc, lc, keySegments);
    }

    /** The rest of `pasteKeyPath` once the path is known not to exist as a whole. */
    method InsertMissing(doc: Document, lc: LineStarts, keySegments: seq<string>) returns (outcome: PasteOutcome)
      requires Valid()
      modifies this
      ensures Valid()
      ensures outcome == PlanInsert(doc, lc, keySegments, old(lines), old(selection), IndentUnit(insertSpaces, tabSize))
      ensures lines == LinesAfter(old(lines), outcome)
      ensures selection == SelectionAfter(old(lines), old(selection), outcome)
    {
      var partialResult := FindPartialKeyPath(doc, lc, keySegments);
      if partialResult.existingDepth > 0 && partialResult.insertLocation.Some? && |partialResult.remainingSegments| > 0 {
        outcome := InsertRemaining(partialResult);
      } else {
        outcome := InsertFull(keySegments);
      }
    }
  }
}
