/**
 Byte offsets and (row, column) positions of plugin matches
 (crates/app/cce-plugin-runtime/src/pattern.rs, crates/core/cce-utils/src/text.rs).
 */
module Position {

  type Byte = n: nat | n < 256

  /** The UTF-8 bytes of a text. */
  type Content = seq<Byte>

  const NEWLINE: Byte := 10

  /** `str::is_char_boundary` for an offset within the text. */
  predicate IsBoundary(content: Content, at: nat)
    requires at <= |content|
  {
    at == 0 || at == |content| || !(128 <= content[at] < 192)
  }

  /** The last character boundary up to an offset; offsets past the end count as the end. */
  function Floor(content: Content, position: nat): (r: nat)
    ensures r <= |content| && r <= position && IsBoundary(content, r)
    ensures forall b: nat :: r < b <= |content| && b <= position ==> !IsBoundary(content, b)
    decreases position
  {
    if position > |content| then Floor(content, |content|)
    else if IsBoundary(content, position) then position
    else Floor(content, position - 1)
  }

  /** `floor_char_boundary`. */
  method FloorCharBoundary(content: Content, position: nat) returns (r: nat)
    ensures r == Floor(content, position)
  {
    r := if position < |content| then position else |content|;
    while r > 0 && !IsBoundary(content, r)
      invariant r <= |content| && Floor(content, r) == Floor(content, position)
    {
      r := r - 1;
    }
  }

  datatype Pos = Pos(row: nat, column: nat)

  /** Newlines before an offset. */
  function Row(content: Content, at: nat): nat
    requires at <= |content|
  {
    if at == 0 then 0 else Row(content, at - 1) + if content[at - 1] == NEWLINE then 1 else 0
  }

  /** The offset after the last newline before `at`. */
  function StartOf(content: Content, at: nat): (s: nat)
    requires at <= |content|
    ensures s <= at
  {
    if at == 0 || content[at - 1] == NEWLINE then at else StartOf(content, at - 1)
  }

  /** The position of a byte. */
  function PosAt(content: Content, byte: nat): Pos
  {
    var at := Floor(content, byte);
    Pos(Row(content, at), at - StartOf(content, at))
  }

  /** `position_at`, counting and searching the prefix. */
  method PositionAt(content: Content, byte: nat) returns (p: Pos)
    ensures p == PosAt(content, byte)
  {
    var at := FloorCharBoundary(content, byte);
    var row := 0;
    for i := 0 to at
      invariant row == Row(content, i)
    {
      if content[i] == NEWLINE { row := row + 1; }
    }
    var lineStart := at;
    while lineStart > 0 && content[lineStart - 1] != NEWLINE
      invariant lineStart <= at && StartOf(content, lineStart) == StartOf(content, at)
    {
      lineStart := lineStart - 1;
    }
    return Pos(row, at - lineStart);
  }

  // ---------------------------------------------------------------- inverse

  /** The offset after the first newline from `from` on, or the end. */
  function AfterNewline(content: Content, from: nat): (r: nat)
    requires from <= |content|
    ensures r <= |content|
    decreases |content| - from
  {
    if from == |content| then from
    else if content[from] == NEWLINE then from + 1
    else AfterNewline(content, from + 1)
  }

  /** Where line `row` starts. */
  function LineStart(content: Content, row: nat): (r: nat)
    ensures r <= |content|
  {
    if row == 0 then 0 else AfterNewline(content, LineStart(content, row - 1))
  }

  lemma {:induction false} NextLine(content: Content, from: nat, at: nat)
    requires from <= at < |content| && content[at] == NEWLINE && forall i :: from <= i < at ==> content[i] != NEWLINE
    ensures AfterNewline(content, from) == at + 1
    decreases at - from
  {
    if from < at { NextLine(content, from + 1, at); }
  }

  lemma {:induction false} NoNewlineSince(content: Content, at: nat)
    requires at <= |content|
    ensures forall i :: StartOf(content, at) <= i < at ==> content[i] != NEWLINE
  {
    if at > 0 && content[at - 1] != NEWLINE { NoNewlineSince(content, at - 1); }
  }

  lemma {:induction false} StartIsLineStart(content: Content, at: nat)
    requires at <= |content|
    ensures LineStart(content, Row(content, at)) == StartOf(content, at)
  {
    if at > 0 {
      StartIsLineStart(content, at - 1);
      if content[at - 1] == NEWLINE {
        NoNewlineSince(content, at - 1);
        NextLine(content, StartOf(content, at - 1), at - 1);
      }
    }
  }

  /** The start of its line plus its column give a boundary back. */
  lemma PositionInverse(content: Content, byte: nat)
    ensures var p := PosAt(content, byte); LineStart(content, p.row) + p.column == Floor(content, byte)
    ensures byte <= |content| && IsBoundary(content, byte) ==> Floor(content, byte) == byte
  {
    StartIsLineStart(content, Floor(content, byte));
  }

  // ---------------------------------------------------------------- order

  predicate Less(p: Pos, q: Pos) { p.row < q.row || (p.row == q.row && p.column < q.column) }

  lemma {:induction false} RowMonotone(content: Content, a: nat, b: nat)
    requires a <= b <= |content|
    ensures Row(content, a) <= Row(content, b)
  {
    if a < b { RowMonotone(content, a, b - 1); }
  }

  lemma FloorMonotone(content: Content, a: nat, b: nat)
    requires a <= b
    ensures Floor(content, a) <= Floor(content, b)
  {
    assert IsBoundary(content, Floor(content, a));
  }

  /** Positions are ordered as the boundaries below their offsets are, in both directions. */
  lemma LessIff(content: Content, a: nat, b: nat)
    ensures Less(PosAt(content, a), PosAt(content, b)) <==> Floor(content, a) < Floor(content, b)
    ensures PosAt(content, a) == PosAt(content, b) <==> Floor(content, a) == Floor(content, b)
  {
    var x, y := Floor(content, a), Floor(content, b);
    StartIsLineStart(content, x);
    StartIsLineStart(content, y);
    if x <= y { RowMonotone(content, x, y); } else { RowMonotone(content, y, x); }
  }

  datatype Span = Span(startByte: nat, endByte: nat, startPosition: Pos, endPosition: Pos)

  /** `compute_span`. */
  function ComputeSpan(content: Content, startByte: nat, endByte: nat): Span
  {
    Span(startByte, endByte, PosAt(content, startByte), PosAt(content, endByte))
  }

  /** A span keeps its bytes, and each of its positions leads back to the boundary below its own byte. */
  lemma SpanReadsBack(content: Content, startByte: nat, endByte: nat)
    ensures var s := ComputeSpan(content, startByte, endByte);
            && s.startByte == startByte && s.endByte == endByte
            && LineStart(content, s.startPosition.row) + s.startPosition.column == Floor(content, startByte)
            && LineStart(content, s.endPosition.row) + s.endPosition.column == Floor(content, endByte)
  {
    PositionInverse(content, startByte);
    PositionInverse(content, endByte);
  }

  /** Spans of ordered byte ranges are ordered: matches that follow each other never cross. */
  lemma SpansKeepOrder(content: Content, a: nat, b: nat, c: nat, d: nat)
    requires a <= b <= c <= d
    ensures var s, t := ComputeSpan(content, a, b), ComputeSpan(content, c, d);
            !Less(s.endPosition, s.startPosition) && !Less(t.startPosition, s.endPosition) && !Less(t.endPosition, t.startPosition)
  {
    FloorMonotone(content, a, b);
    FloorMonotone(content, b, c);
    FloorMonotone(content, c, d);
    LessIff(content, b, a);
    LessIff(content, c, b);
    LessIff(content, d, c);
  }
}
