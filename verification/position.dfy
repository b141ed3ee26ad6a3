/**
 * Source positions of the template compiler (`compiler-core/src/utils.ts`):
 * a line, a column and an offset, advanced over the characters the parser
 * consumes.
 */
module Position {

  datatype Position = Position(line: int, column: int, offset: int)

  /** `source.charCodeAt(i) === 10`: reading past the end gives `NaN`, which
      is no newline. */
  predicate NewlineAt(source: string, i: nat) {
    i < |source| && source[i] == '\n'
  }

  /** How many of the first `n` characters are newlines. */
  function NewlineCount(source: string, n: nat): (c: nat)
    ensures c <= n
  {
    if n == 0 then 0
    else NewlineCount(source, n - 1) + (if NewlineAt(source, n - 1) then 1 else 0)
  }

  /** The index of the last newline among the first `n` characters, `-1`
      when there is none. */
  function LastNewline(source: string, n: nat): (p: int)
    ensures -1 <= p < n
    ensures p >= 0 ==> NewlineAt(source, p)
    ensures forall i: nat | p < i < n :: !NewlineAt(source, i)
  {
    if n == 0 then -1
    else if NewlineAt(source, n - 1) then n - 1
    else LastNewline(source, n - 1)
  }

  /** The position after `n` more characters of `source`. A negative count
      moves the offset and column back and crosses no newline. */
  function Advance(pos: Position, source: string, n: int): (r: Position)
    ensures r.offset == pos.offset + n
  {
    var k := if n < 0 then 0 else n;
    var last := LastNewline(source, k);
    Position(
      pos.line + NewlineCount(source, k),
      if last == -1 then pos.column + n else n - last,
      pos.offset + n)
  }

  /** `advancePositionWithMutation(pos, source, numberOfCharacters)`: count
      the newlines and remember the last one, then move the position. */
  method AdvancePositionWithMutation(pos: Position, source: string, n: int) returns (r: Position)
    ensures r == Advance(pos, source, n)
    ensures r.offset == pos.offset + n
    ensures r.line - pos.line == NewlineCount(source, if n < 0 then 0 else n)
    // no newline crossed: the column moves with the offset
    ensures (forall i: nat | i < n :: !NewlineAt(source, i)) ==> r.column == pos.column + n
    // a newline crossed: the column counts from it, and is at least 1
    ensures (exists i: nat | i < n :: NewlineAt(source, i)) ==> 1 <= r.column <= n
  {
    var linesCount := 0;
    var lastNewLinePos := -1;
    var i := 0;
    while i < n
      invariant 0 <= i <= (if n < 0 then 0 else n)
      invariant linesCount == NewlineCount(source, i)
      invariant lastNewLinePos == LastNewline(source, i)
    {
      if i < |source| && source[i] == '\n' {
        linesCount := linesCount + 1;
        lastNewLinePos := i;
      }
      i := i + 1;
    }
    r := Position(
      pos.line + linesCount,
      if lastNewLinePos == -1 then pos.column + n else n - lastNewLinePos,
      pos.offset + n);
  }

  /** `advancePositionWithClone`: the same move on a copy. Positions are
      values here, so the caller's position cannot change; the result is the
      one the mutating version produces. */
  method AdvancePositionWithClone(pos: Position, source: string, n: int) returns (r: Position)
    ensures r == Advance(pos, source, n)
    ensures r.offset == pos.offset + n && r.line >= pos.line
  {
    var copy := Position(pos.line, pos.column, pos.offset);
    r := AdvancePositionWithMutation(copy, source, n);
  }

  lemma {:induction false} NewlineCountSplit(source: string, a: nat, b: nat)
    requires a <= |source|
    ensures NewlineCount(source, a + b) == NewlineCount(source, a) + NewlineCount(source[a..], b)
  {
    if b > 0 {
      NewlineCountSplit(source, a, b - 1);
      assert NewlineAt(source, a + b - 1) == NewlineAt(source[a..], b - 1);
    }
  }

  lemma {:induction false} LastNewlineSplit(source: string, a: nat, b: nat)
    requires a <= |source|
    ensures LastNewline(source, a + b) ==
      if LastNewline(source[a..], b) == -1 then LastNewline(source, a) else a + LastNewline(source[a..], b)
  {
    if b > 0 {
      LastNewlineSplit(source, a, b - 1);
      assert NewlineAt(source, a + b - 1) == NewlineAt(source[a..], b - 1);
    }
  }

  /** Advancing over `a` characters and then over the next `b` lands where
      advancing over all `a + b` at once does. */
  lemma AdvanceCompose(pos: Position, source: string, a: nat, b: nat)
    requires a <= |source|
    ensures Advance(Advance(pos, source, a), source[a..], b) == Advance(pos, source, a + b)
  {
    NewlineCountSplit(source, a, b);
    LastNewlineSplit(source, a, b);
  }
}
