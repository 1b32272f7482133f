/**
 * The LSIF emitter of the syntax highlighter: byte offsets become
 * (line, column) pairs through a table of line starts, ranges are packed
 * into three or four 32-bit integers and unpacked again, and the stream of
 * highlight events is turned into occurrences by a stack of open
 * highlights. The source text is a `string` in which one character stands
 * for one UTF-8 byte; multi-byte characters are not modelled as such.
 */
module SgTreesitter {
  import opened Wrappers
  import opened Lsif

  // ---------------------------------------------------------------------
  // Capture names and the kinds they map to
  // ---------------------------------------------------------------------

  /**
   * The capture groups the highlighter is configured with, in order, and
   * the kind each maps to; highlight `i` of an event is entry `i`.
   */
  const CaptureTable: seq<(string, SyntaxKind)> := [
    ("attribute", UnspecifiedSyntaxKind),
    ("constant", Identifier),
    ("constant.builtin", BuiltinIdentifier),
    ("comment", Comment),
    ("function.builtin", FunctionDefinition),
    ("function", FunctionDefinition),
    ("method", Identifier),
    ("include", Keyword),
    ("keyword", Keyword),
    ("keyword.function", Keyword),
    ("keyword.return", Keyword),
    ("operator", Operator),
    ("property", UnspecifiedSyntaxKind),
    ("punctuation", UnspecifiedSyntaxKind),
    ("punctuation.bracket", UnspecifiedSyntaxKind),
    ("punctuation.delimiter", UnspecifiedSyntaxKind),
    ("string", StringLiteral),
    ("string.special", StringLiteral),
    ("tag", UnspecifiedSyntaxKind),
    ("type", TypeIdentifier),
    ("type.builtin", TypeIdentifier),
    ("variable", Identifier),
    ("variable.builtin", UnspecifiedSyntaxKind),
    ("variable.parameter", UnspecifiedSyntaxKind),
    ("conditional", Keyword),
    ("boolean", BuiltinIdentifier)
  ]

  /**
   * The kinds the highlighter emits: every kind except the method
   * identifier, which no configured capture maps to.
   */
  const TableKinds: set<SyntaxKind> := {
    UnspecifiedSyntaxKind, Comment, Identifier, BuiltinIdentifier, FunctionDefinition,
    Keyword, Operator, StringLiteral, TypeIdentifier
  }

  /**
   * The table indexed directly: an index past its end is a panic, so
   * callers keep below 26. Every highlight gets one of the emitted kinds,
   * never a method identifier.
   */
  function GetSyntaxKindForHl(hl: nat): (k: SyntaxKind)
    requires hl < |CaptureTable|
    ensures k in TableKinds
    ensures k != MethodIdentifier
  {
    CaptureTable[hl].1
  }

  /** Each emitted kind is the kind of some configured highlight, so TableKinds is exactly the table's range. */
  lemma {:induction false} TableKindsReached(kind: SyntaxKind)
    requires kind in TableKinds
    ensures exists hl: nat :: hl < |CaptureTable| && GetSyntaxKindForHl(hl) == kind
  {
    var hl: nat := match kind
      case UnspecifiedSyntaxKind => 0
      case Identifier => 1
      case BuiltinIdentifier => 2
      case Comment => 3
      case FunctionDefinition => 4
      case Keyword => 7
      case Operator => 11
      case StringLiteral => 16
      case TypeIdentifier => 19
      case MethodIdentifier => 0;
    assert GetSyntaxKindForHl(hl) == kind;
  }

  // ---------------------------------------------------------------------
  // Rust's str::lines
  // ---------------------------------------------------------------------

  /** The index of the first '\n' of `s`, or `|s|` when there is none. */
  function LineEnd(s: string): (k: nat)
    ensures k <= |s|
    ensures forall j :: 0 <= j < k ==> s[j] != '\n'
    ensures k < |s| ==> s[k] == '\n'
    decreases |s|
  {
    if s == [] || s[0] == '\n' then 0 else 1 + LineEnd(s[1..])
  }

  function StripCr(piece: string): string
  {
    if |piece| > 0 && piece[|piece| - 1] == '\r' then piece[..|piece| - 1] else piece
  }

  /**
   * `s.lines()`: the pieces between '\n' characters, with no empty piece
   * after a final '\n', each with one trailing '\r' removed.
   */
  function RustLines(s: string): (lines: seq<string>)
    ensures s == [] <==> lines == []
    ensures forall i :: 0 <= i < |lines| ==> |lines[i]| <= |s|
    decreases |s|
  {
    if s == [] then []
    else
      var k := LineEnd(s);
      [StripCr(s[..k])] + (if k < |s| then RustLines(s[k + 1..]) else [])
  }

  // ---------------------------------------------------------------------
  // LineManager
  // ---------------------------------------------------------------------

  datatype LineManager = LineManager(offsets: seq<nat>)

  /**
   * The offsets `LineManager::new` records when the first line is taken
   * to start at `pos`: each next line starts one past the end of the
   * previous one.
   */
  function LineStarts(lines: seq<string>, pos: nat): (offsets: seq<nat>)
    ensures |offsets| == |lines|
    decreases |lines|
  {
    if lines == [] then [] else [pos] + LineStarts(lines[1..], pos + |lines[0]| + 1)
  }

  /**
   * The first line starts at `pos`, each next line one past the end of the
   * previous one, so the table ascends strictly and line `i` starts at
   * least `i` bytes in.
   */
  lemma {:induction false} LineStartsShape(lines: seq<string>, pos: nat)
    ensures var offsets := LineStarts(lines, pos);
            && (|lines| > 0 ==> offsets[0] == pos)
            && (forall i {:trigger lines[i]} :: 0 <= i < |lines| - 1 ==> offsets[i + 1] == offsets[i] + |lines[i]| + 1)
            && (forall i :: 0 <= i < |offsets| ==> pos + i <= offsets[i])
            && Ascending(offsets)
    decreases |lines|
  {
    if lines != [] {
      var offsets, rest := LineStarts(lines, pos), LineStarts(lines[1..], pos + |lines[0]| + 1);
      LineStartsShape(lines[1..], pos + |lines[0]| + 1);
      assert offsets == [pos] + rest;
      forall i {:trigger lines[i]} | 0 < i < |lines| - 1
        ensures offsets[i + 1] == offsets[i] + |lines[i]| + 1
      {
        assert lines[i] == lines[1..][i - 1];
      }
    }
  }

  method NewLineManager(s: string) returns (lm: LineManager)
    ensures lm.offsets == LineStarts(RustLines(s), 0)
  {
    var lines := RustLines(s);
    var offsets: seq<nat> := [];
    var pos: nat := 0;
    var i := 0;
    while i < |lines|
      invariant 0 <= i <= |lines|
      invariant offsets + LineStarts(lines[i..], pos) == LineStarts(lines, 0)
    {
      assert lines[i..][1..] == lines[i + 1..];
      offsets := offsets + [pos];
      pos := pos + |lines[i]| + 1;
      i := i + 1;
    }
    assert lines[i..] == [];
    lm := LineManager(offsets);
  }

  /** `line` is the text of `full` found at `offset`. */
  predicate LineAt(full: string, line: string, offset: nat)
  {
    offset + |line| <= |full| && full[offset..offset + |line|] == line
  }

  /** Each line of `lines` is the text of `full` found at its offset. */
  predicate Located(full: string, lines: seq<string>, offsets: seq<nat>)
  {
    |offsets| == |lines| && forall i :: 0 <= i < |lines| ==> LineAt(full, lines[i], offsets[i])
  }

  /**
   * The lines follow one another in `full` from `pos` on, each starting one
   * past the '\n' that ends the one before.
   */
  predicate LaidOut(full: string, lines: seq<string>, pos: nat)
    decreases |lines|
  {
    lines == [] || (LineAt(full, lines[0], pos) && LaidOut(full, lines[1..], pos + |lines[0]| + 1))
  }

  lemma LocatedCons(full: string, first: string, pos: nat, lines: seq<string>, offsets: seq<nat>)
    requires LineAt(full, first, pos)
    requires Located(full, lines, offsets)
    ensures Located(full, [first] + lines, [pos] + offsets)
  {
    var lines', offsets' := [first] + lines, [pos] + offsets;
    forall i | 0 < i < |lines'|
      ensures LineAt(full, lines'[i], offsets'[i])
    {
      assert lines'[i] == lines[i - 1] && offsets'[i] == offsets[i - 1];
    }
  }

  /** Lines laid out from `pos` are found at the offsets the table gives them. */
  lemma {:induction false} LaidOutLocated(full: string, lines: seq<string>, pos: nat)
    requires LaidOut(full, lines, pos)
    ensures Located(full, lines, LineStarts(lines, pos))
    decreases |lines|
  {
    if lines != [] {
      var next := pos + |lines[0]| + 1;
      LaidOutLocated(full, lines[1..], next);
      LocatedCons(full, lines[0], pos, lines[1..], LineStarts(lines[1..], next));
      assert [lines[0]] + lines[1..] == lines;
    }
  }

  /**
   * When the text has no '\r', line `i` of `s.lines()` is the text found
   * at offset `i` of the table.
   */
  lemma LineStartsLocated(full: string, pos: nat)
    requires pos <= |full|
    requires forall j :: pos <= j < |full| ==> full[j] != '\r'
    ensures Located(full, RustLines(full[pos..]), LineStarts(RustLines(full[pos..]), pos))
  {
    LinesLaidOut(full, pos);
    LaidOutLocated(full, RustLines(full[pos..]), pos);
  }

  /** With no '\r', the lines of the text from `pos` on lie in it one after another. */
  lemma {:induction false} LinesLaidOut(full: string, pos: nat)
    requires pos <= |full|
    requires forall j :: pos <= j < |full| ==> full[j] != '\r'
    ensures LaidOut(full, RustLines(full[pos..]), pos)
    decreases |full| - pos
  {
    if pos < |full| {
      var k := LineEnd(full[pos..]);
      var rest: seq<string> := [];
      if k < |full| - pos {
        LinesLaidOut(full, pos + k + 1);
        rest := RustLines(full[pos + k + 1..]);
      }
      FirstLaidOut(full, pos, k, rest);
    }
  }

  /** The first line of the text from `pos`, followed by the lines after it. */
  lemma FirstLaidOut(full: string, pos: nat, k: nat, rest: seq<string>)
    requires pos < |full|
    requires forall j :: pos <= j < |full| ==> full[j] != '\r'
    requires k == LineEnd(full[pos..])
    requires rest == if k < |full| - pos then RustLines(full[pos + k + 1..]) else []
    requires LaidOut(full, rest, pos + k + 1)
    ensures LaidOut(full, RustLines(full[pos..]), pos)
  {
    LaidOutCons(full, full[pos..pos + k], pos, rest, pos + k + 1);
    StepLines(full, pos, k, rest);
  }

  lemma LaidOutCons(full: string, first: string, pos: nat, rest: seq<string>, next: nat)
    requires LineAt(full, first, pos) && next == pos + |first| + 1
    requires LaidOut(full, rest, next)
    ensures LaidOut(full, [first] + rest, pos)
  {
    assert ([first] + rest)[1..] == rest;
  }

  /** The lines from `pos` are the first line and the rest. */
  lemma StepLines(full: string, pos: nat, k: nat, restLines: seq<string>)
    requires pos < |full|
    requires forall j :: pos <= j < |full| ==> full[j] != '\r'
    requires k == LineEnd(full[pos..])
    requires restLines == if k < |full| - pos then RustLines(full[pos + k + 1..]) else []
    ensures RustLines(full[pos..]) == [full[pos..pos + k]] + restLines
  {
    FirstLineLocated(full, pos);
    var s := full[pos..];
    assert k < |s| ==> s[k + 1..] == full[pos + k + 1..];
    LinesStep(s, k, full[pos..pos + k], restLines);
  }

  /** `lines()` takes the first piece, then goes on after its '\n'. */
  lemma LinesStep(s: string, k: nat, first: string, rest: seq<string>)
    requires s != [] && k == LineEnd(s) && StripCr(s[..k]) == first
    requires rest == if k < |s| then RustLines(s[k + 1..]) else []
    ensures RustLines(s) == [first] + rest
  {
  }

  /** The first piece of the text from `pos` on, and what follows it. */
  lemma FirstLineLocated(full: string, pos: nat)
    requires pos < |full|
    requires forall j :: pos <= j < |full| ==> full[j] != '\r'
    ensures var s := full[pos..];
            var k := LineEnd(s);
            && StripCr(s[..k]) == full[pos..pos + k]
            && (k < |s| ==> s[k + 1..] == full[pos + k + 1..])
  {
    var s := full[pos..];
    var k := LineEnd(s);
    assert s[..k] == full[pos..pos + k];
    if k > 0 {
      assert s[k - 1] == full[pos + k - 1];
    }
  }

  /**
   * The table follows the lengths of the pieces `lines()` returns, which
   * leave out a stripped '\r': in text with "\r\n" endings the second line
   * is recorded at 2 while it starts at byte 3.
   */
  lemma CrlfOffsetsDrift()
    ensures RustLines("a\r\nb") == ["a", "b"]
    ensures LineStarts(RustLines("a\r\nb"), 0) == [0, 2]
    ensures "a\r\nb"[2] == '\n' && "a\r\nb"[3] == 'b'
  {
    var s := "a\r\nb";
    assert LineEnd(s) == 2 by {
      assert LineEnd(s[1..]) == 1 by {
        assert s[1..][1..] == "\nb";
        assert LineEnd(s[1..][1..]) == 0;
      }
    }
    assert s[..2] == "a\r";
    assert StripCr("a\r") == "a";
    assert s[3..] == "b";
    assert LineEnd("b") == 1 by {
      assert "b"[1..] == [];
    }
    assert "b"[..1] == "b";
    assert RustLines("b") == ["b"];
  }

  /**
   * The line the search over windows stops at, starting from line `k`:
   * the first line whose successor starts past `o`, or the last line.
   */
  function LineIndexFrom(offsets: seq<nat>, o: nat, k: nat): (l: nat)
    requires k < |offsets| && offsets[k] <= o
    ensures k <= l < |offsets|
    ensures forall j :: k <= j <= l ==> offsets[j] <= o
    ensures l + 1 < |offsets| ==> offsets[l + 1] > o
    decreases |offsets| - k
  {
    if k + 1 < |offsets| && offsets[k + 1] <= o then LineIndexFrom(offsets, o, k + 1) else k
  }

  predicate Ascending(offsets: seq<nat>)
  {
    forall i, j :: 0 <= i < j < |offsets| ==> offsets[i] < offsets[j]
  }

  /**
   * The (line, column) of offset `o`: the column counts from the line's
   * start, and on an ascending table the line is the last one starting at
   * or before `o`.
   */
  function LineCol(offsets: seq<nat>, o: nat): (lc: (nat, nat))
    requires |offsets| > 0 && offsets[0] <= o
    ensures lc.0 < |offsets| && offsets[lc.0] + lc.1 == o
    ensures forall j :: 0 <= j <= lc.0 ==> offsets[j] <= o
    ensures lc.0 + 1 < |offsets| ==> offsets[lc.0 + 1] > o
    ensures Ascending(offsets) ==> forall j :: lc.0 < j < |offsets| ==> offsets[j] > o
  {
    var l := LineIndexFrom(offsets, o, 0);
    (l, o - offsets[l])
  }

  /** A later offset is never at an earlier (line, column). */
  lemma LineColMonotone(offsets: seq<nat>, o1: nat, o2: nat)
    requires |offsets| > 0 && offsets[0] <= o1 <= o2
    ensures LineCol(offsets, o1).0 <= LineCol(offsets, o2).0
    ensures LineCol(offsets, o1).0 == LineCol(offsets, o2).0 ==> LineCol(offsets, o1).1 <= LineCol(offsets, o2).1
  {
  }

  /**
   * `line_and_col`: the windows of the table are walked with a line
   * counter. An empty table (an empty text) panics on the final unwrap,
   * and an offset before the first line would underflow.
   */
  method LineAndCol(lm: LineManager, offset: nat) returns (line: nat, col: nat)
    requires |lm.offsets| > 0 && lm.offsets[0] <= offset
    ensures (line, col) == LineCol(lm.offsets, offset)
  {
    var offsets := lm.offsets;
    line := 0;
    while line + 1 < |offsets|
      invariant line < |offsets| && offsets[line] <= offset
      invariant LineIndexFrom(offsets, offset, line) == LineIndexFrom(offsets, offset, 0)
      decreases |offsets| - line
    {
      var curr, next := offsets[line], offsets[line + 1];
      if next > offset {
        return line, offset - curr;
      }
      line := line + 1;
    }
    col := offset - offsets[|offsets| - 1];
  }

  // ---------------------------------------------------------------------
  // Packed ranges
  // ---------------------------------------------------------------------

  /** `range`: three integers when both ends share a line, four otherwise. */
  function Pack(s: (nat, nat), e: (nat, nat)): (v: seq<int>)
    ensures |v| == 3 || |v| == 4
    ensures |v| == 3 <==> s.0 == e.0
  {
    if s.0 == e.0 then [AsI32(s.0), AsI32(s.1), AsI32(e.1)]
    else [AsI32(s.0), AsI32(s.1), AsI32(e.0), AsI32(e.1)]
  }

  method Range(lm: LineManager, start: nat, end: nat) returns (v: seq<int>)
    requires |lm.offsets| > 0 && lm.offsets[0] <= start && lm.offsets[0] <= end
    ensures v == Pack(LineCol(lm.offsets, start), LineCol(lm.offsets, end))
  {
    var startLine, startCol := LineAndCol(lm, start);
    var endLine, endCol := LineAndCol(lm, end);
    if startLine == endLine {
      v := [AsI32(startLine), AsI32(startCol), AsI32(endCol)];
    } else {
      v := [AsI32(startLine), AsI32(startCol), AsI32(endLine), AsI32(endCol)];
    }
  }

  datatype PackedRange = PackedRange(startLine: int, startCol: int, endLine: int, endCol: int)

  /** `from_vec`; `None` stands for the panic on any length other than 3 or 4. */
  function FromVec(v: seq<int>): (r: Option<PackedRange>)
    ensures r.Some? <==> |v| == 3 || |v| == 4
  {
    if |v| == 3 then Some(PackedRange(v[0], v[1], v[0], v[2]))
    else if |v| == 4 then Some(PackedRange(v[0], v[1], v[2], v[3]))
    else None
  }

  /** Unpacking a packed range gives back both ends, each cast to i32. */
  lemma RangeRoundTrip(s: (nat, nat), e: (nat, nat))
    ensures FromVec(Pack(s, e)) == Some(PackedRange(AsI32(s.0), AsI32(s.1), AsI32(e.0), AsI32(e.1)))
    ensures s.0 < TwoTo31 && s.1 < TwoTo31 && e.0 < TwoTo31 && e.1 < TwoTo31 ==>
              FromVec(Pack(s, e)) == Some(PackedRange(s.0, s.1, e.0, e.1))
  {
  }

  /** While lines and columns fit in i32, packing loses nothing. */
  lemma PackInjective(s1: (nat, nat), e1: (nat, nat), s2: (nat, nat), e2: (nat, nat))
    requires s1.0 < TwoTo31 && s1.1 < TwoTo31 && e1.0 < TwoTo31 && e1.1 < TwoTo31
    requires s2.0 < TwoTo31 && s2.1 < TwoTo31 && e2.0 < TwoTo31 && e2.1 < TwoTo31
    ensures Pack(s1, e1) == Pack(s2, e2) <==> s1 == s2 && e1 == e2
  {
    if Pack(s1, e1) == Pack(s2, e2) {
      RangeRoundTrip(s1, e1);
      RangeRoundTrip(s2, e2);
    }
  }

  // ---------------------------------------------------------------------
  // The two orderings of PackedRange
  // ---------------------------------------------------------------------

  datatype Ordering = Less | Equal | Greater

  /** Rust's comparison of equally long tuples of integers: the first difference decides. */
  function Lex(x: seq<int>, y: seq<int>): Ordering
    requires |x| == |y|
    decreases |x|
  {
    if x == [] then Equal
    else if x[0] < y[0] then Less
    else if x[0] > y[0] then Greater
    else Lex(x[1..], y[1..])
  }

  lemma {:induction false} LexEqual(x: seq<int>, y: seq<int>)
    requires |x| == |y|
    ensures Lex(x, y) == Equal <==> x == y
    decreases |x|
  {
    if x != [] {
      LexEqual(x[1..], y[1..]);
      if x[0] == y[0] && x[1..] == y[1..] {
        assert x == [x[0]] + x[1..] && y == [y[0]] + y[1..];
      }
    }
  }

  lemma {:induction false} LexFlip(x: seq<int>, y: seq<int>)
    requires |x| == |y|
    ensures Lex(x, y) == Less <==> Lex(y, x) == Greater
    decreases |x|
  {
    if x != [] {
      LexFlip(x[1..], y[1..]);
    }
  }

  lemma {:induction false} LexTransitive(x: seq<int>, y: seq<int>, z: seq<int>)
    requires |x| == |y| == |z|
    requires Lex(x, y) == Less && Lex(y, z) == Less
    ensures Lex(x, z) == Less
    decreases |x|
  {
    if x[0] == y[0] == z[0] {
      LexTransitive(x[1..], y[1..], z[1..]);
    }
  }

  function PartialKey(r: PackedRange): seq<int> { [r.startLine, r.endLine, r.startCol] }

  function FullKey(r: PackedRange): seq<int> { [r.startLine, r.startCol, r.endLine, r.endCol] }

  /** The hand-written `partial_cmp`: start line, then end line, then start column. */
  function PartialCmp(a: PackedRange, b: PackedRange): (o: Ordering)
    ensures o == Equal <==> a.startLine == b.startLine && a.endLine == b.endLine && a.startCol == b.startCol
    ensures o == Less <==> Lex(PartialKey(b), PartialKey(a)) == Greater
  {
    LexEqual(PartialKey(a), PartialKey(b));
    LexFlip(PartialKey(a), PartialKey(b));
    Lex(PartialKey(a), PartialKey(b))
  }

  /** The derived `Ord`: all four fields in declaration order. */
  function Cmp(a: PackedRange, b: PackedRange): (o: Ordering)
    ensures o == Equal <==> a == b
    ensures o == Less <==> Lex(FullKey(b), FullKey(a)) == Greater
  {
    LexEqual(FullKey(a), FullKey(b));
    LexFlip(FullKey(a), FullKey(b));
    Lex(FullKey(a), FullKey(b))
  }

  lemma PartialCmpTransitive(a: PackedRange, b: PackedRange, c: PackedRange)
    requires PartialCmp(a, b) == Less && PartialCmp(b, c) == Less
    ensures PartialCmp(a, c) == Less
  {
    LexTransitive(PartialKey(a), PartialKey(b), PartialKey(c));
  }

  lemma CmpTransitive(a: PackedRange, b: PackedRange, c: PackedRange)
    requires Cmp(a, b) == Less && Cmp(b, c) == Less
    ensures Cmp(a, c) == Less
  {
    LexTransitive(FullKey(a), FullKey(b), FullKey(c));
  }

  /** `partial_cmp` never looks at the end column. */
  lemma PartialCmpIgnoresEndCol(a: PackedRange, b: PackedRange, c: int)
    ensures PartialCmp(a.(endCol := c), b) == PartialCmp(a, b)
  {
    assert PartialKey(a.(endCol := c)) == PartialKey(a);
  }

  /**
   * The orderings disagree: one pair is ordered one way by `partial_cmp`
   * and the other way by `cmp`, and another pair is equal for
   * `partial_cmp` although `Eq` tells them apart.
   */
  lemma OrderingsDisagree()
    ensures PartialCmp(PackedRange(0, 5, 0, 6), PackedRange(0, 1, 1, 0)) == Less
    ensures Cmp(PackedRange(0, 5, 0, 6), PackedRange(0, 1, 1, 0)) == Greater
    ensures PartialCmp(PackedRange(0, 0, 0, 1), PackedRange(0, 0, 0, 2)) == Equal
    ensures PackedRange(0, 0, 0, 1) != PackedRange(0, 0, 0, 2)
  {
    assert PartialKey(PackedRange(0, 5, 0, 6)) == [0, 0, 5];
    assert PartialKey(PackedRange(0, 1, 1, 0)) == [0, 1, 1];
    assert FullKey(PackedRange(0, 5, 0, 6)) == [0, 5, 0, 6];
    assert FullKey(PackedRange(0, 1, 1, 0)) == [0, 1, 1, 0];
  }

  // ---------------------------------------------------------------------
  // render: the stack of open highlights
  // ---------------------------------------------------------------------

  /** A table of line starts as `LineManager::new` builds it: empty, or starting at 0. */
  predicate FromText(offsets: seq<nat>)
  {
    offsets == [] || offsets[0] == 0
  }

  /**
   * The rest of `render` once `stack` is open and `doc` emitted: a start
   * pushes, an end pops (popping nothing when nothing is open), a source
   * span emits one occurrence for the innermost highlight when one is
   * open, and an error ends the run with that error.
   */
  function StackRun(offsets: seq<nat>, events: seq<Event>, stack: seq<nat>, doc: seq<Occurrence>): RenderOutcome
    requires FromText(offsets)
    decreases |events|
  {
    if events == [] then Rendered(doc)
    else match events[0]
      case Err(e) => Failed(e)
      case Ok(HighlightStart(h)) => StackRun(offsets, events[1..], stack + [h], doc)
      case Ok(HighlightEnd) =>
        StackRun(offsets, events[1..], if stack == [] then [] else stack[..|stack| - 1], doc)
      case Ok(Source(s, e)) =>
        if stack == [] then StackRun(offsets, events[1..], stack, doc)
        else if offsets == [] || stack[|stack| - 1] >= |CaptureTable| then Panicked
        else
          var occ := Occurrence(Pack(LineCol(offsets, s), LineCol(offsets, e)), GetSyntaxKindForHl(stack[|stack| - 1]));
          StackRun(offsets, events[1..], stack, doc + [occ])
  }

  /** What `render` returns for the events over `source`. */
  function StackRender(source: string, events: seq<Event>): RenderOutcome
  {
    StackRun(LineStarts(RustLines(source), 0), events, [], [])
  }

  method Render(events: seq<Event>, source: string) returns (r: RenderOutcome)
    ensures r == StackRender(source, events)
  {
    var lineManager := NewLineManager(source);
    var offsets := lineManager.offsets;
    LineStartsShape(RustLines(source), 0);
    var highlights: seq<nat> := [];
    var doc: seq<Occurrence> := [];
    var i := 0;
    while i < |events|
      invariant 0 <= i <= |events| && FromText(offsets)
      invariant StackRun(offsets, events[i..], highlights, doc) == StackRender(source, events)
      decreases |events| - i
    {
      var rest := events[i..];
      assert rest[0] == events[i] && rest[1..] == events[i + 1..];
      match events[i] {
        case Err(e) =>
          return Failed(e);
        case Ok(HighlightStart(h)) =>
          highlights := highlights + [h];
        case Ok(HighlightEnd) =>
          if highlights != [] {
            highlights := highlights[..|highlights| - 1];
          }
        case Ok(Source(start, end)) =>
          if highlights != [] {
            if offsets == [] || highlights[|highlights| - 1] >= |CaptureTable| {
              return Panicked;
            }
            var range := Range(lineManager, start, end);
            doc := doc + [Occurrence(range, GetSyntaxKindForHl(highlights[|highlights| - 1]))];
          }
      }
      i := i + 1;
    }
    r := Rendered(doc);
  }

  /** Nothing after the first error matters: it is returned as soon as it is read. */
  lemma {:induction false} StackRunStopsAtErr(offsets: seq<nat>, pre: seq<Event>, e: HighlightError, post: seq<Event>,
                                              stack: seq<nat>, doc: seq<Occurrence>)
    requires FromText(offsets)
    requires forall i :: 0 <= i < |pre| ==> pre[i].Ok?
    ensures StackRun(offsets, pre + [Err(e)] + post, stack, doc) == StackRun(offsets, pre + [Err(e)], stack, doc)
    ensures StackRun(offsets, pre + [Err(e)], stack, doc) == Failed(e) || StackRun(offsets, pre + [Err(e)], stack, doc) == Panicked
    decreases |pre|
  {
    var all, cut := pre + [Err(e)] + post, pre + [Err(e)];
    if pre == [] {
      assert all[0] == Err(e) && cut[0] == Err(e);
    } else {
      assert all[0] == pre[0] && cut[0] == pre[0];
      assert all[1..] == pre[1..] + [Err(e)] + post;
      assert cut[1..] == pre[1..] + [Err(e)];
      match pre[0].value
      case HighlightStart(h) =>
        StackRunStopsAtErr(offsets, pre[1..], e, post, stack + [h], doc);
      case HighlightEnd =>
        StackRunStopsAtErr(offsets, pre[1..], e, post, if stack == [] then [] else stack[..|stack| - 1], doc);
      case Source(s, t) =>
        if stack == [] {
          StackRunStopsAtErr(offsets, pre[1..], e, post, stack, doc);
        } else if !(offsets == [] || stack[|stack| - 1] >= |CaptureTable|) {
          var occ := Occurrence(Pack(LineCol(offsets, s), LineCol(offsets, t)), GetSyntaxKindForHl(stack[|stack| - 1]));
          StackRunStopsAtErr(offsets, pre[1..], e, post, stack, doc + [occ]);
        }
    }
  }

  /** A source span outside every highlight emits nothing, even over an empty text. */
  lemma UnhighlightedSourceEmitsNothing()
    ensures StackRender("", [Ok(Source(0, 5))]) == Rendered([])
  {
    var events: seq<Event> := [Ok(Source(0, 5))];
    assert events[1..] == [];
  }

  /** A highlight numbered past the capture table, or any span over an empty text, panics. */
  lemma RenderPanics()
    ensures StackRender("x", [Ok(HighlightStart(26)), Ok(Source(0, 1))]) == Panicked
    ensures StackRender("", [Ok(HighlightStart(0)), Ok(Source(0, 0))]) == Panicked
  {
    var e1: seq<Event> := [Ok(HighlightStart(26)), Ok(Source(0, 1))];
    assert e1[1..] == [Ok(Source(0, 1))];
    var e2: seq<Event> := [Ok(HighlightStart(0)), Ok(Source(0, 0))];
    assert e2[1..] == [Ok(Source(0, 0))];
  }

  /** The ranges that fit the snapshot formatter: known length, ordered columns on one line. */
  predicate WellFormedRange(v: seq<int>)
  {
    FromVec(v).Some? &&
    var r := FromVec(v).value;
    0 <= r.startLine && (r.startLine == r.endLine ==> 0 <= r.startCol <= r.endCol)
  }

  predicate SpansOrdered(events: seq<Event>)
  {
    forall i :: 0 <= i < |events| ==> events[i].Ok? && events[i].value.Source? ==>
      events[i].value.start <= events[i].value.end < TwoTo31
  }

  /**
   * Every occurrence `render` emits for ordered spans inside the first
   * 2^31 bytes has a valid packed range, a non-negative line and, on one
   * line, a start column at most its end column.
   */
  lemma {:induction false} StackRunWellFormed(offsets: seq<nat>, events: seq<Event>, stack: seq<nat>, doc: seq<Occurrence>)
    requires FromText(offsets) && Ascending(offsets)
    requires SpansOrdered(events)
    requires forall i :: 0 <= i < |doc| ==> WellFormedRange(doc[i].range)
    requires StackRun(offsets, events, stack, doc).Rendered?
    ensures forall i :: 0 <= i < |StackRun(offsets, events, stack, doc).occurrences| ==>
              WellFormedRange(StackRun(offsets, events, stack, doc).occurrences[i].range)
    decreases |events|
  {
    if events != [] {
      assert SpansOrdered(events[1..]) by {
        forall i | 0 <= i < |events[1..]| ensures events[1..][i] == events[i + 1] { }
      }
      match events[0]
      case Err(_) =>
      case Ok(HighlightStart(h)) =>
        StackRunWellFormed(offsets, events[1..], stack + [h], doc);
      case Ok(HighlightEnd) =>
        StackRunWellFormed(offsets, events[1..], if stack == [] then [] else stack[..|stack| - 1], doc);
      case Ok(Source(s, e)) =>
        if stack == [] {
          StackRunWellFormed(offsets, events[1..], stack, doc);
        } else if offsets != [] && stack[|stack| - 1] < |CaptureTable| {
          var a, b := LineCol(offsets, s), LineCol(offsets, e);
          LineColMonotone(offsets, s, e);
          assert s <= e < TwoTo31 by { assert events[0].Ok? && events[0].value.Source?; }
          AscendingAtLeastIndex(offsets, a.0);
          AscendingAtLeastIndex(offsets, b.0);
          RangeRoundTrip(a, b);
          var occ := Occurrence(Pack(a, b), GetSyntaxKindForHl(stack[|stack| - 1]));
          assert WellFormedRange(occ.range);
          StackRunWellFormed(offsets, events[1..], stack, doc + [occ]);
        }
    }
  }

  lemma {:induction false} AscendingAtLeastIndex(offsets: seq<nat>, k: nat)
    requires Ascending(offsets) && k < |offsets|
    ensures offsets[k] >= k
    decreases k
  {
    if k > 0 {
      AscendingAtLeastIndex(offsets, k - 1);
    }
  }

  /** The emitter's output is always fit for the snapshot formatter when spans are ordered. */
  lemma RenderWellFormed(source: string, events: seq<Event>)
    requires SpansOrdered(events)
    requires StackRender(source, events).Rendered?
    ensures forall i :: 0 <= i < |StackRender(source, events).occurrences| ==>
              WellFormedRange(StackRender(source, events).occurrences[i].range)
  {
    LineStartsShape(RustLines(source), 0);
    StackRunWellFormed(LineStarts(RustLines(source), 0), events, [], []);
  }
}
