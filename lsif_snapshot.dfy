/**
 * The snapshot formatter of the syntax highlighter: it prints every line
 * of the text indented by two spaces and, under each line, one caret
 * annotation per occurrence that starts and ends on it.
 */
module LsifSnapshot {
  import opened Wrappers
  import opened Lsif
  import SgTreesitter

  /** The packed range of an occurrence; formatting requires ranges of length 3 or 4. */
  function Key(o: Occurrence): SgTreesitter.PackedRange
  {
    match SgTreesitter.FromVec(o.range)
    case Some(r) => r
    case None => SgTreesitter.PackedRange(0, 0, 0, 0)
  }

  predicate WellFormed(q: seq<Occurrence>)
  {
    forall i :: 0 <= i < |q| ==> SgTreesitter.WellFormedRange(q[i].range)
  }

  // ---------------------------------------------------------------------
  // Sorting
  // ---------------------------------------------------------------------

  /**
   * `a` sorts before `b`. `sort_by_key` compares keys with `lt`, which for
   * a `PackedRange` is the hand-written `partial_cmp`, not the derived `Ord`.
   */
  predicate Before(a: Occurrence, b: Occurrence)
  {
    SgTreesitter.PartialCmp(Key(a), Key(b)) == SgTreesitter.Less
  }

  /** The next element placed after every element it does not sort before. */
  function Insert(x: Occurrence, s: seq<Occurrence>): (r: seq<Occurrence>)
    ensures multiset(r) == multiset(s) + multiset{x}
    decreases |s|
  {
    if s == [] then [x]
    else if Before(x, s[0]) then [x] + s
    else
      assert s == [s[0]] + s[1..];
      [s[0]] + Insert(x, s[1..])
  }

  /** The stable sort of the occurrences on their packed ranges. */
  function SortByRange(occs: seq<Occurrence>): (r: seq<Occurrence>)
    ensures multiset(r) == multiset(occs)
    decreases |occs|
  {
    if occs == [] then []
    else
      assert occs == occs[..|occs| - 1] + [occs[|occs| - 1]];
      Insert(occs[|occs| - 1], SortByRange(occs[..|occs| - 1]))
  }

  predicate Sorted(s: seq<Occurrence>)
  {
    forall i :: 0 <= i < |s| - 1 ==> !Before(s[i + 1], s[i])
  }

  lemma {:induction false} InsertSorted(x: Occurrence, s: seq<Occurrence>)
    requires Sorted(s)
    ensures Sorted(Insert(x, s))
    decreases |s|
  {
    if s != [] && !Before(x, s[0]) {
      assert Sorted(s[1..]) by {
        forall i | 0 <= i < |s[1..]| - 1 ensures !Before(s[1..][i + 1], s[1..][i]) {
          assert s[1..][i + 1] == s[i + 2] && s[1..][i] == s[i + 1];
        }
      }
      InsertSorted(x, s[1..]);
      var r := Insert(x, s[1..]);
      assert r[0] == x || r[0] == s[1];
      var whole := [s[0]] + r;
      forall i | 0 <= i < |whole| - 1 ensures !Before(whole[i + 1], whole[i]) {
        if i > 0 {
          assert whole[i + 1] == r[i] && whole[i] == r[i - 1];
        }
      }
    } else if s != [] {
      var whole := [x] + s;
      assert !Before(s[0], x);
      forall i | 0 <= i < |whole| - 1 ensures !Before(whole[i + 1], whole[i]) {
        if i > 0 {
          assert whole[i + 1] == s[i] && whole[i] == s[i - 1];
        }
      }
    }
  }

  lemma {:induction false} SortSorted(occs: seq<Occurrence>)
    ensures Sorted(SortByRange(occs))
    decreases |occs|
  {
    if occs != [] {
      SortSorted(occs[..|occs| - 1]);
      InsertSorted(occs[|occs| - 1], SortByRange(occs[..|occs| - 1]));
    }
  }

  /** Sorted occurrences come in order of their start lines. */
  predicate LinesAscend(q: seq<Occurrence>)
  {
    forall i, j :: 0 <= i < j < |q| ==> Key(q[i]).startLine <= Key(q[j]).startLine
  }

  lemma SortedLinesAscend(q: seq<Occurrence>)
    requires Sorted(q)
    ensures LinesAscend(q)
  {
    forall i, j | 0 <= i < j < |q| ensures Key(q[i]).startLine <= Key(q[j]).startLine {
      StartLinesUp(q, i, j);
    }
  }

  lemma {:induction false} StartLinesUp(q: seq<Occurrence>, i: nat, j: nat)
    requires Sorted(q) && i <= j < |q|
    ensures Key(q[i]).startLine <= Key(q[j]).startLine
    decreases j - i
  {
    if i < j {
      StartLinesUp(q, i, j - 1);
      assert !Before(q[j], q[j - 1]);
    }
  }

  // ---------------------------------------------------------------------
  // Taking the annotations of one line
  // ---------------------------------------------------------------------

  /** The occurrences that can be annotated: a kind other than unspecified, on one line. */
  predicate Printable(o: Occurrence)
  {
    o.kind != UnspecifiedSyntaxKind && Key(o).startLine == Key(o).endLine
  }

  /**
   * The inner loop for line `line`: occurrences that cannot be annotated
   * are dropped, those on the line are taken, and the first one on
   * another line stops the loop and stays at the front.
   */
  function TakeLine(line: int, q: seq<Occurrence>): (r: (seq<Occurrence>, seq<Occurrence>))
    ensures WellFormed(q) ==> AllAnnotatable(r.0)
    ensures |r.1| <= |q|
    ensures r.1 != [] ==> Printable(r.1[0]) && Key(r.1[0]).startLine != line
    decreases |q|
  {
    if q == [] then ([], [])
    else if !Printable(q[0]) then TakeLine(line, q[1..])
    else if Key(q[0]).startLine != line then ([], q)
    else
      var r := TakeLine(line, q[1..]);
      ([q[0]] + r.0, r.1)
  }

  /** The queue the inner loop leaves is what remains of the one it started from. */
  lemma {:induction false} TakeLineSuffix(line: int, q: seq<Occurrence>)
    ensures TakeLine(line, q).1 == q[|q| - |TakeLine(line, q).1|..]
    decreases |q|
  {
    if q != [] && (!Printable(q[0]) || Key(q[0]).startLine == line) {
      TakeLineSuffix(line, q[1..]);
      assert q[1..][|q| - 1 - |TakeLine(line, q).1|..] == q[|q| - |TakeLine(line, q).1|..];
    }
  }

  // ---------------------------------------------------------------------
  // Text
  // ---------------------------------------------------------------------

  function Repeat(c: char, n: nat): (s: string)
    ensures |s| == n && forall i :: 0 <= i < n ==> s[i] == c
  {
    if n == 0 then [] else [c] + Repeat(c, n - 1)
  }

  /** `line.replace("\t", " ")`: every tab becomes one space. */
  function ReplaceTabs(line: string): (r: string)
    ensures |r| == |line|
    ensures forall i :: 0 <= i < |line| ==> r[i] == if line[i] == '\t' then ' ' else line[i]
    ensures '\t' !in r
  {
    if line == [] then []
    else [if line[0] == '\t' then ' ' else line[0]] + ReplaceTabs(line[1..])
  }

  /** How one line of the text is printed. */
  function LineText(line: string): string
  {
    "  " + ReplaceTabs(line) + "\n"
  }

  /**
   * The annotation of an occurrence: after the two-character "//", which
   * matches the two-space indent of the text, spaces up to the start
   * column and carets up to the end column, so the carets sit under the
   * occurrence; then its kind.
   */
  function Annotation(o: Occurrence): string
    requires SgTreesitter.WellFormedRange(o.range) && Printable(o)
  {
    var range := Key(o);
    AnnotationText(range.startCol, range.endCol, KindName(o.kind))
  }

  lemma AnnotationShape(o: Occurrence)
    requires SgTreesitter.WellFormedRange(o.range) && Printable(o)
    ensures var a, sc, ec := Annotation(o), Key(o).startCol, Key(o).endCol;
            && |a| == 2 + ec + 1 + |KindName(o.kind)| + 1
            && a[..2] == "//"
            && (forall j :: 2 <= j < 2 + sc ==> a[j] == ' ')
            && (forall j :: 2 + sc <= j < 2 + ec ==> a[j] == '^')
            && a[2 + ec..] == " " + KindName(o.kind) + "\n"
  {
    var range := Key(o);
    assert Annotation(o) == AnnotationText(range.startCol, range.endCol, KindName(o.kind));
    AnnotationTextShape(range.startCol, range.endCol, KindName(o.kind));
  }

  function AnnotationText(sc: int, ec: int, name: string): string
    requires 0 <= sc <= ec
  {
    "//" + Repeat(' ', sc) + Repeat('^', ec - sc) + " " + name + "\n"
  }

  lemma AnnotationTextShape(sc: int, ec: int, name: string)
    requires 0 <= sc <= ec
    ensures var a := AnnotationText(sc, ec, name);
            && |a| == 2 + ec + 1 + |name| + 1
            && a[..2] == "//"
            && (forall j :: 2 <= j < 2 + sc ==> a[j] == ' ')
            && (forall j :: 2 + sc <= j < 2 + ec ==> a[j] == '^')
            && a[2 + ec..] == " " + name + "\n"
  {
    Layout("//", Repeat(' ', sc), Repeat('^', ec - sc), " " + name + "\n");
  }

  /** Where each piece of a four-piece concatenation sits. */
  lemma Layout(p: string, s: string, c: string, t: string)
    ensures var a := p + s + c + t;
            && |a| == |p| + |s| + |c| + |t|
            && a[..|p|] == p
            && (forall j :: |p| <= j < |p| + |s| ==> a[j] == s[j - |p|])
            && (forall j :: |p| + |s| <= j < |p| + |s| + |c| ==> a[j] == c[j - |p| - |s|])
            && a[|p| + |s| + |c|..] == t
  {
  }

  predicate AllAnnotatable(notes: seq<Occurrence>)
  {
    forall i :: 0 <= i < |notes| ==> SgTreesitter.WellFormedRange(notes[i].range) && Printable(notes[i])
  }

  function Annotations(notes: seq<Occurrence>): string
    requires AllAnnotatable(notes)
    decreases |notes|
  {
    if notes == [] then "" else Annotation(notes[0]) + Annotations(notes[1..])
  }

  /** What the loop over the lines prints from line `idx` on, with `q` still queued. */
  function DumpFrom(lines: seq<string>, idx: nat, q: seq<Occurrence>): string
    requires idx <= |lines| && WellFormed(q)
    decreases |lines| - idx
  {
    if idx == |lines| then ""
    else
      var r := TakeLine(AsI32(idx), q);
      assert WellFormed(r.1) by {
        TakeLineSuffix(AsI32(idx), q);
        forall i | 0 <= i < |r.1| ensures SgTreesitter.WellFormedRange(r.1[i].range) {
          assert r.1[i] == q[|q| - |r.1| + i];
        }
      }
      LineText(lines[idx]) + Annotations(r.0) + DumpFrom(lines, idx + 1, r.1)
  }

  // ---------------------------------------------------------------------
  // dump_document
  // ---------------------------------------------------------------------

  lemma SortedWellFormed(occs: seq<Occurrence>)
    requires forall o :: o in occs ==> SgTreesitter.WellFormedRange(o.range)
    ensures WellFormed(SortByRange(occs))
  {
    var q := SortByRange(occs);
    forall i | 0 <= i < |q| ensures SgTreesitter.WellFormedRange(q[i].range) {
      assert q[i] in multiset(q);
    }
  }

  /**
   * `dump_document`: sort the occurrences by their packed ranges, then
   * print every line followed by the annotations the queue holds for it.
   */
  method DumpDocument(occs: seq<Occurrence>, source: string) returns (result: string)
    requires forall o :: o in occs ==> SgTreesitter.WellFormedRange(o.range)
    ensures WellFormed(SortByRange(occs))
    ensures result == DumpFrom(SgTreesitter.RustLines(source), 0, SortByRange(occs))
    ensures |SgTreesitter.RustLines(source)| <= TwoTo31 ==>
              result == Snapshot(SgTreesitter.RustLines(source), 0, SortByRange(occs))
  {
    SortedWellFormed(occs);
    var queue := SortByRange(occs);
    var lines := SgTreesitter.RustLines(source);
    result := DumpLines(lines, queue);
    if |lines| <= TwoTo31 {
      DumpIsSnapshot(lines, occs);
    }
  }

  /** The loop over the lines of `dump_document`, from a sorted queue. */
  method DumpLines(lines: seq<string>, queue0: seq<Occurrence>) returns (result: string)
    requires WellFormed(queue0)
    ensures result == DumpFrom(lines, 0, queue0)
  {
    ghost var whole := DumpFrom(lines, 0, queue0);
    var queue := queue0;
    result := "";
    var idx := 0;
    while idx < |lines|
      invariant 0 <= idx <= |lines| && WellFormed(queue)
      invariant whole == result + DumpFrom(lines, idx, queue)
      decreases |lines| - idx
    {
      var text := "  " + ReplaceTabs(lines[idx]) + "\n";
      var notes, rest := AnnotateLine(AsI32(idx), queue);
      LineStep(lines, idx, queue, whole, result, text, notes, rest);
      result := result + text;
      result := result + notes;
      queue := rest;
      idx := idx + 1;
    }
  }

  /** One turn of the loop over the lines keeps the text still to print. */
  lemma LineStep(lines: seq<string>, idx: nat, q: seq<Occurrence>, whole: string, done: string,
                 text: string, notes: string, rest: seq<Occurrence>)
    requires idx < |lines| && WellFormed(q)
    requires whole == done + DumpFrom(lines, idx, q)
    requires text == "  " + ReplaceTabs(lines[idx]) + "\n"
    requires notes == Annotations(TakeLine(AsI32(idx), q).0) && rest == TakeLine(AsI32(idx), q).1
    ensures WellFormed(rest)
    ensures whole == done + text + notes + DumpFrom(lines, idx + 1, rest)
  {
    TakeLineSuffix(AsI32(idx), q);
    SuffixWellFormed(q, rest);
    Advance(whole, done, DumpFrom(lines, idx, q), text, notes, DumpFrom(lines, idx + 1, rest));
  }

  lemma Advance(whole: string, done: string, rest: string, text: string, notes: string, later: string)
    requires whole == done + rest && rest == text + notes + later
    ensures whole == done + text + notes + later
  {
  }

  /**
   * The inner loop: print the annotations of the occurrences on `line`
   * at the front of the queue, dropping those that cannot be annotated,
   * and put back the first one on another line.
   */
  method AnnotateLine(line: int, queue0: seq<Occurrence>) returns (notes: string, queue: seq<Occurrence>)
    requires WellFormed(queue0)
    ensures notes == Annotations(TakeLine(line, queue0).0)
    ensures queue == TakeLine(line, queue0).1 && WellFormed(queue)
  {
    TakeLineSuffix(line, queue0);
    SuffixWellFormed(queue0, TakeLine(line, queue0).1);
    queue := queue0;
    notes := "";
    ghost var taken: seq<Occurrence> := [];
    while queue != []
      invariant Progress(line, queue0, queue, taken, notes)
      decreases |queue|
    {
      TakeStep(line, queue0, queue, taken, notes);
      var occ := queue[0];
      queue := queue[1..];
      if Printable(occ) {
        if Key(occ).startLine != line {
          PushFront(occ, queue);
          queue := [occ] + queue;
          break;
        }
        notes := notes + Annotation(occ);
        taken := taken + [occ];
      }
    }
    if queue == [] {
      Exhausted(line, queue0, taken, notes);
    }
  }

  /** Putting back the entry just popped restores the queue. */
  lemma PushFront(occ: Occurrence, rest: seq<Occurrence>)
    ensures ([occ] + rest)[0] == occ && ([occ] + rest)[1..] == rest
  {
  }

  /**
   * The state of the inner loop: `taken` are the occurrences annotated so
   * far, `notes` their text, and the rest of the loop over `q` takes the
   * remaining ones and leaves the same queue behind.
   */
  ghost predicate Progress(line: int, q0: seq<Occurrence>, q: seq<Occurrence>, taken: seq<Occurrence>, notes: string)
  {
    && WellFormed(q0) && WellFormed(q) && AllAnnotatable(taken)
    && notes == Annotations(taken)
    && taken + TakeLine(line, q).0 == TakeLine(line, q0).0
    && TakeLine(line, q).1 == TakeLine(line, q0).1
  }

  /** One turn of the inner loop keeps its state. */
  lemma TakeStep(line: int, q0: seq<Occurrence>, q: seq<Occurrence>, taken: seq<Occurrence>, notes: string)
    requires q != [] && Progress(line, q0, q, taken, notes)
    ensures SgTreesitter.WellFormedRange(q[0].range)
    ensures !Printable(q[0]) ==> Progress(line, q0, q[1..], taken, notes)
    ensures Printable(q[0]) && Key(q[0]).startLine != line ==> TakeLine(line, q0) == (taken, q)
    ensures Printable(q[0]) && Key(q[0]).startLine == line ==>
              Progress(line, q0, q[1..], taken + [q[0]], notes + Annotation(q[0]))
  {
    TakeLineStep(line, q);
    TailWellFormed(q);
    if Printable(q[0]) {
      if Key(q[0]).startLine != line {
        assert taken + [] == taken;
      } else {
        var rest := TakeLine(line, q[1..]).0;
        assert taken + ([q[0]] + rest) == (taken + [q[0]]) + rest;
        AppendAnnotation(notes, taken, q[0], Annotation(q[0]));
      }
    }
  }

  /** When the queue runs out, everything the loop should take has been taken. */
  lemma Exhausted(line: int, q0: seq<Occurrence>, taken: seq<Occurrence>, notes: string)
    requires Progress(line, q0, [], taken, notes)
    ensures TakeLine(line, q0) == (taken, [])
  {
    assert taken + [] == taken;
  }

  lemma AppendAnnotation(notes: string, taken: seq<Occurrence>, o: Occurrence, text: string)
    requires AllAnnotatable(taken) && SgTreesitter.WellFormedRange(o.range) && Printable(o)
    requires notes == Annotations(taken) && text == Annotation(o)
    ensures AllAnnotatable(taken + [o]) && notes + text == Annotations(taken + [o])
  {
    AnnotationsSnoc(taken, o);
  }

  /** One turn of the inner loop, by the kind of the front entry. */
  lemma TakeLineStep(line: int, q: seq<Occurrence>)
    requires q != [] && WellFormed(q)
    ensures SgTreesitter.WellFormedRange(q[0].range)
    ensures !Printable(q[0]) ==> TakeLine(line, q) == TakeLine(line, q[1..])
    ensures Printable(q[0]) && Key(q[0]).startLine != line ==> TakeLine(line, q) == ([], q)
    ensures Printable(q[0]) && Key(q[0]).startLine == line ==>
              TakeLine(line, q) == ([q[0]] + TakeLine(line, q[1..]).0, TakeLine(line, q[1..]).1)
  {
  }

  /** Printing one more annotation extends the text by that annotation. */
  lemma {:induction false} AnnotationsSnoc(notes: seq<Occurrence>, o: Occurrence)
    requires AllAnnotatable(notes) && SgTreesitter.WellFormedRange(o.range) && Printable(o)
    ensures AllAnnotatable(notes + [o])
    ensures Annotations(notes + [o]) == Annotations(notes) + Annotation(o)
    decreases |notes|
  {
    if notes == [] {
      assert [] + [o] == [o];
    } else {
      var tail := notes[1..];
      assert AllAnnotatable(tail) by {
        forall i | 0 <= i < |tail| ensures tail[i] == notes[i + 1] { }
      }
      AnnotationsSnoc(tail, o);
      ConsSnoc(notes, o);
      assert Annotation(notes[0]) + (Annotations(tail) + Annotation(o)) == (Annotation(notes[0]) + Annotations(tail)) + Annotation(o);
    }
  }

  lemma ConsSnoc(notes: seq<Occurrence>, o: Occurrence)
    requires notes != []
    ensures (notes + [o])[0] == notes[0] && (notes + [o])[1..] == notes[1..] + [o]
  {
  }


  lemma TailWellFormed(q: seq<Occurrence>)
    requires q != [] && WellFormed(q)
    ensures WellFormed(q[1..])
  {
    forall i | 0 <= i < |q| - 1 ensures q[1..][i] == q[i + 1] { }
  }

  lemma SuffixWellFormed(q: seq<Occurrence>, rest: seq<Occurrence>)
    requires |rest| <= |q| && rest == q[|q| - |rest|..] && WellFormed(q)
    ensures WellFormed(rest)
  {
    forall i | 0 <= i < |rest| ensures rest[i] == q[|q| - |rest| + i] { }
  }

  lemma AnnotationsCons(o: Occurrence, notes: seq<Occurrence>)
    requires SgTreesitter.WellFormedRange(o.range) && Printable(o)
    requires AllAnnotatable(notes)
    ensures Annotations([o] + notes) == Annotation(o) + Annotations(notes)
  {
    assert ([o] + notes)[0] == o && ([o] + notes)[1..] == notes;
  }

  // ---------------------------------------------------------------------
  // The snapshot, line by line
  // ---------------------------------------------------------------------

  /** The occurrences annotated under line `line`, in queue order. */
  function OnLine(q: seq<Occurrence>, line: int): (r: seq<Occurrence>)
    ensures WellFormed(q) ==> AllAnnotatable(r)
    decreases |q|
  {
    if q == [] then []
    else (if Printable(q[0]) && Key(q[0]).startLine == line then [q[0]] else []) + OnLine(q[1..], line)
  }

  /** Exactly the annotatable occurrences of the queue that start on `line`. */
  lemma {:induction false} OnLineMembers(q: seq<Occurrence>, line: int)
    ensures forall o :: o in OnLine(q, line) <==> o in q && Printable(o) && Key(o).startLine == line
    decreases |q|
  {
    if q != [] {
      OnLineMembers(q[1..], line);
      assert q == [q[0]] + q[1..];
    }
  }

  /**
   * The snapshot from line `idx` on, stated per line: the line's text,
   * then one annotation for each occurrence that starts and ends on it.
   */
  function Snapshot(lines: seq<string>, idx: nat, q: seq<Occurrence>): string
    requires idx <= |lines| && WellFormed(q)
    decreases |lines| - idx
  {
    if idx == |lines| then ""
    else LineText(lines[idx]) + Annotations(OnLine(q, idx)) + Snapshot(lines, idx + 1, q)
  }

  /** An annotatable entry of the queue starts no earlier than `line`. */
  predicate NoneBefore(q: seq<Occurrence>, line: int)
  {
    forall i :: 0 <= i < |q| ==> Printable(q[i]) ==> Key(q[i]).startLine >= line
  }

  lemma TailFacts(q: seq<Occurrence>, line: int)
    requires q != [] && LinesAscend(q) && NoneBefore(q, line)
    ensures LinesAscend(q[1..]) && NoneBefore(q[1..], line)
  {
    var tail := q[1..];
    forall i | 0 <= i < |tail| ensures tail[i] == q[i + 1] { }
  }

  /** Once the front of an ordered queue is past `line`, nothing in it is on `line`. */
  lemma PastLine(q: seq<Occurrence>, line: int)
    requires q != [] && LinesAscend(q) && Key(q[0]).startLine > line
    ensures OnLine(q, line) == []
    ensures forall i :: 0 <= i < |q| ==> Key(q[i]).startLine > line
  {
    assert forall i :: 0 < i < |q| ==> Key(q[0]).startLine <= Key(q[i]).startLine;
    NothingOnLine(q, line);
  }

  lemma {:induction false} NothingOnLine(q: seq<Occurrence>, line: int)
    requires forall i :: 0 <= i < |q| ==> Key(q[i]).startLine != line
    ensures OnLine(q, line) == []
    decreases |q|
  {
    if q != [] {
      assert forall i :: 0 <= i < |q| - 1 ==> q[1..][i] == q[i + 1];
      NothingOnLine(q[1..], line);
    }
  }

  /**
   * On a queue in start-line order whose annotatable entries start no
   * earlier than `line`, the inner loop takes exactly the line's
   * occurrences ...
   */
  lemma {:induction false} TakeLineTakes(line: int, q: seq<Occurrence>)
    requires LinesAscend(q) && NoneBefore(q, line)
    ensures TakeLine(line, q).0 == OnLine(q, line)
    decreases |q|
  {
    if q != [] {
      if !Printable(q[0]) || Key(q[0]).startLine == line {
        TailFacts(q, line);
        TakeLineTakes(line, q[1..]);
      } else {
        PastLine(q, line);
      }
    }
  }

  /** ... leaves every later line's occurrences queued ... */
  lemma {:induction false} TakeLineKeeps(line: int, q: seq<Occurrence>, l: int)
    requires LinesAscend(q) && NoneBefore(q, line) && l > line
    ensures OnLine(TakeLine(line, q).1, l) == OnLine(q, l)
    decreases |q|
  {
    if q != [] && (!Printable(q[0]) || Key(q[0]).startLine == line) {
      TailFacts(q, line);
      TakeLineKeeps(line, q[1..], l);
    }
  }

  /** ... and queues nothing annotatable that starts on or before `line`. */
  lemma {:induction false} TakeLinePasses(line: int, q: seq<Occurrence>)
    requires LinesAscend(q) && NoneBefore(q, line)
    ensures NoneBefore(TakeLine(line, q).1, line + 1)
    decreases |q|
  {
    if q != [] {
      if !Printable(q[0]) || Key(q[0]).startLine == line {
        TailFacts(q, line);
        TakeLinePasses(line, q[1..]);
      } else {
        PastLine(q, line);
      }
    }
  }

  /**
   * The state the loop over the lines keeps at line `idx`: the queue is in
   * start-line order, holds nothing annotatable before `idx`, and has the
   * same occurrences as `q0` on every line from `idx` on.
   */
  ghost predicate Ready(q: seq<Occurrence>, q0: seq<Occurrence>, idx: int)
  {
    && WellFormed(q) && WellFormed(q0) && LinesAscend(q) && NoneBefore(q, idx)
    && forall l {:trigger OnLine(q, l)} :: l >= idx ==> OnLine(q, l) == OnLine(q0, l)
  }

  lemma {:induction false} DumpFromIsSnapshot(lines: seq<string>, idx: nat, q: seq<Occurrence>, q0: seq<Occurrence>)
    requires idx <= |lines| <= TwoTo31 && Ready(q, q0, idx)
    ensures DumpFrom(lines, idx, q) == Snapshot(lines, idx, q0)
    decreases |lines| - idx
  {
    if idx < |lines| {
      var rest := TakeLine(idx, q).1;
      LineFacts(idx, q, q0);
      DumpFromIsSnapshot(lines, idx + 1, rest, q0);
      DumpStep(lines, idx, q, q0);
    }
  }

  /** What the inner loop for line `idx` takes and leaves, on an ordered queue. */
  lemma LineFacts(idx: nat, q: seq<Occurrence>, q0: seq<Occurrence>)
    requires Ready(q, q0, idx)
    ensures TakeLine(idx, q).0 == OnLine(q0, idx) && Ready(TakeLine(idx, q).1, q0, idx + 1)
  {
    var r := TakeLine(idx, q);
    TakeLineTakes(idx, q);
    TakeLinePasses(idx, q);
    forall l | l >= idx + 1 ensures OnLine(r.1, l) == OnLine(q0, l) {
      TakeLineKeeps(idx, q, l);
    }
    TakeLineSuffix(idx, q);
    SuffixFacts(q, r.1);
  }

  /** One line of the dump is one line of the snapshot when the rest agree. */
  lemma DumpStep(lines: seq<string>, idx: nat, q: seq<Occurrence>, q0: seq<Occurrence>)
    requires idx < |lines| <= TwoTo31 && Ready(q, q0, idx)
    requires TakeLine(idx, q).0 == OnLine(q0, idx) && Ready(TakeLine(idx, q).1, q0, idx + 1)
    requires DumpFrom(lines, idx + 1, TakeLine(idx, q).1) == Snapshot(lines, idx + 1, q0)
    ensures DumpFrom(lines, idx, q) == Snapshot(lines, idx, q0)
  {
    assert AsI32(idx) == idx;
  }

  lemma SuffixFacts(q: seq<Occurrence>, rest: seq<Occurrence>)
    requires |rest| <= |q| && rest == q[|q| - |rest|..]
    requires WellFormed(q) && LinesAscend(q)
    ensures WellFormed(rest) && LinesAscend(rest)
  {
    forall i | 0 <= i < |rest| ensures rest[i] == q[|q| - |rest| + i] { }
  }

  /**
   * With fewer than 2^31 lines the dump is the snapshot: each line's text
   * with the annotations of exactly the occurrences that start and end on
   * it, in sorted order.
   */
  lemma DumpIsSnapshot(lines: seq<string>, occs: seq<Occurrence>)
    requires |lines| <= TwoTo31
    requires forall o :: o in occs ==> SgTreesitter.WellFormedRange(o.range)
    ensures WellFormed(SortByRange(occs))
    ensures DumpFrom(lines, 0, SortByRange(occs)) == Snapshot(lines, 0, SortByRange(occs))
  {
    var q := SortByRange(occs);
    SortedWellFormed(occs);
    SortSorted(occs);
    SortedLinesAscend(q);
    assert NoneBefore(q, 0) by {
      forall i | 0 <= i < |q| ensures Key(q[i]).startLine >= 0 {
        assert SgTreesitter.WellFormedRange(q[i].range);
      }
    }
    assert Ready(q, q, 0);
    DumpFromIsSnapshot(lines, 0, q, q);
  }

  /** The occurrences annotated under a line are exactly the input's occurrences on that line. */
  lemma {:induction false} SortKeepsLines(occs: seq<Occurrence>, line: int)
    ensures multiset(OnLine(SortByRange(occs), line)) == multiset(OnLine(occs, line))
    decreases |occs|
  {
    if occs != [] {
      var init, x := occs[..|occs| - 1], occs[|occs| - 1];
      SortKeepsLines(init, line);
      InsertKeepsLines(x, SortByRange(init), line);
      OnLineSnoc(occs, line);
    }
  }

  lemma OnLineSnoc(occs: seq<Occurrence>, line: int)
    requires occs != []
    ensures OnLine(occs, line) == OnLine(occs[..|occs| - 1], line) + OnLine([occs[|occs| - 1]], line)
  {
    assert occs == occs[..|occs| - 1] + [occs[|occs| - 1]];
    OnLineAppend(occs[..|occs| - 1], [occs[|occs| - 1]], line);
  }

  lemma {:induction false} InsertKeepsLines(x: Occurrence, s: seq<Occurrence>, line: int)
    ensures multiset(OnLine(Insert(x, s), line)) == multiset(OnLine(s, line)) + multiset(OnLine([x], line))
    decreases |s|
  {
    assert [x][1..] == [];
    if s != [] {
      if Before(x, s[0]) {
        assert ([x] + s)[0] == x && ([x] + s)[1..] == s;
      } else {
        InsertKeepsLines(x, s[1..], line);
        var r := Insert(x, s[1..]);
        assert ([s[0]] + r)[0] == s[0] && ([s[0]] + r)[1..] == r;
      }
    }
  }

  lemma {:induction false} OnLineAppend(a: seq<Occurrence>, b: seq<Occurrence>, line: int)
    ensures OnLine(a + b, line) == OnLine(a, line) + OnLine(b, line)
    decreases |a|
  {
    if a == [] {
      assert a + b == b;
    } else {
      var head := if Printable(a[0]) && Key(a[0]).startLine == line then [a[0]] else [];
      OnLineAppend(a[1..], b, line);
      assert (a + b)[0] == a[0] && (a + b)[1..] == a[1..] + b;
      assert OnLine(a + b, line) == head + OnLine(a[1..] + b, line);
      assert head + (OnLine(a[1..], line) + OnLine(b, line)) == (head + OnLine(a[1..], line)) + OnLine(b, line);
    }
  }
}
