/**
 * The earlier emitter of the syntax highlighter: it tracks at most one
 * open highlight, panics on a second start or on an end with nothing
 * open, and emits occurrences that keep the default (empty) range.
 */
module TsRender {
  import opened Wrappers
  import opened Lsif
  import SgTreesitter

  /** The highlight names the Go configuration is set up with; highlight `i` is entry `i`. */
  const HighlightNames: seq<string> := [
    "attribute", "constant", "comment", "function.builtin", "function",
    "include", "keyword", "operator", "property", "punctuation",
    "punctuation.bracket", "punctuation.delimiter", "string", "string.special", "tag",
    "type", "type.builtin", "variable", "variable.builtin", "variable.parameter"
  ]

  /** The kind for each highlight name, entry for entry. */
  const ClassNames: seq<SyntaxKind> := [
    UnspecifiedSyntaxKind, Identifier, UnspecifiedSyntaxKind, MethodIdentifier, MethodIdentifier,
    UnspecifiedSyntaxKind, UnspecifiedSyntaxKind, UnspecifiedSyntaxKind, UnspecifiedSyntaxKind, UnspecifiedSyntaxKind,
    UnspecifiedSyntaxKind, UnspecifiedSyntaxKind, UnspecifiedSyntaxKind, UnspecifiedSyntaxKind, UnspecifiedSyntaxKind,
    UnspecifiedSyntaxKind, UnspecifiedSyntaxKind, UnspecifiedSyntaxKind, UnspecifiedSyntaxKind, UnspecifiedSyntaxKind
  ]

  /** Both tables have 20 entries, so every configured name has a kind. */
  lemma TablesAligned()
    ensures |HighlightNames| == |ClassNames| == 20
  {
  }

  /**
   * The two emitters map the same capture differently: "comment" is a
   * comment for the stack emitter and unspecified here.
   */
  lemma CommentKindsDiffer()
    ensures HighlightNames[2] == SgTreesitter.CaptureTable[3].0 == "comment"
    ensures ClassNames[2] == UnspecifiedSyntaxKind && SgTreesitter.CaptureTable[3].1 == Comment
  {
  }

  /**
   * The rest of `render` once `active` is open and `doc` emitted: a start
   * while a highlight is open panics, an end with none open panics, a
   * source span emits one occurrence for the open highlight, and an error
   * ends the run with that error.
   */
  function SingleRun(events: seq<Event>, active: Option<nat>, doc: seq<Occurrence>): RenderOutcome
    decreases |events|
  {
    if events == [] then Rendered(doc)
    else match events[0]
      case Err(e) => Failed(e)
      case Ok(HighlightStart(h)) =>
        if active.Some? then Panicked else SingleRun(events[1..], Some(h), doc)
      case Ok(HighlightEnd) =>
        if active.None? then Panicked else SingleRun(events[1..], None, doc)
      case Ok(Source(_, _)) =>
        match active
        case None => SingleRun(events[1..], active, doc)
        case Some(hl) =>
          if hl >= |ClassNames| then Panicked
          else SingleRun(events[1..], active, doc + [Occurrence([], ClassNames[hl])])
  }

  function SingleRender(events: seq<Event>): RenderOutcome
  {
    SingleRun(events, None, [])
  }

  method Render(events: seq<Event>) returns (r: RenderOutcome)
    ensures r == SingleRender(events)
  {
    var doc: seq<Occurrence> := [];
    var highlight: Option<nat> := None;
    var i := 0;
    while i < |events|
      invariant 0 <= i <= |events|
      invariant SingleRun(events[i..], highlight, doc) == SingleRender(events)
      decreases |events| - i
    {
      var rest := events[i..];
      assert rest[0] == events[i] && rest[1..] == events[i + 1..];
      match events[i] {
        case Err(e) =>
          return Failed(e);
        case Ok(HighlightStart(s)) =>
          if highlight.Some? {
            return Panicked;
          }
          highlight := Some(s);
        case Ok(HighlightEnd) =>
          if highlight.None? {
            return Panicked;
          }
          highlight := None;
        case Ok(Source(_, _)) =>
          if highlight.Some? {
            if highlight.value >= |ClassNames| {
              return Panicked;
            }
            doc := doc + [Occurrence([], ClassNames[highlight.value])];
          }
      }
      i := i + 1;
    }
    r := Rendered(doc);
  }

  /** Whatever follows, a second start or an end with nothing open panics. */
  lemma UnbalancedPanics(a: nat, b: nat, post: seq<Event>, doc: seq<Occurrence>)
    ensures SingleRun([Ok(HighlightStart(a)), Ok(HighlightStart(b))] + post, None, doc) == Panicked
    ensures SingleRun([Ok(HighlightEnd)] + post, None, doc) == Panicked
  {
    var twice: seq<Event> := [Ok(HighlightStart(a)), Ok(HighlightStart(b))] + post;
    assert twice[0] == Ok(HighlightStart(a));
    assert twice[1..][0] == Ok(HighlightStart(b));
  }

  predicate HighlightsBelow(events: seq<Event>, bound: nat)
  {
    forall i :: 0 <= i < |events| ==> events[i].Ok? && events[i].value.HighlightStart? ==>
      events[i].value.highlight < bound
  }

  /**
   * Where this emitter does not panic and every highlight has a kind in
   * both tables, the stack emitter fails with the same error or emits as
   * many occurrences: with at most one highlight open the stack holds
   * that highlight.
   */
  lemma {:induction false} RunsAgree(offsets: seq<nat>, events: seq<Event>, active: Option<nat>, single: seq<Occurrence>,
                                     stack: seq<nat>, stacked: seq<Occurrence>)
    requires SgTreesitter.FromText(offsets) && offsets != []
    requires stack == (if active.None? then [] else [active.value])
    requires active.Some? ==> active.value < |ClassNames|
    requires HighlightsBelow(events, |ClassNames|)
    requires |single| == |stacked|
    requires SingleRun(events, active, single) != Panicked
    ensures SingleRun(events, active, single).Failed? ==>
              SgTreesitter.StackRun(offsets, events, stack, stacked) == SingleRun(events, active, single)
    ensures SingleRun(events, active, single).Rendered? ==>
              SgTreesitter.StackRun(offsets, events, stack, stacked).Rendered? &&
              |SgTreesitter.StackRun(offsets, events, stack, stacked).occurrences| == |SingleRun(events, active, single).occurrences|
    decreases |events|
  {
    if events != [] {
      assert HighlightsBelow(events[1..], |ClassNames|) by {
        forall i | 0 <= i < |events[1..]| ensures events[1..][i] == events[i + 1] { }
      }
      match events[0]
      case Err(_) =>
      case Ok(HighlightStart(h)) =>
        assert h < |ClassNames| by { assert events[0].Ok? && events[0].value.HighlightStart?; }
        RunsAgree(offsets, events[1..], Some(h), single, stack + [h], stacked);
      case Ok(HighlightEnd) =>
        RunsAgree(offsets, events[1..], None, single, [], stacked);
      case Ok(Source(s, e)) =>
        if active.None? {
          RunsAgree(offsets, events[1..], active, single, stack, stacked);
        } else {
          var hl := active.value;
          var occ := Occurrence(SgTreesitter.Pack(SgTreesitter.LineCol(offsets, s), SgTreesitter.LineCol(offsets, e)),
                                SgTreesitter.GetSyntaxKindForHl(hl));
          RunsAgree(offsets, events[1..], active, single + [Occurrence([], ClassNames[hl])], stack, stacked + [occ]);
        }
    }
  }

  /** The two `render`s over the same nonempty text, starting with nothing open. */
  lemma RendersAgree(source: string, events: seq<Event>)
    requires source != []
    requires HighlightsBelow(events, |ClassNames|)
    requires SingleRender(events) != Panicked
    ensures SingleRender(events).Failed? ==> SgTreesitter.StackRender(source, events) == SingleRender(events)
    ensures SingleRender(events).Rendered? ==>
              SgTreesitter.StackRender(source, events).Rendered? &&
              |SgTreesitter.StackRender(source, events).occurrences| == |SingleRender(events).occurrences|
  {
    SgTreesitter.LineStartsShape(SgTreesitter.RustLines(source), 0);
    RunsAgree(SgTreesitter.LineStarts(SgTreesitter.RustLines(source), 0), events, None, [], [], []);
  }
}
