/**
 * The schema-migration planner: migration definitions form a directed
 * acyclic graph through their parent lists, and the planner answers which
 * migrations to apply (ancestors of the targets) or to revert (descendants
 * of the targets), in an order that respects the graph.
 */
module MigrationDefinition {
  import opened Wrappers
  import Decimal

  /** One migration: its identifier, its SQL text and the migrations it builds on. */
  datatype Definition = Definition(
    id: int,
    upFilename: string,
    upQuery: string,
    downFilename: string,
    downQuery: string,
    parents: seq<int>)

  /** The definitions in stored (topological) order, plus the lookup map built from them. */
  datatype Definitions = Definitions(definitions: seq<Definition>, definitionsMap: map<int, Definition>)
  {
    /** The map is the one `newDefinitions` builds from the slice. */
    ghost predicate Valid() {
      definitionsMap == IndexMap(definitions)
    }
  }

  datatype DefError =
    | UnknownMigration(id: int, parent: Option<int>)
    | OutstandingReferences

  // ---------------------------------------------------------------------
  // Specification helpers
  // ---------------------------------------------------------------------

  /** The identifiers occurring in a list of definitions. */
  function Ids(s: seq<Definition>): set<int> {
    set d | d in s :: d.id
  }

  /** The map a left-to-right loop of `m[d.ID] = d` produces: later entries win. */
  ghost function IndexMap(s: seq<Definition>): map<int, Definition> {
    if s == [] then map[] else IndexMap(s[..|s| - 1])[s[|s| - 1].id := s[|s| - 1]]
  }

  /** The definitions of `s` whose identifier is in `keep`, in the order of `s`. */
  function Select(s: seq<Definition>, keep: set<int>): seq<Definition> {
    if s == [] then []
    else Select(s[..|s| - 1], keep) + (if s[|s| - 1].id in keep then [s[|s| - 1]] else [])
  }

  /** Within `s`, a definition that is a parent of another comes before it. */
  ghost predicate ParentsFirst(s: seq<Definition>) {
    forall i, j :: 0 <= i < |s| && 0 <= j < |s| && s[i].id in s[j].parents ==> i < j
  }

  function Reversed<T>(s: seq<T>): seq<T> {
    if s == [] then [] else Reversed(s[1..]) + [s[0]]
  }

  function SetOf(s: seq<int>): set<int> {
    set x | x in s
  }

  lemma {:induction false} IndexMapFacts(s: seq<Definition>)
    ensures IndexMap(s).Keys == Ids(s)
    ensures forall id :: id in IndexMap(s) ==> IndexMap(s)[id] in s && IndexMap(s)[id].id == id
  {
    if s != [] {
      var init, last := s[..|s| - 1], s[|s| - 1];
      IndexMapFacts(init);
      assert s == init + [last];
      forall x ensures x in Ids(s) <==> x in Ids(init) + {last.id} {
        if x in Ids(s) {
          var d :| d in s && d.id == x;
          assert d in init || d == last;
        }
        if x in Ids(init) {
          var d :| d in init && d.id == x;
          assert d in s;
        }
      }
    }
  }

  /** When several definitions share an identifier, the last one is the one the map holds. */
  lemma {:induction false} IndexMapLastWins(s: seq<Definition>, i: int)
    requires 0 <= i < |s|
    requires forall j :: i < j < |s| ==> s[j].id != s[i].id
    ensures s[i].id in IndexMap(s) && IndexMap(s)[s[i].id] == s[i]
  {
    if i < |s| - 1 {
      var init := s[..|s| - 1];
      IndexMapLastWins(init, i);
    }
  }

  lemma {:induction false} SelectMembers(s: seq<Definition>, keep: set<int>)
    ensures forall d :: d in Select(s, keep) <==> d in s && d.id in keep
  {
    if s != [] {
      var init, last := s[..|s| - 1], s[|s| - 1];
      SelectMembers(init, keep);
      assert s == init + [last];
    }
  }

  lemma {:induction false} SelectSelect(s: seq<Definition>, a: set<int>, b: set<int>)
    ensures Select(Select(s, a), b) == Select(s, a * b)
  {
    if s != [] {
      var init, last := s[..|s| - 1], s[|s| - 1];
      SelectSelect(init, a, b);
      var r := Select(init, a);
      if last.id in a {
        assert Select(s, a)[..|Select(s, a)| - 1] == r;
      } else {
        assert Select(s, a) == r;
      }
    }
  }

  /** Keeping every identifier the list holds keeps the list. */
  lemma {:induction false} SelectAll(s: seq<Definition>, keep: set<int>)
    requires Ids(s) <= keep
    ensures Select(s, keep) == s
  {
    if s != [] {
      var init, last := s[..|s| - 1], s[|s| - 1];
      assert s == init + [last];
      assert Ids(init) <= Ids(s) by {
        forall x | x in Ids(init) ensures x in Ids(s) {
          var d :| d in init && d.id == x;
          assert d in s;
        }
      }
      SelectAll(init, keep);
    }
  }

  lemma SelectPrefix(s: seq<Definition>, i: int, keep: set<int>)
    requires 0 <= i < |s|
    ensures Select(s[..i + 1], keep) == Select(s[..i], keep) + (if s[i].id in keep then [s[i]] else [])
  {
    assert s[..i + 1][..i] == s[..i];
  }

  /** Filtering keeps the parents-before-children order of the stored list. */
  lemma {:induction false} SelectParentsFirst(s: seq<Definition>, keep: set<int>)
    requires ParentsFirst(s)
    ensures ParentsFirst(Select(s, keep))
  {
    if s != [] {
      var init, last := s[..|s| - 1], s[|s| - 1];
      assert ParentsFirst(init) by {
        forall i, j | 0 <= i < |init| && 0 <= j < |init| && init[i].id in init[j].parents ensures i < j {
          assert s[i] == init[i] && s[j] == init[j];
        }
      }
      SelectParentsFirst(init, keep);
      SelectMembers(init, keep);
      var r := Select(init, keep);
      if last.id in keep {
        var t := r + [last];
        forall i, j | 0 <= i < |t| && 0 <= j < |t| && t[i].id in t[j].parents ensures i < j {
          if j == |r| && i < |r| {
            assert t[i] in init;
          }
        }
      }
    }
  }

  lemma {:induction false} ReversedAt<T>(s: seq<T>, k: int)
    requires 0 <= k < |s|
    ensures |Reversed(s)| == |s| && Reversed(s)[k] == s[|s| - 1 - k]
  {
    ReversedLength(s);
    if k < |s| - 1 {
      ReversedAt(s[1..], k);
    }
  }

  lemma {:induction false} ReversedLength<T>(s: seq<T>)
    ensures |Reversed(s)| == |s|
  {
    if s != [] {
      ReversedLength(s[1..]);
    }
  }

  // ---------------------------------------------------------------------
  // Construction and lookup
  // ---------------------------------------------------------------------

  /** `newDefinitions`: keep the slice and index it by identifier. */
  method NewDefinitions(migrationDefinitions: seq<Definition>) returns (ds: Definitions)
    ensures ds.definitions == migrationDefinitions && ds.Valid()
    ensures ds.definitionsMap.Keys == Ids(migrationDefinitions)
  {
    var definitionsMap: map<int, Definition> := map[];
    var i := 0;
    while i < |migrationDefinitions|
      invariant 0 <= i <= |migrationDefinitions|
      invariant definitionsMap == IndexMap(migrationDefinitions[..i])
    {
      assert migrationDefinitions[..i + 1][..i] == migrationDefinitions[..i];
      definitionsMap := definitionsMap[migrationDefinitions[i].id := migrationDefinitions[i]];
      i := i + 1;
    }
    assert migrationDefinitions[..i] == migrationDefinitions;
    IndexMapFacts(migrationDefinitions);
    ds := Definitions(migrationDefinitions, definitionsMap);
  }

  /** `GetByID`: the definition stored under `id`, if any. */
  function GetByID(ds: Definitions, id: int): (r: Option<Definition>)
    requires ds.Valid()
    ensures r.Some? <==> id in Ids(ds.definitions)
    ensures r.Some? ==> r.value in ds.definitions && r.value.id == id
  {
    IndexMapFacts(ds.definitions);
    if id in ds.definitionsMap then Some(ds.definitionsMap[id]) else None
  }

  /**
   * `Root`: the first stored definition (Go panics on an empty list). In a
   * list where every parent is defined earlier, it has no parents.
   */
  function Root(ds: Definitions): (r: Definition)
    requires |ds.definitions| > 0
    ensures r in ds.definitions
    ensures ParentsDefinedEarlier(ds.definitions, 0) ==> r.parents == []
  {
    FirstHasNoParents(ds.definitions);
    ds.definitions[0]
  }

  lemma FirstHasNoParents(s: seq<Definition>)
    requires |s| > 0
    ensures ParentsDefinedEarlier(s, 0) ==> s[0].parents == []
  {
    if s[0].parents != [] {
      var p := s[0].parents[0];
      assert p in s[0].parents;
      assert s[..0] == [];
      assert p !in Ids(s[..0]);
    }
  }

  /** Every parent of `s[j]` is the identifier of a definition stored before it. */
  ghost predicate ParentsDefinedEarlier(s: seq<Definition>, j: int)
    requires 0 <= j < |s|
  {
    forall p :: p in s[j].parents ==> p in Ids(s[..j])
  }

  // ---------------------------------------------------------------------
  // Children and leaves
  // ---------------------------------------------------------------------

  /** The `children` helper: identifiers of the definitions that list `id` as a parent, in stored order. */
  function Children(defs: seq<Definition>, id: int): (r: seq<int>)
    ensures forall c :: c in r <==> exists d :: d in defs && d.id == c && id in d.parents
  {
    if defs == [] then []
    else
      var init, last := defs[..|defs| - 1], defs[|defs| - 1];
      assert defs == init + [last];
      Children(init, id) + (if id in last.parents then [last.id] else [])
  }

  /** No stored definition lists `id` as a parent. */
  ghost predicate Childless(defs: seq<Definition>, id: int) {
    forall e :: e in defs ==> id !in e.parents
  }

  ghost function LeafIds(defs: seq<Definition>): set<int> {
    set d | d in defs && Childless(defs, d.id) :: d.id
  }

  lemma ChildlessIff(defs: seq<Definition>, id: int)
    ensures Children(defs, id) == [] <==> Childless(defs, id)
  {
    if Children(defs, id) != [] {
      assert Children(defs, id)[0] in Children(defs, id);
    }
  }

  lemma LeafIdsMember(defs: seq<Definition>, d: Definition)
    requires d in defs
    ensures d.id in LeafIds(defs) <==> Childless(defs, d.id)
  {
    if d.id in LeafIds(defs) {
      var e :| e in defs && Childless(defs, e.id) && e.id == d.id;
    }
  }

  /** `Leaves`: the definitions nobody builds on, in stored order. */
  method Leaves(ds: Definitions) returns (leaves: seq<Definition>)
    ensures leaves == Select(ds.definitions, LeafIds(ds.definitions))
    ensures forall d :: d in leaves <==> d in ds.definitions && Childless(ds.definitions, d.id)
  {
    var defs := ds.definitions;
    leaves := [];
    var i := 0;
    while i < |defs|
      invariant 0 <= i <= |defs|
      invariant leaves == Select(defs[..i], LeafIds(defs))
    {
      var d := defs[i];
      SelectPrefix(defs, i, LeafIds(defs));
      ChildlessIff(defs, d.id);
      LeafIdsMember(defs, d);
      if |Children(defs, d.id)| == 0 {
        leaves := leaves + [d];
      }
      i := i + 1;
    }
    assert defs[..i] == defs;
    SelectMembers(defs, LeafIds(defs));
  }

  // ---------------------------------------------------------------------
  // Reachability
  // ---------------------------------------------------------------------

  /** Which edges `traverse` follows: parents for `Up`, children for `Down`. */
  datatype Direction = TowardParents | TowardChildren

  /** The `next` callback `Up` and `Down` hand to `traverse`. */
  function Next(ds: Definitions, dir: Direction, d: Definition): seq<int> {
    match dir
    case TowardParents => d.parents
    case TowardChildren => Children(ds.definitions, d.id)
  }

  /**
   * `s` holds the targets, and with every defined identifier it holds, the
   * identifiers `next` gives for its definition.
   */
  ghost predicate Closed(ds: Definitions, dir: Direction, targets: seq<int>, s: set<int>) {
    (forall t :: t in targets ==> t in s) &&
    forall id, x :: id in s && id in ds.definitionsMap && x in Next(ds, dir, ds.definitionsMap[id]) ==> x in s
  }

  /** `id` is reachable from the targets: it lies in every closed set. */
  ghost predicate Reachable(ds: Definitions, dir: Direction, targets: seq<int>, id: int) {
    forall s :: Closed(ds, dir, targets, s) ==> id in s
  }

  ghost function ReachableIds(ds: Definitions, dir: Direction, targets: seq<int>): set<int> {
    set id | id in ds.definitionsMap && Reachable(ds, dir, targets, id)
  }

  /** No reachable identifier lacks a definition. */
  ghost predicate AllReachableDefined(ds: Definitions, dir: Direction, targets: seq<int>) {
    forall id :: Reachable(ds, dir, targets, id) ==> id in ds.definitionsMap
  }

  /** A frontier entry of `traverse`: an identifier and the migration that referenced it. */
  datatype Node = Node(id: int, parent: Option<int>)

  function NodeIds(ns: seq<Node>): set<int> {
    set n | n in ns :: n.id
  }

  /** How a frontier entry got there: it is a target, or `next` of a reachable definition. */
  ghost predicate Witnessed(ds: Definitions, dir: Direction, targets: seq<int>, n: Node) {
    match n.parent
    case None => n.id in targets
    case Some(p) =>
      p in ds.definitionsMap && n.id in Next(ds, dir, ds.definitionsMap[p]) && Reachable(ds, dir, targets, p)
  }

  lemma WitnessedReachable(ds: Definitions, dir: Direction, targets: seq<int>, n: Node)
    requires Witnessed(ds, dir, targets, n)
    ensures Reachable(ds, dir, targets, n.id)
  {
    forall s | Closed(ds, dir, targets, s) ensures n.id in s {
      match n.parent
      case None =>
      case Some(p) => assert p in s;
    }
  }

  /** One frontier entry's identifier leaves the pending set once it is visited. */
  lemma NodeIdsSplit(ns: seq<Node>, i: int)
    requires 0 <= i < |ns|
    ensures NodeIds(ns[i..]) == {ns[i].id} + NodeIds(ns[i + 1..])
  {
    assert ns[i..] == [ns[i]] + ns[i + 1..];
  }

  lemma NodeIdsConcat(a: seq<Node>, b: seq<Node>)
    ensures NodeIds(a + b) == NodeIds(a) + NodeIds(b)
  {
    forall y | y in NodeIds(a + b) ensures y in NodeIds(a) + NodeIds(b) {
      var n :| n in a + b && n.id == y;
      if n in a { assert y in NodeIds(a); } else { assert n in b; }
    }
    forall y | y in NodeIds(a) + NodeIds(b) ensures y in NodeIds(a + b) {
      if y in NodeIds(a) {
        var n :| n in a && n.id == y;
        assert n in a + b;
      } else {
        var n :| n in b && n.id == y;
        assert n in a + b;
      }
    }
  }

  lemma StrictSubsetSmaller(a: set<int>, b: set<int>, y: int)
    requires a <= b && y in b && y !in a
    ensures |a| < |b|
  {
    assert b == a + (b - a);
    assert b - a == {y} + (b - a - {y});
  }

  lemma SubsetNotLarger(a: set<int>, b: set<int>)
    requires a <= b
    ensures |a| <= |b|
  {
    assert b == a + (b - a);
  }

  lemma ExploredStart(ds: Definitions, dir: Direction, targets: seq<int>)
    ensures Explored(ds, dir, targets, {}, SetOf(targets))
  {
  }

  /** The nodes `traverse` pushes for the successors of `p`. */
  function Pushed(xs: seq<int>, p: int): (r: seq<Node>)
    ensures |r| == |xs| && NodeIds(r) == SetOf(xs)
    ensures forall k :: 0 <= k < |r| ==> r[k] == Node(xs[k], Some(p))
  {
    var r := seq(|xs|, k requires 0 <= k < |xs| => Node(xs[k], Some(p)));
    assert NodeIds(r) == SetOf(xs) by {
      forall x | x in xs ensures x in NodeIds(r) {
        var k :| 0 <= k < |xs| && xs[k] == x;
        assert r[k] in r;
      }
      forall y | y in NodeIds(r) ensures y in SetOf(xs) {
        var n :| n in r && n.id == y;
        var k :| 0 <= k < |r| && r[k] == n;
        assert xs[k] in xs;
      }
    }
    r
  }

  /**
   * The walk's invariant: the visited identifiers are defined and reachable,
   * and the targets and every successor of a visited definition are visited
   * or still pending.
   */
  ghost predicate Explored(ds: Definitions, dir: Direction, targets: seq<int>, visited: set<int>, pending: set<int>) {
    && visited <= ds.definitionsMap.Keys
    && (forall v :: v in visited ==> Reachable(ds, dir, targets, v))
    && (forall t :: t in targets ==> t in visited || t in pending)
    && (forall v, x :: v in visited && x in Next(ds, dir, ds.definitionsMap[v]) ==> x in visited || x in pending)
  }

  ghost predicate AllWitnessed(ds: Definitions, dir: Direction, targets: seq<int>, ns: seq<Node>) {
    forall n :: n in ns ==> Witnessed(ds, dir, targets, n)
  }

  lemma ExploredSkip(ds: Definitions, dir: Direction, targets: seq<int>, visited: set<int>, id: int, pending: set<int>)
    requires Explored(ds, dir, targets, visited, {id} + pending)
    requires id in visited
    ensures Explored(ds, dir, targets, visited, pending)
  {
  }

  lemma ExploredVisit(ds: Definitions, dir: Direction, targets: seq<int>, visited: set<int>, id: int, pending: set<int>)
    requires Explored(ds, dir, targets, visited, {id} + pending)
    requires id in ds.definitionsMap && Reachable(ds, dir, targets, id)
    ensures Explored(ds, dir, targets, visited + {id}, pending + SetOf(Next(ds, dir, ds.definitionsMap[id])))
  {
  }

  lemma ExploredDone(ds: Definitions, dir: Direction, targets: seq<int>, visited: set<int>)
    requires Explored(ds, dir, targets, visited, {})
    ensures visited == ReachableIds(ds, dir, targets)
    ensures AllReachableDefined(ds, dir, targets)
  {
    assert Closed(ds, dir, targets, visited);
  }

  /** Start of the walk: every target is pending, referenced by nobody. */
  method InitialFrontier(ds: Definitions, dir: Direction, targetIDs: seq<int>) returns (frontier: seq<Node>)
    ensures NodeIds(frontier) == SetOf(targetIDs)
    ensures AllWitnessed(ds, dir, targetIDs, frontier)
  {
    frontier := [];
    var k := 0;
    while k < |targetIDs|
      invariant 0 <= k <= |targetIDs| && |frontier| == k
      invariant forall j :: 0 <= j < k ==> frontier[j] == Node(targetIDs[j], None)
    {
      frontier := frontier + [Node(targetIDs[k], None)];
      k := k + 1;
    }
    assert NodeIds(frontier) == SetOf(targetIDs) by {
      forall t | t in targetIDs ensures t in NodeIds(frontier) {
        var j :| 0 <= j < |targetIDs| && targetIDs[j] == t;
        assert frontier[j] in frontier;
      }
    }
  }

  /** The last loop of `traverse`: the visited definitions, in stored order. */
  method SelectVisited(defs: seq<Definition>, visited: set<int>) returns (filtered: seq<Definition>)
    ensures filtered == Select(defs, visited)
  {
    filtered := [];
    var j := 0;
    while j < |defs|
      invariant 0 <= j <= |defs|
      invariant filtered == Select(defs[..j], visited)
    {
      SelectPrefix(defs, j, visited);
      if defs[j].id in visited {
        filtered := filtered + [defs[j]];
      }
      j := j + 1;
    }
    assert defs[..j] == defs;
  }

  /** The inner loop's invariant after the first `i` entries of a round. */
  ghost predicate RoundInv(ds: Definitions, dir: Direction, targets: seq<int>, frontier: seq<Node>, i: int,
                           visited0: set<int>, visited: set<int>, newFrontier: seq<Node>)
  {
    && 0 <= i <= |frontier|
    && visited0 <= visited
    && (newFrontier != [] ==> exists y :: y in visited && y !in visited0)
    && Explored(ds, dir, targets, visited, NodeIds(frontier[i..]) + NodeIds(newFrontier))
    && AllWitnessed(ds, dir, targets, newFrontier)
  }

  lemma RoundStart(ds: Definitions, dir: Direction, targets: seq<int>, frontier: seq<Node>, visited0: set<int>)
    requires Explored(ds, dir, targets, visited0, NodeIds(frontier))
    ensures RoundInv(ds, dir, targets, frontier, 0, visited0, visited0, [])
  {
    assert frontier[0..] == frontier;
    assert NodeIds([]) == {};
  }

  lemma RoundEnd(ds: Definitions, dir: Direction, targets: seq<int>, frontier: seq<Node>,
                 visited0: set<int>, visited: set<int>, newFrontier: seq<Node>)
    requires RoundInv(ds, dir, targets, frontier, |frontier|, visited0, visited, newFrontier)
    ensures RoundInv(ds, dir, targets, [], 0, visited0, visited, newFrontier)
  {
    assert frontier[|frontier|..] == [];
    assert NodeIds(frontier[|frontier|..]) == {};
    var empty: seq<Node> := [];
    assert empty[0..] == [];
  }

  lemma RoundDone(ds: Definitions, dir: Direction, targets: seq<int>,
                  visited0: set<int>, visited: set<int>, newFrontier: seq<Node>)
    requires RoundInv(ds, dir, targets, [], 0, visited0, visited, newFrontier)
    ensures Explored(ds, dir, targets, visited, NodeIds(newFrontier))
    ensures visited0 <= visited
    ensures newFrontier != [] ==> exists y :: y in visited && y !in visited0
  {
    var empty: seq<Node> := [];
    assert empty[0..] == [];
    assert NodeIds(empty) == {};
  }

  /** An entry already visited is dropped. */
  lemma RoundSkip(ds: Definitions, dir: Direction, targets: seq<int>, frontier: seq<Node>, i: int,
                  visited0: set<int>, visited: set<int>, newFrontier: seq<Node>)
    requires RoundInv(ds, dir, targets, frontier, i, visited0, visited, newFrontier)
    requires i < |frontier| && frontier[i].id in visited
    ensures RoundInv(ds, dir, targets, frontier, i + 1, visited0, visited, newFrontier)
  {
    NodeIdsSplit(frontier, i);
    var rest := NodeIds(frontier[i + 1..]) + NodeIds(newFrontier);
    assert NodeIds(frontier[i..]) + NodeIds(newFrontier) == {frontier[i].id} + rest;
    ExploredSkip(ds, dir, targets, visited, frontier[i].id, rest);
  }

  /** A fresh entry is marked visited and its successors are pushed. */
  lemma RoundVisit(ds: Definitions, dir: Direction, targets: seq<int>, frontier: seq<Node>, i: int,
                   visited0: set<int>, visited: set<int>, newFrontier: seq<Node>, pushed: seq<Node>)
    requires RoundInv(ds, dir, targets, frontier, i, visited0, visited, newFrontier)
    requires AllWitnessed(ds, dir, targets, frontier)
    requires i < |frontier| && frontier[i].id !in visited && frontier[i].id in ds.definitionsMap
    requires pushed == Pushed(Next(ds, dir, ds.definitionsMap[frontier[i].id]), frontier[i].id)
    ensures RoundInv(ds, dir, targets, frontier, i + 1, visited0, visited + {frontier[i].id}, newFrontier + pushed)
  {
    var n := frontier[i];
    assert n in frontier;
    WitnessedReachable(ds, dir, targets, n);
    NodeIdsSplit(frontier, i);
    var later, queued := NodeIds(frontier[i + 1..]), NodeIds(newFrontier);
    var next := SetOf(Next(ds, dir, ds.definitionsMap[n.id]));
    assert NodeIds(frontier[i..]) + queued == {n.id} + (later + queued);
    ExploredVisit(ds, dir, targets, visited, n.id, later + queued);
    NodeIdsConcat(newFrontier, pushed);
    assert later + queued + next == later + NodeIds(newFrontier + pushed);
    PushedWitnessed(ds, dir, targets, n.id, pushed);
    AllWitnessedConcat(ds, dir, targets, newFrontier, pushed);
    assert n.id in visited + {n.id} && n.id !in visited0;
  }

  lemma AllWitnessedConcat(ds: Definitions, dir: Direction, targets: seq<int>, a: seq<Node>, b: seq<Node>)
    requires AllWitnessed(ds, dir, targets, a) && AllWitnessed(ds, dir, targets, b)
    ensures AllWitnessed(ds, dir, targets, a + b)
  {
  }

  lemma PushedWitnessed(ds: Definitions, dir: Direction, targets: seq<int>, p: int, pushed: seq<Node>)
    requires p in ds.definitionsMap && Reachable(ds, dir, targets, p)
    requires pushed == Pushed(Next(ds, dir, ds.definitionsMap[p]), p)
    ensures AllWitnessed(ds, dir, targets, pushed)
  {
    forall q | q in pushed ensures Witnessed(ds, dir, targets, q) {
      var k :| 0 <= k < |pushed| && pushed[k] == q;
    }
  }

  /** What one round has built so far: the visited set and the next frontier. */
  datatype RoundState = RoundState(visited: set<int>, newFrontier: seq<Node>)

  /**
   * The effect of processing the entries `ns` of a round in order, starting
   * from `visited0`; `Err(n)` names the first entry without a definition.
   */
  ghost function Round(ds: Definitions, dir: Direction, ns: seq<Node>, visited0: set<int>): Result<RoundState, Node>
    decreases |ns|
  {
    if ns == [] then Ok(RoundState(visited0, []))
    else
      match Round(ds, dir, ns[..|ns| - 1], visited0)
      case Err(n) => Err(n)
      case Ok(st) =>
        var n := ns[|ns| - 1];
        if n.id in st.visited then Ok(st)
        else if n.id !in ds.definitionsMap then Err(n)
        else Ok(RoundState(st.visited + {n.id},
                           st.newFrontier + Pushed(Next(ds, dir, ds.definitionsMap[n.id]), n.id)))
  }

  /** Once an undefined entry is met, the rest of the round does not change the outcome. */
  lemma {:induction false} RoundErrPersists(ds: Definitions, dir: Direction, ns: seq<Node>, k: int, visited0: set<int>)
    requires 0 <= k <= |ns| && Round(ds, dir, ns[..k], visited0).Err?
    ensures Round(ds, dir, ns, visited0) == Round(ds, dir, ns[..k], visited0)
    decreases |ns| - k
  {
    if k < |ns| {
      assert ns[..k + 1][..k] == ns[..k];
      RoundErrPersists(ds, dir, ns, k + 1, visited0);
    } else {
      assert ns[..k] == ns;
    }
  }

  /** A round keeps the walk's invariant, and a reported entry really is undefined. */
  lemma {:induction false} RoundSound(ds: Definitions, dir: Direction, targets: seq<int>, frontier: seq<Node>, k: int,
                                      visited0: set<int>)
    requires 0 <= k <= |frontier|
    requires Explored(ds, dir, targets, visited0, NodeIds(frontier))
    requires AllWitnessed(ds, dir, targets, frontier)
    ensures Round(ds, dir, frontier[..k], visited0).Ok? ==>
      var st := Round(ds, dir, frontier[..k], visited0).value;
      RoundInv(ds, dir, targets, frontier, k, visited0, st.visited, st.newFrontier)
    ensures Round(ds, dir, frontier[..k], visited0).Err? ==>
      var n := Round(ds, dir, frontier[..k], visited0).error;
      n in frontier && n.id !in ds.definitionsMap
  {
    if k == 0 {
      assert frontier[..0] == [];
      RoundStart(ds, dir, targets, frontier, visited0);
    } else {
      RoundSound(ds, dir, targets, frontier, k - 1, visited0);
      assert frontier[..k][..k - 1] == frontier[..k - 1];
      var n := frontier[k - 1];
      assert frontier[..k][k - 1] == n;
      match Round(ds, dir, frontier[..k - 1], visited0)
      case Err(_) =>
      case Ok(st) =>
        if n.id in st.visited {
          RoundSkip(ds, dir, targets, frontier, k - 1, visited0, st.visited, st.newFrontier);
        } else if n.id in ds.definitionsMap {
          var pushed := Pushed(Next(ds, dir, ds.definitionsMap[n.id]), n.id);
          RoundVisit(ds, dir, targets, frontier, k - 1, visited0, st.visited, st.newFrontier, pushed);
        } else {
          assert n in frontier;
        }
    }
  }

  /**
   * One round of `traverse`: each frontier entry not yet visited is marked
   * visited and its successors form the next frontier; an entry without a
   * definition ends the walk and is reported.
   */
  method VisitRound(ds: Definitions, dir: Direction, frontier: seq<Node>, visited0: set<int>)
    returns (visited: set<int>, newFrontier: seq<Node>, missing: Option<Node>)
    requires ds.Valid()
    ensures missing.None? ==> Round(ds, dir, frontier, visited0) == Ok(RoundState(visited, newFrontier))
    ensures missing.Some? ==> Round(ds, dir, frontier, visited0) == Err(missing.value)
  {
    IndexMapFacts(ds.definitions);
    visited := visited0;
    newFrontier := [];
    var i := 0;
    while i < |frontier|
      invariant 0 <= i <= |frontier|
      invariant Round(ds, dir, frontier[..i], visited0) == Ok(RoundState(visited, newFrontier))
    {
      assert frontier[..i + 1][..i] == frontier[..i];
      var n := frontier[i];
      if n.id !in visited {
        var found := GetByID(ds, n.id);
        if found.None? {
          assert frontier[..i + 1][i] == n;
          RoundErrPersists(ds, dir, frontier, i + 1, visited0);
          return visited + {n.id}, newFrontier, Some(n);
        }
        var pushed := Pushed(Next(ds, dir, found.value), n.id);
        visited := visited + {n.id};
        newFrontier := newFrontier + pushed;
      }
      i := i + 1;
    }
    assert frontier[..i] == frontier;
    missing := None;
  }

  /** What a round means for the walk: the invariant again and progress, or a reportable error. */
  lemma RoundOutcome(ds: Definitions, dir: Direction, targets: seq<int>, frontier: seq<Node>, visited0: set<int>)
    requires ds.definitionsMap.Keys == Ids(ds.definitions)
    requires Explored(ds, dir, targets, visited0, NodeIds(frontier))
    requires AllWitnessed(ds, dir, targets, frontier)
    ensures Round(ds, dir, frontier, visited0).Err? ==>
      var n := Round(ds, dir, frontier, visited0).error;
      n.id !in Ids(ds.definitions) && Witnessed(ds, dir, targets, n) && !AllReachableDefined(ds, dir, targets)
    ensures Round(ds, dir, frontier, visited0).Ok? ==>
      var st := Round(ds, dir, frontier, visited0).value;
      && Explored(ds, dir, targets, st.visited, NodeIds(st.newFrontier))
      && AllWitnessed(ds, dir, targets, st.newFrontier)
      && (|ds.definitionsMap.Keys - st.visited| < |ds.definitionsMap.Keys - visited0| ||
          (st.newFrontier == [] && |ds.definitionsMap.Keys - st.visited| <= |ds.definitionsMap.Keys - visited0|))
  {
    RoundSound(ds, dir, targets, frontier, |frontier|, visited0);
    assert frontier[..|frontier|] == frontier;
    match Round(ds, dir, frontier, visited0)
    case Err(n) =>
      assert n in frontier;
      WitnessedReachable(ds, dir, targets, n);
    case Ok(st) =>
      RoundEnd(ds, dir, targets, frontier, visited0, st.visited, st.newFrontier);
      RoundDone(ds, dir, targets, visited0, st.visited, st.newFrontier);
      if st.newFrontier != [] {
        var y :| y in st.visited && y !in visited0;
        StrictSubsetSmaller(ds.definitionsMap.Keys - st.visited, ds.definitionsMap.Keys - visited0, y);
      } else {
        SubsetNotLarger(ds.definitionsMap.Keys - st.visited, ds.definitionsMap.Keys - visited0);
      }
  }

  /**
   * `traverse`: a breadth-first walk from the targets along `next`, then the
   * visited definitions in stored order. An identifier without a definition
   * stops the walk with an error naming it and the migration that referenced it.
   */
  method Traverse(ds: Definitions, targetIDs: seq<int>, dir: Direction) returns (res: Result<seq<Definition>, DefError>)
    requires ds.Valid()
    ensures res.Ok? <==> AllReachableDefined(ds, dir, targetIDs)
    ensures res.Ok? ==> res.value == Select(ds.definitions, ReachableIds(ds, dir, targetIDs))
    ensures res.Err? ==> res.error.UnknownMigration? && res.error.id !in Ids(ds.definitions)
    ensures res.Err? ==> Witnessed(ds, dir, targetIDs, Node(res.error.id, res.error.parent))
  {
    IndexMapFacts(ds.definitions);
    var frontier := InitialFrontier(ds, dir, targetIDs);
    var visited: set<int> := {};
    ExploredStart(ds, dir, targetIDs);
    while |frontier| > 0
      invariant Explored(ds, dir, targetIDs, visited, NodeIds(frontier))
      invariant AllWitnessed(ds, dir, targetIDs, frontier)
      decreases |ds.definitionsMap.Keys - visited|, |frontier|
    {
      ghost var visited0 := visited;
      var newFrontier, missing;
      visited, newFrontier, missing := VisitRound(ds, dir, frontier, visited);
      RoundOutcome(ds, dir, targetIDs, frontier, visited0);
      if missing.Some? {
        return Err(UnknownMigration(missing.value.id, missing.value.parent));
      }
      frontier := newFrontier;
    }

    assert NodeIds(frontier) == {};
    ExploredDone(ds, dir, targetIDs, visited);
    var filtered := SelectVisited(ds.definitions, visited);
    return Ok(filtered);
  }

  /**
   * One round of `traverse` as written: `&n.id` is the address of the range
   * variable `n`, which Go before 1.22 shares across the iterations, so
   * once the round is over every node it pushed names the round's last
   * entry as its parent.
   */
  ghost function RoundAsWritten(ds: Definitions, dir: Direction, ns: seq<Node>, visited0: set<int>): Result<RoundState, Node>
  {
    match Round(ds, dir, ns, visited0)
    case Err(n) => Err(n)
    case Ok(st) =>
      if ns == [] then Ok(st)
      else Ok(st.(newFrontier := seq(|st.newFrontier|, k requires 0 <= k < |st.newFrontier| =>
                                       Node(st.newFrontier[k].id, Some(ns[|ns| - 1].id)))))
  }

  /**
   * Targets 1 and 2, where 1 builds on the undefined 99: the next round
   * reports 99 as referenced from 2, the last target, which does not
   * reference it; the walk `Traverse` models names 1.
   */
  lemma AliasedParentMisreported()
    ensures var d1, d2 := Definition(1, "", "", "", "", [99]), Definition(2, "", "", "", "", []);
      var ds := Definitions([d1, d2], map[1 := d1, 2 := d2]);
      var start := [Node(1, None), Node(2, None)];
      && ds.Valid()
      && Round(ds, TowardParents, start, {}) == Ok(RoundState({1, 2}, [Node(99, Some(1))]))
      && RoundAsWritten(ds, TowardParents, start, {}) == Ok(RoundState({1, 2}, [Node(99, Some(2))]))
      && Round(ds, TowardParents, [Node(99, Some(2))], {1, 2}) == Err(Node(99, Some(2)))
      && Witnessed(ds, TowardParents, [1, 2], Node(99, Some(1)))
      && !Witnessed(ds, TowardParents, [1, 2], Node(99, Some(2)))
  {
    var d1, d2 := Definition(1, "", "", "", "", [99]), Definition(2, "", "", "", "", []);
    var ds := Definitions([d1, d2], map[1 := d1, 2 := d2]);
    assert ds.Valid() by {
      assert [d1][..0] == [];
      assert IndexMap([d1]) == map[1 := d1];
      assert [d1, d2][..1] == [d1];
      assert IndexMap([d1, d2]) == map[1 := d1][2 := d2];
    }
    var start := [Node(1, None), Node(2, None)];
    assert Round(ds, TowardParents, start, {}) == Ok(RoundState({1, 2}, [Node(99, Some(1))])) by {
      var s1 := [Node(1, None)];
      assert ds.definitionsMap[1] == d1 && Next(ds, TowardParents, d1) == [99];
      assert s1[..|s1| - 1] == [] && s1[|s1| - 1] == Node(1, None);
      assert Round(ds, TowardParents, s1[..|s1| - 1], {}) == Ok(RoundState({}, []));
      assert Pushed(Next(ds, TowardParents, ds.definitionsMap[1]), 1) == [Node(99, Some(1))];
      assert Round(ds, TowardParents, s1, {}).Ok?;
      assert Round(ds, TowardParents, s1, {}).value.visited == {1};
      assert Round(ds, TowardParents, s1, {}).value.newFrontier == [] + Pushed(Next(ds, TowardParents, ds.definitionsMap[1]), 1);
      assert [] + [Node(99, Some(1))] == [Node(99, Some(1))];
      assert Round(ds, TowardParents, s1, {}) == Ok(RoundState({1}, [Node(99, Some(1))]));
      assert ds.definitionsMap[2] == d2 && Next(ds, TowardParents, d2) == [];
      assert start[..|start| - 1] == s1 && start[|start| - 1] == Node(2, None);
      assert 2 !in {1} && 2 in ds.definitionsMap;
      assert Round(ds, TowardParents, start, {}).Ok?;
      assert Round(ds, TowardParents, start, {}).value.visited == {1} + {2} == {1, 2};
      assert Round(ds, TowardParents, start, {}).value.newFrontier ==
        [Node(99, Some(1))] + Pushed(Next(ds, TowardParents, ds.definitionsMap[2]), 2);
      assert [Node(99, Some(1))] + [] == [Node(99, Some(1))];
    }
    assert RoundAsWritten(ds, TowardParents, start, {}) == Ok(RoundState({1, 2}, [Node(99, Some(2))])) by {
      var aliased := RoundAsWritten(ds, TowardParents, start, {});
      assert aliased.Ok? && |aliased.value.newFrontier| == 1;
      assert aliased.value.newFrontier[0] == Node(99, Some(2)) && aliased.value.visited == {1, 2};
      assert aliased.value.newFrontier == [Node(99, Some(2))];
    }
    var one := [Node(99, Some(2))];
    assert one[..|one| - 1] == [] && one[|one| - 1] == Node(99, Some(2));
    assert Round(ds, TowardParents, one, {1, 2}) == Err(Node(99, Some(2)));
    TargetsReachable(ds, TowardParents, [1, 2], 1);
    assert Witnessed(ds, TowardParents, [1, 2], Node(99, Some(1)));
    assert !Witnessed(ds, TowardParents, [1, 2], Node(99, Some(2)));
  }

  // ---------------------------------------------------------------------
  // Planning: Up and Down
  // ---------------------------------------------------------------------

  /** The set a `map[int]struct{}` built from `ids` holds. */
  method ToSet(ids: seq<int>) returns (m: set<int>)
    ensures m == SetOf(ids)
  {
    m := {};
    var i := 0;
    while i < |ids|
      invariant 0 <= i <= |ids|
      invariant m == SetOf(ids[..i])
    {
      assert ids[..i + 1] == ids[..i] + [ids[i]];
      m := m + {ids[i]};
      i := i + 1;
    }
    assert ids[..i] == ids;
  }

  /**
   * `Up`: the targets and their ancestors that are not applied yet, in stored
   * order; the walk's error is passed on unchanged.
   */
  method Up(ds: Definitions, appliedIDs: seq<int>, targetIDs: seq<int>) returns (res: Result<seq<Definition>, DefError>)
    requires ds.Valid()
    ensures res.Ok? <==> AllReachableDefined(ds, TowardParents, targetIDs)
    ensures res.Ok? ==>
      res.value == Select(ds.definitions, ReachableIds(ds, TowardParents, targetIDs) - SetOf(appliedIDs))
    ensures res.Err? ==> res.error.UnknownMigration? && res.error.id !in Ids(ds.definitions)
    ensures res.Err? ==> Witnessed(ds, TowardParents, targetIDs, Node(res.error.id, res.error.parent))
  {
    var traversed := Traverse(ds, targetIDs, TowardParents);
    if traversed.Err? {
      return Err(traversed.error);
    }
    var definitions := traversed.value;
    ghost var reach := ReachableIds(ds, TowardParents, targetIDs);
    SelectMembers(ds.definitions, reach);
    var appliedMap := ToSet(appliedIDs);
    var filtered: seq<Definition> := [];
    var i := 0;
    while i < |definitions|
      invariant 0 <= i <= |definitions|
      invariant filtered == Select(definitions[..i], reach - appliedMap)
    {
      SelectPrefix(definitions, i, reach - appliedMap);
      assert definitions[i] in definitions;
      if definitions[i].id !in appliedMap {
        filtered := filtered + [definitions[i]];
      }
      i := i + 1;
    }
    assert definitions[..i] == definitions;
    SelectSelect(ds.definitions, reach, reach - appliedMap);
    assert reach * (reach - appliedMap) == reach - appliedMap;
    return Ok(filtered);
  }

  /**
   * `Down`: the applied descendants of the targets, without the targets
   * themselves, in reverse stored order (the last loop swaps in place).
   */
  method Down(ds: Definitions, appliedIDs: seq<int>, targetIDs: seq<int>) returns (res: Result<seq<Definition>, DefError>)
    requires ds.Valid()
    ensures res.Ok? <==> AllReachableDefined(ds, TowardChildren, targetIDs)
    ensures res.Ok? ==>
      res.value == Reversed(Select(ds.definitions,
        (ReachableIds(ds, TowardChildren, targetIDs) - SetOf(targetIDs)) * SetOf(appliedIDs)))
    ensures res.Err? ==> res.error.UnknownMigration? && res.error.id !in Ids(ds.definitions)
    ensures res.Err? ==> Witnessed(ds, TowardChildren, targetIDs, Node(res.error.id, res.error.parent))
  {
    var traversed := Traverse(ds, targetIDs, TowardChildren);
    if traversed.Err? {
      return Err(traversed.error);
    }
    var definitions := traversed.value;
    ghost var reach := ReachableIds(ds, TowardChildren, targetIDs);
    SelectMembers(ds.definitions, reach);
    var targetMap := ToSet(targetIDs);
    var appliedMap := ToSet(appliedIDs);
    ghost var keep := (reach - targetMap) * appliedMap;
    var filtered: seq<Definition> := [];
    var i := 0;
    while i < |definitions|
      invariant 0 <= i <= |definitions|
      invariant filtered == Select(definitions[..i], keep)
    {
      SelectPrefix(definitions, i, keep);
      assert definitions[i] in definitions;
      if definitions[i].id !in targetMap && definitions[i].id in appliedMap {
        filtered := filtered + [definitions[i]];
      }
      i := i + 1;
    }
    assert definitions[..i] == definitions;
    SelectSelect(ds.definitions, reach, keep);
    assert reach * keep == keep;

    var slice := new Definition[|filtered|](k requires 0 <= k < |filtered| => filtered[k]);
    assert slice[..] == filtered;
    ReverseInPlace(slice);
    return Ok(slice[..]);
  }

  /** The swap loop at the end of `Down`: reverses the slice in place. */
  method ReverseInPlace<T>(a: array<T>)
    modifies a
    ensures a[..] == Reversed(old(a[..]))
  {
    var n := a.Length;
    var i, j := 0, n - 1;
    while i < j
      invariant 0 <= i <= n && j == n - 1 - i
      invariant forall k :: 0 <= k < i ==> a[k] == old(a[n - 1 - k]) && a[n - 1 - k] == old(a[k])
      invariant forall k :: i <= k < n - i ==> a[k] == old(a[k])
    {
      a[i], a[j] := a[j], a[i];
      i, j := i + 1, j - 1;
    }
    ghost var was := old(a[..]);
    ReversedLength(was);
    forall k | 0 <= k < n ensures a[k] == Reversed(was)[k] {
      ReversedAt(was, k);
    }
  }

  // ---------------------------------------------------------------------
  // Properties of the plans
  // ---------------------------------------------------------------------

  lemma {:induction false} SelectNone(s: seq<Definition>, keep: set<int>)
    requires forall d :: d in s ==> d.id !in keep
    ensures Select(s, keep) == []
  {
    if s != [] {
      assert s[|s| - 1] in s;
      assert forall d :: d in s[..|s| - 1] ==> d in s;
      SelectNone(s[..|s| - 1], keep);
    }
  }

  /** The targets are always part of what is reachable from them. */
  lemma TargetsReachable(ds: Definitions, dir: Direction, targets: seq<int>, t: int)
    requires t in targets
    ensures Reachable(ds, dir, targets, t)
  {
  }

  /** With no targets nothing is reachable, so `Up` and `Down` plan nothing. */
  lemma NoTargetsNoPlan(ds: Definitions, dir: Direction)
    ensures AllReachableDefined(ds, dir, [])
    ensures ReachableIds(ds, dir, []) == {}
    ensures Select(ds.definitions, ReachableIds(ds, dir, [])) == []
  {
    assert Closed(ds, dir, [], {});
    SelectNone(ds.definitions, {});
  }

  /**
   * When the applied set holds the targets and the parents of each applied
   * definition, `Up` has nothing left to apply.
   */
  lemma AppliedAncestorsNoPlan(ds: Definitions, appliedIDs: seq<int>, targetIDs: seq<int>)
    requires Closed(ds, TowardParents, targetIDs, SetOf(appliedIDs))
    ensures Select(ds.definitions, ReachableIds(ds, TowardParents, targetIDs) - SetOf(appliedIDs)) == []
  {
    assert ReachableIds(ds, TowardParents, targetIDs) <= SetOf(appliedIDs);
    SelectNone(ds.definitions, ReachableIds(ds, TowardParents, targetIDs) - SetOf(appliedIDs));
  }

  /** `Up` returns parents before children when the stored list does. */
  lemma UpParentsFirst(ds: Definitions, appliedIDs: seq<int>, targetIDs: seq<int>)
    requires ParentsFirst(ds.definitions)
    ensures ParentsFirst(Select(ds.definitions, ReachableIds(ds, TowardParents, targetIDs) - SetOf(appliedIDs)))
  {
    SelectParentsFirst(ds.definitions, ReachableIds(ds, TowardParents, targetIDs) - SetOf(appliedIDs));
  }

  /** `Down` returns children before parents when the stored list is parents-first. */
  lemma DownChildrenFirst(s: seq<Definition>, keep: set<int>)
    requires ParentsFirst(s)
    ensures var r := Reversed(Select(s, keep));
      forall i, j :: 0 <= i < |r| && 0 <= j < |r| && r[i].id in r[j].parents ==> j < i
  {
    var f := Select(s, keep);
    SelectParentsFirst(s, keep);
    var r := Reversed(f);
    ReversedLength(f);
    forall i, j | 0 <= i < |r| && 0 <= j < |r| && r[i].id in r[j].parents ensures j < i {
      ReversedAt(f, i);
      ReversedAt(f, j);
    }
  }

  // ---------------------------------------------------------------------
  // intersect
  // ---------------------------------------------------------------------

  /** `x` occurs in every list of `bs`. */
  ghost predicate InAll(x: int, bs: seq<seq<int>>) {
    forall k :: 0 <= k < |bs| ==> x in bs[k]
  }

  /** The elements of `a` that occur in every list of `bs`, in `a`'s order. */
  ghost function CommonTo(a: seq<int>, bs: seq<seq<int>>): seq<int> {
    if a == [] then []
    else CommonTo(a[..|a| - 1], bs) + (if InAll(a[|a| - 1], bs) then [a[|a| - 1]] else [])
  }

  /** The elements of `a` in `b`, in `a`'s order. */
  ghost function KeepIn(a: seq<int>, b: set<int>): seq<int> {
    if a == [] then [] else KeepIn(a[..|a| - 1], b) + (if a[|a| - 1] in b then [a[|a| - 1]] else [])
  }

  lemma {:induction false} CommonToMembers(a: seq<int>, bs: seq<seq<int>>)
    ensures forall x :: x in CommonTo(a, bs) <==> x in a && InAll(x, bs)
  {
    if a != [] {
      CommonToMembers(a[..|a| - 1], bs);
      assert a == a[..|a| - 1] + [a[|a| - 1]];
    }
  }

  /** With no other lists, `intersect` copies `a`. */
  lemma {:induction false} CommonToNone(a: seq<int>)
    ensures CommonTo(a, []) == a
  {
    if a != [] {
      CommonToNone(a[..|a| - 1]);
      assert a == a[..|a| - 1] + [a[|a| - 1]];
    }
  }

  lemma {:induction false} CommonToStep(a: seq<int>, bs: seq<seq<int>>, b: seq<int>)
    ensures KeepIn(CommonTo(a, bs), SetOf(b)) == CommonTo(a, bs + [b])
  {
    if a != [] {
      var init, last := a[..|a| - 1], a[|a| - 1];
      CommonToStep(init, bs, b);
      assert InAll(last, bs + [b]) <==> InAll(last, bs) && last in b by {
        assert (bs + [b])[|bs|] == b;
        assert forall k :: 0 <= k < |bs| ==> (bs + [b])[k] == bs[k];
      }
      var c := CommonTo(init, bs);
      assert CommonTo(a, bs) == c + (if InAll(last, bs) then [last] else []);
      assert CommonTo(a, bs + [b]) == CommonTo(init, bs + [b]) + (if InAll(last, bs + [b]) then [last] else []);
      if InAll(last, bs) {
        assert (c + [last])[..|c|] == c;
        assert KeepIn(c + [last], SetOf(b)) == KeepIn(c, SetOf(b)) + (if last in SetOf(b) then [last] else []);
      } else {
        assert !InAll(last, bs + [b]);
        assert CommonTo(a, bs) == c;
        assert CommonTo(a, bs + [b]) == CommonTo(init, bs + [b]);
      }
    }
  }

  /** `intersect`: the elements of `a` found in every `b`, in `a`'s order; `a` itself is left alone. */
  method Intersect(a: seq<int>, bs: seq<seq<int>>) returns (r: seq<int>)
    ensures r == CommonTo(a, bs)
    ensures forall x :: x in r <==> x in a && InAll(x, bs)
  {
    var aCopy := a;
    CommonToNone(a);
    var k := 0;
    while k < |bs|
      invariant 0 <= k <= |bs|
      invariant aCopy == CommonTo(a, bs[..k])
    {
      var bMap := ToSet(bs[k]);
      var filtered: seq<int> := [];
      var j := 0;
      while j < |aCopy|
        invariant 0 <= j <= |aCopy|
        invariant filtered == KeepIn(aCopy[..j], bMap)
      {
        assert aCopy[..j + 1][..j] == aCopy[..j];
        if aCopy[j] in bMap {
          filtered := filtered + [aCopy[j]];
        }
        j := j + 1;
      }
      assert aCopy[..j] == aCopy;
      CommonToStep(a, bs[..k], bs[k]);
      assert bs[..k + 1] == bs[..k] + [bs[k]];
      aCopy := filtered;
      k := k + 1;
    }
    assert bs[..k] == bs;
    CommonToMembers(a, bs);
    r := aCopy;
  }

  // ---------------------------------------------------------------------
  // Filter
  // ---------------------------------------------------------------------

  /** Some parent of `d` is among `ids`. */
  ghost predicate HasParentIn(d: Definition, ids: set<int>) {
    exists p :: p in d.parents && p in ids
  }

  /**
   * `Filter`: the definitions whose identifiers are listed, in stored order,
   * as a new `Definitions`; refused when a kept definition has a parent that
   * is also listed.
   */
  method Filter(ds: Definitions, ids: seq<int>) returns (res: Result<Definitions, DefError>)
    ensures res.Err? <==> exists d :: d in ds.definitions && d.id in SetOf(ids) && HasParentIn(d, SetOf(ids))
    ensures res.Err? ==> res.error == OutstandingReferences
    ensures res.Ok? ==> res.value.Valid() && res.value.definitions == Select(ds.definitions, SetOf(ids))
  {
    var idMap := ToSet(ids);
    var filtered := SelectVisited(ds.definitions, idMap);
    SelectMembers(ds.definitions, idMap);
    var i := 0;
    while i < |filtered|
      invariant 0 <= i <= |filtered|
      invariant forall k :: 0 <= k < i ==> !HasParentIn(filtered[k], idMap)
    {
      var parents := filtered[i].parents;
      var j := 0;
      while j < |parents|
        invariant 0 <= j <= |parents|
        invariant forall q :: 0 <= q < j ==> parents[q] !in idMap
      {
        if parents[j] in idMap {
          var p := parents[j];
          assert filtered[i] in filtered && p in filtered[i].parents && p in idMap;
          assert HasParentIn(filtered[i], idMap);
          return Err(OutstandingReferences);
        }
        j := j + 1;
      }
      i := i + 1;
    }
    assert forall d :: d in filtered ==> !HasParentIn(d, idMap) by {
      forall d | d in filtered ensures !HasParentIn(d, idMap) {
        var k :| 0 <= k < |filtered| && filtered[k] == d;
      }
    }
    var result := NewDefinitions(filtered);
    return Ok(result);
  }

  /**
   * Listing more identifiers than there are definitions makes `Filter` panic
   * before it filters: the capacity it passes to `make`, the stored count
   * minus the listed count, is negative, and Go's `make` panics on that.
   */
  lemma FilterCapacityPanics()
    ensures var ds := Definitions([Definition(1, "", "", "", "", [])], map[1 := Definition(1, "", "", "", "", [])]);
      var ids := [1, 2];
      ds.Valid() && |ds.definitions| - |ids| < 0
  {
  }

  /** What that call evidently means: keep definition 1, which refers to nothing listed. */
  lemma FilterWithExtraIds()
    ensures var d := Definition(1, "", "", "", "", []);
      Select([d], SetOf([1, 2])) == [d] && !HasParentIn(d, SetOf([1, 2]))
  {
    var d := Definition(1, "", "", "", "", []);
    assert [d][..0] == [];
  }

  // ---------------------------------------------------------------------
  // LeafDominator
  // ---------------------------------------------------------------------

  /** A Go map read: a missing key gives the nil (empty) slice. */
  function Lookup(m: map<int, seq<int>>, id: int): seq<int> {
    if id in m then m[id] else []
  }

  /** The dominator lists of the parents after the first, as `LeafDominator` collects them. */
  function LaterParentLists(m: map<int, seq<int>>, parents: seq<int>): (r: seq<seq<int>>)
    ensures |r| == |parents| && forall k :: 0 <= k < |r| ==> r[k] == Lookup(m, parents[k])
  {
    seq(|parents|, k requires 0 <= k < |parents| => Lookup(m, parents[k]))
  }

  /** The dominator list of `d` given the lists of the definitions before it. */
  ghost function DominatorsOf(m: map<int, seq<int>>, d: Definition): seq<int> {
    [d.id] + if d.parents == [] then [] else CommonTo(Lookup(m, d.parents[0]), LaterParentLists(m, d.parents[1..]))
  }

  /** The `dominators` map after the definition loop of `LeafDominator`. */
  ghost function DominatorMap(s: seq<Definition>): map<int, seq<int>> {
    if s == [] then map[]
    else
      var m := DominatorMap(s[..|s| - 1]);
      m[s[|s| - 1].id := DominatorsOf(m, s[|s| - 1])]
  }

  /** The dominator lists of the leaves, in the order `Leaves` returns them. */
  ghost function LeafDominatorLists(ds: Definitions): seq<seq<int>> {
    var leaves := Select(ds.definitions, LeafIds(ds.definitions));
    seq(|leaves|, k requires 0 <= k < |leaves| => Lookup(DominatorMap(ds.definitions), leaves[k].id))
  }

  /** The identifiers common to all leaves' dominator lists, in the first leaf's order. */
  ghost function CommonDominators(ds: Definitions): seq<int> {
    var lists := LeafDominatorLists(ds);
    if lists == [] then [] else CommonTo(lists[0], lists[1..])
  }

  lemma {:induction false} CommonToSubset(a: seq<int>, bs: seq<seq<int>>)
    ensures forall x :: x in CommonTo(a, bs) ==> x in a
  {
    CommonToMembers(a, bs);
  }

  /** Every identifier in a dominator list is a stored identifier. */
  lemma {:induction false} DominatorsDefined(s: seq<Definition>)
    ensures DominatorMap(s).Keys == Ids(s)
    ensures forall id, x :: id in DominatorMap(s) && x in DominatorMap(s)[id] ==> x in Ids(s)
  {
    if s != [] {
      var init, last := s[..|s| - 1], s[|s| - 1];
      DominatorsDefined(init);
      var m := DominatorMap(init);
      assert s == init + [last];
      assert Ids(s) == Ids(init) + {last.id} by {
        forall x | x in Ids(s) ensures x in Ids(init) + {last.id} {
          var d :| d in s && d.id == x;
          assert d in init || d == last;
        }
        forall x | x in Ids(init) ensures x in Ids(s) {
          var d :| d in init && d.id == x;
          assert d in s;
        }
      }
      if last.parents != [] {
        CommonToSubset(Lookup(m, last.parents[0]), LaterParentLists(m, last.parents[1..]));
      }
    }
  }

  /** The first loop of `LeafDominator`: each definition's dominator list, in stored order. */
  method BuildDominators(defs: seq<Definition>) returns (dominators: map<int, seq<int>>)
    ensures dominators == DominatorMap(defs)
  {
    dominators := map[];
    var i := 0;
    while i < |defs|
      invariant 0 <= i <= |defs|
      invariant dominators == DominatorMap(defs[..i])
    {
      var definition := defs[i];
      var doms := DominatorListOf(dominators, definition);
      assert defs[..i + 1][..i] == defs[..i];
      assert defs[..i + 1][i] == definition;
      dominators := dominators[definition.id := doms];
      i := i + 1;
    }
    assert defs[..i] == defs;
  }

  /** One step of that loop: `[id]` followed by the intersection of the parents' lists. */
  method DominatorListOf(dominators: map<int, seq<int>>, definition: Definition) returns (doms: seq<int>)
    ensures doms == DominatorsOf(dominators, definition)
  {
    doms := [definition.id];
    if |definition.parents| != 0 {
      var a := Lookup(dominators, definition.parents[0]);
      var bs: seq<seq<int>> := [];
      var k := 1;
      while k < |definition.parents|
        invariant 1 <= k <= |definition.parents|
        invariant bs == LaterParentLists(dominators, definition.parents[1..k])
      {
        bs := bs + [Lookup(dominators, definition.parents[k])];
        k := k + 1;
      }
      assert definition.parents[1..k] == definition.parents[1..];
      var common := Intersect(a, bs);
      doms := doms + common;
    }
  }

  /** An identifier common to the leaves' lists is defined and lies in each leaf's list. */
  lemma CommonInEveryLeaf(ds: Definitions, x: int)
    requires x in CommonDominators(ds)
    ensures x in Ids(ds.definitions)
    ensures forall leaf :: leaf in ds.definitions && Childless(ds.definitions, leaf.id) ==>
      x in Lookup(DominatorMap(ds.definitions), leaf.id)
  {
    var defs := ds.definitions;
    var leaves := Select(defs, LeafIds(defs));
    var lists := LeafDominatorLists(ds);
    CommonToMembers(lists[0], lists[1..]);
    DominatorsDefined(defs);
    assert x in lists[0];
    forall leaf | leaf in defs && Childless(defs, leaf.id)
      ensures x in Lookup(DominatorMap(defs), leaf.id)
    {
      SelectMembers(defs, LeafIds(defs));
      LeafIdsMember(defs, leaf);
      assert leaf in leaves;
      var q :| 0 <= q < |leaves| && leaves[q] == leaf;
      if q > 0 {
        assert lists[1..][q - 1] == lists[q];
      }
    }
  }

  /**
   * `LeafDominator`: the last identifier common to every leaf's dominator
   * list, as a definition; nothing when there are no leaves or they share no
   * dominator.
   */
  method LeafDominator(ds: Definitions) returns (r: Option<Definition>)
    requires ds.Valid()
    ensures r.None? <==> CommonDominators(ds) == []
    ensures r.Some? ==> r.value in ds.definitions
    ensures r.Some? ==> r.value.id == CommonDominators(ds)[|CommonDominators(ds)| - 1]
    ensures r.Some? ==> forall leaf :: leaf in ds.definitions && Childless(ds.definitions, leaf.id) ==>
      r.value.id in Lookup(DominatorMap(ds.definitions), leaf.id)
  {
    var defs := ds.definitions;
    var dominators := BuildDominators(defs);

    var same := CommonLeafDominators(ds, dominators);
    if |same| == 0 {
      return None;
    }
    var last := same[|same| - 1];
    CommonInEveryLeaf(ds, last);
    r := GetByID(ds, last);
  }

  /**
   * The second half of `LeafDominator`: nothing when there are no leaves,
   * otherwise the intersection of the leaves' dominator lists.
   */
  method CommonLeafDominators(ds: Definitions, dominators: map<int, seq<int>>) returns (same: seq<int>)
    requires dominators == DominatorMap(ds.definitions)
    ensures same == CommonDominators(ds)
  {
    var leaves := Leaves(ds);
    if |leaves| == 0 {
      assert LeafDominatorLists(ds) == [];
      return [];
    }
    var ids := LeafLists(dominators, leaves);
    assert ids == LeafDominatorLists(ds);
    same := Intersect(ids[0], ids[1..]);
  }

  /** The loop over the leaves: each leaf's dominator list, in leaf order. */
  method LeafLists(dominators: map<int, seq<int>>, leaves: seq<Definition>) returns (ids: seq<seq<int>>)
    ensures |ids| == |leaves|
    ensures forall q :: 0 <= q < |leaves| ==> ids[q] == Lookup(dominators, leaves[q].id)
  {
    ids := [];
    var j := 0;
    while j < |leaves|
      invariant 0 <= j <= |leaves| && |ids| == j
      invariant forall q :: 0 <= q < j ==> ids[q] == Lookup(dominators, leaves[q].id)
    {
      ids := ids + [Lookup(dominators, leaves[j].id)];
      j := j + 1;
    }
  }

  /**
   * The shape the definition reader guarantees: distinct identifiers, every
   * parent defined earlier, and a single root (only the first definition has
   * no parents).
   */
  ghost predicate WellFormed(s: seq<Definition>) {
    && (forall i, j :: 0 <= i < j < |s| ==> s[i].id != s[j].id)
    && (forall j :: 0 <= j < |s| ==> ParentsDefinedEarlier(s, j))
    && (forall j :: 0 < j < |s| ==> s[j].parents != [])
  }

  lemma WellFormedPrefix(s: seq<Definition>, k: int)
    requires WellFormed(s) && 0 <= k <= |s|
    ensures WellFormed(s[..k])
  {
    forall j | 0 <= j < k ensures ParentsDefinedEarlier(s[..k], j) {
      assert s[..k][..j] == s[..j];
      assert ParentsDefinedEarlier(s, j);
    }
  }

  /** In a well-formed list the root is in every dominator list. */
  lemma {:induction false} RootDominatesAll(s: seq<Definition>)
    requires WellFormed(s) && |s| > 0
    ensures forall id :: id in DominatorMap(s) ==> s[0].id in DominatorMap(s)[id]
  {
    var init, last := s[..|s| - 1], s[|s| - 1];
    var m := DominatorMap(init);
    if |s| == 1 {
      assert init == [];
    } else {
      WellFormedPrefix(s, |s| - 1);
      RootDominatesAll(init);
      DominatorsDefined(init);
      var root := s[0].id;
      assert init[0] == s[0];
      assert ParentsDefinedEarlier(s, |s| - 1);
      assert s[..|s| - 1] == init;
      var ps := last.parents;
      assert ps != [];
      assert forall p :: p in ps ==> p in m && root in m[p];
      var lists := LaterParentLists(m, ps[1..]);
      assert InAll(root, lists) by {
        forall k | 0 <= k < |lists| ensures root in lists[k] {
          assert ps[1..][k] in ps;
        }
      }
      CommonToMembers(Lookup(m, ps[0]), lists);
      assert root in DominatorsOf(m, last);
    }
  }

  /** In a well-formed list nothing builds on the last definition. */
  lemma LastIsLeaf(s: seq<Definition>)
    requires WellFormed(s) && |s| > 0
    ensures Childless(s, s[|s| - 1].id)
  {
    var x := s[|s| - 1].id;
    forall e | e in s ensures x !in e.parents {
      var j :| 0 <= j < |s| && s[j] == e;
      assert x !in Ids(s[..j]) by {
        forall d | d in s[..j] ensures d.id != x {
          var i :| 0 <= i < j && s[..j][i] == d;
        }
      }
      assert ParentsDefinedEarlier(s, j);
    }
  }

  /** So on a well-formed, non-empty list `LeafDominator` always finds a definition: at least the root. */
  lemma WellFormedHasLeafDominator(ds: Definitions)
    requires WellFormed(ds.definitions) && |ds.definitions| > 0
    ensures ds.definitions[0].id in CommonDominators(ds)
  {
    var defs := ds.definitions;
    var root := defs[0].id;
    LastIsLeaf(defs);
    LeafIdsMember(defs, defs[|defs| - 1]);
    SelectMembers(defs, LeafIds(defs));
    var leaves := Select(defs, LeafIds(defs));
    assert defs[|defs| - 1] in leaves;
    var lists := LeafDominatorLists(ds);
    RootDominatesAll(defs);
    DominatorsDefined(defs);
    assert forall k :: 0 <= k < |lists| ==> root in lists[k] by {
      forall k | 0 <= k < |lists| ensures root in lists[k] {
        assert leaves[k] in leaves;
        assert leaves[k].id in Ids(defs);
      }
    }
    assert InAll(root, lists[1..]) by {
      forall k | 0 <= k < |lists[1..]| ensures root in lists[1..][k] {
        assert lists[1..][k] == lists[k + 1];
      }
    }
    CommonToMembers(lists[0], lists[1..]);
  }

  // ---------------------------------------------------------------------
  // Error text
  // ---------------------------------------------------------------------

  /** `unknownMigrationError` as written: no space between the identifier and "referenced". */
  function UnknownMigrationMessageAsWritten(id: int, parent: Option<int>): (msg: string)
    ensures var n := |"unknown migration "| + |Decimal.IntToString(id)|;
      |msg| >= n && msg[..n] == "unknown migration " + Decimal.IntToString(id) &&
      (parent.None? <==> |msg| == n)
  {
    match parent
    case None => "unknown migration " + Decimal.IntToString(id)
    case Some(p) => "unknown migration " + Decimal.IntToString(id) + "referenced from migration " + Decimal.IntToString(p)
  }

  /** With a parent, the identifier's digits run straight into the word that follows. */
  lemma UnknownMigrationMessageRunsTogether(id: nat, p: int)
    ensures var msg := UnknownMigrationMessageAsWritten(id, Some(p));
      var n := |"unknown migration "| + |Decimal.IntToString(id)|;
      |msg| > n && msg[n] == 'r' && msg[..n] == "unknown migration " + Decimal.IntToString(id)
  {
  }

  /** The message the error evidently means, with the identifier standing on its own. */
  function UnknownMigrationMessage(id: int, parent: Option<int>): (msg: string)
    ensures var n := |"unknown migration "| + |Decimal.IntToString(id)|;
      |msg| >= n && msg[..n] == "unknown migration " + Decimal.IntToString(id) &&
      (if parent.None? then |msg| == n else |msg| > n && msg[n] == ' ')
  {
    match parent
    case None => "unknown migration " + Decimal.IntToString(id)
    case Some(p) => "unknown migration " + Decimal.IntToString(id) + " referenced from migration " + Decimal.IntToString(p)
  }
}
