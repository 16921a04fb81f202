/** The packaged migration graph and the startup check against it (backend/app/schema_compatibility.py). */
module SchemaCompatibility {
  import opened Wrappers

  /** Each packaged revision with its parents; revisions may merge, and nothing rules out a cycle. */
  type Graph = map<string, seq<string>>

  datatype Contract = Contract(expectedHead: string, expectedAncestors: set<string>)

  const HISTORY_INVALID := "SCHEMA_HISTORY_INVALID"
  const DATABASE_UNREADABLE := "SCHEMA_DATABASE_UNREADABLE"
  const VERSION_OK := "SCHEMA_VERSION_OK"
  const VERSION_MISSING := "SCHEMA_VERSION_MISSING"
  const VERSION_MULTIPLE := "SCHEMA_VERSION_MULTIPLE"
  const VERSION_BEHIND := "SCHEMA_VERSION_BEHIND"
  const VERSION_UNSUPPORTED := "SCHEMA_VERSION_UNSUPPORTED"

  // Reachability along parent edges

  ghost predicate Edge(g: Graph, a: string, b: string) {
    a in g && b in g[a]
  }

  ghost predicate ReachesIn(g: Graph, a: string, b: string, n: nat)
    decreases n
  {
    if n == 0 then a == b else exists m :: ReachesIn(g, a, m, n - 1) && Edge(g, m, b)
  }

  /** b is reached from a by one or more parent edges. */
  ghost predicate IsAncestor(g: Graph, a: string, b: string) {
    exists n: nat :: n >= 1 && ReachesIn(g, a, b, n)
  }

  /** No missing revision on the way. */
  ghost predicate Complete(g: Graph, head: string) {
    head in g && forall r :: IsAncestor(g, head, r) ==> r in g
  }

  lemma ParentIsAncestor(g: Graph, head: string, r: string, parent: string)
    requires (r == head || IsAncestor(g, head, r)) && Edge(g, r, parent)
    ensures IsAncestor(g, head, parent)
  {
    if IsAncestor(g, head, r) {
      var n: nat :| n >= 1 && ReachesIn(g, head, r, n);
      assert ReachesIn(g, head, parent, n + 1);
    } else {
      assert ReachesIn(g, head, head, 0);
      assert ReachesIn(g, head, parent, 1);
    }
  }

  ghost predicate Closed(g: Graph, head: string, s: set<string>) {
    forall a, b :: (a == head || a in s) && Edge(g, a, b) ==> b in s
  }

  lemma {:induction false} ClosedHasAll(g: Graph, head: string, s: set<string>, b: string, n: nat)
    requires Closed(g, head, s) && ReachesIn(g, head, b, n)
    ensures n >= 1 ==> b in s
    ensures n == 0 ==> b == head
    decreases n
  {
    if n > 0 {
      var m :| ReachesIn(g, head, m, n - 1) && Edge(g, m, b);
      ClosedHasAll(g, head, s, m, n - 1);
    }
  }

  // _packaged_schema_contract

  /** Everything that can ever be added to the ancestors. */
  function Parents(g: Graph): set<string> {
    set r, i | r in g && 0 <= i < |g[r]| :: g[r][i]
  }

  /** The worklist: pending revisions and the ancestors found so far are justified, and every revision found is
      either pending or already expanded. */
  ghost predicate Explored(g: Graph, head: string, ancestors: set<string>, pending: seq<string>, expanded: set<string>) {
    && ancestors <= Parents(g)
    && (forall r :: r in ancestors ==> IsAncestor(g, head, r))
    && (forall r :: r in pending ==> r == head || r in ancestors)
    && (forall r :: r == head || r in ancestors ==> r in pending || r in expanded)
    && expanded <= g.Keys
  }

  ghost predicate ParentsFound(g: Graph, ancestors: set<string>, expanded: set<string>) {
    forall a, b :: a in expanded && Edge(g, a, b) ==> b in ancestors
  }

  /** The new parents of one revision are found and pushed. */
  ghost predicate Pushed(parents: seq<string>, found: set<string>, stack: seq<string>,
                         ancestors: set<string>, pending: seq<string>)
  {
    && found <= ancestors
    && (forall r :: r in ancestors <==> r in found || r in parents)
    && (forall r :: r in pending <==> r in stack || (r in ancestors && r !in found))
    && (ancestors == found ==> pending == stack)
  }

  method AddParents(parents: seq<string>, found: set<string>, stack: seq<string>)
    returns (ancestors: set<string>, pending: seq<string>)
    ensures Pushed(parents, found, stack, ancestors, pending)
  {
    ancestors, pending := found, stack;
    var i := 0;
    while i < |parents|
      invariant 0 <= i <= |parents|
      invariant Pushed(parents[..i], found, stack, ancestors, pending)
    {
      assert parents[..i + 1] == parents[..i] + [parents[i]];
      if parents[i] !in ancestors {
        ancestors := ancestors + {parents[i]};
        pending := pending + [parents[i]];
      }
      i := i + 1;
    }
    assert parents[..i] == parents;
  }

  lemma ExpandStep(g: Graph, head: string, found: set<string>, stack: seq<string>, expanded: set<string>,
                   revision: string, ancestors: set<string>, pending: seq<string>)
    requires Explored(g, head, found, stack + [revision], expanded) && ParentsFound(g, found, expanded)
    requires revision in g && Pushed(g[revision], found, stack, ancestors, pending)
    ensures Explored(g, head, ancestors, pending, expanded + {revision})
    ensures ParentsFound(g, ancestors, expanded + {revision})
    ensures ancestors == found || |Parents(g) - ancestors| < |Parents(g) - found|
  {
    assert revision in stack + [revision];
    forall r | r in ancestors && r !in found ensures r in Parents(g) && IsAncestor(g, head, r) {
      ParentIsAncestor(g, head, revision, r);
    }
    forall r | r in stack ensures r in stack + [revision] {
    }
    forall r | r in stack + [revision] ensures r in stack || r == revision {
    }
    FewerLeft(Parents(g), found, ancestors);
  }

  method PackagedSchemaContract(g: Graph, heads: seq<string>) returns (result: Result<Contract>)
    ensures result.Success? <==> |heads| == 1 && Complete(g, heads[0])
    ensures result.Success? ==> result.value.expectedHead == heads[0] && ExactlyAncestors(g, heads[0], result.value.expectedAncestors)
    ensures result.Failure? ==> result.code == HISTORY_INVALID
  {
    if |heads| != 1 {
      return Failure(HISTORY_INVALID);
    }
    var head := heads[0];
    var ancestors: set<string> := {};
    var pending := [head];
    ghost var expanded: set<string> := {};
    assert ParentsFound(g, ancestors, expanded);
    while |pending| > 0
      invariant Explored(g, head, ancestors, pending, expanded) && ParentsFound(g, ancestors, expanded)
      decreases |Parents(g) - ancestors|, |pending|
    {
      hide *;
      var revision, stack := pending[|pending| - 1], pending[..|pending| - 1];
      assert pending == stack + [revision];
      if revision !in g {
        MissingRevision(g, head, ancestors, pending, expanded, revision);
        return Failure(HISTORY_INVALID);
      }
      ghost var found := ancestors;
      ancestors, pending := AddParents(g[revision], ancestors, stack);
      ExpandStep(g, head, found, stack, expanded, revision, ancestors, pending);
      UnchangedStack(g[revision], found, stack, ancestors, pending);
      expanded := expanded + {revision};
    }
    Everything(g, head, ancestors, expanded);
    result := Success(Contract(head, ancestors));
  }

  ghost predicate ExactlyAncestors(g: Graph, head: string, s: set<string>) {
    forall r :: r in s <==> IsAncestor(g, head, r)
  }

  lemma UnchangedStack(parents: seq<string>, found: set<string>, stack: seq<string>,
                       ancestors: set<string>, pending: seq<string>)
    requires Pushed(parents, found, stack, ancestors, pending)
    ensures ancestors == found ==> pending == stack
  {
  }

  lemma MissingRevision(g: Graph, head: string, ancestors: set<string>, pending: seq<string>, expanded: set<string>,
                        revision: string)
    requires Explored(g, head, ancestors, pending, expanded) && revision in pending && revision !in g
    ensures !Complete(g, head)
  {
  }

  lemma FewerLeft(all: set<string>, found: set<string>, more: set<string>)
    requires found <= more <= all
    ensures found == more || |all - more| < |all - found|
  {
    if found != more {
      assert all - found == (all - more) + (more - found);
      assert more - found != {};
    }
  }

  lemma Everything(g: Graph, head: string, ancestors: set<string>, expanded: set<string>)
    requires Explored(g, head, ancestors, [], expanded) && ParentsFound(g, ancestors, expanded)
    ensures Complete(g, head) && ExactlyAncestors(g, head, ancestors)
  {
    assert Closed(g, head, ancestors);
    forall r | IsAncestor(g, head, r) ensures r in ancestors {
      var n: nat :| n >= 1 && ReachesIn(g, head, r, n);
      ClosedHasAll(g, head, ancestors, r, n);
    }
  }

  // assert_schema_compatible

  /** `databaseHeads` is None when the database cannot be read. */
  method AssertSchemaCompatible(g: Graph, packagedHeads: seq<string>, databaseHeads: Option<seq<string>>)
    returns (result: Result<string>)
    ensures result == Classified(g, packagedHeads, databaseHeads)
  {
    var contract :- PackagedSchemaContract(g, packagedHeads);
    if databaseHeads.None? || "" in databaseHeads.value {
      return Failure(DATABASE_UNREADABLE);
    }
    var heads := databaseHeads.value;
    if |heads| == 0 {
      return Failure(VERSION_MISSING);
    }
    if |heads| != 1 {
      return Failure(VERSION_MULTIPLE);
    }
    if heads[0] == contract.expectedHead {
      return Success(VERSION_OK);
    }
    if heads[0] in contract.expectedAncestors {
      return Failure(VERSION_BEHIND);
    }
    result := Failure(VERSION_UNSUPPORTED);
  }

  /** The classification in terms of the graph alone: a database is behind exactly when its one revision is a proper
      ancestor of the packaged head. */
  ghost function Classified(g: Graph, packagedHeads: seq<string>, databaseHeads: Option<seq<string>>): Result<string> {
    if |packagedHeads| != 1 || !Complete(g, packagedHeads[0]) then Failure(HISTORY_INVALID)
    else if databaseHeads.None? || "" in databaseHeads.value then Failure(DATABASE_UNREADABLE)
    else if databaseHeads.value == [] then Failure(VERSION_MISSING)
    else if |databaseHeads.value| > 1 then Failure(VERSION_MULTIPLE)
    else if databaseHeads.value[0] == packagedHeads[0] then Success(VERSION_OK)
    else if IsAncestor(g, packagedHeads[0], databaseHeads.value[0]) then Failure(VERSION_BEHIND)
    else Failure(VERSION_UNSUPPORTED)
  }

  /** The seven answers, by the database they are for. */
  lemma ClassifiedExact(g: Graph, packagedHeads: seq<string>, databaseHeads: Option<seq<string>>)
    ensures var answer := Classified(g, packagedHeads, databaseHeads);
      var sound := |packagedHeads| == 1 && Complete(g, packagedHeads[0]);
      var readable := databaseHeads.Some? && forall i :: 0 <= i < |databaseHeads.value| ==> databaseHeads.value[i] != "";
      && (answer == Failure("SCHEMA_HISTORY_INVALID") <==> !sound)
      && (answer == Failure("SCHEMA_DATABASE_UNREADABLE") <==> sound && !readable)
      && (answer == Failure("SCHEMA_VERSION_MISSING") <==> sound && databaseHeads == Some([]))
      && (answer == Failure("SCHEMA_VERSION_MULTIPLE") <==> sound && readable && |databaseHeads.value| >= 2)
      && (forall database :: databaseHeads == Some([database]) && database != "" && sound ==>
            && (answer == Success("SCHEMA_VERSION_OK") <==> database == packagedHeads[0])
            && (answer == Failure("SCHEMA_VERSION_BEHIND") <==>
                  database != packagedHeads[0] && IsAncestor(g, packagedHeads[0], database))
            && (answer == Failure("SCHEMA_VERSION_UNSUPPORTED") <==>
                  database != packagedHeads[0] && !IsAncestor(g, packagedHeads[0], database)))
  {
    CodesDiffer();
  }

  lemma CodesDiffer()
    ensures |{HISTORY_INVALID, DATABASE_UNREADABLE, VERSION_MISSING, VERSION_MULTIPLE, VERSION_BEHIND, VERSION_UNSUPPORTED}| == 6
  {
    assert HISTORY_INVALID[7] == 'H' && DATABASE_UNREADABLE[7] == 'D' && VERSION_MISSING[15] == 'M';
    assert VERSION_MISSING[16] == 'I' && VERSION_MULTIPLE[16] == 'U' && VERSION_MULTIPLE[15] == 'M';
    assert VERSION_BEHIND[15] == 'B' && VERSION_UNSUPPORTED[15] == 'U';
    assert VERSION_MISSING[7] == VERSION_MULTIPLE[7] == VERSION_BEHIND[7] == VERSION_UNSUPPORTED[7] == 'V';
  }

  // Releases

  lemma {:induction false} ReachesThroughNewHead(g: Graph, h: Graph, oldHead: string, newHead: string, b: string, n: nat)
    requires ReachesIn(g, oldHead, b, n) && Edge(h, newHead, oldHead)
    requires forall x, y :: Edge(g, x, y) ==> Edge(h, x, y)
    ensures ReachesIn(h, newHead, b, n + 1)
    decreases n
  {
    if n == 0 {
      assert ReachesIn(h, newHead, newHead, 0);
    } else {
      var m :| ReachesIn(g, oldHead, m, n - 1) && Edge(g, m, b);
      ReachesThroughNewHead(g, h, oldHead, newHead, m, n - 1);
    }
  }

  /** A release that keeps every edge and puts a new head above the old one turns every database the old release
      accepted or called behind into one that is behind: none becomes unsupported. */
  lemma ReleaseLeavesDatabasesBehind(g: Graph, h: Graph, oldHead: string, newHead: string, database: string)
    requires Classified(g, [oldHead], Some([database])) in {Success(VERSION_OK), Failure(VERSION_BEHIND)}
    requires Complete(h, newHead) && Edge(h, newHead, oldHead) && database != newHead
    requires forall x, y :: Edge(g, x, y) ==> Edge(h, x, y)
    ensures Classified(h, [newHead], Some([database])) == Failure(VERSION_BEHIND)
  {
    if database == oldHead {
      assert ReachesIn(g, oldHead, oldHead, 0);
      ReachesThroughNewHead(g, h, oldHead, newHead, oldHead, 0);
    } else {
      var n: nat :| n >= 1 && ReachesIn(g, oldHead, database, n);
      ReachesThroughNewHead(g, h, oldHead, newHead, database, n);
    }
  }
}
