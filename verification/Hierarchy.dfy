/** The recursive parent walk both authorization queries run over cabinets and folders. */
module Hierarchy {
  import opened Wrappers
  import opened Sorting
  import opened Text

  /** Each row's parent reference; nothing says it is acyclic or that parents exist. */
  type ParentMap = map<int, Option<int>>

  datatype Row = Row(id: int, parent: Option<int>, depth: nat, visited: string, cycle: bool)

  function SeedRow(parents: ParentMap, start: int): Row
    requires start in parents
  {
    Row(start, parents[start], 1, Quoted(start), false)
  }

  /** One recursive join; `bound` is the first depth that is not extended. */
  function NextRow(parents: ParentMap, child: Row, bound: nat): Option<Row> {
    if child.cycle || child.depth >= bound || child.parent.None? || child.parent.value !in parents then None
    else
      var id := child.parent.value;
      Some(Row(id, parents[id], child.depth + 1, child.visited + IntText(id) + ",",
               Instr(child.visited, Quoted(id)) > 0))
  }

  function Extend(parents: ParentMap, row: Row, bound: nat): (rows: seq<Row>)
    ensures |rows| > 0 && rows[0] == row
    decreases if row.depth < bound then bound - row.depth else 0
  {
    match NextRow(parents, row, bound)
    case None => [row]
    case Some(next) => [row] + Extend(parents, next, bound)
  }

  function Walk(parents: ParentMap, start: int, bound: nat): seq<Row> {
    if start in parents then Extend(parents, SeedRow(parents, start), bound) else []
  }

  // The chain a walk is meant to find

  /** c leads from start to a row without a parent, following parent references. */
  ghost predicate IsChain(parents: ParentMap, start: int, c: seq<int>) {
    && |c| > 0
    && c[0] == start
    && (forall i :: 0 <= i < |c| ==> c[i] in parents)
    && (forall i, j :: 0 <= i < j < |c| && j == i + 1 ==> parents[c[i]] == Some(c[j]))
    && parents[c[|c| - 1]] == None
  }

  lemma ChainTail(parents: ParentMap, start: int, c: seq<int>)
    requires IsChain(parents, start, c) && |c| > 1
    ensures IsChain(parents, c[1], c[1..])
  {
  }

  lemma ChainStep(parents: ParentMap, start: int, c: seq<int>, i: nat)
    requires IsChain(parents, start, c) && i < |c|
    ensures parents[c[i]] == if i == |c| - 1 then None else Some(c[i + 1])
  {
  }

  lemma {:induction false} ChainUnique(parents: ParentMap, start: int, a: seq<int>, b: seq<int>)
    requires IsChain(parents, start, a) && IsChain(parents, start, b)
    ensures a == b
    decreases |a|
  {
    ChainStep(parents, start, a, 0);
    ChainStep(parents, start, b, 0);
    if |a| == 1 || |b| == 1 {
    } else {
      ChainTail(parents, start, a);
      ChainTail(parents, start, b);
      ChainUnique(parents, a[1], a[1..], b[1..]);
      assert a == [a[0]] + a[1..] && b == [b[0]] + b[1..];
    }
  }

  lemma {:induction false} ChainSuffix(parents: ParentMap, start: int, c: seq<int>, i: nat)
    requires IsChain(parents, start, c) && i < |c|
    ensures IsChain(parents, c[i], c[i..])
  {
  }

  /** A chain that ends never meets the same row twice. */
  lemma ChainDistinct(parents: ParentMap, start: int, c: seq<int>)
    requires IsChain(parents, start, c)
    ensures Distinct(c)
  {
    forall i, j | 0 <= i < j < |c| ensures c[i] != c[j] {
      if c[i] == c[j] {
        ChainSuffix(parents, start, c, i);
        ChainSuffix(parents, start, c, j);
        ChainUnique(parents, c[i], c[i..], c[j..]);
      }
    }
  }

  // What a walk returns

  function Ids(rows: seq<Row>): seq<int> {
    seq(|rows|, i requires 0 <= i < |rows| => rows[i].id)
  }

  predicate Linked(parents: ParentMap, rows: seq<Row>) {
    && (forall i :: 0 <= i < |rows| ==> rows[i].id in parents && rows[i].parent == parents[rows[i].id])
    && (forall i, j :: 0 <= i < |rows| && i < j < |rows| && j == i + 1 ==> rows[i].parent == Some(rows[j].id))
  }

  /** Depths count up by one; only the last row can close a cycle. */
  predicate Numbered(rows: seq<Row>, first: nat) {
    && (forall i :: 0 <= i < |rows| ==> rows[i].depth == first + i)
    && (forall i :: 0 <= i < |rows| - 1 ==> !rows[i].cycle)
  }

  lemma {:induction false} ExtendShape(parents: ParentMap, row: Row, bound: nat)
    requires row.id in parents && row.parent == parents[row.id]
    requires 1 <= row.depth <= bound
    ensures Linked(parents, Extend(parents, row, bound))
    ensures Numbered(Extend(parents, row, bound), row.depth)
    ensures |Extend(parents, row, bound)| <= bound - row.depth + 1
    decreases bound - row.depth
  {
    match NextRow(parents, row, bound)
    case None =>
    case Some(next) =>
      ExtendShape(parents, next, bound);
  }

  function ChainRow(parents: ParentMap, c: seq<int>, i: nat): Row
    requires i < |c| && c[i] in parents
  {
    Row(c[i], parents[c[i]], i + 1, VisitedText(c[..i + 1]), false)
  }

  /** The rows of an unbroken chain from its i-th member on, leaf first. */
  function ChainRowsFrom(parents: ParentMap, c: seq<int>, i: nat): (rows: seq<Row>)
    requires i <= |c| && forall k :: 0 <= k < |c| ==> c[k] in parents
    ensures |rows| == |c| - i
    decreases |c| - i
  {
    if i == |c| then [] else [ChainRow(parents, c, i)] + ChainRowsFrom(parents, c, i + 1)
  }

  function ChainRows(parents: ParentMap, c: seq<int>): seq<Row>
    requires forall k :: 0 <= k < |c| ==> c[k] in parents
  {
    ChainRowsFrom(parents, c, 0)
  }

  lemma {:induction false} ChainRowsFromAre(parents: ParentMap, c: seq<int>, i: nat, k: nat)
    requires i <= k < |c| && forall j :: 0 <= j < |c| ==> c[j] in parents
    ensures ChainRowsFrom(parents, c, i)[k - i] == ChainRow(parents, c, k)
    decreases k - i
  {
    hide ChainRow;
    if i < k {
      ChainRowsFromAre(parents, c, i + 1, k);
    }
  }

  lemma ChainRowsAre(parents: ParentMap, c: seq<int>)
    requires forall j :: 0 <= j < |c| ==> c[j] in parents
    ensures |ChainRows(parents, c)| == |c|
    ensures forall k :: 0 <= k < |c| ==> ChainRows(parents, c)[k] == ChainRow(parents, c, k)
    ensures forall k :: 0 <= k < |c| ==> ChainRows(parents, c)[k].id == c[k]
  {
    forall k | 0 <= k < |c| ensures ChainRows(parents, c)[k] == ChainRow(parents, c, k) {
      ChainRowsFromAre(parents, c, 0, k);
    }
  }

  lemma NextAlongChain(parents: ParentMap, start: int, c: seq<int>, i: nat, bound: nat)
    requires IsChain(parents, start, c) && i < |c| - 1 && |c| <= bound
    ensures NextRow(parents, ChainRow(parents, c, i), bound) == Some(ChainRow(parents, c, i + 1))
  {
    var next := c[i + 1];
    assert parents[c[i]] == Some(next);
    ChainDistinct(parents, start, c);
    VisitedSearchIsMembership(c[..i + 1], next);
    assert c[..i + 2][..i + 1] == c[..i + 1];
    assert VisitedText(c[..i + 2]) == VisitedText(c[..i + 1]) + IntText(next) + ",";
  }

  lemma {:induction false} ExtendAlongChain(parents: ParentMap, start: int, c: seq<int>, i: nat, bound: nat)
    requires IsChain(parents, start, c) && i < |c| <= bound
    ensures Extend(parents, ChainRow(parents, c, i), bound) == ChainRowsFrom(parents, c, i)
    decreases |c| - i
  {
    if i == |c| - 1 {
      assert NextRow(parents, ChainRow(parents, c, i), bound) == None;
    } else {
      NextAlongChain(parents, start, c, i, bound);
      ExtendAlongChain(parents, start, c, i + 1, bound);
    }
  }

  /** A chain within the bound is walked to its end. */
  lemma WalkOfChain(parents: ParentMap, start: int, c: seq<int>, bound: nat)
    requires IsChain(parents, start, c) && |c| <= bound
    ensures Walk(parents, start, bound) == ChainRows(parents, c)
  {
    assert c[..1] == [start] && [start][..0] == [];
    assert VisitedText([start]) == VisitedText([]) + IntText(start) + ",";
    assert SeedRow(parents, start) == ChainRow(parents, c, 0);
    ExtendAlongChain(parents, start, c, 0, bound);
  }

  ghost predicate Terminated(rows: seq<Row>) {
    exists i :: 0 <= i < |rows| && rows[i].parent == None
  }

  ghost predicate CycleFree(rows: seq<Row>) {
    forall i :: 0 <= i < |rows| ==> !rows[i].cycle
  }

  lemma InnerRowHasParent(parents: ParentMap, rows: seq<Row>, i: nat)
    requires Linked(parents, rows) && i < |rows| - 1
    ensures rows[i].parent != None
  {
    assert rows[i].parent == Some(rows[i + 1].id);
  }

  ghost predicate NullEnded(rows: seq<Row>) {
    |rows| > 0 && rows[|rows| - 1].parent == None && CycleFree(rows)
  }

  /** On any parent map, a walk reaches a null parent without a cycle exactly when there is a chain in bound. */
  lemma WalkExact(parents: ParentMap, start: int, bound: nat)
    requires bound >= 1
    ensures Terminated(Walk(parents, start, bound)) && CycleFree(Walk(parents, start, bound))
       <==> exists c :: IsChain(parents, start, c) && |c| <= bound
    ensures |Walk(parents, start, bound)| <= bound
    ensures Numbered(Walk(parents, start, bound), 1)
  {
    hide VisitedText, IntText, Instr;
    var rows := Walk(parents, start, bound);
    if start in parents {
      ExtendShape(parents, SeedRow(parents, start), bound);
      if Terminated(rows) && CycleFree(rows) {
        var i :| 0 <= i < |rows| && rows[i].parent == None;
        if i < |rows| - 1 {
          InnerRowHasParent(parents, rows, i);
        }
        assert IsChain(parents, start, Ids(rows));
      }
    }
    if c :| IsChain(parents, start, c) && |c| <= bound {
      WalkOfChain(parents, start, c, bound);
      ChainRowsAre(parents, c);
      assert rows[|c| - 1].parent == None;
    }
  }

  // Validation of the rows a query returned (access_rule_repository.py)

  predicate ShallowerOrEqual(a: Row, b: Row) {
    a.depth <= b.depth
  }

  predicate PositiveRow(row: Row) {
    row.id > 0 && (row.parent.Some? ==> row.parent.value > 0)
  }

  /** The checks on the rows once they are in depth order; each failing one raises the same code. */
  predicate Consistent(rows: seq<Row>, expectedLeaf: Option<int>, maxDepth: nat)
    requires |rows| > 0
  {
    && (forall i :: 0 <= i < |rows| ==> PositiveRow(rows[i]))
    && (forall i :: 0 <= i < |rows| ==> rows[i].depth == i + 1)
    && |rows| <= maxDepth
    && (forall i, j :: 0 <= i < j < |rows| ==> rows[i].id != rows[j].id)
    && (forall i :: 0 <= i < |rows| ==> !rows[i].cycle)
    && (expectedLeaf.Some? ==> rows[0].id == expectedLeaf.value)
    && (forall i, j :: 0 <= i < |rows| && i < j < |rows| && j == i + 1 ==> rows[i].parent == Some(rows[j].id))
    && rows[|rows| - 1].parent.None?
  }

  function ValidateRows(rows: seq<Row>, expectedLeaf: Option<int>, maxDepth: nat): Result<seq<Row>> {
    var normalized := Sort(rows, ShallowerOrEqual);
    if |normalized| == 0 then Failure("AUTHZ_ANCESTRY_MISSING")
    else if Consistent(normalized, expectedLeaf, maxDepth) then Success(normalized)
    else Failure("AUTHZ_ANCESTRY_INVALID")
  }

  predicate Positive(c: seq<int>) {
    forall i :: 0 <= i < |c| ==> c[i] > 0
  }

  ghost predicate ChainWithin(parents: ParentMap, start: int, c: seq<int>, bound: nat) {
    IsChain(parents, start, c) && |c| <= bound && Positive(c)
  }

  lemma ChainRowsConsistent(
      parents: ParentMap, start: int, c: seq<int>, maxDepth: nat, expectedLeaf: Option<int>)
    requires ChainWithin(parents, start, c, maxDepth)
    requires expectedLeaf.Some? ==> expectedLeaf.value == start
    ensures Consistent(ChainRows(parents, c), expectedLeaf, maxDepth)
  {
    ChainRowsAre(parents, c);
    ChainDistinct(parents, start, c);
    forall i | 0 <= i < |c| ensures PositiveRow(ChainRows(parents, c)[i]) {
      ChainStep(parents, start, c, i);
    }
  }

  lemma DepthOrder()
    ensures TotalPreorder(ShallowerOrEqual)
  {
  }

  /** Rows numbered by depth are recovered from any order the database returns them in. */
  lemma AnyRowOrderNormalizes(rows: seq<Row>, walk: seq<Row>)
    requires multiset(rows) == multiset(walk) && Numbered(walk, 1)
    ensures Sort(rows, ShallowerOrEqual) == walk
  {
    DepthOrder();
    SortOfSorted(walk, ShallowerOrEqual);
    forall x | x in rows ensures x in walk {
      assert x in multiset(rows);
    }
    SortForgetsOrder(rows, walk, ShallowerOrEqual);
  }

  lemma ValidationReads(rows: seq<Row>, walk: seq<Row>, expectedLeaf: Option<int>, maxDepth: nat)
    requires multiset(rows) == multiset(walk) && Numbered(walk, 1)
    ensures ValidateRows(rows, expectedLeaf, maxDepth) ==
      if |walk| == 0 then Failure("AUTHZ_ANCESTRY_MISSING")
      else if Consistent(walk, expectedLeaf, maxDepth) then Success(walk)
      else Failure("AUTHZ_ANCESTRY_INVALID")
  {
    AnyRowOrderNormalizes(rows, walk);
  }

  lemma ValidatedNonempty(rows: seq<Row>, expectedLeaf: Option<int>, maxDepth: nat)
    requires ValidateRows(rows, expectedLeaf, maxDepth).Success?
    ensures |rows| > 0
  {
    SortPermutes(rows, ShallowerOrEqual);
  }

  lemma ChainRowsValid(
      parents: ParentMap, start: int, c: seq<int>, maxDepth: nat, rows: seq<Row>, expectedLeaf: Option<int>)
    requires ChainWithin(parents, start, c, maxDepth)
    requires multiset(rows) == multiset(ChainRows(parents, c))
    requires expectedLeaf.Some? ==> expectedLeaf.value == start
    ensures ValidateRows(rows, expectedLeaf, maxDepth) == Success(ChainRows(parents, c))
  {
    ChainRowsAre(parents, c);
    ChainRowsConsistent(parents, start, c, maxDepth, expectedLeaf);
    ValidationReads(rows, ChainRows(parents, c), expectedLeaf, maxDepth);
  }

  lemma NullEndedWalkIsChain(parents: ParentMap, start: int, bound: nat) returns (c: seq<int>)
    requires bound >= 1
    requires NullEnded(Walk(parents, start, bound))
    ensures IsChain(parents, start, c) && |c| <= bound
    ensures Walk(parents, start, bound) == ChainRows(parents, c)
  {
    WalkExact(parents, start, bound);
    assert Terminated(Walk(parents, start, bound));
    c :| IsChain(parents, start, c) && |c| <= bound;
    WalkOfChain(parents, start, c, bound);
  }

  /** Validation accepts the rows of a bounded walk, in any order, exactly for a positive chain within the depth. */
  lemma ValidationExact(
      parents: ParentMap, start: int, maxDepth: nat, rows: seq<Row>, expectedLeaf: Option<int>)
    requires multiset(rows) == multiset(Walk(parents, start, maxDepth + 1))
    requires expectedLeaf.Some? ==> expectedLeaf.value == start
    ensures ValidateRows(rows, expectedLeaf, maxDepth).Success? <==> exists c :: ChainWithin(parents, start, c, maxDepth)
    ensures forall c :: ChainWithin(parents, start, c, maxDepth) ==>
      ValidateRows(rows, expectedLeaf, maxDepth) == Success(ChainRows(parents, c))
  {
    hide Walk, ValidateRows;
    if ValidateRows(rows, expectedLeaf, maxDepth).Success? {
      var c := AcceptedWalkIsChain(parents, start, maxDepth, rows, expectedLeaf);
    }
    forall c | ChainWithin(parents, start, c, maxDepth)
      ensures ValidateRows(rows, expectedLeaf, maxDepth) == Success(ChainRows(parents, c))
    {
      WalkedChainValid(parents, start, c, maxDepth, rows, expectedLeaf);
    }
  }

  lemma WalkedChainValid(
      parents: ParentMap, start: int, c: seq<int>, maxDepth: nat, rows: seq<Row>, expectedLeaf: Option<int>)
    requires multiset(rows) == multiset(Walk(parents, start, maxDepth + 1))
    requires ChainWithin(parents, start, c, maxDepth)
    requires expectedLeaf.Some? ==> expectedLeaf.value == start
    ensures ValidateRows(rows, expectedLeaf, maxDepth) == Success(ChainRows(parents, c))
  {
    hide Walk, ValidateRows, ChainRowsFrom;
    WalkOfChain(parents, start, c, maxDepth + 1);
    ChainRowsValid(parents, start, c, maxDepth, rows, expectedLeaf);
  }

  lemma AcceptedWalkIsChain(
      parents: ParentMap, start: int, maxDepth: nat, rows: seq<Row>, expectedLeaf: Option<int>) returns (c: seq<int>)
    requires multiset(rows) == multiset(Walk(parents, start, maxDepth + 1))
    requires ValidateRows(rows, expectedLeaf, maxDepth).Success?
    ensures ChainWithin(parents, start, c, maxDepth)
  {
    hide Walk, ValidateRows;
    AcceptedWalkEnds(parents, start, maxDepth, rows, expectedLeaf);
    c := NullEndedWalkIsChain(parents, start, maxDepth + 1);
    AcceptedChainPositive(parents, c, rows, expectedLeaf, maxDepth);
  }

  lemma AcceptedWalkEnds(parents: ParentMap, start: int, maxDepth: nat, rows: seq<Row>, expectedLeaf: Option<int>)
    requires multiset(rows) == multiset(Walk(parents, start, maxDepth + 1))
    requires ValidateRows(rows, expectedLeaf, maxDepth).Success?
    ensures NullEnded(Walk(parents, start, maxDepth + 1))
  {
    hide Walk, ValidateRows;
    WalkExact(parents, start, maxDepth + 1);
    AcceptedRowsEnd(rows, Walk(parents, start, maxDepth + 1), expectedLeaf, maxDepth);
  }

  lemma AcceptedRowsEnd(rows: seq<Row>, walk: seq<Row>, expectedLeaf: Option<int>, maxDepth: nat)
    requires multiset(rows) == multiset(walk) && Numbered(walk, 1)
    requires ValidateRows(rows, expectedLeaf, maxDepth).Success?
    ensures NullEnded(walk)
  {
    ValidationReads(rows, walk, expectedLeaf, maxDepth);
  }

  lemma AcceptedChainPositive(
      parents: ParentMap, c: seq<int>, rows: seq<Row>, expectedLeaf: Option<int>, maxDepth: nat)
    requires forall k :: 0 <= k < |c| ==> c[k] in parents
    requires multiset(rows) == multiset(ChainRows(parents, c))
    requires ValidateRows(rows, expectedLeaf, maxDepth).Success?
    ensures Positive(c) && |c| <= maxDepth
  {
    ChainRowsAre(parents, c);
    ValidationReads(rows, ChainRows(parents, c), expectedLeaf, maxDepth);
    forall i | 0 <= i < |c| ensures c[i] > 0 {
      assert PositiveRow(ChainRows(parents, c)[i]);
    }
  }
}
