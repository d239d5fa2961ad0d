/**
 The web app's walk over a transaction error: collecting the log lines attached to it and to the
 errors behind it, and telling whether a preflight failure is among its causes. The errors form an
 object graph that may share nodes and contain cycles.
 */
module ErrorLogs {
  import opened Text
  import opened Wrappers

  type Ref = nat

  /** A JavaScript value as far as these functions look at it. */
  datatype Value = Undefined | Null | Text(text: string) | Other | Object(ref: Ref)

  /**
   An object: the properties that are read, whether it is an array (its elements), whether it is the
   Solana preflight-failure error, and what `unwrapSimulationError` returns for it.
   */
  datatype Node = Node(
    logs: Value,
    context: Value,
    data: Value,
    cause: Value,
    elements: Option<seq<Value>>,
    isPreflight: bool,
    unwrapped: Value)

  type Heap = map<Ref, Node>

  predicate WellFormedValue(heap: Heap, v: Value)
  {
    v.Object? ==> v.ref in heap
  }

  /** No dangling references. */
  ghost predicate WellFormed(heap: Heap)
  {
    forall r :: r in heap ==>
      && WellFormedValue(heap, heap[r].logs)
      && WellFormedValue(heap, heap[r].context)
      && WellFormedValue(heap, heap[r].data)
      && WellFormedValue(heap, heap[r].cause)
      && WellFormedValue(heap, heap[r].unwrapped)
  }

  // ---- The lines of one node ----

  /** The non-blank strings among the elements, in order. */
  function LogLines(elements: seq<Value>): (lines: seq<string>)
  {
    if elements == [] then []
    else
      (if elements[0].Text? && !Blank(elements[0].text) then [elements[0].text] else []) + LogLines(elements[1..])
  }

  function NormalizeLogs(heap: Heap, value: Value): seq<string>
    requires WellFormedValue(heap, value)
  {
    if value.Object? && heap[value.ref].elements.Some? then LogLines(heap[value.ref].elements.value) else []
  }

  /** The logs of the object a property holds, if it holds one. */
  function LogsOf(heap: Heap, value: Value): seq<string>
    requires WellFormed(heap) && WellFormedValue(heap, value)
  {
    if value.Object? then NormalizeLogs(heap, heap[value.ref].logs) else []
  }

  /** The lines attached to one node, in the order they are pushed. */
  function NodeLines(heap: Heap, r: Ref): seq<string>
    requires WellFormed(heap) && r in heap
  {
    var node := heap[r];
    (if node.isPreflight then LogsOf(heap, node.context) else [])
    + NormalizeLogs(heap, node.logs)
    + LogsOf(heap, node.context)
    + LogsOf(heap, node.data)
  }

  // ---- Which lines are attached to a node ----

  /** A line is in the array under a property: a string element that is not blank. */
  predicate HasLine(heap: Heap, value: Value, line: string)
  {
    && value.Object? && value.ref in heap
    && heap[value.ref].elements.Some? && Text(line) in heap[value.ref].elements.value && !Blank(line)
  }

  /** The `logs` of the object under a property have the line. */
  predicate LogsHaveLine(heap: Heap, value: Value, line: string)
  {
    value.Object? && value.ref in heap && HasLine(heap, heap[value.ref].logs, line)
  }

  /** A line is attached to an object: under its own `logs`, or under those of its `context` or its `data`. */
  predicate Attached(heap: Heap, r: Ref, line: string)
  {
    && r in heap
    && (|| HasLine(heap, heap[r].logs, line)
        || LogsHaveLine(heap, heap[r].context, line)
        || LogsHaveLine(heap, heap[r].data, line))
  }

  lemma {:induction false} LogLinesMembers(elements: seq<Value>, line: string)
    ensures line in LogLines(elements) <==> Text(line) in elements && !Blank(line)
  {
    if elements != [] {
      LogLinesMembers(elements[1..], line);
      assert elements == [elements[0]] + elements[1..];
    }
  }

  /** The array's order is kept. */
  lemma {:induction false} LogLinesAppend(a: seq<Value>, b: seq<Value>)
    ensures LogLines(a + b) == LogLines(a) + LogLines(b)
  {
    if a == [] {
      assert a + b == b;
    } else {
      assert (a + b)[1..] == a[1..] + b;
      LogLinesAppend(a[1..], b);
    }
  }

  lemma PropertyLines(heap: Heap, value: Value, line: string)
    requires WellFormedValue(heap, value)
    ensures line in NormalizeLogs(heap, value) <==> HasLine(heap, value, line)
  {
    if value.Object? && heap[value.ref].elements.Some? {
      LogLinesMembers(heap[value.ref].elements.value, line);
    }
  }

  lemma ObjectLines(heap: Heap, value: Value, line: string)
    requires WellFormed(heap) && WellFormedValue(heap, value)
    ensures line in LogsOf(heap, value) <==> LogsHaveLine(heap, value, line)
  {
    if value.Object? {
      PropertyLines(heap, heap[value.ref].logs, line);
    }
  }

  /** The lines of a node are exactly those attached to it. */
  lemma NodeLinesAttached(heap: Heap, r: Ref, line: string)
    requires WellFormed(heap) && r in heap
    ensures line in NodeLines(heap, r) <==> Attached(heap, r, line)
  {
    PropertyLines(heap, heap[r].logs, line);
    ObjectLines(heap, heap[r].context, line);
    ObjectLines(heap, heap[r].data, line);
  }

  /**
   They come in this order: for a preflight failure those of its context, then its own, those of its
   context, those of its data.
   */
  lemma NodeLinesInOrder(heap: Heap, r: Ref)
    returns (first: seq<string>, own: seq<string>, context: seq<string>, data: seq<string>)
    requires WellFormed(heap) && r in heap
    ensures NodeLines(heap, r) == first + own + context + data
    ensures forall line :: line in first <==> heap[r].isPreflight && LogsHaveLine(heap, heap[r].context, line)
    ensures forall line :: line in own <==> HasLine(heap, heap[r].logs, line)
    ensures forall line :: line in context <==> LogsHaveLine(heap, heap[r].context, line)
    ensures forall line :: line in data <==> LogsHaveLine(heap, heap[r].data, line)
  {
    own, context, data := NormalizeLogs(heap, heap[r].logs), LogsOf(heap, heap[r].context), LogsOf(heap, heap[r].data);
    first := if heap[r].isPreflight then context else [];
    forall line
      ensures line in own <==> HasLine(heap, heap[r].logs, line)
      ensures line in context <==> LogsHaveLine(heap, heap[r].context, line)
      ensures line in data <==> LogsHaveLine(heap, heap[r].data, line)
    {
      PropertyLines(heap, heap[r].logs, line);
      ObjectLines(heap, heap[r].context, line);
      ObjectLines(heap, heap[r].data, line);
    }
  }

  // ---- Deduplication ----

  /** `s` with every element kept at its first occurrence only. */
  function Dedup(s: seq<string>): (r: seq<string>)
  {
    if s == [] then []
    else
      var n := |s| - 1;
      var r := Dedup(s[..n]);
      if s[n] in s[..n] then r else r + [s[n]]
  }

  ghost predicate NoDuplicates<T(!new)>(s: seq<T>)
  {
    forall i, j :: 0 <= i < j < |s| ==> s[i] != s[j]
  }

  lemma {:induction false} DedupSpec(s: seq<string>)
    ensures NoDuplicates(Dedup(s))
    ensures forall x :: x in Dedup(s) <==> x in s
  {
    if s != [] {
      var n := |s| - 1;
      DedupSpec(s[..n]);
      assert s == s[..n] + [s[n]];
      assert forall x :: x in s <==> x in s[..n] || x == s[n];
    }
  }

  /** Where a line stands first. */
  function FirstPlace(s: seq<string>, line: string): (i: nat)
    requires line in s
    ensures i < |s| && s[i] == line && line !in s[..i]
  {
    if s[0] == line then 0
    else
      assert s == [s[0]] + s[1..];
      var i := FirstPlace(s[1..], line) + 1;
      assert s[..i] == [s[0]] + s[1..][..i - 1];
      i
  }

  lemma NotAmong(s: seq<string>, line: string, i: nat, j: nat)
    requires i <= |s| && j < |s|
    ensures j < i && line !in s[..i] ==> s[j] != line
  {
    if j < i {
      assert s[..i][j] == s[j];
    }
  }

  lemma FirstPlaceUnique(s: seq<string>, line: string, i: nat)
    requires i < |s| && s[i] == line && line !in s[..i]
    ensures FirstPlace(s, line) == i
  {
    var j := FirstPlace(s, line);
    NotAmong(s, line, i, j);
    NotAmong(s, line, j, i);
  }

  /** Lines are kept in the order in which they first occur. */
  lemma {:induction false} DedupKeepsFirst(s: seq<string>, i: nat, j: nat)
    requires i < j < |Dedup(s)|
    ensures Dedup(s)[i] in s && Dedup(s)[j] in s
    ensures FirstPlace(s, Dedup(s)[i]) < FirstPlace(s, Dedup(s)[j])
  {
    hide FirstPlace;
    var n := |s| - 1;
    var front := s[..n];
    DedupSpec(s);
    DedupSpec(front);
    var x, y := Dedup(s)[i], Dedup(s)[j];
    assert x in front by {
      assert Dedup(front)[i] == x;
    }
    var k := FirstPlace(front, x);
    assert s[..k] == front[..k];
    FirstPlaceUnique(s, x, k);
    if j < |Dedup(front)| {
      DedupKeepsFirst(front, i, j);
      assert s[..FirstPlace(front, y)] == front[..FirstPlace(front, y)];
      FirstPlaceUnique(s, y, FirstPlace(front, y));
    } else {
      FirstPlaceUnique(s, y, n);
    }
  }

  lemma DedupSnoc(s: seq<string>, x: string)
    ensures Dedup(s + [x]) == if x in s then Dedup(s) else Dedup(s) + [x]
  {
    assert (s + [x])[..|s|] == s;
  }

  lemma {:induction false} DedupSuffix(a: seq<string>, b: seq<string>)
    ensures Dedup(a + Dedup(b)) == Dedup(a + b)
  {
    if b == [] {
      assert Dedup(b) == b;
    } else {
      var n := |b| - 1;
      DedupSuffix(a, b[..n]);
      DedupSpec(b[..n]);
      assert b == b[..n] + [b[n]] && a + b == (a + b[..n]) + [b[n]];
      DedupSnoc(a + b[..n], b[n]);
      DedupSnoc(b[..n], b[n]);
      if b[n] !in b[..n] {
        assert a + Dedup(b) == (a + Dedup(b[..n])) + [b[n]];
        DedupSnoc(a + Dedup(b[..n]), b[n]);
      }
    }
  }

  lemma {:induction false} DedupPrefix(a: seq<string>, b: seq<string>, c: seq<string>)
    requires Dedup(a) == Dedup(b) && (forall x :: x in a <==> x in b)
    ensures Dedup(a + c) == Dedup(b + c)
    ensures forall x :: x in a + c <==> x in b + c
  {
    if c == [] {
      assert a + c == a && b + c == b;
    } else {
      var n := |c| - 1;
      DedupPrefix(a, b, c[..n]);
      assert a + c == (a + c[..n]) + [c[n]] && b + c == (b + c[..n]) + [c[n]];
      DedupSnoc(a + c[..n], c[n]);
      DedupSnoc(b + c[..n], c[n]);
    }
  }

  /** Deduplicating the parts first does not change the result: nested calls may do so at every level. */
  lemma DedupParts(a: seq<string>, b: seq<string>, c: seq<string>)
    ensures Dedup(a + Dedup(b) + Dedup(c)) == Dedup(a + b + c)
  {
    DedupSuffix(a + Dedup(b), c);
    DedupSuffix(a, b);
    DedupSpec(b);
    DedupPrefix(a + Dedup(b), a + b, c);
  }

  // ---- Reachability ----

  /** The values the walk moves to from a node: the unwrapped simulation error, if another, and the cause. */
  predicate StepsTo(heap: Heap, from: Ref, to: Ref)
    requires from in heap
  {
    heap[from].unwrapped == Object(to) || heap[from].cause == Object(to)
  }

  ghost predicate IsPath(heap: Heap, path: seq<Ref>)
  {
    && path != []
    && (forall i :: 0 <= i < |path| ==> path[i] in heap)
    && forall i :: 0 <= i < |path| - 1 ==> StepsTo(heap, path[i], path[i + 1])
  }

  ghost predicate Reachable(heap: Heap, from: Ref, to: Ref)
  {
    exists path :: IsPath(heap, path) && path[0] == from && path[|path| - 1] == to
  }

  lemma ReachableSelf(heap: Heap, r: Ref)
    requires r in heap
    ensures Reachable(heap, r, r)
  {
    assert IsPath(heap, [r]);
  }

  /** A set that contains the start and is closed under steps contains everything reachable. */
  lemma {:induction false} ClosedContains(heap: Heap, closed: set<Ref>, path: seq<Ref>)
    requires IsPath(heap, path) && path[0] in closed
    requires forall r, t :: r in closed && r in heap && t in heap && StepsTo(heap, r, t) ==> t in closed
    ensures path[|path| - 1] in closed
  {
    if |path| > 1 {
      ClosedContains(heap, closed, path[..|path| - 1]);
    }
  }

  // ---- The walk ----

  /** The shared `visited` set that the recursive calls add to. */
  class VisitedSet {
    var members: set<Ref>

    constructor ()
      ensures members == {}
    {
      members := {};
    }
  }

  /**
   The depth-first order, with the visited set at its end: a node, then what the unwrapped simulation
   error leads to, then what the cause leads to.
   */
  ghost function Preorder(heap: Heap, value: Value, visited: set<Ref>): (r: (seq<Ref>, set<Ref>))
    requires WellFormed(heap) && WellFormedValue(heap, value)
    ensures visited <= r.1
    decreases heap.Keys - visited
  {
    if !value.Object? || value.ref in visited then ([], visited)
    else
      var node := heap[value.ref];
      var marked := visited + {value.ref};
      var (first, between) := if node.unwrapped != value then Preorder(heap, node.unwrapped, marked) else ([], marked);
      var (second, after) := if node.cause != Undefined then Preorder(heap, node.cause, between) else ([], between);
      ([value.ref] + first + second, after)
  }

  lemma PreorderStarts(heap: Heap, r: Ref, visited: set<Ref>)
    requires WellFormed(heap) && r in heap && r !in visited
    ensures var order := Preorder(heap, Object(r), visited).0;
            order != [] && order[0] == r
  {
  }

  /**
   A node comes first, then what its unwrapped simulation error leads to, and only then its cause:
   an unvisited unwrapped error is next, and an unvisited cause is next where there is no such error.
   */
  lemma PreorderUnwrappedFirst(heap: Heap, r: Ref, visited: set<Ref>)
    requires WellFormed(heap) && r in heap && r !in visited
    ensures var order := Preorder(heap, Object(r), visited).0;
            var marked := visited + {r};
            var unwrapped, cause := heap[r].unwrapped, heap[r].cause;
            var unwrapsOn := unwrapped.Object? && unwrapped.ref !in marked;
            && (unwrapsOn ==> |order| > 1 && order[1] == unwrapped.ref)
            && (!unwrapsOn && cause.Object? && cause.ref !in marked ==> |order| > 1 && order[1] == cause.ref)
  {
    var marked := visited + {r};
    var unwrapped, cause := heap[r].unwrapped, heap[r].cause;
    if unwrapped.Object? && unwrapped.ref !in marked {
      PreorderStarts(heap, unwrapped.ref, marked);
    } else if cause.Object? && cause.ref !in marked {
      PreorderStarts(heap, cause.ref, marked);
    }
  }

  ghost function LinesOf(heap: Heap, order: seq<Ref>): seq<string>
    requires WellFormed(heap) && forall r :: r in order ==> r in heap
  {
    if order == [] then [] else NodeLines(heap, order[0]) + LinesOf(heap, order[1..])
  }

  lemma {:induction false} LinesOfAppend(heap: Heap, a: seq<Ref>, b: seq<Ref>)
    requires WellFormed(heap) && (forall r :: r in a ==> r in heap) && (forall r :: r in b ==> r in heap)
    ensures forall r :: r in a + b ==> r in heap
    ensures LinesOf(heap, a + b) == LinesOf(heap, a) + LinesOf(heap, b)
  {
    hide NodeLines, WellFormed;
    if a == [] {
      assert a + b == b;
    } else {
      var ab := a + b;
      assert ab[0] == a[0] && ab[1..] == a[1..] + b;
      LinesOfAppend(heap, a[1..], b);
      assert LinesOf(heap, ab) == NodeLines(heap, a[0]) + (LinesOf(heap, a[1..]) + LinesOf(heap, b));
    }
  }

  /**
   What one call adds to the visited set when it starts from `before` and ends at `after`, listed in
   the order visited: new nodes only, each once, and closed under steps up to what was there before.
   */
  ghost predicate Walked(heap: Heap, error: Value, before: set<Ref>, after: set<Ref>, order: seq<Ref>)
  {
    && NoDuplicates(order)
    && (forall r :: r in order ==> r in heap && r !in before)
    && after == before + (set r | r in order)
    && (error.Object? ==> error.ref in after)
    && (forall r, t :: r in order && t in heap && StepsTo(heap, r, t) ==> t in after)
  }

  /** What a call has visited after it marked its own node and walked the values `done`. */
  ghost predicate Marked(heap: Heap, before: set<Ref>, now: set<Ref>, order: seq<Ref>)
  {
    && NoDuplicates(order)
    && (forall r :: r in order ==> r in heap && r !in before)
    && now == before + (set r | r in order)
  }

  lemma MarkedThenWalked(heap: Heap, next: Value, before: set<Ref>, mid: set<Ref>, after: set<Ref>,
                         order: seq<Ref>, deeper: seq<Ref>)
    requires Marked(heap, before, mid, order) && Walked(heap, next, mid, after, deeper)
    ensures Marked(heap, before, after, order + deeper)
  {
    forall i, j | 0 <= i < j < |order + deeper|
      ensures (order + deeper)[i] != (order + deeper)[j]
    {
      if i < |order| <= j {
        assert order[i] in mid && deeper[j - |order|] !in mid;
      }
    }
  }

  lemma ReachablePrepend(heap: Heap, from: Ref, mid: Ref, to: Ref)
    requires from in heap && mid in heap && StepsTo(heap, from, mid) && Reachable(heap, mid, to)
    ensures Reachable(heap, from, to)
  {
    var path :| IsPath(heap, path) && path[0] == mid && path[|path| - 1] == to;
    var longer := [from] + path;
    forall i | 0 <= i < |longer| - 1 ensures StepsTo(heap, longer[i], longer[i + 1]) {
      if i > 0 {
        assert StepsTo(heap, path[i - 1], path[i - 1 + 1]);
      }
    }
    assert IsPath(heap, longer) && longer[|longer| - 1] == to;
  }

  /** Walks one value a node leads to, if it leads there at all. */
  method CollectFrom(heap: Heap, r: Ref, next: Value, follow: bool, visited: VisitedSet)
    returns (result: seq<string>, ghost order: seq<Ref>)
    requires WellFormed(heap) && WellFormedValue(heap, next) && r in heap && r in visited.members
    requires next == heap[r].unwrapped || next == heap[r].cause
    requires !follow ==> !next.Object? || next.ref in visited.members
    modifies visited
    ensures Walked(heap, next, old(visited.members), visited.members, order)
    ensures result == Dedup(LinesOf(heap, order))
    ensures (order, visited.members)
         == if follow then Preorder(heap, next, old(visited.members)) else ([], old(visited.members))
    ensures forall t :: t in order ==> Reachable(heap, r, t)
    decreases heap.Keys - visited.members, 2
  {
    if follow {
      result, order := CollectLogs(heap, next, visited);
      forall t | t in order ensures Reachable(heap, r, t) {
        ReachablePrepend(heap, r, next.ref, t);
      }
    } else {
      result, order := [], [];
    }
  }

  /** Collects the log lines of the nodes not visited before, each line once. */
  method CollectLogs(heap: Heap, error: Value, visited: VisitedSet) returns (result: seq<string>, ghost order: seq<Ref>)
    requires WellFormed(heap) && WellFormedValue(heap, error)
    modifies visited
    ensures Walked(heap, error, old(visited.members), visited.members, order)
    ensures result == Dedup(LinesOf(heap, order))
    ensures (order, visited.members) == Preorder(heap, error, old(visited.members))
    ensures forall r :: r in order ==> error.Object? && Reachable(heap, error.ref, r)
    decreases heap.Keys - visited.members, 1
  {
    if !error.Object? {
      return [], [];
    }
    var r := error.ref;
    if r in visited.members {
      return [], [];
    }
    ghost var before := visited.members;
    visited.members := visited.members + {r};
    var logs := NodeLines(heap, r);
    var unwrapped, first := CollectFrom(heap, r, heap[r].unwrapped, heap[r].unwrapped != error, visited);
    ghost var between := visited.members;
    var causes, second := CollectFrom(heap, r, heap[r].cause, heap[r].cause != Undefined, visited);
    WalkComposed(heap, r, before, between, visited.members, first, second);
    order := [r] + first + second;
    LinesComposed(heap, r, first, second);
    ReachableSelf(heap, r);
    result := Dedup(logs + unwrapped + causes);
  }

  lemma WalkComposed(heap: Heap, r: Ref, before: set<Ref>, between: set<Ref>, after: set<Ref>, first: seq<Ref>, second: seq<Ref>)
    requires WellFormed(heap) && r in heap && r !in before
    requires Walked(heap, heap[r].unwrapped, before + {r}, between, first)
    requires Walked(heap, heap[r].cause, between, after, second)
    ensures Walked(heap, Object(r), before, after, [r] + first + second)
  {
    assert Marked(heap, before, before + {r}, [r]);
    MarkedThenWalked(heap, heap[r].unwrapped, before, before + {r}, between, [r], first);
    MarkedThenWalked(heap, heap[r].cause, before, between, after, [r] + first, second);
  }

  lemma LinesComposed(heap: Heap, r: Ref, first: seq<Ref>, second: seq<Ref>)
    requires WellFormed(heap) && r in heap
    requires (forall t :: t in first ==> t in heap) && (forall t :: t in second ==> t in heap)
    ensures forall t :: t in [r] + first + second ==> t in heap
    ensures Dedup(NodeLines(heap, r) + Dedup(LinesOf(heap, first)) + Dedup(LinesOf(heap, second)))
         == Dedup(LinesOf(heap, [r] + first + second))
  {
    LinesOfAppend(heap, [r], first);
    LinesOfAppend(heap, [r] + first, second);
    assert LinesOf(heap, [r]) == NodeLines(heap, r) + LinesOf(heap, []);
    DedupParts(NodeLines(heap, r), LinesOf(heap, first), LinesOf(heap, second));
  }

  /**
   The whole walk: each non-blank line attached to a reachable object, once, and nothing else. The
   lines come in the order in which a depth-first walk first meets them.
   */
  method CollectAllLogs(heap: Heap, error: Value) returns (result: seq<string>, ghost order: seq<Ref>)
    requires WellFormed(heap) && WellFormedValue(heap, error)
    ensures NoDuplicates(order) && order == Preorder(heap, error, {}).0
    ensures forall r :: r in order <==> r in heap && error.Object? && Reachable(heap, error.ref, r)
    ensures NoDuplicates(result)
    ensures forall line :: line in result <==>
              exists r :: r in heap && error.Object? && Reachable(heap, error.ref, r) && Attached(heap, r, line)
    ensures result == Dedup(LinesOf(heap, order))
  {
    var visited := new VisitedSet();
    result, order := CollectLogs(heap, error, visited);
    forall r | r in heap && error.Object? && Reachable(heap, error.ref, r) ensures r in order {
      var path :| IsPath(heap, path) && path[0] == error.ref && path[|path| - 1] == r;
      ClosedContains(heap, visited.members, path);
    }
    DedupSpec(LinesOf(heap, order));
    forall line ensures line in LinesOf(heap, order) <==> exists r :: r in order && line in NodeLines(heap, r) {
      LinesOfMember(heap, order, line);
    }
    forall r, line | r in order ensures line in NodeLines(heap, r) <==> Attached(heap, r, line) {
      NodeLinesAttached(heap, r, line);
    }
  }

  lemma {:induction false} LinesOfMember(heap: Heap, order: seq<Ref>, line: string)
    requires WellFormed(heap) && forall r :: r in order ==> r in heap
    ensures line in LinesOf(heap, order) <==> exists r :: r in order && line in NodeLines(heap, r)
  {
    if order != [] {
      LinesOfMember(heap, order[1..], line);
      assert order == [order[0]] + order[1..];
    }
  }

  // ---- Preflight failures ----

  ghost predicate IsCauseChain(heap: Heap, path: seq<Ref>)
  {
    && path != []
    && (forall i :: 0 <= i < |path| ==> path[i] in heap)
    && forall i :: 0 <= i < |path| - 1 ==> heap[path[i]].cause == Object(path[i + 1])
  }

  ghost predicate CausedBy(heap: Heap, from: Ref, to: Ref)
  {
    exists path :: IsCauseChain(heap, path) && path[0] == from && path[|path| - 1] == to
  }

  ghost predicate PreflightBehind(heap: Heap, error: Value)
  {
    error.Object? && exists r :: r in heap && CausedBy(heap, error.ref, r) && heap[r].isPreflight
  }

  /** The chain behind a node is the node itself and the chain behind its cause. */
  lemma PreflightStep(heap: Heap, r: Ref)
    requires WellFormed(heap) && r in heap
    ensures PreflightBehind(heap, Object(r)) <==> heap[r].isPreflight || PreflightBehind(heap, heap[r].cause)
  {
    if heap[r].isPreflight {
      assert IsCauseChain(heap, [r]);
      assert CausedBy(heap, r, r);
    }
    if PreflightBehind(heap, heap[r].cause) {
      var t :| t in heap && CausedBy(heap, heap[r].cause.ref, t) && heap[t].isPreflight;
      var path :| IsCauseChain(heap, path) && path[0] == heap[r].cause.ref && path[|path| - 1] == t;
      assert IsCauseChain(heap, [r] + path);
      assert ([r] + path)[|[r] + path| - 1] == t;
      assert CausedBy(heap, r, t);
    }
    if PreflightBehind(heap, Object(r)) && !heap[r].isPreflight {
      var t :| t in heap && CausedBy(heap, r, t) && heap[t].isPreflight;
      var path :| IsCauseChain(heap, path) && path[0] == r && path[|path| - 1] == t;
      assert |path| > 1;
      assert IsCauseChain(heap, path[1..]);
      assert CausedBy(heap, path[1], t);
    }
  }

  /** Nodes visited before have nothing behind them that is not visited, and none of them is a preflight error. */
  ghost predicate NoPreflightVisited(heap: Heap, visited: set<Ref>, error: Value)
  {
    && (forall r :: r in visited && r in heap ==> !heap[r].isPreflight)
    && (forall r :: r in visited && r in heap && heap[r].cause.Object? ==>
          heap[r].cause.ref in visited || heap[r].cause == error)
  }

  lemma {:induction false} NothingBehindVisited(heap: Heap, visited: set<Ref>, error: Value, path: seq<Ref>)
    requires NoPreflightVisited(heap, visited, error)
    requires error.Object? ==> error.ref in visited
    requires IsCauseChain(heap, path) && path[0] in visited
    ensures !heap[path[|path| - 1]].isPreflight
  {
    if |path| > 1 {
      assert heap[path[0]].cause == Object(path[1]);
      NothingBehindVisited(heap, visited, error, path[1..]);
    }
  }

  method PreflightAmongCauses(heap: Heap, error: Value, visited: VisitedSet) returns (result: bool)
    requires WellFormed(heap) && WellFormedValue(heap, error)
    requires NoPreflightVisited(heap, visited.members, error)
    modifies visited
    ensures result <==> PreflightBehind(heap, error)
    decreases heap.Keys - visited.members
  {
    if !error.Object? {
      return false;
    }
    var r := error.ref;
    if r in visited.members {
      forall t | t in heap && CausedBy(heap, r, t) ensures !heap[t].isPreflight {
        var path :| IsCauseChain(heap, path) && path[0] == r && path[|path| - 1] == t;
        NothingBehindVisited(heap, visited.members, error, path);
      }
      return false;
    }
    visited.members := visited.members + {r};
    PreflightStep(heap, r);
    if heap[r].isPreflight {
      return true;
    }
    if heap[r].cause == Undefined {
      return false;
    }
    result := PreflightAmongCauses(heap, heap[r].cause, visited);
  }

  /** True exactly when a preflight failure is the error itself or among its causes, cycles or not. */
  method IsPreflightFailure(heap: Heap, error: Value) returns (result: bool)
    requires WellFormed(heap) && WellFormedValue(heap, error)
    ensures result <==> PreflightBehind(heap, error)
  {
    var visited := new VisitedSet();
    result := PreflightAmongCauses(heap, error, visited);
  }
}
