/** The structural bound on inbound JSON, checked with an explicit stack instead of recursion. */
module Depth {
  import opened Common

  // An object's keys play no part in the check; its values are walked like an array's items.
  datatype Json =
    | Scalar
    | Object(keys: seq<string>, values: seq<Json>)
    | Array(items: seq<Json>)

  predicate IsContainer(j: Json) {
    !j.Scalar?
  }

  function Children(j: Json): (r: seq<Json>)
    ensures forall c :: c in r ==> c < j
  {
    match j
    case Scalar => []
    case Object(_, values) => values
    case Array(items) => items
  }

  // ----- nesting -----

  /** How many containers lie one inside another at the deepest place of `j`. */
  function Nesting(j: Json): nat
    decreases j
  {
    match j
    case Scalar => 0
    case Object(_, values) => 1 + Deepest(values)
    case Array(items) => 1 + Deepest(items)
  }

  function Deepest(js: seq<Json>): nat
    decreases js
  {
    if js == [] then 0 else Max(Deepest(js[..|js| - 1]), Nesting(js[|js| - 1]))
  }

  // The number of nodes, which bounds the work left on the stack.
  function Size(j: Json): nat
    decreases j
  {
    match j
    case Scalar => 1
    case Object(_, values) => 1 + TotalSize(values)
    case Array(items) => 1 + TotalSize(items)
  }

  function TotalSize(js: seq<Json>): nat
    decreases js
  {
    if js == [] then 0 else TotalSize(js[..|js| - 1]) + Size(js[|js| - 1])
  }

  /** The node that `path` leads to, by child positions from the root. */
  ghost predicate ContainerAt(j: Json, path: seq<nat>)
    decreases |path|
  {
    if path == [] then IsContainer(j)
    else path[0] < |Children(j)| && ContainerAt(Children(j)[path[0]], path[1..])
  }

  lemma {:induction false} DeepestBounds(js: seq<Json>, i: nat)
    requires i < |js|
    ensures Nesting(js[i]) <= Deepest(js)
  {
    if i < |js| - 1 {
      DeepestBounds(js[..|js| - 1], i);
    }
  }

  lemma {:induction false} DeepestAttained(js: seq<Json>) returns (i: nat)
    requires js != []
    ensures i < |js| && Nesting(js[i]) == Deepest(js)
  {
    i := |js| - 1;
    if |js| > 1 && Nesting(js[i]) < Deepest(js) {
      i := DeepestAttained(js[..|js| - 1]);
    }
  }

  /** No container lies deeper than the nesting says ... */
  lemma {:induction false} NestingBoundsPaths(j: Json, path: seq<nat>)
    requires ContainerAt(j, path)
    ensures |path| < Nesting(j)
    decreases |path|
  {
    if path != [] {
      NestingBoundsPaths(Children(j)[path[0]], path[1..]);
      DeepestBounds(Children(j), path[0]);
    }
  }

  /** ... and one lies exactly as deep as it says. */
  lemma {:induction false} NestingIsReached(j: Json) returns (path: seq<nat>)
    requires IsContainer(j)
    ensures ContainerAt(j, path) && |path| == Nesting(j) - 1
    decreases j
  {
    path := [];
    assert Nesting(j) == 1 + Deepest(Children(j));
    if Nesting(j) > 1 {
      var i := DeepestAttained(Children(j));
      assert Children(j)[i] in Children(j);
      var below := NestingIsReached(Children(j)[i]);
      path := [i] + below;
      assert path[1..] == below;
    }
  }

  // ----- the walk -----

  ghost predicate TooDeep(entry: (Json, int), maxDepth: int) {
    IsContainer(entry.0) && entry.1 - 1 + Nesting(entry.0) > maxDepth
  }

  ghost predicate AnyTooDeep(stack: seq<(Json, int)>, maxDepth: int) {
    exists i :: 0 <= i < |stack| && TooDeep(stack[i], maxDepth)
  }

  /** One of the first `n` children, standing at `depth`, is too deep. */
  ghost predicate AnyChild(children: seq<Json>, n: nat, depth: int, maxDepth: int)
    requires n <= |children|
  {
    exists i :: 0 <= i < n && TooDeep((children[i], depth), maxDepth)
  }

  ghost function Work(stack: seq<(Json, int)>): nat {
    if stack == [] then 0 else Work(stack[..|stack| - 1]) + Size(stack[|stack| - 1].0)
  }

  lemma WorkSnoc(stack: seq<(Json, int)>, entry: (Json, int))
    ensures Work(stack + [entry]) == Work(stack) + Size(entry.0)
  {
    assert (stack + [entry])[..|stack|] == stack;
  }

  lemma AnyTooDeepSnoc(stack: seq<(Json, int)>, entry: (Json, int), maxDepth: int)
    ensures AnyTooDeep(stack + [entry], maxDepth) <==> AnyTooDeep(stack, maxDepth) || TooDeep(entry, maxDepth)
  {
    hide TooDeep;
    var all := stack + [entry];
    if AnyTooDeep(stack, maxDepth) {
      var i :| 0 <= i < |stack| && TooDeep(stack[i], maxDepth);
      assert TooDeep(all[i], maxDepth);
    }
    if TooDeep(entry, maxDepth) {
      assert TooDeep(all[|stack|], maxDepth);
    }
  }

  /** A container within the bound is too deep exactly when one of its child containers is. */
  lemma TooDeepBelow(node: Json, depth: int, maxDepth: int)
    requires IsContainer(node) && depth <= maxDepth
    ensures TooDeep((node, depth), maxDepth) <==> AnyChild(Children(node), |Children(node)|, depth + 1, maxDepth)
  {
    var children := Children(node);
    assert Nesting(node) == 1 + Deepest(children);
    if TooDeep((node, depth), maxDepth) {
      var i := DeepestAttained(children);
      assert TooDeep((children[i], depth + 1), maxDepth);
    }
    forall i | 0 <= i < |children| ensures Nesting(children[i]) <= Deepest(children) {
      DeepestBounds(children, i);
    }
  }

  datatype Verdict = Accepted | TooDeeplyNested

  /** Refuses exactly the containers nested more than `maxDepth` deep; for a bound that is not negative,
      exactly the values that are. */
  method CheckDepth(value: Json, maxDepth: int) returns (verdict: Verdict)
    ensures verdict == TooDeeplyNested <==> IsContainer(value) && Nesting(value) > maxDepth
    ensures maxDepth >= 0 ==> (verdict == TooDeeplyNested <==> Nesting(value) > maxDepth)
  {
    hide TooDeep, AnyTooDeep;
    var stack: seq<(Json, int)> := [(value, 1)];
    RootEntry(value, maxDepth);
    while stack != []
      invariant AnyTooDeep(stack, maxDepth) <==> IsContainer(value) && Nesting(value) > maxDepth
      decreases Work(stack)
    {
      var (node, depth) := stack[|stack| - 1];
      ghost var whole := stack;
      stack := stack[..|stack| - 1];
      assert whole == stack + [(node, depth)];
      AnyTooDeepSnoc(stack, (node, depth), maxDepth);
      WorkSnoc(stack, (node, depth));
      if !IsContainer(node) {
        ScalarNeverTooDeep(depth, maxDepth);
        continue;
      }
      if depth > maxDepth {
        ContainerTooDeep(node, depth, maxDepth);
        return TooDeeplyNested;
      }
      var children := Children(node);
      stack := PushContainers(stack, children, depth + 1, maxDepth);
      TooDeepBelow(node, depth, maxDepth);
    }
    NoneTooDeep(maxDepth);
    verdict := Accepted;
  }

  lemma RootEntry(value: Json, maxDepth: int)
    ensures AnyTooDeep([(value, 1)], maxDepth) <==> IsContainer(value) && Nesting(value) > maxDepth
  {
    assert [(value, 1)][0] == (value, 1);
  }

  lemma NoneTooDeep(maxDepth: int)
    ensures !AnyTooDeep([], maxDepth)
  {}

  lemma ScalarNeverTooDeep(depth: int, maxDepth: int)
    ensures !TooDeep((Scalar, depth), maxDepth)
  {}

  lemma ContainerTooDeep(node: Json, depth: int, maxDepth: int)
    requires IsContainer(node) && depth > maxDepth
    ensures TooDeep((node, depth), maxDepth)
  {}

  method PushContainers(stack: seq<(Json, int)>, children: seq<Json>, depth: int, ghost maxDepth: int)
    returns (r: seq<(Json, int)>)
    ensures Work(r) <= Work(stack) + TotalSize(children)
    ensures AnyTooDeep(r, maxDepth) <==> AnyTooDeep(stack, maxDepth) || AnyChild(children, |children|, depth, maxDepth)
  {
    hide AnyTooDeep;
    r := stack;
    for i := 0 to |children|
      invariant Work(r) <= Work(stack) + TotalSize(children[..i])
      invariant AnyTooDeep(r, maxDepth) <==> AnyTooDeep(stack, maxDepth) || AnyChild(children, i, depth, maxDepth)
    {
      assert children[..i + 1][..i] == children[..i];
      if IsContainer(children[i]) {
        WorkSnoc(r, (children[i], depth));
        AnyTooDeepSnoc(r, (children[i], depth), maxDepth);
        r := r + [(children[i], depth)];
      }
    }
    assert children[..|children|] == children;
  }
}
