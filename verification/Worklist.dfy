/**
 The search for loop-carried values that may be structured: initializeMaybeStructuredArgs walks forward
 over uses from the results of tts.get_structured_state (lib/AnalysisStructured/PtrAnalysis.cpp). On any
 use graph, cyclic ones included, it ends with exactly the values reachable in one or more steps.
 */
module Worklist {

  type Value = nat

  /** One user of a value: a loop ties each init argument to an iter-arg and a result. */
  datatype User =
    | ForOp(inits: seq<Value>, iterArgs: seq<Value>, results: seq<Value>)
    | OtherOp(opResults: seq<Value>)

  datatype Graph = Graph(nodes: set<Value>, users: map<Value, seq<User>>, types: map<Value, nat>)
  {
    /** Every value has a type and a list of users, and users only mention values of the function. */
    ghost predicate Valid() {
      && nodes == users.Keys == types.Keys
      && forall v, u :: v in nodes && u in users[v] ==>
           (u.ForOp? ==> |u.inits| == |u.iterArgs| == |u.results|) && Neighbors(v, u) <= nodes
    }

    /** The values that become candidates when `u` uses `v`. */
    function Neighbors(v: Value, u: User): set<Value> {
      match u
      case ForOp(inits, args, results) =>
        (set i | 0 <= i < |inits| && i < |args| && inits[i] == v :: args[i]) +
        (set i | 0 <= i < |inits| && i < |results| && inits[i] == v :: results[i])
      case OtherOp(results) =>
        set r | r in results && r in types && v in types && types[r] == types[v]
    }

    /**
     What a use of `v` leads to: from an init argument of a loop to the iter-arg and the result at its position, and
     from an operand of any other operation to the results of its type.
     */
    ghost predicate Leads(v: Value, u: User, n: Value) {
      match u
      case ForOp(inits, args, results) =>
        exists i :: 0 <= i < |inits| && i < |args| && i < |results| && inits[i] == v && n in {args[i], results[i]}
      case OtherOp(results) => n in results && n in types && v in types && types[n] == types[v]
    }

    ghost predicate Edge(v: Value, n: Value) {
      v in users && exists u :: u in users[v] && Leads(v, u, n)
    }

    lemma NeighborsAreLed(v: Value, u: User, n: Value)
      requires u.ForOp? ==> |u.inits| == |u.iterArgs| == |u.results|
      ensures n in Neighbors(v, u) <==> Leads(v, u, n)
    {
    }

    ghost predicate Path(p: seq<Value>) {
      |p| > 0 && forall i :: 0 < i < |p| ==> Edge(p[i - 1], p[i])
    }

    /** Reachable from a source in one or more steps. */
    ghost predicate Reachable(sources: set<Value>, n: Value) {
      exists p :: Path(p) && |p| > 1 && p[0] in sources && p[|p| - 1] == n
    }
  }

  lemma EdgeReaches(g: Graph, sources: set<Value>, v: Value, n: Value)
    requires (v in sources || g.Reachable(sources, v)) && g.Edge(v, n)
    ensures g.Reachable(sources, n)
  {
    if g.Reachable(sources, v) {
      var p :| g.Path(p) && |p| > 1 && p[0] in sources && p[|p| - 1] == v;
      assert g.Path(p + [n]);
      assert (p + [n])[|p + [n]| - 1] == n;
    } else {
      assert g.Path([v, n]);
    }
  }

  /** A set that contains the sources and is closed under edges contains everything on a path from them. */
  lemma {:induction false} ClosedContainsPaths(g: Graph, closed: set<Value>, p: seq<Value>, k: nat)
    requires g.Path(p) && p[0] in closed && k < |p|
    requires forall v, n :: v in closed && g.Edge(v, n) ==> n in closed
    ensures p[k] in closed
  {
    if k > 0 {
      ClosedContainsPaths(g, closed, p, k - 1);
      assert g.Edge(p[k - 1], p[k]);
    }
  }

  class Search {
    const g: Graph
    ghost const sources: set<Value>
    var q: seq<Value>
    var visited: set<Value>
    var maybeStructuredArgs: set<Value>

    /** The walk over the get_structured_state ops pushes result 0 of each. */
    constructor (g: Graph, starts: seq<Value>)
      requires g.Valid() && forall s :: s in starts ==> s in g.nodes
      ensures this.g == g && q == starts && maybeStructuredArgs == {}
      ensures sources == (set s | s in starts) && visited == sources
    {
      this.g := g;
      q := starts;
      visited := set s | s in starts;
      sources := set s | s in starts;
      maybeStructuredArgs := {};
    }

    ghost predicate Inv()
      reads this
    {
      && g.Valid() && sources <= visited <= g.nodes
      && (forall v :: v in q ==> v in visited)
      && (forall v :: v in visited ==> v in sources || g.Reachable(sources, v))
      && (forall v :: v in maybeStructuredArgs ==> v in visited && g.Reachable(sources, v))
    }

    /** Everything a value leads to has been recorded. */
    ghost predicate Expanded(v: Value)
      reads this
    {
      forall n :: g.Edge(v, n) ==> n in visited && n in maybeStructuredArgs
    }

    method Touch(neighbor: Value)
      modifies this
      ensures maybeStructuredArgs == old(maybeStructuredArgs) + {neighbor}
      ensures visited == old(visited) + {neighbor}
      ensures q == if neighbor in old(visited) then old(q) else old(q) + [neighbor]
    {
      maybeStructuredArgs := maybeStructuredArgs + {neighbor};
      if neighbor !in visited {
        visited := visited + {neighbor};
        q := q + [neighbor];
      }
    }

    /** What touching a set of neighbours does to the fields. */
    twostate predicate Touched(ns: set<Value>)
      reads this
    {
      && maybeStructuredArgs == old(maybeStructuredArgs) + ns
      && visited == old(visited) + ns
      && old(q) <= q
      && (forall x :: x in q[|old(q)|..] <==> x in ns && x !in old(visited))
    }

    method VisitUser(v: Value, u: User)
      requires u.ForOp? ==> |u.inits| == |u.iterArgs| == |u.results|
      requires v in g.types
      modifies this
      ensures Touched(g.Neighbors(v, u))
    {
      match u
      case ForOp(inits, args, results) => VisitFor(v, inits, args, results);
      case OtherOp(results) => VisitOther(v, results);
    }

    method VisitFor(v: Value, inits: seq<Value>, args: seq<Value>, results: seq<Value>)
      requires |inits| == |args| == |results|
      modifies this
      ensures Touched(g.Neighbors(v, ForOp(inits, args, results)))
    {
      ghost var done: set<Value> := {};
      for i := 0 to |inits|
        invariant done == (set j | 0 <= j < i && inits[j] == v :: args[j])
                        + (set j | 0 <= j < i && inits[j] == v :: results[j])
        invariant Touched(done)
      {
        if inits[i] == v {
          ghost var tail, before := q[|old(q)|..], q;
          TouchTied(args[i], results[i]);
          assert q[|old(q)|..] == tail + q[|before|..];
          done := done + {args[i], results[i]};
        }
      }
      assert done == g.Neighbors(v, ForOp(inits, args, results));
    }

    /** The two values tied to one init argument. */
    method TouchTied(arg: Value, result: Value)
      modifies this
      ensures Touched({arg, result})
    {
      Touch(arg);
      ghost var first := q[|old(q)|..];
      assert first == if arg in old(visited) then [] else [arg];
      Touch(result);
      assert q[|old(q)|..] == if result in old(visited) || result == arg then first else first + [result];
    }

    method VisitOther(v: Value, results: seq<Value>)
      requires v in g.types
      modifies this
      ensures Touched(g.Neighbors(v, OtherOp(results)))
    {
      ghost var done: set<Value> := {};
      for i := 0 to |results|
        invariant done == set j | 0 <= j < i && results[j] in g.types && g.types[results[j]] == g.types[v] :: results[j]
        invariant Touched(done)
      {
        if results[i] in g.types && g.types[results[i]] == g.types[v] {
          ghost var tail, seen := q[|old(q)|..], visited;
          Touch(results[i]);
          assert q[|old(q)|..] == if results[i] in seen then tail else tail + [results[i]];
          done := done + {results[i]};
        }
      }
      assert done == g.Neighbors(v, OtherOp(results));
    }

    /** Pop one value and touch everything its users lead to. */
    method Step()
      requires Inv() && q != []
      requires forall v :: v in visited && v !in q ==> Expanded(v)
      modifies this
      ensures Inv()
      ensures forall v :: v in visited && v !in q ==> Expanded(v)
      ensures old(visited) <= visited && (visited == old(visited) ==> |q| < |old(q)|)
    {
      var v := q[0];
      ghost var rest := q[1..];
      assert q == [v] + rest;
      q := q[1..];
      VisitUsers(v);
      ghost var tail := q[|rest|..];
      assert tail == [] || (tail[0] in tail && tail[0] in q);
      forall x | x in visited && x !in q ensures Expanded(x) {
        assert x == v || old(Expanded(x));
      }
    }

    /** All users of one value; what is new is queued behind what was there. */
    method VisitUsers(v: Value)
      requires Inv() && v in visited
      modifies this
      ensures Inv() && Expanded(v)
      ensures old(visited) <= visited && old(maybeStructuredArgs) <= maybeStructuredArgs && old(q) <= q
      ensures forall x :: x in q[|old(q)|..] ==> x !in old(visited)
      ensures forall x :: x in visited && x !in old(visited) ==> x in q
    {
      var us := g.users[v];
      for i := 0 to |us|
        invariant Inv() && v in visited
        invariant old(visited) <= visited && old(maybeStructuredArgs) <= maybeStructuredArgs
        invariant old(q) <= q && (forall x :: x in q[|old(q)|..] ==> x !in old(visited))
        invariant forall x :: x in visited && x !in old(visited) ==> x in q
        invariant forall j, n :: 0 <= j < i && n in g.Neighbors(v, us[j]) ==> n in visited && n in maybeStructuredArgs
      {
        assert us[i] in g.users[v];
        VisitUser(v, us[i]);
        forall n | n in g.Neighbors(v, us[i]) ensures g.Reachable(sources, n) {
          g.NeighborsAreLed(v, us[i], n);
          EdgeReaches(g, sources, v, n);
        }
      }
      forall n | g.Edge(v, n) ensures n in visited && n in maybeStructuredArgs {
        var u :| u in us && g.Leads(v, u, n);
        g.NeighborsAreLed(v, u, n);
        var j :| 0 <= j < |us| && us[j] == u;
        assert n in g.Neighbors(v, us[j]);
      }
    }

    /** The search ends, with exactly the values reachable in one or more steps. */
    method Run()
      requires Inv() && maybeStructuredArgs == {} && visited == sources && (forall v :: v in visited ==> v in q)
      modifies this
      ensures forall n :: n in maybeStructuredArgs <==> g.Reachable(sources, n)
    {
      while q != []
        invariant Inv()
        invariant forall v :: v in visited && v !in q ==> Expanded(v)
        decreases g.nodes - visited, |q|
      {
        Step();
      }
      forall n | g.Reachable(sources, n) ensures n in maybeStructuredArgs {
        var p :| g.Path(p) && |p| > 1 && p[0] in sources && p[|p| - 1] == n;
        ClosedContainsPaths(g, visited, p, |p| - 2);
        assert g.Edge(p[|p| - 2], p[|p| - 1]);
        assert Expanded(p[|p| - 2]);
      }
    }
  }

  /** initializeMaybeStructuredArgs */
  method InitializeMaybeStructuredArgs(g: Graph, starts: seq<Value>) returns (maybe: set<Value>)
    requires g.Valid() && forall s :: s in starts ==> s in g.nodes
    ensures forall n :: n in maybe <==> g.Reachable((set s | s in starts), n)
  {
    var search := new Search(g, starts);
    search.Run();
    maybe := search.maybeStructuredArgs;
  }
}
