/**
 * Which schemas a document slice carries: a worklist over a `$ref` graph that may be cyclic
 * and may dangle.
 */
module Reachability {
  import opened Json
  import opened SchemaRefs

  /** A chain of `$ref`s from a root, every schema on it registered. */
  ghost predicate Chain(all: map<string, Json>, roots: set<string>, c: seq<string>) {
    && c != [] && c[|c| - 1] in all
    && if |c| == 1 then c[0] in roots
       else Chain(all, roots, c[..|c| - 1]) && c[|c| - 1] in Refs(all[c[|c| - 2]])
  }

  ghost predicate Reachable(all: map<string, Json>, roots: set<string>, n: string) {
    exists c :: Chain(all, roots, c) && c[|c| - 1] == n
  }

  /** The registered schemas the roots reach. */
  ghost function Closure(all: map<string, Json>, roots: set<string>): set<string> {
    set n | n in all && Reachable(all, roots, n)
  }

  ghost predicate Closed(all: map<string, Json>, roots: set<string>, s: set<string>) {
    && (forall n :: n in roots && n in all ==> n in s)
    && (forall r, n :: r in s && r in all && n in Refs(all[r]) && n in all ==> n in s)
  }

  lemma RootReachable(all: map<string, Json>, roots: set<string>, n: string)
    requires n in roots && n in all
    ensures Reachable(all, roots, n)
  {
    assert Chain(all, roots, [n]);
  }

  lemma StepReachable(all: map<string, Json>, roots: set<string>, r: string, n: string)
    requires Reachable(all, roots, r) && r in all && n in all && n in Refs(all[r])
    ensures Reachable(all, roots, n)
  {
    var c :| Chain(all, roots, c) && c[|c| - 1] == r;
    var d := c + [n];
    assert d[..|d| - 1] == c;
    assert Chain(all, roots, d);
  }

  /** Anything closed under the `$ref`s holds every chain. */
  lemma {:induction false} ClosedHoldsChain(all: map<string, Json>, roots: set<string>, s: set<string>, c: seq<string>)
    requires Closed(all, roots, s) && Chain(all, roots, c)
    ensures c[|c| - 1] in s
  {
    if |c| > 1 { ClosedHoldsChain(all, roots, s, c[..|c| - 1]); }
  }

  lemma ClosureIsClosed(all: map<string, Json>, roots: set<string>)
    ensures Closed(all, roots, Closure(all, roots))
  {
    forall n | n in roots && n in all ensures Reachable(all, roots, n) { RootReachable(all, roots, n); }
    forall r, n | r in Closure(all, roots) && r in all && n in Refs(all[r]) && n in all
      ensures Reachable(all, roots, n)
    {
      StepReachable(all, roots, r, n);
    }
  }

  /** The closure is the least closed set. */
  lemma ClosureIsLeast(all: map<string, Json>, roots: set<string>, s: set<string>)
    requires Closed(all, roots, s)
    ensures Closure(all, roots) <= s
  {
    forall n | n in Closure(all, roots) ensures n in s {
      var c :| Chain(all, roots, c) && c[|c| - 1] == n;
      ClosedHoldsChain(all, roots, s, c);
    }
  }

  ghost function Restrict(all: map<string, Json>, s: set<string>): map<string, Json> {
    map n | n in all && n in s :: all[n]
  }

  ghost function Members(s: seq<string>): set<string> {
    set n | n in s
  }

  /** What the worklist keeps at every step: only reachable schemas are held, every pending
      name is justified, and every reference already followed leads to something held or
      still pending. */
  ghost predicate Progress(all: map<string, Json>, roots: set<string>, reached: map<string, Json>,
                           pending: seq<string>) {
    && (forall n :: n in reached ==> n in all && reached[n] == all[n] && Reachable(all, roots, n))
    && (forall n :: n in pending && n in all ==> Reachable(all, roots, n))
    && (forall n :: n in roots && n in all ==> n in reached || n in pending)
    && (forall r, n :: r in reached && n in Refs(all[r]) && n in all ==> n in reached || n in pending)
  }

  lemma Begin(all: map<string, Json>, start: seq<string>)
    ensures Progress(all, Members(start), map[], start)
  {
    forall n | n in start && n in all ensures Reachable(all, Members(start), n) {
      RootReachable(all, Members(start), n);
    }
  }

  /** Dropping a name already held, or registered nowhere. */
  lemma Drop(all: map<string, Json>, roots: set<string>, reached: map<string, Json>, rest: seq<string>, name: string)
    requires Progress(all, roots, reached, rest + [name]) && (name in reached || name !in all)
    ensures Progress(all, roots, reached, rest)
  {
    assert forall n :: n in rest + [name] <==> n in rest || n == name;
  }

  /** Holding a new schema and pushing what it refers to. */
  lemma Hold(all: map<string, Json>, roots: set<string>, reached: map<string, Json>, rest: seq<string>,
             name: string, pending: seq<string>)
    requires Progress(all, roots, reached, rest + [name]) && name in all && name !in reached
    requires Pushed(rest, pending, Refs(all[name]))
    ensures Progress(all, roots, reached[name := all[name]], pending)
  {
    assert forall n :: n in rest + [name] <==> n in rest || n == name;
    assert pending == rest + pending[|rest|..];
    assert forall n :: n in pending <==> n in rest || n in Refs(all[name]);
    forall n | n in pending && n in all ensures Reachable(all, roots, n) {
      if n !in rest { StepReachable(all, roots, name, n); }
    }
  }

  lemma Finish(all: map<string, Json>, roots: set<string>, reached: map<string, Json>)
    requires Progress(all, roots, reached, [])
    ensures reached == Restrict(all, Closure(all, roots))
  {
    ClosureIsLeast(all, roots, reached.Keys);
  }

  lemma SplitLast(all: map<string, Json>, roots: set<string>, reached: map<string, Json>, pending: seq<string>)
    requires pending != [] && Progress(all, roots, reached, pending)
    ensures Progress(all, roots, reached, pending[..|pending| - 1] + [pending[|pending| - 1]])
  {
    assert pending == pending[..|pending| - 1] + [pending[|pending| - 1]];
  }

  /** One turn of the worklist: pop a name, and the first time a registered one is met hold its
      schema and push what it refers to. */
  method Turn(all: map<string, Json>, ghost roots: set<string>, reached: map<string, Json>, pending: seq<string>)
    returns (held: map<string, Json>, left: seq<string>)
    requires pending != [] && Progress(all, roots, reached, pending)
    ensures Progress(all, roots, held, left)
    ensures (held == reached && |left| < |pending|) || |all.Keys - held.Keys| < |all.Keys - reached.Keys|
  {
    SplitLast(all, roots, reached, pending);
    var rest, name := pending[..|pending| - 1], pending[|pending| - 1];
    if name in reached || name !in all {
      Drop(all, roots, reached, rest, name);
      return reached, rest;
    }
    left := PushRefs(all[name], rest);
    Hold(all, roots, reached, rest, name, left);
    FewerLeft(all, reached, name);
    held := reached[name := all[name]];
  }

  /** The worklist: everything the starting names reach, and nothing else. */
  method Reach(all: map<string, Json>, start: seq<string>) returns (reached: map<string, Json>)
    ensures reached == Restrict(all, Closure(all, Members(start)))
  {
    ghost var roots := Members(start);
    var pending := start;
    reached := map[];
    Begin(all, start);
    while pending != []
      invariant Progress(all, roots, reached, pending)
      decreases |all.Keys - reached.Keys|, |pending|
    {
      reached, pending := Turn(all, roots, reached, pending);
    }
    Finish(all, roots, reached);
  }

  lemma FewerLeft(all: map<string, Json>, reached: map<string, Json>, name: string)
    requires name in all && name !in reached
    ensures |all.Keys - reached[name := all[name]].Keys| < |all.Keys - reached.Keys|
  {
    var a, b := all.Keys - reached[name := all[name]].Keys, all.Keys - reached.Keys;
    assert b == a + {name};
  }
}
