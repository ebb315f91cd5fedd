/**
 * The module hierarchy of a design and the order in which its modules are built
 * (`postorder_modules` and the parent-inference loop of code/demo.py).
 *
 * `postorder_modules` is a depth-first search whose inner function appends to the `order`
 * list and adds to the `seen` set of the enclosing call. Here the two locals are threaded
 * through a recursive method, `Dfs`, which is proved equal to the specification function
 * `Step`; every property of the build order is then proved about `Step` and `Visit`.
 */
module Hierarchy {
  import opened Base

  /** One entry of the module index: what the driver reads from it. */
  datatype ModuleSpec = ModuleSpec(description: string, children: seq<string>)

  /** `mods.get(n, {}).get("children", [])`: a name without an entry has no children. */
  function Children(mods: map<string, ModuleSpec>, n: string): seq<string> {
    if n in mods then mods[n].children else []
  }

  /** Every child that `mods` mentions lies in `u`. */
  predicate ChildrenWithin(mods: map<string, ModuleSpec>, u: set<string>) {
    forall x, k | x in mods && 0 <= k < |mods[x].children| :: mods[x].children[k] in u
  }

  /** The names the search can meet from `top`: the top, every indexed module and every child. */
  function Universe(mods: map<string, ModuleSpec>, top: string): (u: set<string>)
    ensures top in u && ChildrenWithin(mods, u)
  {
    {top} + mods.Keys + set x, k | x in mods && 0 <= k < |mods[x].children| :: mods[x].children[k]
  }

  /** The search state: the build order so far and the names already entered. */
  datatype State = State(order: seq<string>, seen: set<string>)

  function Elems(s: seq<string>): set<string> {
    set x | x in s
  }

  predicate NoDup(s: seq<string>) {
    forall i, j | 0 <= i < j < |s| :: s[i] != s[j]
  }

  /** Entering a new name leaves fewer names to enter. */
  lemma FewerUnseen(u: set<string>, s: set<string>, t: set<string>, n: string)
    requires n in u && n !in s && s + {n} <= t
    ensures |u - t| < |u - s|
  {
    assert u - t <= (u - s) - {n};
    SubsetSize(u - t, (u - s) - {n});
  }

  lemma SubsetSize(a: set<string>, b: set<string>)
    requires a <= b
    ensures |a| <= |b|
  {
    assert b == a + (b - a);
  }

  /** `dfs(c)`: a name already seen is skipped; otherwise it is marked seen, its children are
      searched in list order, and it is appended after them. */
  function Step(mods: map<string, ModuleSpec>, u: set<string>, c: string, st: State): (r: State)
    requires ChildrenWithin(mods, u) && c in u
    decreases |u - st.seen|, 0
    ensures st.seen <= r.seen && c in r.seen
  {
    if c in st.seen then st
    else
      FewerUnseen(u, st.seen, st.seen + {c}, c);
      var st1 := Visit(mods, u, Children(mods, c), 0, State(st.order, st.seen + {c}));
      State(st1.order + [c], st1.seen)
  }

  /** The `for ch in ...: dfs(ch)` loop, from the `i`-th child on. */
  function Visit(mods: map<string, ModuleSpec>, u: set<string>, cs: seq<string>, i: nat, st: State): (r: State)
    requires ChildrenWithin(mods, u) && i <= |cs| && forall k | 0 <= k < |cs| :: cs[k] in u
    decreases |u - st.seen|, 1, |cs| - i
    ensures st.seen <= r.seen
  {
    if i == |cs| then st
    else
      var st1 := Step(mods, u, cs[i], st);
      SubsetSize(u - st1.seen, u - st.seen);
      Visit(mods, u, cs, i + 1, st1)
  }

  /** The build order of `postorder_modules(top, mods)`. */
  function Postorder(mods: map<string, ModuleSpec>, top: string): seq<string> {
    Step(mods, Universe(mods, top), top, State([], {})).order
  }

  /** `dfs`, with the closure's `order` and `seen` passed in and handed back. */
  method Dfs(mods: map<string, ModuleSpec>, ghost u: set<string>, n: string, order: seq<string>, seen: set<string>)
    returns (order': seq<string>, seen': set<string>)
    requires ChildrenWithin(mods, u) && n in u
    ensures State(order', seen') == Step(mods, u, n, State(order, seen))
    decreases |u - seen|, 0
  {
    if n in seen {
      return order, seen;
    }
    var o, s := order, seen + {n};
    var cs := Children(mods, n);
    var i := 0;
    while i < |cs|
      invariant 0 <= i <= |cs| && seen + {n} <= s
      invariant Visit(mods, u, cs, i, State(o, s)) == Visit(mods, u, cs, 0, State(order, seen + {n}))
    {
      FewerUnseen(u, seen, s, n);
      o, s := Dfs(mods, u, cs[i], o, s);
      i := i + 1;
    }
    order', seen' := o + [n], s;
  }

  /** `postorder_modules`: leaves first, the top last. */
  method PostorderModules(top: string, mods: map<string, ModuleSpec>) returns (order: seq<string>)
    ensures order == Postorder(mods, top)
    ensures NoDup(order) && |order| > 0 && order[|order| - 1] == top
    ensures forall i, j | 0 <= i < |order| && 0 <= j < |Children(mods, order[i])| :: Children(mods, order[i])[j] in order
  {
    var seen;
    order, seen := Dfs(mods, Universe(mods, top), top, [], {});
    PostorderShape(mods, top);
  }

  // ---- what the search keeps ------------------------------------------------------------------

  /** The order holds no name twice, and only names already entered. */
  predicate Inv(st: State) {
    NoDup(st.order) && forall k | 0 <= k < |st.order| :: st.order[k] in st.seen
  }

  /** What one search call does to the state: it only adds names to the set, extends the order,
      appends exactly the names it newly enters, and each of them with all its children entered. */
  predicate Grows(mods: map<string, ModuleSpec>, st: State, r: State) {
    && st.seen <= r.seen
    && |st.order| <= |r.order| && r.order[..|st.order|] == st.order
    && (forall k | |st.order| <= k < |r.order| :: r.order[k] in r.seen && r.order[k] !in st.seen)
    && (forall x | x in r.seen && x !in st.seen :: x in r.order)
    && forall k, j | |st.order| <= k < |r.order| && 0 <= j < |Children(mods, r.order[k])| ::
         Children(mods, r.order[k])[j] in r.seen
  }

  lemma {:induction false} StepGrows(mods: map<string, ModuleSpec>, u: set<string>, c: string, st: State)
    requires ChildrenWithin(mods, u) && c in u && Inv(st)
    ensures var r := Step(mods, u, c, st);
      Inv(r) && Grows(mods, st, r) && (c !in st.seen ==> |r.order| > 0 && r.order[|r.order| - 1] == c)
    decreases |u - st.seen|, 0
  {
    if c !in st.seen {
      FewerUnseen(u, st.seen, st.seen + {c}, c);
      var st0 := State(st.order, st.seen + {c});
      var cs := Children(mods, c);
      VisitGrows(mods, u, cs, 0, st0);
      var st1 := Visit(mods, u, cs, 0, st0);
      AppendGrows(mods, st, st0, st1, c);
    }
  }

  /** Appending the entered name after its children keeps the invariant. */
  lemma AppendGrows(mods: map<string, ModuleSpec>, st: State, st0: State, st1: State, c: string)
    requires Inv(st) && c !in st.seen && st0 == State(st.order, st.seen + {c})
    requires Inv(st1) && Grows(mods, st0, st1)
    requires forall j | 0 <= j < |Children(mods, c)| :: Children(mods, c)[j] in st1.seen
    ensures var r := State(st1.order + [c], st1.seen); Inv(r) && Grows(mods, st, r)
  {
    var r := State(st1.order + [c], st1.seen);
    forall k | 0 <= k < |st1.order| ensures st1.order[k] != c {
      if k < |st.order| {
        assert st1.order[k] == st1.order[..|st.order|][k];
      }
    }
    assert r.order[..|st1.order|] == st1.order;
    assert r.order[..|st.order|] == st.order;
  }

  lemma {:induction false} VisitGrows(mods: map<string, ModuleSpec>, u: set<string>, cs: seq<string>, i: nat, st: State)
    requires ChildrenWithin(mods, u) && i <= |cs| && (forall k | 0 <= k < |cs| :: cs[k] in u) && Inv(st)
    ensures var r := Visit(mods, u, cs, i, st);
      Inv(r) && Grows(mods, st, r) && forall k | i <= k < |cs| :: cs[k] in r.seen
    decreases |u - st.seen|, 1, |cs| - i
  {
    if i < |cs| {
      var st1 := Step(mods, u, cs[i], st);
      SubsetSize(u - st1.seen, u - st.seen);
      StepGrows(mods, u, cs[i], st);
      VisitGrows(mods, u, cs, i + 1, st1);
      VisitUnfold(mods, u, cs, i, st);
      GrowsLoop(mods, cs, i, st, st1, Visit(mods, u, cs, i + 1, st1));
    }
  }

  lemma VisitUnfold(mods: map<string, ModuleSpec>, u: set<string>, cs: seq<string>, i: nat, st: State)
    requires ChildrenWithin(mods, u) && i < |cs| && forall k | 0 <= k < |cs| :: cs[k] in u
    ensures Visit(mods, u, cs, i, st) == Visit(mods, u, cs, i + 1, Step(mods, u, cs[i], st))
  {
  }

  /** One turn of the loop followed by the rest of it. */
  lemma GrowsLoop(mods: map<string, ModuleSpec>, cs: seq<string>, i: nat, st: State, st1: State, r: State)
    requires i < |cs| && Inv(st) && Grows(mods, st, st1) && cs[i] in st1.seen
    requires Inv(r) && Grows(mods, st1, r) && forall k | i + 1 <= k < |cs| :: cs[k] in r.seen
    ensures Grows(mods, st, r) && forall k | i <= k < |cs| :: cs[k] in r.seen
  {
    GrowsTrans(mods, st, st1, r);
  }

  lemma GrowsTrans(mods: map<string, ModuleSpec>, a: State, b: State, c: State)
    requires Inv(a) && Grows(mods, a, b) && Grows(mods, b, c)
    ensures Grows(mods, a, c)
  {
    assert c.order[..|a.order|] == b.order[..|a.order|] by {
      assert c.order[..|b.order|] == b.order;
    }
    forall k | |a.order| <= k < |b.order| ensures c.order[k] == b.order[k] {
      assert c.order[k] == c.order[..|b.order|][k];
    }
  }

  /** The build order has no repeated name, ends with the top, and contains every child of
      every name in it (which is how a name missing from the index gets scheduled). */
  lemma PostorderShape(mods: map<string, ModuleSpec>, top: string)
    ensures var o := Postorder(mods, top);
      NoDup(o) && |o| > 0 && o[|o| - 1] == top
      && forall i, j | 0 <= i < |o| && 0 <= j < |Children(mods, o[i])| :: Children(mods, o[i])[j] in o
  {
    var u := Universe(mods, top);
    var st := State([], {});
    StepGrows(mods, u, top, st);
  }

  // ---- acyclic hierarchies: children first ------------------------------------------------------

  /** `rank` decreases from every module to each of its children, so the hierarchy has no cycle. */
  predicate Ranked(mods: map<string, ModuleSpec>, rank: string -> nat) {
    forall x, k | x in mods && 0 <= k < |mods[x].children| :: rank(mods[x].children[k]) < rank(x)
  }

  /** Every name appended by a call comes after all its children. */
  predicate ChildrenFirst(mods: map<string, ModuleSpec>, from: nat, o: seq<string>) {
    forall k, j | from <= k < |o| && 0 <= j < |Children(mods, o[k])| :: Children(mods, o[k])[j] in o[..k]
  }

  /** `g` has been entered but not appended: its call is still running. */
  predicate IsOpen(st: State, g: string) {
    g in st.seen && g !in st.order
  }

  /** A call leaves the chain of running calls as it found it. */
  lemma OpenKept(mods: map<string, ModuleSpec>, st: State, r: State)
    requires Inv(st) && Grows(mods, st, r)
    ensures forall g :: IsOpen(r, g) <==> IsOpen(st, g)
  {
    assert r.order == st.order + r.order[|st.order|..];
  }

  lemma {:induction false} StepRanked(mods: map<string, ModuleSpec>, u: set<string>, rank: string -> nat, c: string, st: State)
    requires ChildrenWithin(mods, u) && c in u && Inv(st) && Ranked(mods, rank)
    requires forall g | IsOpen(st, g) :: rank(c) < rank(g)
    ensures ChildrenFirst(mods, |st.order|, Step(mods, u, c, st).order)
    decreases |u - st.seen|, 0
  {
    if c !in st.seen {
      FewerUnseen(u, st.seen, st.seen + {c}, c);
      var st0 := State(st.order, st.seen + {c});
      var cs := Children(mods, c);
      forall k | 0 <= k < |cs| ensures rank(cs[k]) < rank(c) {
        assert cs[k] == mods[c].children[k];
      }
      VisitRanked(mods, u, rank, cs, 0, st0);
      VisitGrows(mods, u, cs, 0, st0);
      var st1 := Visit(mods, u, cs, 0, st0);
      OpenKept(mods, st0, st1);
      AppendFirst(mods, rank, st1, c);
      ChildrenFirstAppend(mods, |st.order|, st1.order, c);
    }
  }

  lemma ChildrenFirstAppend(mods: map<string, ModuleSpec>, from: nat, o: seq<string>, c: string)
    requires ChildrenFirst(mods, from, o) && from <= |o|
    requires forall j | 0 <= j < |Children(mods, c)| :: Children(mods, c)[j] in o
    ensures ChildrenFirst(mods, from, o + [c])
  {
    forall k | from <= k < |o| ensures (o + [c])[..k] == o[..k] {
    }
    assert (o + [c])[..|o|] == o;
  }

  /** The entered name goes after its children: none of them can still be open. */
  lemma AppendFirst(mods: map<string, ModuleSpec>, rank: string -> nat, st1: State, c: string)
    requires forall j | 0 <= j < |Children(mods, c)| :: Children(mods, c)[j] in st1.seen
    requires forall j | 0 <= j < |Children(mods, c)| :: rank(Children(mods, c)[j]) < rank(c)
    requires forall g | IsOpen(st1, g) :: rank(c) <= rank(g)
    ensures forall j | 0 <= j < |Children(mods, c)| :: Children(mods, c)[j] in st1.order
  {
  }

  lemma {:induction false} VisitRanked(mods: map<string, ModuleSpec>, u: set<string>, rank: string -> nat, cs: seq<string>, i: nat, st: State)
    requires ChildrenWithin(mods, u) && i <= |cs| && (forall k | 0 <= k < |cs| :: cs[k] in u) && Inv(st) && Ranked(mods, rank)
    requires forall g, k | IsOpen(st, g) && i <= k < |cs| :: rank(cs[k]) < rank(g)
    ensures ChildrenFirst(mods, |st.order|, Visit(mods, u, cs, i, st).order)
    decreases |u - st.seen|, 1, |cs| - i
  {
    if i < |cs| {
      var st1 := Step(mods, u, cs[i], st);
      SubsetSize(u - st1.seen, u - st.seen);
      StepGrows(mods, u, cs[i], st);
      OpenKept(mods, st, st1);
      StepRanked(mods, u, rank, cs[i], st);
      VisitRanked(mods, u, rank, cs, i + 1, st1);
      VisitGrows(mods, u, cs, i + 1, st1);
      VisitUnfold(mods, u, cs, i, st);
      ChildrenFirstTrans(mods, |st.order|, st1.order, Visit(mods, u, cs, i + 1, st1).order);
    }
  }

  lemma ChildrenFirstTrans(mods: map<string, ModuleSpec>, from: nat, o1: seq<string>, o2: seq<string>)
    requires from <= |o1| <= |o2| && o2[..|o1|] == o1
    requires ChildrenFirst(mods, from, o1) && ChildrenFirst(mods, |o1|, o2)
    ensures ChildrenFirst(mods, from, o2)
  {
    forall k | from <= k < |o1| ensures o2[..k] == o1[..k] && o2[k] == o1[k] {
      assert o2[k] == o2[..|o1|][k];
    }
  }

  /** In an acyclic hierarchy every child is built before its parent. */
  lemma PostorderChildrenFirst(mods: map<string, ModuleSpec>, top: string, rank: string -> nat)
    requires Ranked(mods, rank)
    ensures ChildrenFirst(mods, 0, Postorder(mods, top))
  {
    StepRanked(mods, Universe(mods, top), rank, top, State([], {}));
  }

  /** In a hierarchy without cycles, the schedule builds every child before its parent. */
  lemma ScheduleChildrenFirst(mods: map<string, ModuleSpec>, top: string, rank: string -> nat)
    requires Ranked(mods, rank) && Schedule(mods, top).Ok?
    ensures ChildrenFirst(mods, 0, Schedule(mods, top).value)
  {
    PostorderChildrenFirst(mods, top, rank);
  }

  // ---- reachability ------------------------------------------------------------------------

  /** `p` is a chain of names, each a child of the one before. */
  predicate IsPath(mods: map<string, ModuleSpec>, p: seq<string>) {
    |p| > 0 && forall i | 0 <= i < |p| - 1 :: p[i + 1] in Children(mods, p[i])
  }

  /** A set of names that contains the start of a path and every child of its members
      contains the whole path. */
  lemma {:induction false} ClosedHoldsPath(mods: map<string, ModuleSpec>, o: seq<string>, p: seq<string>)
    requires IsPath(mods, p) && p[0] in o
    requires forall i, j | 0 <= i < |o| && 0 <= j < |Children(mods, o[i])| :: Children(mods, o[i])[j] in o
    ensures p[|p| - 1] in o
    decreases |p|
  {
    if |p| > 1 {
      var q := p[..|p| - 1];
      assert IsPath(mods, q) by {
        forall i | 0 <= i < |q| - 1 ensures q[i + 1] in Children(mods, q[i]) {
          assert q[i] == p[i] && q[i + 1] == p[i + 1];
        }
      }
      ClosedHoldsPath(mods, o, q);
      var x := p[|p| - 2];
      assert p[|p| - 1] in Children(mods, x);
      var i :| 0 <= i < |o| && o[i] == x;
      var cs := Children(mods, x);
      var j :| 0 <= j < |cs| && cs[j] == p[|p| - 1];
    }
  }

  /** Every name reachable from the top is built, exactly once. */
  lemma PostorderReaches(mods: map<string, ModuleSpec>, top: string, p: seq<string>)
    requires IsPath(mods, p) && p[0] == top
    ensures p[|p| - 1] in Postorder(mods, top)
  {
    PostorderShape(mods, top);
    var o := Postorder(mods, top);
    assert o[|o| - 1] == top;
    ClosedHoldsPath(mods, o, p);
  }

  // ---- a child the index does not hold ---------------------------------------------------------

  /** As written, a child name with no entry in the index is still scheduled: for the index
      `{top: children [x]}` the order holds `x`, although the build loop looks every scheduled
      name up in the index. */
  lemma DanglingChildScheduled()
    ensures var mods := map["top" := ModuleSpec("", ["x"])];
      "x" in Postorder(mods, "top") && "x" !in mods
  {
    var mods := map["top" := ModuleSpec("", ["x"])];
    PostorderShape(mods, "top");
    var o := Postorder(mods, "top");
    assert Children(mods, o[|o| - 1])[0] == "x";
  }

  /** The first scheduled name with no entry in the index, if any. */
  function FirstMissing(mods: map<string, ModuleSpec>, o: seq<string>): (r: Option<nat>)
    ensures r.Some? ==> r.value < |o| && o[r.value] !in mods
    ensures r.None? ==> forall k | 0 <= k < |o| :: o[k] in mods
  {
    if o == [] then None
    else if o[0] !in mods then Some(0)
    else match FirstMissing(mods, o[1..])
      case None => None
      case Some(k) => Some(k + 1)
  }

  /** The build order the driver can use: the post-order when every name in it has an entry,
      otherwise an error naming the first one that does not. */
  function Schedule(mods: map<string, ModuleSpec>, top: string): (r: Result<seq<string>, string>)
    ensures r.Ok? ==> var o := r.value;
      NoDup(o) && |o| > 0 && o[|o| - 1] == top && (forall k | 0 <= k < |o| :: o[k] in mods)
      && forall i, j | 0 <= i < |o| && 0 <= j < |mods[o[i]].children| :: mods[o[i]].children[j] in o
    ensures r.Err? ==> r.error in Postorder(mods, top) && r.error !in mods
    ensures r.Ok? ==> r.value == Postorder(mods, top)
  {
    var o := Postorder(mods, top);
    PostorderShape(mods, top);
    match FirstMissing(mods, o)
    case None =>
      assert forall i | 0 <= i < |o| :: Children(mods, o[i]) == mods[o[i]].children;
      Ok(o)
    case Some(k) => Err(o[k])
  }

  /** The corrected schedule refuses the index `{top: children [x]}`. */
  lemma DanglingChildRefused()
    ensures Schedule(map["top" := ModuleSpec("", ["x"])], "top").Err?
  {
    DanglingChildScheduled();
  }

  // ---- parent inference ---------------------------------------------------------------------

  /** The index, among `names[k..p]`, of the first module whose child list holds `ch`. */
  function FirstIn(names: seq<string>, mods: map<string, ModuleSpec>, ch: string, k: nat, p: nat): (r: Option<nat>)
    requires k <= p <= |names|
    decreases p - k
    ensures r.Some? ==> k <= r.value < p && ch in Children(mods, names[r.value])
    ensures forall j | k <= j < p && (r.None? || j < r.value) :: ch !in Children(mods, names[j])
  {
    if k == p then None
    else if ch in Children(mods, names[k]) then Some(k)
    else FirstIn(names, mods, ch, k + 1, p)
  }

  /** The parent the inference gives `ch`: the first module of the index that lists it. */
  function ParentAmong(names: seq<string>, mods: map<string, ModuleSpec>, ch: string, p: nat): Option<string>
    requires p <= |names|
  {
    match FirstIn(names, mods, ch, 0, p)
    case None => None
    case Some(i) => Some(names[i])
  }

  /** Every parent so far is the first lister among the first `p` modules of the index. */
  predicate ParentsUpTo(names: seq<string>, mods: map<string, ModuleSpec>, parent: map<string, Option<string>>, p: nat)
    requires p <= |names|
  {
    parent.Keys == mods.Keys && forall n | n in parent :: parent[n] == ParentAmong(names, mods, n, p)
  }

  /** The parent inference of the task manager: each indexed module takes the first module (in
      index order) that lists it as a child, and the top has none. `names` is the index in its
      insertion order. */
  method InferParents(names: seq<string>, mods: map<string, ModuleSpec>, top: string)
    returns (parent: map<string, Option<string>>)
    requires Elems(names) == mods.Keys
    ensures parent.Keys == mods.Keys
    ensures forall n | n in parent :: parent[n] == if n == top then None else ParentAmong(names, mods, n, |names|)
  {
    parent := map n | n in mods.Keys :: None;
    var p := 0;
    while p < |names|
      invariant 0 <= p <= |names| && ParentsUpTo(names, mods, parent, p)
    {
      var claimed := ClaimChildren(parent, Children(mods, names[p]), names[p]);
      ClaimedParents(names, mods, p, parent, claimed);
      parent, p := claimed, p + 1;
    }
    if top in parent {
      parent := parent[top := None];
    }
  }

  /** The inner loop: every listed child that is in the index and has no parent yet gets `pn`. */
  method ClaimChildren(parent: map<string, Option<string>>, cs: seq<string>, pn: string)
    returns (parent': map<string, Option<string>>)
    ensures parent'.Keys == parent.Keys
    ensures forall n | n in parent' :: parent'[n] == if parent[n].Some? || n !in cs then parent[n] else Some(pn)
  {
    parent' := parent;
    var k := 0;
    while k < |cs|
      invariant 0 <= k <= |cs| && parent'.Keys == parent.Keys
      invariant forall n | n in parent' :: parent'[n] == if parent[n].Some? || n !in cs[..k] then parent[n] else Some(pn)
    {
      if cs[k] in parent' && parent'[cs[k]].None? {
        parent' := parent'[cs[k] := Some(pn)];
      }
      assert cs[..k + 1] == cs[..k] + [cs[k]];
      k := k + 1;
    }
    assert cs[..|cs|] == cs;
  }

  /** After the `p`-th module claims its children, every parent is the first among `names[..p + 1]`. */
  lemma ClaimedParents(names: seq<string>, mods: map<string, ModuleSpec>, p: nat,
                       parent: map<string, Option<string>>, claimed: map<string, Option<string>>)
    requires p < |names| && claimed.Keys == parent.Keys
    requires ParentsUpTo(names, mods, parent, p)
    requires forall n | n in claimed ::
      claimed[n] == if parent[n].Some? || n !in Children(mods, names[p]) then parent[n] else Some(names[p])
    ensures ParentsUpTo(names, mods, claimed, p + 1)
  {
    forall n | n in claimed ensures claimed[n] == ParentAmong(names, mods, n, p + 1) {
      ParentAmongExtend(names, mods, n, p);
    }
  }

  lemma ParentAmongExtend(names: seq<string>, mods: map<string, ModuleSpec>, ch: string, p: nat)
    requires p < |names|
    ensures ParentAmong(names, mods, ch, p + 1) ==
      if ParentAmong(names, mods, ch, p).Some? || ch !in Children(mods, names[p]) then ParentAmong(names, mods, ch, p)
      else Some(names[p])
  {
    FirstInExtend(names, mods, ch, 0, p);
  }

  /** Looking at one more module of the index: the answer so far stands, or else it is the new
      module when that module lists the child. */
  lemma {:induction false} FirstInExtend(names: seq<string>, mods: map<string, ModuleSpec>, ch: string, k: nat, p: nat)
    requires k <= p < |names|
    ensures FirstIn(names, mods, ch, k, p + 1) ==
      if FirstIn(names, mods, ch, k, p).Some? then FirstIn(names, mods, ch, k, p)
      else if ch in Children(mods, names[p]) then Some(p) else None
    decreases p - k
  {
    if k < p {
      FirstInExtend(names, mods, ch, k + 1, p);
    }
  }
}
