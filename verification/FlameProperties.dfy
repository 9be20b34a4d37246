/**
 What merging call stacks into one tree guarantees: totals are conserved at every node, and the
 tree depends on the records but not on their order.
 */
module FlameProperties {
  import opened Flamegraph

  // ---------- totals are conserved

  /** The totals of the first `k` of some children. */
  function ChildTotals(f: Flame, p: Path, names: seq<string>, k: nat): Tally
    requires k <= |names| && forall i :: 0 <= i < k ==> Child(p, names[i]) in f
  {
    if k == 0 then NOTHING else Plus(ChildTotals(f, p, names, k - 1), f[Child(p, names[k - 1])].total)
  }

  function ThroughChildren(ss: seq<Sample>, p: Path, names: seq<string>, k: nat): Tally
    requires k <= |names|
  {
    if k == 0 then NOTHING else Plus(ThroughChildren(ss, p, names, k - 1), Sum(ss, Under(Child(p, names[k - 1]))))
  }

  /** A longer path goes through exactly one child: the one named by its next step. */
  lemma NextStep(p: Path, name: string, path: Path)
    ensures Before(Child(p, name), path) <==> Before(p, path) && |p| < |path| && path[|p|] == name
  {
    if Before(p, path) && |p| < |path| && path[|p|] == name {
      assert Child(p, name) == path[..|p| + 1];
    }
    if Before(Child(p, name), path) {
      assert path[..|p| + 1] == Child(p, name);
    }
  }

  /** The next step of `path` after `p` is one of these names. */
  predicate StepsTo(p: Path, path: Path, names: seq<string>) {
    Before(p, path) && |p| < |path| && path[|p|] in names
  }

  lemma StepsToLast(p: Path, path: Path, names: seq<string>, k: nat)
    requires 0 < k <= |names| && Distinct(names)
    ensures StepsTo(p, path, names[..k]) <==> StepsTo(p, path, names[..k - 1]) || Before(Child(p, names[k - 1]), path)
    ensures !(StepsTo(p, path, names[..k - 1]) && Before(Child(p, names[k - 1]), path))
  {
    hide Before, Child;
    NextStep(p, names[k - 1], path);
    assert names[..k] == names[..k - 1] + [names[k - 1]];
  }

  /** `ss` is `rest` and one more line, as far as sums can tell. */
  ghost predicate Extends(ss: seq<Sample>, rest: seq<Sample>, s: Sample) {
    forall w :: Sum(ss, w) == if Selects(w, s.path) then Plus(Sum(rest, w), Single(s)) else Sum(rest, w)
  }

  /** One more line adds to the children's sum iff its next step is one of them. */
  lemma {:induction false} OneMoreLine(ss: seq<Sample>, rest: seq<Sample>, s: Sample, p: Path, names: seq<string>,
                                       k: nat)
    requires Extends(ss, rest, s) && Distinct(names) && k <= |names|
    ensures ThroughChildren(ss, p, names, k) ==
      Plus(ThroughChildren(rest, p, names, k), if StepsTo(p, s.path, names[..k]) then Single(s) else NOTHING)
  {
    hide Before, Child, StepsTo, Sum, Distinct, Plus;
    if k == 0 {
      NoStep(p, s.path, names);
      PlusNothing(NOTHING);
    } else {
      OneMoreLine(ss, rest, s, p, names, k - 1);
      StepsToLast(p, s.path, names, k);
      Shuffle(ThroughChildren(rest, p, names, k - 1), Sum(rest, Under(Child(p, names[k - 1]))), Single(s));
    }
  }

  lemma Shuffle(a: Tally, b: Tally, s: Tally)
    ensures Plus(Plus(a, s), b) == Plus(a, Plus(b, s)) == Plus(Plus(a, b), s)
    ensures Plus(Plus(a, NOTHING), Plus(b, s)) == Plus(Plus(a, b), s)
    ensures Plus(Plus(a, NOTHING), b) == Plus(Plus(a, b), NOTHING) == Plus(a, b)
    ensures Plus(a, Plus(b, NOTHING)) == Plus(a, b) && Plus(Plus(a, s), Plus(b, NOTHING)) == Plus(Plus(a, b), s)
  {
  }

  lemma NoStep(p: Path, path: Path, names: seq<string>)
    ensures !StepsTo(p, path, names[..0])
  {
  }

  /** Every line below `p` goes on to one of these names. */
  ghost predicate AllStepTo(ss: seq<Sample>, p: Path, names: seq<string>) {
    forall i :: 0 <= i < |ss| && Before(p, ss[i].path) && |p| < |ss[i].path| ==> StepsTo(p, ss[i].path, names)
  }

  lemma {:induction false} SplitByNextStep(ss: seq<Sample>, p: Path, names: seq<string>)
    requires Distinct(names) && AllStepTo(ss, p, names)
    ensures Sum(ss, Under(p)) == Plus(Sum(ss, Only(p)), ThroughChildren(ss, p, names, |names|))
    decreases |ss|
  {
    hide Before, Exactly, StepsTo, ThroughChildren, Distinct, AllStepTo, Sum, Plus;
    if |ss| == 0 {
      NoLines(ss, p, names, |names|);
      NoSum(ss);
      PlusNothing(NOTHING);
    } else {
      var rest, s := LastLine(ss, p, names);
      SplitByNextStep(rest, p, names);
      OneMoreLine(ss, rest, s, p, names, |names|);
      OnlyIfEqual(p, s.path);
      Shuffle(Sum(rest, Only(p)), ThroughChildren(rest, p, names, |names|), Single(s));
      assert names[..|names|] == names;
    }
  }

  lemma NoSum(ss: seq<Sample>)
    requires |ss| == 0
    ensures forall w :: Sum(ss, w) == NOTHING
  {
  }

  /** Takes the last line off. */
  lemma LastLine(ss: seq<Sample>, p: Path, names: seq<string>) returns (rest: seq<Sample>, s: Sample)
    requires |ss| > 0 && AllStepTo(ss, p, names)
    ensures |rest| < |ss| && Extends(ss, rest, s) && AllStepTo(rest, p, names)
    ensures StepsTo(p, s.path, names) <==> Before(p, s.path) && |p| < |s.path|
  {
    hide Selects, StepsTo;
    rest, s := ss[..|ss| - 1], ss[|ss| - 1];
    LastStep(ss, p, names);
  }

  lemma LastStep(ss: seq<Sample>, p: Path, names: seq<string>)
    requires ss != [] && AllStepTo(ss, p, names)
    ensures var path := ss[|ss| - 1].path;
      StepsTo(p, path, names) <==> Before(p, path) && |p| < |path|
  {
    hide Before;
  }

  lemma {:induction false} NoLines(ss: seq<Sample>, p: Path, names: seq<string>, k: nat)
    requires |ss| == 0 && k <= |names|
    ensures ThroughChildren(ss, p, names, k) == NOTHING
  {
    hide Child;
    if k > 0 { NoLines(ss, p, names, k - 1); }
  }

  lemma OnlyIfEqual(p: Path, path: Path)
    ensures Exactly(p, path) <==> Before(p, path) && |p| == |path|
    ensures Before(p, path) ==> |p| <= |path|
  {
  }

  lemma {:induction false} ChildrenAgree(f: Flame, ss: seq<Sample>, p: Path, names: seq<string>, k: nat)
    requires IsFlame(f, ss) && k <= |names| && forall i :: 0 <= i < k ==> Child(p, names[i]) in f
    ensures ChildTotals(f, p, names, k) == ThroughChildren(ss, p, names, k)
  {
    hide Shape, Child, Sum;
    if k > 0 { ChildrenAgree(f, ss, p, names, k - 1); }
  }

  lemma StepsAreChildren(f: Flame, ss: seq<Sample>, p: Path, i: nat)
    requires Shape(f, ss) && p in f && i < |ss| && Before(p, ss[i].path) && |p| < |ss[i].path|
    ensures StepsTo(p, ss[i].path, f[p].children)
  {
    var path := ss[i].path;
    NextStep(p, path[|p|], path);
    assert OnPath(ss, Child(p, path[|p|]));
  }

  /** At every node the total is what ends there plus the totals of its children. */
  lemma TotalIsSelfPlusChildren(f: Flame, ss: seq<Sample>, p: Path)
    requires IsFlame(f, ss) && p in f
    ensures forall i :: 0 <= i < |f[p].children| ==> Child(p, f[p].children[i]) in f
    ensures f[p].total == Plus(f[p].self, ChildTotals(f, p, f[p].children, |f[p].children|))
  {
    hide Child, Sum, Before, StepsTo;
    var names := f[p].children;
    forall i | 0 <= i < |ss| && Before(p, ss[i].path) && |p| < |ss[i].path| ensures StepsTo(p, ss[i].path, names) {
      StepsAreChildren(f, ss, p, i);
    }
    assert forall i :: 0 <= i < |names| ==> names[i] in names && Child(p, names[i]) in f;
    SplitByNextStep(ss, p, names);
    ChildrenAgree(f, ss, p, names, |names|);
  }

  function AllBytes(ss: seq<Sample>): nat {
    if ss == [] then 0 else AllBytes(ss[..|ss| - 1]) + ss[|ss| - 1].bytes
  }

  lemma {:induction false} EveryLineIsUnderTheRoot(ss: seq<Sample>)
    ensures Sum(ss, Under([])) == Tally(AllBytes(ss), |ss|)
  {
    if ss != [] { EveryLineIsUnderTheRoot(ss[..|ss| - 1]); }
  }

  /** The root's total is all bytes and all allocations. */
  lemma RootTotalIsEverything(f: Flame, ss: seq<Sample>)
    requires IsFlame(f, ss)
    ensures [] in f && f[[]].total == Tally(AllBytes(ss), |ss|)
  {
    hide Child, Sum;
    EveryLineIsUnderTheRoot(ss);
  }

  // ---------- the order of the records

  function Without(ss: seq<Sample>, j: nat): seq<Sample>
    requires j < |ss|
  {
    ss[..j] + ss[j + 1..]
  }

  lemma WithoutShorter(ss: seq<Sample>, j: nat)
    requires j < |ss| - 1
    ensures Without(ss, j)[..|ss| - 2] == Without(ss[..|ss| - 1], j)
    ensures |Without(ss, j)| == |ss| - 1 && Without(ss, j)[|ss| - 2] == ss[|ss| - 1] && ss[..|ss| - 1][j] == ss[j]
  {
  }

  lemma SumStep(ss: seq<Sample>, rest: seq<Sample>, s: Sample, w: Selection)
    requires ss != [] && rest == ss[..|ss| - 1] && s == ss[|ss| - 1]
    ensures Sum(ss, w) == if Selects(w, s.path) then Plus(Sum(rest, w), Single(s)) else Sum(rest, w)
  {
    hide Selects, Plus;
  }

  lemma {:induction false} SumWithout(ss: seq<Sample>, j: nat, w: Selection)
    requires j < |ss|
    ensures Sum(ss, w) == Plus(Sum(Without(ss, j), w), if Selects(w, ss[j].path) then Single(ss[j]) else NOTHING)
    decreases |ss|
  {
    hide Selects, Without, Sum, Plus, Single;
    var last := |ss| - 1;
    var rest, s := ss[..last], ss[last];
    SumStep(ss, rest, s, w);
    if j == last {
      WithoutLast(ss);
      PlusNothing(Sum(rest, w));
    } else {
      SumWithout(rest, j, w);
      WithoutShorter(ss, j);
      SumStep(Without(ss, j), Without(rest, j), s, w);
      Shuffle(Sum(Without(rest, j), w), if Selects(w, ss[j].path) then Single(ss[j]) else NOTHING, Single(s));
    }
  }

  lemma WithoutLast(ss: seq<Sample>)
    requires ss != []
    ensures Without(ss, |ss| - 1) == ss[..|ss| - 1]
  {
  }

  /** Sums do not depend on the order of the lines. */
  lemma {:induction false} SumIgnoresOrder(a: seq<Sample>, b: seq<Sample>, w: Selection)
    requires multiset(a) == multiset(b)
    ensures Sum(a, w) == Sum(b, w)
    decreases |a|
  {
    hide Selects, Sum;
    if a == [] {
      assert |multiset(b)| == 0;
      assert b == [];
    } else {
      var last := |a| - 1;
      assert a[last] in multiset(b);
      var j :| 0 <= j < |b| && b[j] == a[last];
      RemoveOne(a, last);
      RemoveOne(b, j);
      SumIgnoresOrder(Without(a, last), Without(b, j), w);
      SumWithout(a, last, w);
      SumWithout(b, j, w);
    }
  }

  lemma RemoveOne(ss: seq<Sample>, j: nat)
    requires j < |ss|
    ensures multiset(Without(ss, j)) == multiset(ss) - multiset{ss[j]} && |Without(ss, j)| == |ss| - 1
  {
    assert ss == ss[..j] + [ss[j]] + ss[j + 1..];
  }

  /** Two trees built from the same records in any order have the same nodes with the same numbers. */
  lemma OrderDoesNotMatter(f: Flame, g: Flame, a: seq<Sample>, b: seq<Sample>)
    requires IsFlame(f, a) && IsFlame(g, b) && multiset(a) == multiset(b)
    ensures f.Keys == g.Keys
    ensures forall p :: p in f ==>
      && f[p].self == g[p].self && f[p].total == g[p].total
      && forall name :: name in f[p].children <==> name in g[p].children
  {
    hide Sum, Before, Child;
    forall p ensures OnPath(a, p) <==> OnPath(b, p) {
      if OnPath(a, p) { SameLines(a, b, p); }
      if OnPath(b, p) { SameLines(b, a, p); }
    }
    assert forall p :: p in f <==> p in g;
    forall p | p in f ensures f[p].self == g[p].self && f[p].total == g[p].total {
      SumIgnoresOrder(a, b, Under(p));
      SumIgnoresOrder(a, b, Only(p));
    }
  }

  lemma SameLines(a: seq<Sample>, b: seq<Sample>, p: Path)
    requires multiset(a) == multiset(b) && OnPath(a, p)
    ensures OnPath(b, p)
  {
    hide Before;
    var i :| 0 <= i < |a| && Before(p, a[i].path);
    assert a[i] in multiset(b);
    var j :| 0 <= j < |b| && b[j] == a[i];
    assert Before(p, b[j].path);
  }
}
