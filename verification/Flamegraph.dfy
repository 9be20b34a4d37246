/**
 The flame graph: one tree of call-stack frames, with the bytes and the number of allocations that
 end at each node and that pass through it. Symbol resolution is a parameter: a function from
 captured frames to names, innermost first, which may drop frames.
 */
module Flamegraph {
  import opened Records

  type Path = seq<string>

  const UNKNOWN: string := "[unknown]"

  datatype Tally = Tally(bytes: nat, count: nat)

  function Plus(a: Tally, b: Tally): Tally { Tally(a.bytes + b.bytes, a.count + b.count) }

  const NOTHING: Tally := Tally(0, 0)

  // ---------- folded stacks

  function Symbol(name: string): string { if name == "" then UNKNOWN else name }

  /** The names from the outermost frame to the innermost. */
  function PathOf(names: seq<string>): (p: Path)
    ensures |p| == |names|
  {
    seq(|names|, d requires 0 <= d < |names| => Symbol(names[|names| - 1 - d]))
  }

  function FoldedPath(resolve: seq<nat> -> seq<string>, r: Record): Path {
    if r.frames == [] then [UNKNOWN] else PathOf(resolve(r.frames))
  }

  /** One folded line: a path and the bytes of one allocation. */
  datatype Sample = Sample(path: Path, bytes: nat)

  function Samples(resolve: seq<nat> -> seq<string>, rs: seq<Record>): (ss: seq<Sample>)
    ensures |ss| == |rs|
  {
    seq(|rs|, i requires 0 <= i < |rs| => Sample(FoldedPath(resolve, rs[i]), rs[i].requested))
  }

  /** Path and bytes of one record: its resolved names from the outermost to the innermost, unknown if it has none. */
  ghost predicate Folds(resolve: seq<nat> -> seq<string>, r: Record, line: Sample) {
    var names := resolve(r.frames);
    && line.bytes == r.requested
    && (r.frames == [] ==> line.path == ["[unknown]"])
    && (r.frames != [] ==>
          && |line.path| == |names|
          && forall f :: 0 <= f < |names| ==>
               line.path[|names| - 1 - f] == if names[f] == "" then "[unknown]" else names[f])
  }

  lemma SampleFolds(resolve: seq<nat> -> seq<string>, r: Record)
    ensures Folds(resolve, r, Sample(FoldedPath(resolve, r), r.requested))
  {
    var names := resolve(r.frames);
    if r.frames != [] {
      forall f | 0 <= f < |names| ensures PathOf(names)[|names| - 1 - f] == Symbol(names[f]) {
        assert |names| - 1 - (|names| - 1 - f) == f;
      }
    }
  }

  lemma LinesFold(resolve: seq<nat> -> seq<string>, rs: seq<Record>)
    ensures forall k :: 0 <= k < |rs| ==> Folds(resolve, rs[k], Samples(resolve, rs)[k])
  {
    hide Folds, FoldedPath;
    forall k | 0 <= k < |rs| ensures Folds(resolve, rs[k], Samples(resolve, rs)[k]) { SampleFolds(resolve, rs[k]); }
  }

  /** `generate_folded_stacks`, as paths. */
  method GenerateFoldedStacks(resolve: seq<nat> -> seq<string>, rs: seq<Record>) returns (lines: seq<Sample>)
    ensures lines == Samples(resolve, rs)
    ensures |lines| == |rs| && forall k :: 0 <= k < |rs| ==> Folds(resolve, rs[k], lines[k])
  {
    hide Folds;
    LinesFold(resolve, rs);
    lines := [];
    for i := 0 to |rs|
      invariant |lines| == i && forall k :: 0 <= k < i ==> lines[k] == Samples(resolve, rs)[k]
    {
      var path := [UNKNOWN];
      if rs[i].frames != [] {
        var names := resolve(rs[i].frames);
        path := [];
        for f := |names| downto 0
          invariant |path| == |names| - f && forall d :: 0 <= d < |path| ==> path[d] == PathOf(names)[d]
        {
          assert PathOf(names)[|path|] == Symbol(names[f]);
          path := path + [if names[f] == "" then UNKNOWN else names[f]];
        }
      }
      lines := lines + [Sample(path, rs[i].requested)];
    }
  }

  // ---------- what the tree should hold

  /** `p` is a prefix of `q`. */
  predicate Before(p: Path, q: Path) { p <= q }

  predicate Exactly(p: Path, q: Path) { p == q }

  function Single(s: Sample): Tally { Tally(s.bytes, 1) }

  /** Which lines to add up: those that start with `p`, or those that are `p`. */
  datatype Selection = Under(p: Path) | Only(p: Path)

  predicate Selects(w: Selection, path: Path) {
    match w
    case Under(p) => Before(p, path)
    case Only(p) => Exactly(p, path)
  }

  function Sum(ss: seq<Sample>, w: Selection): Tally {
    if ss == [] then NOTHING else
    var last := ss[|ss| - 1];
    var rest := Sum(ss[..|ss| - 1], w);
    if Selects(w, last.path) then Plus(rest, Single(last)) else rest
  }

  /** The allocations whose path starts with `p`. */
  function Through(ss: seq<Sample>, p: Path): Tally { Sum(ss, Under(p)) }

  /** The allocations whose path is `p`. */
  function EndingAt(ss: seq<Sample>, p: Path): Tally { Sum(ss, Only(p)) }

  // ---------- the tree as a value

  /** A node's numbers, and its children's names in order. */
  datatype Cell = Cell(self: Tally, total: Tally, children: seq<string>)

  type Flame = map<Path, Cell>

  function Child(p: Path, name: string): (q: Path)
    ensures |q| == |p| + 1 && q[..|p|] == p && q[|p|] == name
  {
    p + [name]
  }

  predicate Distinct(names: seq<string>) {
    forall i, j :: 0 <= i < j < |names| ==> names[i] != names[j]
  }

  /** Some folded line goes through `p`. */
  ghost predicate OnPath(ss: seq<Sample>, p: Path) {
    exists i :: 0 <= i < |ss| && Before(p, ss[i].path)
  }

  /** There is a node exactly for every prefix of a path, and siblings have different names. */
  ghost predicate Shape(f: Flame, ss: seq<Sample>) {
    && (forall p :: p in f <==> p == [] || OnPath(ss, p))
    && (forall p :: p in f ==> Distinct(f[p].children))
    && (forall p, name :: p in f ==> (name in f[p].children <==> Child(p, name) in f))
  }

  /** Some line goes through `p`, and none up to it goes through `q`. */
  ghost predicate Earlier(ss: seq<Sample>, p: Path, q: Path) {
    exists a :: 0 <= a < |ss| && GoesFirst(ss, p, q, a)
  }

  ghost predicate GoesFirst(ss: seq<Sample>, p: Path, q: Path, a: nat)
    requires a < |ss|
  {
    Before(p, ss[a].path) && forall b :: 0 <= b <= a ==> !Before(q, ss[b].path)
  }

  /** Siblings are in the order in which the lines first reach them. */
  ghost predicate InOrder(f: Flame, ss: seq<Sample>) {
    forall p, i, j :: p in f && 0 <= i < j < |f[p].children| ==>
      Earlier(ss, Child(p, f[p].children[i]), Child(p, f[p].children[j]))
  }

  /** The tree `f` is the merge of the folded lines `ss`. */
  ghost predicate IsFlame(f: Flame, ss: seq<Sample>) {
    && Shape(f, ss) && InOrder(f, ss)
    && forall p :: p in f ==> f[p].self == EndingAt(ss, p) && f[p].total == Through(ss, p)
  }

  /** One step down: the child is found or made, and counts the allocation. */
  function Visited(f: Flame, at: Path, name: string, add: Tally): Flame
    requires at in f
  {
    var q := Child(at, name);
    if q in f then f[q := f[q].(total := Plus(f[q].total, add))]
    else f[at := f[at].(children := f[at].children + [name])][q := Cell(NOTHING, add, [])]
  }

  // ---------- the tree as objects

  class FlameNode {
    const name: string
    var selfBytes: nat
    var selfCount: nat
    var totalBytes: nat
    var totalCount: nat
    var children: seq<FlameNode>

    ghost function State(): Cell
      reads this
    {
      Cell(Tally(selfBytes, selfCount), Tally(totalBytes, totalCount),
           seq(|children|, i requires 0 <= i < |children| reads this => children[i].name))
    }

    constructor (name: string)
      ensures this.name == name && children == [] && State() == Cell(NOTHING, NOTHING, [])
    {
      this.name := name;
      selfBytes, selfCount, totalBytes, totalCount, children := 0, 0, 0, 0, [];
    }

    method FindChild(wanted: string) returns (found: bool, child: FlameNode)
      ensures found ==> child in children && child.name == wanted
      ensures !found ==> forall c :: c in children ==> c.name != wanted
    {
      for i := 0 to |children|
        invariant forall j :: 0 <= j < i ==> children[j].name != wanted
      {
        if children[i].name == wanted { return true, children[i]; }
      }
      return false, this;
    }

    /** The first child of this name; a new one is appended if there is none. */
    method GetOrCreateChild(wanted: string) returns (child: FlameNode)
      modifies this`children
      ensures child.name == wanted
      ensures child in old(children) ==> children == old(children)
      ensures child !in old(children) ==>
        && fresh(child) && children == old(children) + [child] && child.State() == Cell(NOTHING, NOTHING, [])
        && forall c :: c in old(children) ==> c.name != wanted
    {
      var found, existing := FindChild(wanted);
      if found { return existing; }
      child := new FlameNode(wanted);
      children := children + [child];
    }
  }

  type Nodes = map<Path, FlameNode>

  /** The objects' child lists. */
  ghost function Kids(nodes: Nodes): map<FlameNode, seq<FlameNode>>
    reads nodes.Values
  {
    map n | n in nodes.Values :: n.children
  }

  ghost predicate OneObjectEach(nodes: Nodes) {
    forall p, q :: p in nodes && q in nodes && p != q ==> nodes[p] != nodes[q]
  }

  /** A child object is the node one step down. */
  ghost predicate ChildrenAreBelow(nodes: Nodes, kids: map<FlameNode, seq<FlameNode>>)
    requires kids.Keys == nodes.Values
  {
    forall p, c :: p in nodes && c in kids[nodes[p]] ==> Child(p, c.name) in nodes && nodes[Child(p, c.name)] == c
  }

  /** A node is one of the children of the node one step up, under its own name. */
  ghost predicate ParentsAreAbove(nodes: Nodes, kids: map<FlameNode, seq<FlameNode>>)
    requires kids.Keys == nodes.Values
  {
    forall p, name :: Child(p, name) in nodes ==>
      p in nodes && nodes[Child(p, name)] in kids[nodes[p]] && nodes[Child(p, name)].name == name
  }

  /** The objects form a tree, with one object per path. */
  ghost predicate Linked(nodes: Nodes, kids: map<FlameNode, seq<FlameNode>>) {
    kids.Keys == nodes.Values && OneObjectEach(nodes) && ChildrenAreBelow(nodes, kids) && ParentsAreAbove(nodes, kids)
  }

  ghost function Model(nodes: Nodes): Flame
    reads nodes.Values
  {
    map p | p in nodes :: nodes[p].State()
  }

  lemma OnlyHere(nodes: Nodes, kids: map<FlameNode, seq<FlameNode>>, at: Path)
    requires Linked(nodes, kids) && at in nodes
    ensures forall p :: p in nodes && p != at ==> nodes[p] != nodes[at]
  {
    hide ParentsAreAbove, ChildrenAreBelow;
  }

  lemma LinkExisting(nodes: Nodes, kids: map<FlameNode, seq<FlameNode>>, at: Path, child: FlameNode)
    requires Linked(nodes, kids) && at in nodes && child in kids[nodes[at]]
    ensures Child(at, child.name) in nodes && nodes[Child(at, child.name)] == child
  {
  }

  lemma ValuesAdded(nodes: Nodes, q: Path, child: FlameNode)
    requires q !in nodes
    ensures nodes[q := child].Values == nodes.Values + {child}
  {
    var nodes' := nodes[q := child];
    forall n | n in nodes.Values + {child} ensures n in nodes'.Values {
      if n == child {
        assert nodes'[q] == n;
      } else {
        var p :| p in nodes && nodes[p] == n;
        assert nodes'[p] == n;
      }
    }
  }

  lemma NotYetThere(nodes: Nodes, kids: map<FlameNode, seq<FlameNode>>, at: Path, name: string)
    requires Linked(nodes, kids) && at in nodes && forall c :: c in kids[nodes[at]] ==> c.name != name
    ensures Child(at, name) !in nodes
    ensures forall x :: Child(Child(at, name), x) !in nodes
  {
    hide Child, OneObjectEach, ChildrenAreBelow;
  }

  /** A fresh object `child` is appended to the children of the node at `at`. */
  ghost predicate Appended(nodes: Nodes, kids: map<FlameNode, seq<FlameNode>>, at: Path, child: FlameNode,
                           nodes': Nodes, kids': map<FlameNode, seq<FlameNode>>)
  {
    && Linked(nodes, kids) && at in nodes && child !in nodes.Values
    && (forall c :: c in kids[nodes[at]] ==> c.name != child.name)
    && nodes' == nodes[Child(at, child.name) := child]
    && kids' == kids[nodes[at] := kids[nodes[at]] + [child]][child := []]
    && kids'.Keys == nodes'.Values
  }

  lemma AppendedBelow(nodes: Nodes, kids: map<FlameNode, seq<FlameNode>>, at: Path, child: FlameNode,
                      nodes': Nodes, kids': map<FlameNode, seq<FlameNode>>)
    requires Appended(nodes, kids, at, child, nodes', kids')
    ensures ChildrenAreBelow(nodes', kids')
  {
    hide Child, ParentsAreAbove;
    var q := Child(at, child.name);
    assert q !in nodes by { NotYetThere(nodes, kids, at, child.name); }
    forall p: Path, c: FlameNode | p in nodes' && c in kids'[nodes'[p]]
      ensures Child(p, c.name) in nodes' && nodes'[Child(p, c.name)] == c
    {
      if p != q && !(p == at && c == child) { assert c in kids[nodes[p]]; }
    }
  }

  lemma AppendedAbove(nodes: Nodes, kids: map<FlameNode, seq<FlameNode>>, at: Path, child: FlameNode,
                      nodes': Nodes, kids': map<FlameNode, seq<FlameNode>>)
    requires Appended(nodes, kids, at, child, nodes', kids')
    ensures ParentsAreAbove(nodes', kids')
  {
    hide Child, ChildrenAreBelow;
    NotYetThere(nodes, kids, at, child.name);
    forall p: Path, name: string | Child(p, name) in nodes'
      ensures p in nodes' && nodes'[Child(p, name)] in kids'[nodes'[p]] && nodes'[Child(p, name)].name == name
    {
      if Child(p, name) == Child(at, child.name) { assert p == at && name == child.name; }
    }
  }

  lemma LinkNew(nodes: Nodes, kids: map<FlameNode, seq<FlameNode>>, at: Path, child: FlameNode,
                nodes': Nodes, kids': map<FlameNode, seq<FlameNode>>)
    requires Appended(nodes, kids, at, child, nodes', kids')
    ensures Linked(nodes', kids')
  {
    hide Child, ParentsAreAbove, ChildrenAreBelow;
    AppendedBelow(nodes, kids, at, child, nodes', kids');
    AppendedAbove(nodes, kids, at, child, nodes', kids');
  }

  /** The tree with a child of this name at this node, made if it was not there. */
  function WithChild(f: Flame, at: Path, name: string): Flame
    requires at in f
  {
    if Child(at, name) in f then f
    else f[at := f[at].(children := f[at].children + [name])][Child(at, name) := Cell(NOTHING, NOTHING, [])]
  }

  /** Making the child first and counting the allocation afterwards is one visit. */
  lemma VisitInTwo(f: Flame, made: Flame, at: Path, name: string, add: Tally)
    requires at in f
    requires made == WithChild(f, at, name) && Child(at, name) in made
    ensures var q := Child(at, name);
      Visited(f, at, name, add) == made[q := made[q].(total := Plus(made[q].total, add))]
  {
    hide Child;
  }

  /** Finds or makes the child of `curr`, the node at `at`. */
  method EnterChild(curr: FlameNode, sym: string, ghost nodes: Nodes, ghost at: Path)
    returns (next: FlameNode, ghost nodes': Nodes)
    requires Linked(nodes, Kids(nodes)) && at in nodes && nodes[at] == curr
    modifies curr
    ensures Linked(nodes', Kids(nodes')) && Child(at, sym) in nodes' && nodes'[Child(at, sym)] == next
    ensures forall n :: n in nodes'.Values ==> n in nodes.Values || fresh(n)
    ensures forall p :: p in nodes ==> p in nodes' && nodes'[p] == nodes[p]
    ensures Model(nodes') == WithChild(old(Model(nodes)), at, sym)
  {
    hide OneObjectEach, ChildrenAreBelow, ParentsAreAbove, Child;
    ghost var kids := Kids(nodes);
    ghost var f := Model(nodes);
    ghost var q := Child(at, sym);
    next := curr.GetOrCreateChild(sym);
    nodes' := nodes[q := next];
    if next in kids[curr] {
      LinkExisting(nodes, kids, at, next);
      assert nodes' == nodes;
    } else {
      NotYetThere(nodes, kids, at, sym);
      ValuesAdded(nodes, q, next);
      OnlyHere(nodes, kids, at);
      assert Kids(nodes') == kids[curr := kids[curr] + [next]][next := []];
      LinkNew(nodes, kids, at, next, nodes', Kids(nodes'));
      assert curr.State().children == f[at].children + [sym];
    }
  }

  /** Counts an allocation that passes through `node`, the node at `at`. */
  method CountThrough(node: FlameNode, bytes: nat, ghost nodes: Nodes, ghost at: Path)
    requires Linked(nodes, Kids(nodes)) && at in nodes && nodes[at] == node
    modifies node
    ensures Kids(nodes) == old(Kids(nodes))
    ensures var f := old(Model(nodes)); Model(nodes) == f[at := f[at].(total := Plus(f[at].total, Tally(bytes, 1)))]
  {
    hide ChildrenAreBelow, ParentsAreAbove, Child;
    ghost var f := Model(nodes);
    OnlyHere(nodes, Kids(nodes), at);
    node.totalBytes := node.totalBytes + bytes;
    node.totalCount := node.totalCount + 1;
    assert node.State() == f[at].(total := Plus(f[at].total, Tally(bytes, 1)));
  }

  /** Counts an allocation that ends at `node`, the node at `at`. */
  method CountEnd(node: FlameNode, bytes: nat, ghost nodes: Nodes, ghost at: Path)
    requires Linked(nodes, Kids(nodes)) && at in nodes && nodes[at] == node
    modifies node
    ensures Kids(nodes) == old(Kids(nodes))
    ensures var f := old(Model(nodes)); Model(nodes) == f[at := f[at].(self := Plus(f[at].self, Tally(bytes, 1)))]
  {
    hide ChildrenAreBelow, ParentsAreAbove, Child;
    ghost var f := Model(nodes);
    OnlyHere(nodes, Kids(nodes), at);
    node.selfBytes := node.selfBytes + bytes;
    node.selfCount := node.selfCount + 1;
    assert node.State() == f[at].(self := Plus(f[at].self, Tally(bytes, 1)));
  }

  /** One step of `build_tree` down a stack. */
  method Descend(curr: FlameNode, sym: string, bytes: nat, ghost nodes: Nodes, ghost at: Path)
    returns (next: FlameNode, ghost nodes': Nodes)
    requires Linked(nodes, Kids(nodes)) && at in nodes && nodes[at] == curr
    modifies nodes.Values
    ensures Linked(nodes', Kids(nodes')) && Child(at, sym) in nodes' && nodes'[Child(at, sym)] == next
    ensures forall n :: n in nodes'.Values ==> n in nodes.Values || fresh(n)
    ensures forall p :: p in nodes ==> p in nodes' && nodes'[p] == nodes[p]
    ensures Model(nodes') == Visited(old(Model(nodes)), at, sym, Tally(bytes, 1))
  {
    hide Linked, Child, Visited, WithChild;
    ghost var f := Model(nodes);
    next, nodes' := EnterChild(curr, sym, nodes, at);
    VisitInTwo(f, Model(nodes'), at, sym, Tally(bytes, 1));
    CountThrough(next, bytes, nodes', Child(at, sym));
  }

  // ---------- the merge, step by step

  /** The merge of `ss` with the first `d` steps of one more line, whose end is not yet counted. */
  ghost predicate Partway(f: Flame, ss: seq<Sample>, s: Sample, d: nat)
    requires d <= |s.path|
  {
    && (forall p :: p in f <==> p == [] || OnPath(ss, p) || Before(p, s.path[..d]))
    && (forall p :: p in f ==> Distinct(f[p].children))
    && (forall p, name :: p in f ==> (name in f[p].children <==> Child(p, name) in f))
    && InOrder(f, ss + [s])
    && (forall p :: p in f ==>
          && f[p].self == EndingAt(ss, p)
          && f[p].total == Plus(Through(ss, p), if Before(p, s.path[..d]) then Single(s) else NOTHING))
  }

  lemma PlusNothing(a: Tally)
    ensures Plus(a, NOTHING) == a && Plus(NOTHING, a) == a
  {
  }

  lemma EmptyTree()
    ensures IsFlame(map[[] := Cell(NOTHING, NOTHING, [])], [])
  {
    hide Child;
    assert forall p, name :: |Child(p, name)| > 0;
  }

  lemma StartWalk(f: Flame, ss: seq<Sample>, s: Sample)
    requires IsFlame(f, ss)
    ensures [] in f && Partway(f[[] := f[[]].(total := Plus(f[[]].total, Single(s)))], ss, s, 0)
  {
    hide Child, EndingAt, Through, InOrder;
    assert forall p: Path :: Before(p, s.path[..0]) <==> p == [];
    var f' := f[[] := f[[]].(total := Plus(f[[]].total, Single(s)))];
    OrderStays(f, f', ss, s);
  }

  /** More lines and other numbers keep the order of siblings. */
  lemma OrderStays(f: Flame, f': Flame, ss: seq<Sample>, s: Sample)
    requires InOrder(f, ss) && f'.Keys == f.Keys && forall p :: p in f ==> f'[p].children == f[p].children
    ensures InOrder(f', ss + [s])
  {
    hide Child, Before;
    forall p, i, j | p in f' && 0 <= i < j < |f'[p].children|
      ensures Earlier(ss + [s], Child(p, f'[p].children[i]), Child(p, f'[p].children[j]))
    {
      EarlierStays(ss, s, Child(p, f[p].children[i]), Child(p, f[p].children[j]));
    }
  }

  lemma EarlierStays(ss: seq<Sample>, s: Sample, p: Path, q: Path)
    requires Earlier(ss, p, q)
    ensures Earlier(ss + [s], p, q)
  {
    hide Before;
    var a :| 0 <= a < |ss| && GoesFirst(ss, p, q, a);
    assert GoesFirst(ss + [s], p, q, a);
  }

  /** A child that is new in line `s` comes after its siblings. */
  lemma VisitedInOrder(f: Flame, ss: seq<Sample>, s: Sample, d: nat)
    requires d < |s.path| && Partway(f, ss, s, d) && s.path[..d] in f
    ensures InOrder(Visited(f, s.path[..d], s.path[d], Single(s)), ss + [s])
  {
    hide Child, EndingAt, Through, OnPath, Plus, Single;
    var at, name := s.path[..d], s.path[d];
    var q, g := Child(at, name), Visited(f, at, name, Single(s));
    VisitedKeys(f, at, name, Single(s));
    forall p, i, j | p in g && 0 <= i < j < |g[p].children|
      ensures Earlier(ss + [s], Child(p, g[p].children[i]), Child(p, g[p].children[j]))
    {
      if p == at && q !in f && j == |f[at].children| {
        OlderSibling(f, ss, s, d, g[p].children[i]);
      } else if p in f {
        assert g[p].children[i] == f[p].children[i] && g[p].children[j] == f[p].children[j];
      }
    }
  }

  lemma OlderSibling(f: Flame, ss: seq<Sample>, s: Sample, d: nat, x: string)
    requires d < |s.path| && Partway(f, ss, s, d) && s.path[..d] in f && x in f[s.path[..d]].children
    requires Child(s.path[..d], s.path[d]) !in f
    ensures Earlier(ss + [s], Child(s.path[..d], x), Child(s.path[..d], s.path[d]))
  {
    hide EndingAt, Through, InOrder, Plus, Single, Child;
    var at := s.path[..d];
    var c, q := Child(at, x), Child(at, s.path[d]);
    assert c in f && c != [];
    assert !Before(c, s.path[..d]);
    var a :| 0 <= a < |ss| && Before(c, ss[a].path);
    forall b | 0 <= b <= a ensures !Before(q, (ss + [s])[b].path) { assert (ss + [s])[b] == ss[b]; }
    assert GoesFirst(ss + [s], c, q, a);
  }

  lemma PrefixStep(path: Path, d: nat, p: Path)
    requires d < |path|
    ensures path[..d + 1] == Child(path[..d], path[d])
    ensures Before(p, path[..d + 1]) <==> Before(p, path[..d]) || p == path[..d + 1]
  {
  }

  lemma VisitedKeys(f: Flame, at: Path, name: string, add: Tally)
    requires at in f && Distinct(f[at].children) && (name in f[at].children <==> Child(at, name) in f)
    ensures var q, g := Child(at, name), Visited(f, at, name, add);
      && g.Keys == f.Keys + {q}
      && (forall p :: p in f && p != q ==> g[p].self == f[p].self && g[p].total == f[p].total)
      && (forall p :: p in f && p != at ==> g[p].children == f[p].children)
      && (forall x :: x in g[at].children <==> x in f[at].children || x == name)
      && Distinct(g[at].children)
      && (q in f ==> g[q].self == f[q].self && g[q].total == Plus(f[q].total, add))
      && (q !in f ==> g[q] == Cell(NOTHING, add, []))
  {
    hide Child;
    assert at != Child(at, name) by { assert |Child(at, name)| == |at| + 1; }
  }

  lemma OnPathStep(ss: seq<Sample>, p: Path)
    requires ss != []
    ensures OnPath(ss, p) <==> OnPath(ss[..|ss| - 1], p) || Before(p, ss[|ss| - 1].path)
  {
    hide Before;
    var last := |ss| - 1;
    if i :| 0 <= i < last && Before(p, ss[..last][i].path) { assert Before(p, ss[i].path); }
    if i :| 0 <= i < last && Before(p, ss[i].path) { assert Before(p, ss[..last][i].path); }
  }

  lemma {:induction false} NothingSelected(ss: seq<Sample>, w: Selection)
    requires !OnPath(ss, w.p)
    ensures Sum(ss, w) == NOTHING
  {
    hide OnPath, Before, Exactly;
    if ss != [] {
      OnPathStep(ss, w.p);
      ExactlyIsBefore(w.p, ss[|ss| - 1].path);
      NothingSelected(ss[..|ss| - 1], w);
    }
  }

  lemma ExactlyIsBefore(p: Path, q: Path)
    ensures Exactly(p, q) ==> Before(p, q)
  {
  }

  lemma NothingHere(ss: seq<Sample>, q: Path)
    requires !OnPath(ss, q)
    ensures Through(ss, q) == NOTHING && EndingAt(ss, q) == NOTHING
  {
    NothingSelected(ss, Under(q));
    NothingSelected(ss, Only(q));
  }

  lemma StepWalk(f: Flame, ss: seq<Sample>, s: Sample, d: nat)
    requires d < |s.path| && Partway(f, ss, s, d)
    ensures s.path[..d] in f && s.path[..d + 1] == Child(s.path[..d], s.path[d])
    ensures Partway(Visited(f, s.path[..d], s.path[d], Single(s)), ss, s, d + 1)
  {
    hide Child, Visited, EndingAt, Through, OnPath, Plus, Single, InOrder;
    var at, name := s.path[..d], s.path[d];
    var q, g := Child(at, name), Visited(f, at, name, Single(s));
    VisitedKeys(f, at, name, Single(s));
    forall p ensures Before(p, s.path[..d + 1]) <==> Before(p, s.path[..d]) || p == q { PrefixStep(s.path, d, p); }
    assert !Before(q, s.path[..d]);
    if q !in f {
      NothingHere(ss, q);
    }
    if q !in f {
      forall x ensures Child(q, x) !in f { BelowIsAbsent(f, ss, s, d, q, x); }
    }
    VisitedChildren(f, at, name, Single(s));
    VisitedInOrder(f, ss, s, d);
    PlusNothing(Through(ss, q));
    PlusNothing(Single(s));
  }

  /** Every node of the tree has exactly its children in it, also after a visit. */
  lemma VisitedChildren(f: Flame, at: Path, name: string, add: Tally)
    requires at in f && Distinct(f[at].children)
    requires forall p, x :: p in f ==> (x in f[p].children <==> Child(p, x) in f)
    requires Child(at, name) !in f ==> forall x :: Child(Child(at, name), x) !in f
    ensures var g := Visited(f, at, name, add);
      forall p, x :: p in g ==> (x in g[p].children <==> Child(p, x) in g)
  {
    hide Child, Visited, Distinct;
    VisitedKeys(f, at, name, add);
    var q, g := Child(at, name), Visited(f, at, name, add);
    forall p, x | p in g ensures x in g[p].children <==> Child(p, x) in g {
      if Child(p, x) == q { assert p == at && x == name; }
    }
  }

  /** Nothing is below a path that is not in the tree. */
  lemma BelowIsAbsent(f: Flame, ss: seq<Sample>, s: Sample, d: nat, q: Path, x: string)
    requires d <= |s.path| && Partway(f, ss, s, d) && q !in f
    ensures Child(q, x) !in f
  {
    hide EndingAt, Through;
    assert forall path :: Before(Child(q, x), path) ==> Before(q, path);
  }

  lemma EndWalk(f: Flame, ss: seq<Sample>, s: Sample)
    requires Partway(f, ss, s, |s.path|)
    ensures s.path in f && IsFlame(f[s.path := f[s.path].(self := Plus(f[s.path].self, Single(s)))], ss + [s])
  {
    hide Child, OnPath, Earlier;
    var more := ss + [s];
    assert more[..|ss|] == ss && s.path[..|s.path|] == s.path;
    forall p ensures OnPath(more, p) <==> OnPath(ss, p) || Before(p, s.path) { OnPathStep(more, p); }
  }

  // ---------- build_tree

  /** One turn of `build_tree`'s loop. */
  method AddRecord(resolve: seq<nat> -> seq<string>, r: Record, root: FlameNode, ghost nodes: Nodes,
                   ghost ss: seq<Sample>)
    returns (ghost nodes': Nodes)
    requires Linked(nodes, Kids(nodes)) && [] in nodes && nodes[[]] == root && IsFlame(Model(nodes), ss)
    modifies nodes.Values
    ensures Linked(nodes', Kids(nodes')) && [] in nodes' && nodes'[[]] == root
    ensures forall n :: n in nodes'.Values ==> n in nodes.Values || fresh(n)
    ensures IsFlame(Model(nodes'), ss + [Sample(FoldedPath(resolve, r), r.requested)])
  {
    hide Linked, Child, IsFlame, Partway, Visited, EndingAt, Through, FoldedPath, PathOf;
    ghost var s := Sample(FoldedPath(resolve, r), r.requested);
    StartWalk(Model(nodes), ss, s);
    CountThrough(root, r.requested, nodes, []);
    nodes' := nodes;
    if r.frames == [] {
      UnknownPath(resolve, r);
      StepWalk(Model(nodes'), ss, s, 0);
      var unknown;
      unknown, nodes' := Descend(root, UNKNOWN, r.requested, nodes', []);
      EndWalk(Model(nodes'), ss, s);
      CountEnd(unknown, r.requested, nodes', s.path);
      return;
    }
    var names := resolve(r.frames);
    ResolvedPath(resolve, r, names);
    var curr := root;
    for f := |names| downto 0
      invariant forall n :: n in nodes'.Values ==> n in nodes.Values || fresh(n)
      invariant Linked(nodes', Kids(nodes')) && [] in nodes' && nodes'[[]] == root
      invariant var at := s.path[..|names| - f]; at in nodes' && nodes'[at] == curr
      invariant Partway(Model(nodes'), ss, s, |names| - f)
    {
      ghost var d := |names| - 1 - f;
      StepWalk(Model(nodes'), ss, s, d);
      var sym := if names[f] == "" then UNKNOWN else names[f];
      curr, nodes' := Descend(curr, sym, r.requested, nodes', s.path[..d]);
    }
    EndWalk(Model(nodes'), ss, s);
    assert s.path[..|names|] == s.path;
    CountEnd(curr, r.requested, nodes', s.path);
  }

  lemma UnknownPath(resolve: seq<nat> -> seq<string>, r: Record)
    requires r.frames == []
    ensures var path := FoldedPath(resolve, r);
      path == [UNKNOWN] && path[..0] == [] && Child([], UNKNOWN) == path && path[..1] == path
  {
  }

  lemma ResolvedPath(resolve: seq<nat> -> seq<string>, r: Record, names: seq<string>)
    requires r.frames != [] && names == resolve(r.frames)
    ensures var path := FoldedPath(resolve, r);
      && |path| == |names| && path[..0] == []
      && forall f :: 0 <= f < |names| ==> path[|names| - 1 - f] == if names[f] == "" then UNKNOWN else names[f]
  {
    forall f | 0 <= f < |names| ensures PathOf(names)[|names| - 1 - f] == Symbol(names[f]) {
      assert |names| - 1 - (|names| - 1 - f) == f;
    }
  }

  /** A root without children. */
  lemma RootAlone(nodes: Nodes, kids: map<FlameNode, seq<FlameNode>>, root: FlameNode)
    requires nodes == map[[] := root] && kids == map[root := []]
    ensures Linked(nodes, kids)
  {
    hide Child;
    assert nodes[[]] == root && nodes.Values == {root};
    assert forall p, name :: |Child(p, name)| > 0;
  }

  method BuildTree(resolve: seq<nat> -> seq<string>, rs: seq<Record>) returns (root: FlameNode, ghost nodes: Nodes)
    ensures Linked(nodes, Kids(nodes)) && [] in nodes && nodes[[]] == root && root.name == "all"
    ensures IsFlame(Model(nodes), Samples(resolve, rs))
    ensures forall k :: 0 <= k < |rs| ==> Folds(resolve, rs[k], Samples(resolve, rs)[k])
    ensures fresh(nodes.Values)
  {
    hide Folds, OneObjectEach, ChildrenAreBelow, ParentsAreAbove, Child, IsFlame, Partway, Visited, EndingAt, Through;
    LinesFold(resolve, rs);
    root := new FlameNode("all");
    nodes := map[[] := root];
    ghost var ss := Samples(resolve, rs);
    EmptyTree();
    assert nodes[[]] == root && nodes.Values == {root};
    RootAlone(nodes, Kids(nodes), root);
    assert Model(nodes) == map[[] := Cell(NOTHING, NOTHING, [])];
    for i := 0 to |rs|
      invariant Linked(nodes, Kids(nodes)) && [] in nodes && nodes[[]] == root
      invariant fresh(nodes.Values)
      invariant IsFlame(Model(nodes), ss[..i])
    {
      nodes := AddRecord(resolve, rs[i], root, nodes, ss[..i]);
      assert ss[..i] + [ss[i]] == ss[..i + 1];
    }
    assert ss[..|rs|] == ss;
  }
}
