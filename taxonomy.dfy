/**
 * The in-memory taxonomy: a tree of classes, each with an ordered list of
 * children and a set of instances, wrapped by a Taxonomy that keeps a
 * registry of classes and the largest level registered so far.
 */
module Taxonomy {
  import opened Wrappers
  import opened Text

  /** A member of a class: its resource URI and, once fetched, its abstract text. */
  class Instance {
    const uri: string
    /** `None` while the object has no `abstract` attribute. */
    var abstractText: Option<string>

    constructor (uri: string := "")
      ensures this.uri == uri && abstractText == None
    {
      this.uri := uri;
      abstractText := None;
    }
  }

  /** A taxonomic class.  Name, level and father are fixed at construction. */
  class TClass {
    const name: string
    const level: nat
    const father: TClass?
    var children: seq<TClass>
    var instances: set<Instance>

    constructor (name: string, level: nat := 0, father: TClass? := null, children: seq<TClass> := [])
      ensures this.name == name && this.level == level && this.father == father
      ensures this.children == children && instances == {}
    {
      this.name := name;
      this.level := level;
      this.father := father;
      this.children := children;
      instances := {};
    }

    /** The display label: the local name of the class followed by its level in parentheses. */
    function Repr(): (r: string)
      ensures EndsWith(r, " (" + NatToString(level) + ")")
    {
      LocalName(name) + (" (" + NatToString(level) + ")")
    }

    /**
     * Appends `child` unconditionally; `warnings` is the number of warnings
     * printed, one per child already present under the same name.
     */
    method AddChild(child: TClass) returns (warnings: nat)
      modifies this
      ensures children == old(children) + [child]
      ensures warnings == CountNamed(old(children), child.name)
      ensures instances == old(instances)
    {
      warnings := 0;
      for i := 0 to |children|
        invariant warnings == CountNamed(children[..i], child.name)
      {
        assert children[..i + 1][..i] == children[..i];
        if children[i].name == child.name {
          warnings := warnings + 1;
        }
      }
      assert children[..|children|] == children;
      children := children + [child];
    }
  }

  /** The names of `cs`, in order. */
  function Names(cs: seq<TClass>): (r: seq<string>)
    ensures |r| == |cs| && forall i :: 0 <= i < |cs| ==> r[i] == cs[i].name
  {
    if cs == [] then [] else Names(cs[..|cs| - 1]) + [cs[|cs| - 1].name]
  }

  lemma NamesAppend(a: seq<TClass>, b: seq<TClass>)
    ensures Names(a + b) == Names(a) + Names(b)
  {
    assert forall i :: 0 <= i < |a + b| ==> Names(a + b)[i] == (Names(a) + Names(b))[i];
  }

  /** How many of `cs` are named `n`. */
  function CountNamed(cs: seq<TClass>, n: string): nat
  {
    if cs == [] then 0
    else CountNamed(cs[..|cs| - 1], n) + (if cs[|cs| - 1].name == n then 1 else 0)
  }

  /** A warning is printed exactly when a child of the same name is already present. */
  lemma {:induction false} CountNamedPositive(cs: seq<TClass>, n: string)
    ensures CountNamed(cs, n) > 0 <==> exists i :: 0 <= i < |cs| && cs[i].name == n
  {
    if cs != [] {
      var init := cs[..|cs| - 1];
      CountNamedPositive(init, n);
      if CountNamed(init, n) > 0 {
        var i :| 0 <= i < |init| && init[i].name == n;
        assert cs[i].name == n;
      }
      if exists i :: 0 <= i < |cs| && cs[i].name == n {
        var i :| 0 <= i < |cs| && cs[i].name == n;
        if i < |init| {
          assert init[i].name == n;
        }
      }
    }
  }

  /** The label of the class `p/x>` is `x` followed by its level. */
  lemma ReprOfUri(c: TClass, p: string, x: string)
    requires c.name == p + "/" + x + ">" && '/' !in x
    ensures c.Repr() == x + " (" + NatToString(c.level) + ")"
  {
    LocalNameOf(p, x, '>');
  }

  /** Two classes of the same name have the same label only at the same level. */
  lemma ReprDeterminesLevel(c: TClass, d: TClass)
    requires c.name == d.name && c.Repr() == d.Repr()
    ensures c.level == d.level
  {
    var x, y := NatToString(c.level), NatToString(d.level);
    var h := LocalName(c.name);
    CancelHead(h, " (" + x + ")", " (" + y + ")");
    var tx, ty := " (" + x + ")", " (" + y + ")";
    assert x == tx[2..|tx| - 1] && y == ty[2..|ty| - 1];
    NatToStringInjective(c.level, d.level);
  }

  /** A common head cancels. */
  lemma CancelHead(h: string, a: string, b: string)
    requires h + a == h + b
    ensures a == b
  {
    assert a == (h + a)[|h|..] && b == (h + b)[|h|..];
  }

  // ---------------------------------------------------------------------
  // The registry and the depth as functions of the classes added so far
  // ---------------------------------------------------------------------

  /**
   * A registry key.  The constructor files the root's copy under the root
   * OBJECT; every later registration files a class under its name.
   */
  datatype Key = ByObject(cls: TClass) | ByName(name: string)

  /** The largest level among `cs`, or 0. */
  function MaxLevel(cs: seq<TClass>): nat
  {
    if cs == [] then 0
    else
      var m := MaxLevel(cs[..|cs| - 1]);
      if cs[|cs| - 1].level > m then cs[|cs| - 1].level else m
  }

  /** The largest level bounds every level and, unless 0, is the level of one of `cs`. */
  lemma {:induction false} MaxLevelIsMax(cs: seq<TClass>)
    ensures forall i :: 0 <= i < |cs| ==> cs[i].level <= MaxLevel(cs)
    ensures MaxLevel(cs) == 0 || exists i :: 0 <= i < |cs| && cs[i].level == MaxLevel(cs)
  {
    if cs != [] {
      var init := cs[..|cs| - 1];
      MaxLevelIsMax(init);
      assert forall i :: 0 <= i < |init| ==> init[i] == cs[i];
    }
  }

  /** The registry after filing each of `cs` under its name, in order, into `m`. */
  function Register(m: map<Key, TClass>, cs: seq<TClass>): map<Key, TClass>
  {
    if cs == [] then m
    else Register(m, cs[..|cs| - 1])[ByName(cs[|cs| - 1].name) := cs[|cs| - 1]]
  }

  /** The registry holds the keys it started with and the names of all classes added. */
  lemma {:induction false} RegisterKeys(m: map<Key, TClass>, cs: seq<TClass>)
    ensures Register(m, cs).Keys == m.Keys + set c | c in cs :: ByName(c.name)
  {
    if cs != [] {
      var init := cs[..|cs| - 1];
      RegisterKeys(m, init);
      assert cs == init + [cs[|cs| - 1]];
      assert (set c | c in cs :: ByName(c.name)) == (set c | c in init :: ByName(c.name)) + {ByName(cs[|cs| - 1].name)};
    }
  }

  /** Last writer wins: a name maps to the last class added under it. */
  lemma {:induction false} RegisterLastWriterWins(m: map<Key, TClass>, cs: seq<TClass>, i: nat)
    requires i < |cs|
    requires forall j :: i < j < |cs| ==> cs[j].name != cs[i].name
    ensures ByName(cs[i].name) in Register(m, cs)
    ensures Register(m, cs)[ByName(cs[i].name)] == cs[i]
  {
    if i < |cs| - 1 {
      RegisterLastWriterWins(m, cs[..|cs| - 1], i);
    }
  }

  /** Entries under keys no added class is filed under stay as they were. */
  lemma {:induction false} RegisterKeepsOtherKeys(m: map<Key, TClass>, cs: seq<TClass>, k: Key)
    requires k in m
    requires forall j :: 0 <= j < |cs| ==> k != ByName(cs[j].name)
    ensures k in Register(m, cs) && Register(m, cs)[k] == m[k]
  {
    if cs != [] {
      RegisterKeepsOtherKeys(m, cs[..|cs| - 1], k);
    }
  }

  /** Registering `a` and then `b` is registering `a + b`. */
  lemma {:induction false} RegisterAppend(m: map<Key, TClass>, a: seq<TClass>, b: seq<TClass>)
    ensures Register(m, a + b) == Register(Register(m, a), b)
  {
    if b == [] {
      assert a + b == a;
    } else {
      var init := b[..|b| - 1];
      assert (a + b)[..|a + b| - 1] == a + init;
      RegisterAppend(m, a, init);
    }
  }

  /** The largest level of `a + b` is the larger of the two largest levels. */
  lemma {:induction false} MaxLevelAppend(a: seq<TClass>, b: seq<TClass>)
    ensures MaxLevel(a + b) == if MaxLevel(b) > MaxLevel(a) then MaxLevel(b) else MaxLevel(a)
  {
    if b == [] {
      assert a + b == a;
    } else {
      var init := b[..|b| - 1];
      assert (a + b)[..|a + b| - 1] == a + init;
      MaxLevelAppend(a, init);
    }
  }

  /** Classes all created at level `l` have largest level `l`. */
  lemma {:induction false} MaxLevelUniform(cs: seq<TClass>, l: nat)
    requires cs != [] && forall i :: 0 <= i < |cs| ==> cs[i].level == l
    ensures MaxLevel(cs) == l
  {
    var init := cs[..|cs| - 1];
    if init != [] {
      MaxLevelUniform(init, l);
    }
  }

  /**
   * The depth counts classes that have since been overwritten: after adding a
   * deep class and then a shallower one of the same name, the depth exceeds
   * the level of every class still registered.
   */
  lemma DepthOutlivesOverwrite(root: TClass, entry: TClass, deep: TClass, shallow: TClass)
    requires entry.level == 0 && deep.name == shallow.name && deep.level > shallow.level
    ensures MaxLevel([deep, shallow]) == deep.level
    ensures var r := Register(map[ByObject(root) := entry], [deep, shallow]);
      forall k :: k in r ==> r[k].level < deep.level
  {
    var m := map[ByObject(root) := entry];
    assert [deep, shallow][..1] == [deep] && [deep][..0] == [];
    assert MaxLevel([deep]) == deep.level;
    assert Register(m, [deep]) == m[ByName(deep.name) := deep];
  }

  /** The registry and its depth. */
  class Taxonomy {
    var depth: nat
    const root: TClass
    var classes: map<Key, TClass>
    /** The copy of the root made by the constructor. */
    ghost const rootEntry: TClass
    /** Every class passed to AddClass, in order. */
    ghost var added: seq<TClass>

    /** Registry and depth are determined by the classes added so far. */
    ghost predicate Valid()
      reads this
    {
      depth == MaxLevel(added) &&
      classes == Register(map[ByObject(root) := rootEntry], added)
    }

    constructor (root: TClass)
      ensures Valid() && this.root == root && depth == 0 && added == []
      ensures classes == map[ByObject(root) := rootEntry]
      ensures fresh(rootEntry) && rootEntry.name == root.name && rootEntry.level == 0
      ensures rootEntry.father == null && rootEntry.children == [] && rootEntry.instances == {}
    {
      var entry := new TClass(root.name);
      depth := 0;
      this.root := root;
      classes := map[ByObject(root) := entry];
      rootEntry := entry;
      added := [];
    }

    /** The taxonomy over the default root, the ontology's top class. */
    constructor Default()
      ensures Valid() && depth == 0 && added == []
      ensures fresh(root) && root.name == "<http://dbpedia.org/ontology/Thing>"
      ensures root.level == 0 && root.father == null && root.children == [] && root.instances == {}
      ensures classes == map[ByObject(root) := rootEntry]
      ensures fresh(rootEntry) && rootEntry.name == root.name && rootEntry.level == 0
      ensures rootEntry.father == null && rootEntry.children == [] && rootEntry.instances == {}
    {
      var r := new TClass("<http://dbpedia.org/ontology/Thing>");
      var entry := new TClass(r.name);
      depth := 0;
      root := r;
      classes := map[ByObject(r) := entry];
      rootEntry := entry;
      added := [];
    }

    /**
     * Files `cls` under its name, replacing any earlier class of that name
     * (`warned` tells whether there was one), and raises the depth to its level.
     */
    method AddClass(cls: TClass) returns (warned: bool)
      modifies this
      ensures old(Valid()) ==> Valid()
      ensures added == old(added) + [cls]
      ensures warned <==> ByName(cls.name) in old(classes)
      ensures classes == old(classes)[ByName(cls.name) := cls]
      ensures depth == if cls.level > old(depth) then cls.level else old(depth)
    {
      warned := ByName(cls.name) in classes;
      classes := classes[ByName(cls.name) := cls];
      if cls.level > depth {
        depth := cls.level;
      }
      added := added + [cls];
      assert added[..|added| - 1] == old(added);
    }

    /** The indented rendering of the whole tree, starting at the root. */
    method Repr(ghost t: Tree) returns (res: string)
      requires Reflects(root, t)
      ensures res == RenderForest([t])
    {
      res := GenChildRepr([root], [t]);
    }

    /**
     * Renders `classes` and, below each, its subtree: one line per class,
     * indented by twice its level.  The ghost `ts` is the finite tree the
     * objects form; it is what makes the recursion terminate.
     */
    method GenChildRepr(classes: seq<TClass>, ghost ts: seq<Tree>) returns (res: string)
      requires |classes| == |ts| && forall i :: 0 <= i < |ts| ==> Reflects(classes[i], ts[i])
      ensures res == RenderForest(ts)
      decreases ts
    {
      res := "";
      if classes == [] {
        return;
      }
      for i := 0 to |classes|
        invariant res + RenderForest(ts[i..]) == RenderForest(ts)
      {
        var cls := classes[i];
        res := res + (Spaces(cls.level * 2) + cls.name + NL);
        var sub := GenChildRepr(cls.children, ts[i].children);
        res := res + sub;
        assert ts[i..][1..] == ts[i + 1..];
      }
    }
  }

  // ---------------------------------------------------------------------
  // Rendering, specified on finite trees
  // ---------------------------------------------------------------------

  /** A finite tree of class names and levels. */
  datatype Tree = Tree(name: string, level: nat, children: seq<Tree>)

  /** The heap tree under `c` has the shape, names and levels of `t`. */
  ghost predicate Reflects(c: TClass, t: Tree)
    reads *
    decreases t
  {
    c.name == t.name && c.level == t.level && |c.children| == |t.children| &&
    forall i :: 0 <= i < |t.children| ==> Reflects(c.children[i], t.children[i])
  }

  function Line(t: Tree): string
  {
    Spaces(2 * t.level) + t.name + NL
  }

  /** Each tree's line followed by its children's rendering, trees in list order. */
  function RenderForest(ts: seq<Tree>): string
    decreases ts
  {
    if ts == [] then ""
    else Line(ts[0]) + RenderForest(ts[0].children) + RenderForest(ts[1..])
  }

  /** The nodes of `ts` in pre-order: a node before its children, siblings in order. */
  function PreOrder(ts: seq<Tree>): (r: seq<Tree>)
    ensures ts != [] ==> |r| > 0 && r[0] == ts[0]
    decreases ts
  {
    if ts == [] then [] else [ts[0]] + PreOrder(ts[0].children) + PreOrder(ts[1..])
  }

  /** One line per node, in the order given. */
  function Lines(ns: seq<Tree>): string
  {
    if ns == [] then "" else Line(ns[0]) + Lines(ns[1..])
  }

  lemma {:induction false} LinesAppend(a: seq<Tree>, b: seq<Tree>)
    ensures Lines(a + b) == Lines(a) + Lines(b)
  {
    if a != [] {
      assert (a + b)[0] == a[0];
      assert (a + b)[1..] == a[1..] + b;
      LinesAppend(a[1..], b);
      assert Lines(a + b) == Line(a[0]) + Lines(a[1..] + b);
    } else {
      assert a + b == b;
    }
  }

  /** The rendering is exactly one line per node, visited in pre-order. */
  lemma {:induction false} RenderIsPreOrder(ts: seq<Tree>)
    ensures RenderForest(ts) == Lines(PreOrder(ts))
    decreases ts
  {
    if ts != [] {
      RenderIsPreOrder(ts[0].children);
      RenderIsPreOrder(ts[1..]);
      LinesAppend([ts[0]] + PreOrder(ts[0].children), PreOrder(ts[1..]));
      LinesAppend([ts[0]], PreOrder(ts[0].children));
    }
  }

  /** Sibling lists render one after the other. */
  lemma {:induction false} RenderAppend(a: seq<Tree>, b: seq<Tree>)
    ensures RenderForest(a + b) == RenderForest(a) + RenderForest(b)
    decreases a
  {
    if a != [] {
      assert (a + b)[0] == a[0];
      assert (a + b)[1..] == a[1..] + b;
      RenderAppend(a[1..], b);
      assert RenderForest(a + b) == Line(a[0]) + RenderForest(a[0].children) + RenderForest(a[1..] + b);
    } else {
      assert a + b == b;
    }
  }
}
