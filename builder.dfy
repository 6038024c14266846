/**
 * The taxonomy builder: a breadth-first, level-by-level expansion from a
 * root class.  Every class of the current frontier is asked for its direct
 * subclasses; each answer value becomes a new class one round deeper,
 * registered in the taxonomy, appended to its parent's children and to the
 * next frontier.  The expansion stops after a round that created nothing.
 */
module Builder {
  import opened Wrappers
  import opened Queries
  import opened Sparql
  import opened Taxonomy

  /**
   * The endpoint's answers to the subclass queries, by class name.  The
   * expansion sends no other kind of query, so it is modelled against
   * these answers.
   */
  function SubclassAnswers(endpoint: Endpoint): Answers
  {
    name => endpoint(SelectSubclass(name))
  }

  /** The names of the subclasses reported for class `name`. */
  function SubclassesOf(ask: Answers, name: string): seq<string>
    requires WellFormed(ask(name))
  {
    match ask(name)
    case None => []
    case Some(rs) => Values(rs)
  }

  /** Every subclass query is answered with a well-formed result or a failure. */
  ghost predicate AnswersSubclassQueries(ask: Answers)
  {
    forall n :: WellFormed(ask(n))
  }

  /**
   * `rank` strictly decreases from a class name to the name of each of its
   * reported subclasses: the reported subclass relation is
   * finite and acyclic, so the expansion ends.
   */
  ghost predicate RankDecreases(ask: Answers, rank: string -> nat)
    requires AnswersSubclassQueries(ask)
  {
    forall n, i :: 0 <= i < |SubclassesOf(ask, n)| ==> rank(SubclassesOf(ask, n)[i]) < rank(n)
  }

  /** A frontier answered with nothing, or failing, yields no subclasses. */
  lemma NoAnswerNoSubclasses(ask: Answers, name: string)
    requires WellFormed(ask(name))
    requires ask(name).None? || ask(name).value.bindings == []
    ensures SubclassesOf(ask, name) == []
  {
    if ask(name).Some? {
      var rs := ask(name).value;
      NoRowsNoValues(rs, |rs.vars|);
    }
  }

  /** Positions `a` and `b` of `cs` hold different objects. */
  predicate Apart(cs: seq<TClass>, a: nat, b: nat)
    requires a < |cs| && b < |cs|
  {
    cs[a] != cs[b]
  }

  /** The objects of `cs` are pairwise different. */
  predicate Distinct(cs: seq<TClass>)
  {
    forall a, b :: 0 <= a < b < |cs| ==> Apart(cs, a, b)
  }

  /**
   * The children the expansion gave `c`: all of them for a created class,
   * those after the first `b0` for the root, which may have had children
   * before.
   */
  ghost function KidsOf(c: TClass, root: TClass, b0: nat): seq<TClass>
    reads c`children
  {
    if c != root then c.children
    else if b0 <= |c.children| then c.children[b0..]
    else []
  }

  /** Class `c` has been given exactly its reported subclasses, each with it as father. */
  ghost predicate Done(c: TClass, root: TClass, b0: nat, ask: Answers)
    requires AnswersSubclassQueries(ask)
    reads c
  {
    Names(KidsOf(c, root, b0)) == SubclassesOf(ask, c.name) &&
    forall j :: 0 <= j < |KidsOf(c, root, b0)| ==> KidsOf(c, root, b0)[j].father == c
  }

  /** The children the expansion gave each class of `cs`, class after class. */
  ghost function KidsOfAll(cs: seq<TClass>, root: TClass, b0: nat): seq<TClass>
    reads cs`children
  {
    if cs == [] then [] else KidsOfAll(cs[..|cs| - 1], root, b0) + KidsOf(cs[|cs| - 1], root, b0)
  }

  lemma {:induction false} KidsOfAllAppend(a: seq<TClass>, b: seq<TClass>, root: TClass, b0: nat)
    ensures KidsOfAll(a + b, root, b0) == KidsOfAll(a, root, b0) + KidsOfAll(b, root, b0)
  {
    if b == [] {
      assert a + b == a;
    } else {
      var init := b[..|b| - 1];
      assert (a + b)[..|a + b| - 1] == a + init;
      KidsOfAllAppend(a, init, root, b0);
    }
  }

  /** The blocks of `log`, one after the other. */
  function Flatten(log: seq<seq<TClass>>): seq<TClass>
  {
    if log == [] then [] else Flatten(log[..|log| - 1]) + log[|log| - 1]
  }

  lemma {:induction false} FlattenAppend(a: seq<seq<TClass>>, b: seq<seq<TClass>>)
    ensures Flatten(a + b) == Flatten(a) + Flatten(b)
  {
    if b == [] {
      assert a + b == a;
    } else {
      var init := b[..|b| - 1];
      assert (a + b)[..|a + b| - 1] == a + init;
      FlattenAppend(a, init);
    }
  }

  lemma FlattenSnoc(log: seq<seq<TClass>>, kids: seq<TClass>)
    ensures Flatten(log + [kids]) == Flatten(log) + kids
  {
    assert (log + [kids])[..|log|] == log;
  }

  /** A class of block `k` of `log` is a class of the whole. */
  lemma {:induction false} FlattenHas(log: seq<seq<TClass>>, k: nat, c: TClass)
    requires k < |log| && c in log[k]
    ensures c in Flatten(log)
  {
    if k < |log| - 1 {
      FlattenHas(log[..|log| - 1], k, c);
    }
  }

  /** A class of the whole of `log` is a class of one of its blocks. */
  lemma {:induction false} FlattenFind(log: seq<seq<TClass>>, c: TClass) returns (m: nat)
    requires c in Flatten(log)
    ensures m < |log| && c in log[m]
  {
    var init := log[..|log| - 1];
    if c in Flatten(init) {
      m := FlattenFind(init, c);
    } else {
      m := |log| - 1;
    }
  }

  /**
   * Block `k` of `log` holds the children the expansion gave `ns[k]`, for
   * every block of `log`.
   */
  ghost predicate KidsMatch(ns: seq<TClass>, log: seq<seq<TClass>>, root: TClass, b0: nat)
    reads ns`children
  {
    |log| <= |ns| && forall k :: 0 <= k < |log| ==> KidsOf(ns[k], root, b0) == log[k]
  }

  lemma KidsMatchPrefix(ns: seq<TClass>, log: seq<seq<TClass>>, m: nat, root: TClass, b0: nat)
    requires KidsMatch(ns, log, root, b0) && |log| <= m <= |ns|
    ensures KidsMatch(ns[..m], log, root, b0)
  {
    assert forall k :: 0 <= k < |log| ==> ns[..m][k] == ns[k];
  }

  /** The children of the next class, `ns[|log|]`, make the next block. */
  lemma KidsMatchStep(ns: seq<TClass>, extra: seq<TClass>, log: seq<seq<TClass>>, kids: seq<TClass>, root: TClass, b0: nat)
    requires |log| < |ns| && KidsMatch(ns[..|log|], log, root, b0) && KidsOf(ns[|log|], root, b0) == kids
    ensures KidsMatch(ns + extra, log + [kids], root, b0)
  {
    forall k | 0 <= k < |log| + 1
      ensures KidsOf((ns + extra)[k], root, b0) == (log + [kids])[k]
    {
      if k < |log| {
        assert (ns + extra)[k] == ns[..|log|][k];
      }
    }
  }

  /** The blocks of `log` from `a` to `b` are the children of `ns[a..b]`, class after class. */
  lemma {:induction false} KidsMatchAll(ns: seq<TClass>, log: seq<seq<TClass>>, a: nat, b: nat, root: TClass, b0: nat)
    requires KidsMatch(ns, log, root, b0) && a <= b <= |log|
    ensures KidsOfAll(ns[a..b], root, b0) == Flatten(log[a..b])
  {
    if a < b {
      KidsMatchAll(ns, log, a, b - 1, root, b0);
      SliceInit(ns, a, b);
      SliceInit(log, a, b);
    }
  }

  lemma SliceInit<T>(s: seq<T>, a: nat, b: nat)
    requires a < b <= |s|
    ensures s[a..b][..b - 1 - a] == s[a..b - 1] && s[a..b][b - 1 - a] == s[b - 1]
  {
  }

  /** Every class of `ns` has been expanded. */
  ghost predicate Expanded(ns: seq<TClass>, root: TClass, b0: nat, ask: Answers)
    requires AnswersSubclassQueries(ask)
    reads ns
  {
    forall k :: 0 <= k < |ns| ==> Done(ns[k], root, b0, ask)
  }

  /** No class of `ns` has been given children yet. */
  ghost predicate Unexpanded(ns: seq<TClass>, root: TClass, b0: nat)
    reads ns
  {
    forall k :: 0 <= k < |ns| ==> KidsOf(ns[k], root, b0) == []
  }

  /** The classes of `ns` before position `m` have been expanded, the others not yet. */
  ghost predicate ExpandedUpTo(ns: seq<TClass>, m: nat, root: TClass, b0: nat, ask: Answers)
    requires AnswersSubclassQueries(ask)
    reads ns
  {
    forall k :: 0 <= k < |ns| ==> if k < m then Done(ns[k], root, b0, ask) else KidsOf(ns[k], root, b0) == []
  }

  /** The expanded prefix and the unexpanded rest. */
  lemma SplitUpTo(ns: seq<TClass>, m: nat, root: TClass, b0: nat, ask: Answers)
    requires AnswersSubclassQueries(ask)
    requires m <= |ns| && ExpandedUpTo(ns, m, root, b0, ask)
    ensures Expanded(ns[..m], root, b0, ask) && Unexpanded(ns[m..], root, b0)
  {
    assert forall k :: 0 <= k < m ==> ns[..m][k] == ns[k];
    assert forall k :: 0 <= k < |ns| - m ==> ns[m..][k] == ns[m + k];
  }

  lemma ExpandedAppend(a: seq<TClass>, b: seq<TClass>, root: TClass, b0: nat, ask: Answers)
    requires AnswersSubclassQueries(ask)
    requires Expanded(a, root, b0, ask) && Expanded(b, root, b0, ask)
    ensures Expanded(a + b, root, b0, ask)
  {
    forall k | 0 <= k < |a + b|
      ensures (a + b)[k] == if k < |a| then a[k] else b[k - |a|]
    {
    }
  }

  lemma UnexpandedAppend(a: seq<TClass>, b: seq<TClass>, root: TClass, b0: nat)
    requires Unexpanded(a, root, b0) && Unexpanded(b, root, b0)
    ensures Unexpanded(a + b, root, b0)
  {
    forall k | 0 <= k < |a + b|
      ensures (a + b)[k] == if k < |a| then a[k] else b[k - |a|]
    {
    }
  }

  /**
   * Every class after the root `ns[0]` hangs below an earlier class, one
   * level deeper than its father, or at level 1 below the root.
   */
  predicate LevelsOk(ns: seq<TClass>)
  {
    forall k :: 1 <= k < |ns| ==> Placed(ns, k)
  }

  /** Node `k` hangs below an earlier node, one level deeper, or at level 1 below the root. */
  predicate Placed(ns: seq<TClass>, k: nat)
    requires 0 < k < |ns|
  {
    ns[k].father in ns[..k] &&
    ns[k].level == if ns[k].father == ns[0] then 1 else ns[k].father.level + 1
  }

  /** New children of the class `ns[e]`, at the level below it, keep the levels consistent. */
  lemma LevelsAppend(ns: seq<TClass>, kids: seq<TClass>, e: nat, ii: nat)
    requires LevelsOk(ns) && Distinct(ns) && e < |ns|
    requires if e == 0 then ii == 1 else ns[e].level + 1 == ii
    requires forall j :: 0 <= j < |kids| ==> kids[j].father == ns[e] && kids[j].level == ii
    ensures LevelsOk(ns + kids)
  {
    var all := ns + kids;
    forall k | 1 <= k < |all|
      ensures Placed(all, k)
    {
      if k < |ns| {
        assert all[k] == ns[k] && all[..k] == ns[..k] && Placed(ns, k);
      } else {
        assert all[k] == kids[k - |ns|];
        assert all[..k][e] == ns[e];
        if e != 0 {
          assert Apart(ns, 0, e);
        }
      }
    }
  }

  /** The larger of two naturals: a depth and a level, or two rank bounds. */
  function Max(a: nat, b: nat): nat
  {
    if a > b then a else b
  }

  /** One more than the largest rank in the frontier, 0 for an empty one. */
  ghost function Bound(cs: seq<TClass>, rank: string -> nat): (b: nat)
    ensures forall i :: 0 <= i < |cs| ==> rank(cs[i].name) < b
  {
    if cs == [] then 0
    else
      var m := Bound(cs[..|cs| - 1], rank);
      var r := rank(cs[|cs| - 1].name) + 1;
      if r > m then r else m
  }

  /** A frontier whose ranks all lie below `b - 1` has a bound below a positive `b`. */
  lemma {:induction false} BoundBelow(cs: seq<TClass>, rank: string -> nat, b: nat)
    requires b > 0
    requires forall i :: 0 <= i < |cs| ==> rank(cs[i].name) + 1 < b
    ensures Bound(cs, rank) < b
  {
    if cs != [] {
      BoundBelow(cs[..|cs| - 1], rank, b);
    }
  }

  /**
   * The classes `kids` are new children of `cls` created in round `ii`,
   * pairwise different and not yet expanded.
   */
  ghost predicate Created(kids: seq<TClass>, cls: TClass, ii: nat)
    reads kids
  {
    Distinct(kids) &&
    forall i :: 0 <= i < |kids| ==>
      kids[i].father == cls && kids[i].level == ii && kids[i].children == [] && kids[i].instances == {}
  }

  /** The classes after the root `ns[0]` hold no instances yet. */
  ghost predicate Bare(ns: seq<TClass>)
    reads ns
  {
    forall k :: 1 <= k < |ns| ==> ns[k].instances == {}
  }

  /** Appending classes without instances keeps the classes bare. */
  lemma BareAppend(ns: seq<TClass>, kids: seq<TClass>)
    requires Bare(ns) && forall j :: 0 <= j < |kids| ==> kids[j].instances == {}
    ensures Bare(ns + kids)
  {
    forall k | 1 <= k < |ns + kids|
      ensures (ns + kids)[k].instances == {}
    {
      if k < |ns| {
        assert (ns + kids)[k] == ns[k];
      } else {
        assert (ns + kids)[k] == kids[k - |ns|];
      }
    }
  }

  /**
   * Creates the subclass `name` of `cls` in round `ii`, registers it and
   * appends it to the children of `cls`; `kids` are the classes created
   * for `cls` before it in this round.
   */
  method AddSubclass(taxonomy: Taxonomy, cls: TClass, name: string, ii: nat, ghost kids: seq<TClass>) returns (tcls: TClass)
    requires Created(kids, cls, ii) && cls !in kids
    modifies taxonomy, cls
    ensures fresh(tcls) && tcls.name == name
    ensures taxonomy.added == old(taxonomy.added) + [tcls]
    ensures taxonomy.classes == old(taxonomy.classes)[ByName(name) := tcls]
    ensures taxonomy.depth == Max(old(taxonomy.depth), ii)
    ensures cls.children == old(cls.children) + [tcls] && cls.instances == old(cls.instances)
    ensures Created(kids + [tcls], cls, ii)
  {
    tcls := new TClass(name, ii, cls, []);
    var _ := taxonomy.AddClass(tcls);
    var _ := cls.AddChild(tcls);
    CreatedAppend(kids, [tcls], cls, ii);
  }

  /**
   * The innermost loop of the expansion for one head variable `v`: one new
   * child of `cls` per row of `bs`, in row order, after the children
   * `prior` created for `cls` earlier in this round.
   */
  method ExpandColumn(taxonomy: Taxonomy, cls: TClass, ii: nat, bs: seq<Binding>, v: string, ghost prior: seq<TClass>)
    returns (kids: seq<TClass>)
    requires Created(prior, cls, ii) && cls !in prior
    requires BindsAll(bs, v)
    modifies taxonomy, cls
    ensures taxonomy.added == old(taxonomy.added) + kids
    ensures taxonomy.classes == Register(old(taxonomy.classes), kids)
    ensures taxonomy.depth == if kids == [] then old(taxonomy.depth) else Max(old(taxonomy.depth), ii)
    ensures cls.children == old(cls.children) + kids && cls.instances == old(cls.instances)
    ensures Names(kids) == Column(bs, v)
    ensures fresh(kids)
    ensures Created(prior + kids, cls, ii)
  {
    kids := [];
    assert prior + kids == prior;
    for bi := 0 to |bs|
      invariant taxonomy.added == old(taxonomy.added) + kids
      invariant taxonomy.classes == Register(old(taxonomy.classes), kids)
      invariant taxonomy.depth == if kids == [] then old(taxonomy.depth) else Max(old(taxonomy.depth), ii)
      invariant cls.children == old(cls.children) + kids && cls.instances == old(cls.instances)
      invariant |kids| == bi && forall j :: 0 <= j < bi ==> kids[j].name == Bracket(bs[j][v])
      invariant fresh(kids)
      invariant Created(prior + kids, cls, ii)
    {
      assert bs[bi] in bs;
      assert cls !in prior + kids;
      var tcls := AddSubclass(taxonomy, cls, Bracket(bs[bi][v]), ii, prior + kids);
      AppendAssoc(prior, kids, [tcls]);
      ColumnStep(old(taxonomy.classes), kids, tcls, bs, v);
      kids := kids + [tcls];
    }
  }

  /** One more class, named after row `|kids|`, extends the column and the registry. */
  lemma ColumnStep(m: map<Key, TClass>, kids: seq<TClass>, tcls: TClass, bs: seq<Binding>, v: string)
    requires |kids| < |bs| && BindsAll(bs, v) && bs[|kids|] in bs
    requires forall j :: 0 <= j < |kids| ==> kids[j].name == Bracket(bs[j][v])
    requires tcls.name == Bracket(bs[|kids|][v])
    ensures forall j :: 0 <= j < |kids| + 1 ==> (kids + [tcls])[j].name == Bracket(bs[j][v])
    ensures Register(m, kids + [tcls]) == Register(m, kids)[ByName(tcls.name) := tcls]
  {
    assert (kids + [tcls])[..|kids|] == kids;
    forall j | 0 <= j < |kids| + 1
      ensures (kids + [tcls])[j].name == Bracket(bs[j][v])
    {
      if j < |kids| {
        assert (kids + [tcls])[j] == kids[j];
      }
    }
  }

  /** Two batches of classes at level `ii` raise the depth as their concatenation does. */
  lemma DepthStep(d0: nat, d1: nat, d2: nat, ii: nat, a: seq<TClass>, b: seq<TClass>)
    requires d1 == if a == [] then d0 else Max(d0, ii)
    requires d2 == if b == [] then d1 else Max(d1, ii)
    ensures d2 == if a + b == [] then d0 else Max(d0, ii)
  {
  }

  lemma AppendAssoc<T>(a: seq<T>, b: seq<T>, c: seq<T>)
    ensures (a + b) + c == a + (b + c)
  {
  }

  /** Two batches of new children of `cls`, disjoint, make one. */
  lemma CreatedAppend(a: seq<TClass>, b: seq<TClass>, cls: TClass, ii: nat)
    requires Created(a, cls, ii) && Created(b, cls, ii)
    requires forall i, j :: 0 <= i < |a| && 0 <= j < |b| ==> a[i] != b[j]
    ensures Created(a + b, cls, ii)
  {
    forall x, y | 0 <= x < y < |a + b|
      ensures Apart(a + b, x, y)
    {
      if y < |a| {
        assert (a + b)[x] == a[x] && (a + b)[y] == a[y] && Apart(a, x, y);
      } else if x < |a| {
        assert (a + b)[x] == a[x] && (a + b)[y] == b[y - |a|];
      } else {
        assert (a + b)[x] == b[x - |a|] && (a + b)[y] == b[y - |a|] && Apart(b, x - |a|, y - |a|);
      }
    }
  }

  /**
   * Expands `cls` by one answer: one new class per value of every head
   * variable in every row, variable by variable, rows in order.
   */
  method ExpandAnswer(taxonomy: Taxonomy, cls: TClass, ii: nat, rs: ResultSet) returns (kids: seq<TClass>)
    requires Complete(rs)
    modifies taxonomy, cls
    ensures taxonomy.added == old(taxonomy.added) + kids
    ensures taxonomy.classes == Register(old(taxonomy.classes), kids)
    ensures taxonomy.depth == if kids == [] then old(taxonomy.depth) else Max(old(taxonomy.depth), ii)
    ensures cls.children == old(cls.children) + kids && cls.instances == old(cls.instances)
    ensures Names(kids) == Values(rs)
    ensures fresh(kids)
    ensures Created(kids, cls, ii)
  {
    kids := [];
    for vi := 0 to |rs.vars|
      invariant taxonomy.added == old(taxonomy.added) + kids
      invariant taxonomy.classes == Register(old(taxonomy.classes), kids)
      invariant taxonomy.depth == if kids == [] then old(taxonomy.depth) else Max(old(taxonomy.depth), ii)
      invariant cls.children == old(cls.children) + kids && cls.instances == old(cls.instances)
      invariant Names(kids) == ColumnsUpTo(rs, vi)
      invariant fresh(kids)
      invariant Created(kids, cls, ii)
    {
      assert rs.vars[vi] in rs.vars;
      ghost var depth1 := taxonomy.depth;
      var column := ExpandColumn(taxonomy, cls, ii, rs.bindings, rs.vars[vi], kids);
      AppendAssoc(old(taxonomy.added), kids, column);
      AppendAssoc(old(cls.children), kids, column);
      RegisterAppend(old(taxonomy.classes), kids, column);
      NamesAppend(kids, column);
      DepthStep(old(taxonomy.depth), depth1, taxonomy.depth, ii, kids, column);
      kids := kids + column;
    }
  }

  /**
   * Expands one frontier class `cls` in round `ii`: asks for its subclasses
   * and, unless the query failed, expands it by the answer.  The ghost
   * `before` are the classes that existed before; `root` is the root of the
   * expansion, whose first `b0` children were there before it started;
   * the expanded classes `done` and the unexpanded `todo` stay as they are.
   */
  method ExpandClass(taxonomy: Taxonomy, cls: TClass, ii: nat, ask: Answers,
                     ghost before: seq<TClass>, ghost root: TClass, ghost b0: nat,
                     ghost done: seq<TClass>, ghost todo: seq<TClass>, ghost log: seq<seq<TClass>>)
    returns (kids: seq<TClass>)
    requires taxonomy.Valid()
    requires AnswersSubclassQueries(ask)
    requires b0 <= |root.children| && KidsOf(cls, root, b0) == []
    requires cls !in done && cls !in todo
    requires Expanded(done, root, b0, ask) && Unexpanded(todo, root, b0) && KidsMatch(done, log, root, b0)
    modifies taxonomy, cls
    ensures taxonomy.Valid() && taxonomy.added == old(taxonomy.added) + kids
    ensures taxonomy.depth == if kids == [] then old(taxonomy.depth) else Max(old(taxonomy.depth), ii)
    ensures cls.children == old(cls.children) + kids && cls.instances == old(cls.instances)
    ensures Names(kids) == SubclassesOf(ask, cls.name)
    ensures fresh(kids)
    ensures Created(kids, cls, ii)
    ensures forall i, j :: 0 <= i < |before| && 0 <= j < |kids| ==> before[i] != kids[j]
    ensures KidsOf(cls, root, b0) == kids
    ensures b0 <= |root.children| && root.children[..b0] == old(root.children[..b0])
    ensures Expanded(done, root, b0, ask) && Unexpanded(todo, root, b0)
    ensures KidsMatch(done, log, root, b0)
  {
    kids := [];
    var results := ask(cls.name);
    if results.None? {
      return;
    }
    ghost var added0, children0, rootChildren0 := taxonomy.added, cls.children, root.children;
    kids := ExpandAnswer(taxonomy, cls, ii, results.value);
    RegisterAppend(map[ByObject(taxonomy.root) := taxonomy.rootEntry], added0, kids);
    MaxLevelAppend(added0, kids);
    if kids != [] {
      MaxLevelUniform(kids, ii);
    }
    forall i, j | 0 <= i < |before| && 0 <= j < |kids|
      ensures before[i] != kids[j]
    {
      assert old(allocated(before[i])) && !old(allocated(kids[j]));
    }
    if cls == root {
      assert (children0 + kids)[..b0] == children0[..b0];
    } else {
      assert root.children == rootChildren0;
    }
  }

  /**
   * One class of the frontier, node `e` of `nodes` (the root followed by
   * every class created so far), is expanded in round `ii`: the nodes
   * before it are expanded, it and the nodes after it are not.
   */
  method ExpandNode(taxonomy: Taxonomy, rootCls: TClass, cls: TClass, ii: nat, ask: Answers,
                    ghost nodes: seq<TClass>, ghost b0: nat, ghost log: seq<seq<TClass>>, ghost e: nat)
    returns (kids: seq<TClass>)
    requires AnswersSubclassQueries(ask)
    requires taxonomy.Valid() && nodes == [rootCls] + taxonomy.added
    requires Distinct(nodes) && LevelsOk(nodes)
    requires e < |nodes| && nodes[e] == cls
    requires |log| == e && KidsMatch(nodes, log, rootCls, b0)
    requires if e == 0 then ii == 1 else cls.level + 1 == ii
    requires b0 <= |rootCls.children| && ExpandedUpTo(nodes, e, rootCls, b0, ask)
    requires Bare(nodes)
    modifies taxonomy, cls
    ensures taxonomy.Valid() && taxonomy.added == old(taxonomy.added) + kids
    ensures nodes + kids == [rootCls] + taxonomy.added
    ensures taxonomy.depth == if kids == [] then old(taxonomy.depth) else Max(old(taxonomy.depth), ii)
    ensures fresh(kids) && Distinct(nodes + kids) && LevelsOk(nodes + kids)
    ensures forall j :: 0 <= j < |kids| ==> kids[j].level == ii
    ensures Names(kids) == SubclassesOf(ask, cls.name) && KidsOf(cls, rootCls, b0) == kids
    ensures b0 <= |rootCls.children| && rootCls.children[..b0] == old(rootCls.children[..b0])
    ensures ExpandedUpTo(nodes + kids, e + 1, rootCls, b0, ask)
    ensures KidsMatch(nodes + kids, log + [kids], rootCls, b0)
    ensures Bare(nodes + kids)
  {
    SplitAt(nodes, e, rootCls, b0, ask);
    KidsMatchPrefix(nodes, log, e, rootCls, b0);
    kids := ExpandClass(taxonomy, cls, ii, ask, nodes, rootCls, b0, nodes[..e], nodes[e + 1..], log);
    forall k | 1 <= k < |nodes|
      ensures nodes[k].instances == {}
    {
      assert old(nodes[k].instances) == {};
    }
    BareAppend(nodes, kids);
    AppendAssoc([rootCls], old(taxonomy.added), kids);
    ExpandedStep(nodes, kids, e, ii, rootCls, b0, ask);
    KidsMatchStep(nodes, kids, log, kids, rootCls, b0);
  }

  /**
   * The state of a round part-way: frontier classes before `i` have been
   * expanded, creating `newOwl`, their children in frontier order; `nodes`
   * are the root and every class created so far, and the classes created
   * before the round are the children of the classes before the frontier.  `depth0` and `prefix0` are the depth and the first `b0`
   * children of the root when the round started.
   */
  ghost predicate RoundAt(taxonomy: Taxonomy, rootCls: TClass, owl: seq<TClass>, ii: nat, ask: Answers,
                          rank: string -> nat, nodes0: seq<TClass>, b0: nat, lo: nat,
                          i: nat, newOwl: seq<TClass>, nodes: seq<TClass>, log0: seq<seq<TClass>>,
                          cur: seq<seq<TClass>>, depth0: nat, prefix0: seq<TClass>)
    reads taxonomy, rootCls, nodes
  {
    AnswersSubclassQueries(ask) &&
    0 < |nodes0| && lo <= |nodes0| && owl == nodes0[lo..] && i <= |owl| &&
    |log0| == lo && |cur| == i && KidsMatch(nodes, log0 + cur, rootCls, b0) && Flatten(cur) == newOwl &&
    (if ii == 1 then lo == 0 && |nodes0| == 1 else lo >= 1 && forall j :: 0 <= j < |owl| ==> owl[j].level + 1 == ii) &&
    nodes == nodes0 + newOwl && nodes == [rootCls] + taxonomy.added &&
    taxonomy.Valid() &&
    taxonomy.depth == (if newOwl == [] then depth0 else Max(depth0, ii)) &&
    Distinct(nodes) && LevelsOk(nodes) &&
    (forall j :: 0 <= j < |newOwl| ==> newOwl[j].level == ii) &&
    (forall j :: 0 <= j < |newOwl| ==> rank(newOwl[j].name) + 1 < Bound(owl, rank)) &&
    b0 <= |rootCls.children| && rootCls.children[..b0] == prefix0 &&
    ExpandedUpTo(nodes, lo + i, rootCls, b0, ask)
  }

  /**
   * One round of the expansion: every class of the frontier `owl`, in
   * order, is expanded in round `ii`; the classes created make the next
   * frontier.  `nodes0` are the root and every class created before the
   * round; the frontier is its tail from `lo` on.
   */
  method ExpandRound(taxonomy: Taxonomy, rootCls: TClass, owl: seq<TClass>, ii: nat, ask: Answers,
                     ghost rank: string -> nat, ghost nodes0: seq<TClass>, ghost b0: nat, ghost lo: nat,
                     ghost log0: seq<seq<TClass>>)
    returns (newOwl: seq<TClass>, ghost nodes: seq<TClass>, ghost blocks: seq<seq<TClass>>)
    requires AnswersSubclassQueries(ask) && RankDecreases(ask, rank)
    requires taxonomy.Valid() && nodes0 == [rootCls] + taxonomy.added
    requires Distinct(nodes0) && LevelsOk(nodes0)
    requires lo <= |nodes0| && owl == nodes0[lo..]
    requires if ii == 1 then lo == 0 && |nodes0| == 1 else lo >= 1 && forall j :: 0 <= j < |owl| ==> owl[j].level + 1 == ii
    requires b0 <= |rootCls.children|
    requires ExpandedUpTo(nodes0, lo, rootCls, b0, ask)
    requires |log0| == lo && KidsMatch(nodes0, log0, rootCls, b0)
    requires Bare(nodes0)
    modifies taxonomy, owl
    ensures nodes == nodes0 + newOwl && nodes == [rootCls] + taxonomy.added
    ensures newOwl == KidsOfAll(owl, rootCls, b0)
    ensures |blocks| == |owl| && KidsMatch(nodes, log0 + blocks, rootCls, b0) && Flatten(blocks) == newOwl
    ensures taxonomy.Valid()
    ensures taxonomy.depth == if newOwl == [] then old(taxonomy.depth) else Max(old(taxonomy.depth), ii)
    ensures fresh(newOwl) && Distinct(nodes) && LevelsOk(nodes) && Bare(nodes)
    ensures forall j :: 0 <= j < |newOwl| ==> newOwl[j].level == ii
    ensures forall j :: 0 <= j < |newOwl| ==> rank(newOwl[j].name) + 1 < Bound(owl, rank)
    ensures b0 <= |rootCls.children| && rootCls.children[..b0] == old(rootCls.children[..b0])
    ensures ExpandedUpTo(nodes, |nodes0|, rootCls, b0, ask)
  {
    ghost var depth0, prefix0 := taxonomy.depth, rootCls.children[..b0];
    newOwl, nodes := [], nodes0;
    blocks := [];
    var i := 0;
    RoundBegins(taxonomy, rootCls, owl, ii, ask, rank, nodes0, b0, lo, log0);
    while i < |owl|
      invariant fresh(newOwl)
      invariant Bare(nodes)
      invariant RoundAt(taxonomy, rootCls, owl, ii, ask, rank, nodes0, b0, lo, i, newOwl, nodes, log0, blocks, depth0, prefix0)
    {
      var kids := ExpandNext(taxonomy, rootCls, owl, ii, ask, rank, nodes0, b0, lo, i, newOwl, nodes, log0, blocks, depth0, prefix0);
      newOwl, nodes, blocks, i := newOwl + kids, nodes + kids, blocks + [kids], i + 1;
    }
    RoundEnd(taxonomy, rootCls, owl, ii, ask, rank, nodes0, b0, lo, i, newOwl, nodes, log0, blocks, depth0, prefix0);
  }

  /** The body of a round: frontier class `i` is expanded. */
  method ExpandNext(taxonomy: Taxonomy, rootCls: TClass, owl: seq<TClass>, ii: nat, ask: Answers,
                    ghost rank: string -> nat, ghost nodes0: seq<TClass>, ghost b0: nat, ghost lo: nat,
                    i: nat, ghost newOwl: seq<TClass>, ghost nodes: seq<TClass>,
                    ghost log0: seq<seq<TClass>>, ghost cur: seq<seq<TClass>>,
                    ghost depth0: nat, ghost prefix0: seq<TClass>)
    returns (kids: seq<TClass>)
    requires AnswersSubclassQueries(ask) && RankDecreases(ask, rank)
    requires RoundAt(taxonomy, rootCls, owl, ii, ask, rank, nodes0, b0, lo, i, newOwl, nodes, log0, cur, depth0, prefix0)
    requires i < |owl| && Bare(nodes)
    modifies taxonomy, owl[i]
    ensures fresh(kids) && Bare(nodes + kids)
    ensures RoundAt(taxonomy, rootCls, owl, ii, ask, rank, nodes0, b0, lo, i + 1, newOwl + kids, nodes + kids, log0, cur + [kids], depth0, prefix0)
  {
    var cls := owl[i];
    assert nodes[lo + i] == cls;
    kids := ExpandNode(taxonomy, rootCls, cls, ii, ask, nodes, b0, log0 + cur, lo + i);
    FlattenSnoc(cur, kids);
    AppendAssoc(log0, cur, [kids]);
    RanksBelow(ask, rank, cls.name, kids, Bound(owl, rank));
    FrontierAppend(newOwl, kids, ii, rank, Bound(owl, rank));
    AppendAssoc(nodes0, newOwl, kids);
  }

  /** The frontier of a round and the blocks the round listed, cut out of the whole. */
  lemma FrontierSlice(nodes0: seq<TClass>, newOwl: seq<TClass>, log0: seq<seq<TClass>>, cur: seq<seq<TClass>>)
    requires |log0| + |cur| == |nodes0|
    ensures (nodes0 + newOwl)[|log0|..|nodes0|] == nodes0[|log0|..] && (log0 + cur)[|log0|..|nodes0|] == cur
  {
  }

  /** Before the first frontier class is expanded, the round is at its start. */
  lemma RoundBegins(taxonomy: Taxonomy, rootCls: TClass, owl: seq<TClass>, ii: nat, ask: Answers,
                    rank: string -> nat, nodes0: seq<TClass>, b0: nat, lo: nat, log0: seq<seq<TClass>>)
    requires AnswersSubclassQueries(ask)
    requires taxonomy.Valid() && nodes0 == [rootCls] + taxonomy.added
    requires Distinct(nodes0) && LevelsOk(nodes0)
    requires lo <= |nodes0| && owl == nodes0[lo..]
    requires if ii == 1 then lo == 0 && |nodes0| == 1 else lo >= 1 && forall j :: 0 <= j < |owl| ==> owl[j].level + 1 == ii
    requires b0 <= |rootCls.children|
    requires ExpandedUpTo(nodes0, lo, rootCls, b0, ask)
    requires |log0| == lo && KidsMatch(nodes0, log0, rootCls, b0)
    ensures RoundAt(taxonomy, rootCls, owl, ii, ask, rank, nodes0, b0, lo, 0, [], nodes0, log0, [],
                    taxonomy.depth, rootCls.children[..b0])
  {
    assert nodes0 + [] == nodes0 && log0 + [] == log0;
  }

  /**
   * At the end of a round, every class before the frontier and every
   * frontier class has its children listed, in order, and the new frontier
   * is the children of the frontier classes, class after class.
   */
  lemma RoundEnd(taxonomy: Taxonomy, rootCls: TClass, owl: seq<TClass>, ii: nat, ask: Answers,
                 rank: string -> nat, nodes0: seq<TClass>, b0: nat, lo: nat,
                 i: nat, newOwl: seq<TClass>, nodes: seq<TClass>, log0: seq<seq<TClass>>,
                 cur: seq<seq<TClass>>, depth0: nat, prefix0: seq<TClass>)
    requires RoundAt(taxonomy, rootCls, owl, ii, ask, rank, nodes0, b0, lo, i, newOwl, nodes, log0, cur, depth0, prefix0)
    requires i == |owl|
    ensures nodes == nodes0 + newOwl && nodes == [rootCls] + taxonomy.added
    ensures newOwl == KidsOfAll(owl, rootCls, b0)
    ensures |cur| == |owl| && KidsMatch(nodes, log0 + cur, rootCls, b0) && Flatten(cur) == newOwl
    ensures taxonomy.Valid()
    ensures taxonomy.depth == if newOwl == [] then depth0 else Max(depth0, ii)
    ensures Distinct(nodes) && LevelsOk(nodes)
    ensures forall j :: 0 <= j < |newOwl| ==> newOwl[j].level == ii
    ensures forall j :: 0 <= j < |newOwl| ==> rank(newOwl[j].name) + 1 < Bound(owl, rank)
    ensures b0 <= |rootCls.children| && rootCls.children[..b0] == prefix0
    ensures ExpandedUpTo(nodes, |nodes0|, rootCls, b0, ask)
  {
    KidsMatchAll(nodes, log0 + cur, lo, |nodes0|, rootCls, b0);
    FrontierSlice(nodes0, newOwl, log0, cur);
  }

  /**
   * Builds the taxonomy below `rootCls`, asking `endpoint` for the subclasses
   * of every class found.  `rank` witnesses that the reported subclass
   * relation is well founded; `nodes` are the root followed by every class
   * created, in creation order, and `rounds` counts the rounds.
   */
  method GenerateTaxonomyFromClass(rootCls: TClass, endpoint: Endpoint, ghost rank: string -> nat)
    returns (taxonomy: Taxonomy, ghost nodes: seq<TClass>, ghost rounds: nat, ghost sizes: seq<nat>)
    requires AnswersSubclassQueries(SubclassAnswers(endpoint))
    requires RankDecreases(SubclassAnswers(endpoint), rank)
    modifies rootCls
    ensures fresh(taxonomy) && taxonomy.root == rootCls && taxonomy.Valid()
    ensures nodes == [rootCls] + taxonomy.added && Distinct(nodes) && LevelsOk(nodes)
    ensures old(rootCls.children) <= rootCls.children
    ensures Expanded(nodes, rootCls, |old(rootCls.children)|, SubclassAnswers(endpoint))
    ensures rounds >= 1 && taxonomy.depth == rounds - 1
    ensures LastRoundEmpty(sizes) && |sizes| == rounds && |nodes| == 1 + Sum(sizes)
    ensures taxonomy.depth == Productive(sizes)
    ensures nodes[1..] == KidsOfAll(nodes, rootCls, |old(rootCls.children)|)
    ensures forall k, c :: 0 <= k < |nodes| && c in KidsOf(nodes[k], rootCls, |old(rootCls.children)|) ==> c in nodes
    ensures forall k :: 1 <= k < |nodes| ==>
              nodes[k].father != null && nodes[k] in KidsOf(nodes[k].father, rootCls, |old(rootCls.children)|)
    ensures LevelsSorted(nodes) && forall k :: 0 <= k < |sizes| ==> sizes[k] == CountLevel(nodes[1..], k + 1)
    ensures forall k :: 1 <= k < |nodes| ==> fresh(nodes[k]) && nodes[k].instances == {}
  {
    taxonomy, nodes, rounds, sizes := ExpandFrom(rootCls, SubclassAnswers(endpoint), rank);
  }

  /**
   * The expansion below `rootCls` level by level: round `ii` expands the
   * classes found in the round before, and the expansion stops after a
   * round that found nothing.
   */
  method ExpandFrom(rootCls: TClass, ask: Answers, ghost rank: string -> nat)
    returns (taxonomy: Taxonomy, ghost nodes: seq<TClass>, ghost rounds: nat, ghost sizes: seq<nat>)
    requires AnswersSubclassQueries(ask) && RankDecreases(ask, rank)
    modifies rootCls
    ensures fresh(taxonomy) && taxonomy.root == rootCls && taxonomy.Valid()
    ensures nodes == [rootCls] + taxonomy.added && Distinct(nodes) && LevelsOk(nodes)
    ensures old(rootCls.children) <= rootCls.children
    ensures Expanded(nodes, rootCls, |old(rootCls.children)|, ask)
    ensures rounds >= 1 && taxonomy.depth == rounds - 1
    ensures LastRoundEmpty(sizes) && |sizes| == rounds && |nodes| == 1 + Sum(sizes)
    ensures taxonomy.depth == Productive(sizes)
    ensures nodes[1..] == KidsOfAll(nodes, rootCls, |old(rootCls.children)|)
    ensures forall k, c :: 0 <= k < |nodes| && c in KidsOf(nodes[k], rootCls, |old(rootCls.children)|) ==> c in nodes
    ensures forall k :: 1 <= k < |nodes| ==>
              nodes[k].father != null && nodes[k] in KidsOf(nodes[k].father, rootCls, |old(rootCls.children)|)
    ensures LevelsSorted(nodes) && forall k :: 0 <= k < |sizes| ==> sizes[k] == CountLevel(nodes[1..], k + 1)
    ensures forall k :: 1 <= k < |nodes| ==> fresh(nodes[k]) && nodes[k].instances == {}
  {
    taxonomy := new Taxonomy(rootCls);
    ghost var b0: nat := |rootCls.children|;
    BuildBegins(taxonomy, rootCls, ask, b0, old(rootCls.children));
    ghost var ii, lo, log;
    nodes, ii, lo, rounds, sizes, log := BuildLoop(taxonomy, rootCls, ask, rank, b0, old(rootCls.children));
    BuildEnd(taxonomy, rootCls, [], ii, ask, nodes, lo, b0, old(rootCls.children), rounds, sizes, log);
    forall k | 1 <= k < |nodes|
      ensures fresh(nodes[k])
    {
      assert nodes[k] in nodes[1..];
    }
  }

  /**
   * The rounds of the expansion, from the root alone until a round finds
   * nothing; every class listed after the root was created on the way.
   */
  method BuildLoop(taxonomy: Taxonomy, rootCls: TClass, ask: Answers, ghost rank: string -> nat,
                   ghost b0: nat, ghost prefix: seq<TClass>)
    returns (ghost nodes: seq<TClass>, ghost ii: nat, ghost lo: nat, ghost rounds: nat, ghost sizes: seq<nat>,
             ghost log: seq<seq<TClass>>)
    requires AnswersSubclassQueries(ask) && RankDecreases(ask, rank)
    requires Building(taxonomy, rootCls, [rootCls], 1, ask, [rootCls], 0, b0, prefix, 0, [], [])
    modifies taxonomy, rootCls
    ensures Building(taxonomy, rootCls, [], ii, ask, nodes, lo, b0, prefix, rounds, sizes, log)
    ensures forall c :: c in nodes[1..] ==> fresh(c)
  {
    var owl := [rootCls];
    var i := 1;
    nodes, lo, rounds, sizes, log := [rootCls], 0, 0, [], [];
    while owl != []
      invariant forall j :: 0 <= j < |owl| ==> owl[j] == rootCls || fresh(owl[j])
      invariant Building(taxonomy, rootCls, owl, i, ask, nodes, lo, b0, prefix, rounds, sizes, log)
      invariant forall c :: c in nodes[1..] ==> fresh(c)
      decreases Bound(owl, rank)
    {
      ghost var nodes0 := nodes;
      owl, i, nodes, lo, rounds, sizes, log :=
        BuildRound(taxonomy, rootCls, owl, i, ask, rank, nodes, lo, b0, prefix, rounds, sizes, log);
    }
    ii := i;
  }

  /** One round of the expansion, from one state between rounds to the next. */
  method BuildRound(taxonomy: Taxonomy, rootCls: TClass, owl: seq<TClass>, ii: nat, ask: Answers,
                    ghost rank: string -> nat, ghost nodes0: seq<TClass>, ghost lo: nat, ghost b0: nat,
                    ghost prefix: seq<TClass>, ghost rounds: nat, ghost sizes: seq<nat>, ghost log0: seq<seq<TClass>>)
    returns (newOwl: seq<TClass>, ii': nat, ghost nodes: seq<TClass>, ghost lo': nat, ghost rounds': nat,
             ghost sizes': seq<nat>, ghost log: seq<seq<TClass>>)
    requires AnswersSubclassQueries(ask) && RankDecreases(ask, rank) && owl != []
    requires Building(taxonomy, rootCls, owl, ii, ask, nodes0, lo, b0, prefix, rounds, sizes, log0)
    modifies taxonomy, owl
    ensures fresh(newOwl) && Bound(newOwl, rank) < Bound(owl, rank)
    ensures ii' == ii + 1 && lo' == |nodes0| && rounds' == rounds + 1 && sizes' == sizes + [|newOwl|]
    ensures nodes == nodes0 + newOwl
    ensures forall c :: c in nodes[1..] ==> c in nodes0[1..] || fresh(c)
    ensures Building(taxonomy, rootCls, newOwl, ii', ask, nodes, lo', b0, prefix, rounds', sizes', log)
  {
    ghost var blocks;
    newOwl, nodes, blocks := ExpandRound(taxonomy, rootCls, owl, ii, ask, rank, nodes0, b0, lo, log0);
    BoundBelow(newOwl, rank, Bound(owl, rank));
    ii', lo', rounds', sizes', log := ii + 1, |nodes0|, rounds + 1, Snoc(sizes, |newOwl|), log0 + blocks;
    BuildStep(taxonomy, rootCls, owl, ii, ask, nodes0, lo, b0, prefix, rounds, sizes, log0, newOwl, nodes, blocks,
              ii', lo', rounds', sizes', log);
    DropFirstAppend(nodes0, newOwl);
  }

  /**
   * The state of the expansion between rounds: `owl`, the tail of `nodes`
   * from `lo` on, is the frontier for round `ii`; `prefix` are the children
   * the root had before.
   */
  ghost predicate Building(taxonomy: Taxonomy, rootCls: TClass, owl: seq<TClass>, ii: nat, ask: Answers,
                           nodes: seq<TClass>, lo: nat, b0: nat, prefix: seq<TClass>,
                           rounds: nat, sizes: seq<nat>, log: seq<seq<TClass>>)
    reads taxonomy, rootCls, nodes
  {
    AnswersSubclassQueries(ask) &&
    taxonomy.root == rootCls && taxonomy.Valid() &&
    nodes == [rootCls] + taxonomy.added && Distinct(nodes) && LevelsOk(nodes) && Bare(nodes) &&
    b0 <= |rootCls.children| && rootCls.children[..b0] == prefix &&
    ExpandedUpTo(nodes, lo, rootCls, b0, ask) && KidsMatch(nodes, log, rootCls, b0) &&
    Between(owl, ii, nodes, lo, rounds, sizes, log) &&
    taxonomy.depth == if owl == [] then ii - 2 else ii - 1
  }

  /**
   * The part of `Building` that no update of a class changes: where the
   * frontier sits, the blocks listed so far, the rounds and the levels.
   */
  ghost predicate Between(owl: seq<TClass>, ii: nat, nodes: seq<TClass>, lo: nat, rounds: nat, sizes: seq<nat>,
                          log: seq<seq<TClass>>)
  {
    lo <= |nodes| && owl == nodes[lo..] &&
    (if ii == 1 then lo == 0 && |nodes| == 1 else lo >= 1 && forall j :: 0 <= j < |owl| ==> owl[j].level + 1 == ii) &&
    |log| == lo && Flatten(log) == nodes[1..] &&
    rounds == ii - 1 && RoundsSoFar(sizes, rounds, |owl|, |nodes|) && LevelsSoFar(nodes, ii, sizes)
  }

  /**
   * Between rounds: a round has been added to `taxonomy` by `ExpandRound`,
   * which found `newOwl` and listed their blocks; the expansion moves on to
   * round `ii + 1`.
   */
  lemma BuildStep(taxonomy: Taxonomy, rootCls: TClass, owl: seq<TClass>, ii: nat, ask: Answers,
                  nodes0: seq<TClass>, lo: nat, b0: nat, prefix: seq<TClass>,
                  rounds: nat, sizes: seq<nat>, log: seq<seq<TClass>>,
                  newOwl: seq<TClass>, nodes: seq<TClass>, blocks: seq<seq<TClass>>,
                  ii': nat, lo': nat, rounds': nat, sizes': seq<nat>, log': seq<seq<TClass>>)
    requires ii' == ii + 1 && lo' == |nodes0| && rounds' == rounds + 1 && sizes' == sizes + [|newOwl|] && log' == log + blocks
    requires AnswersSubclassQueries(ask) && owl != [] && Between(owl, ii, nodes0, lo, rounds, sizes, log)
    requires taxonomy.root == rootCls && taxonomy.Valid()
    requires nodes == nodes0 + newOwl && nodes == [rootCls] + taxonomy.added
    requires |blocks| == |owl| && KidsMatch(nodes, log + blocks, rootCls, b0) && Flatten(blocks) == newOwl
    requires taxonomy.depth == if newOwl == [] then ii - 1 else Max(ii - 1, ii)
    requires Distinct(nodes) && LevelsOk(nodes) && Bare(nodes)
    requires forall j :: 0 <= j < |newOwl| ==> newOwl[j].level == ii
    requires b0 <= |rootCls.children| && rootCls.children[..b0] == prefix
    requires ExpandedUpTo(nodes, |nodes0|, rootCls, b0, ask)
    ensures Building(taxonomy, rootCls, newOwl, ii', ask, nodes, lo', b0, prefix, rounds', sizes', log')
  {
    ListingStep(nodes0, newOwl, log, blocks);
    assert nodes[|nodes0|..] == newOwl;
    RoundsStep(sizes, rounds, |owl|, |nodes0|, |newOwl|);
    LevelsStep(nodes0, newOwl, ii, sizes);
  }

  /** At the start, only the root is known and nothing has been listed. */
  lemma BuildBegins(taxonomy: Taxonomy, rootCls: TClass, ask: Answers, b0: nat, prefix: seq<TClass>)
    requires AnswersSubclassQueries(ask)
    requires taxonomy.root == rootCls && taxonomy.Valid() && taxonomy.added == [] && taxonomy.depth == 0
    requires b0 == |rootCls.children| && rootCls.children == prefix
    ensures Building(taxonomy, rootCls, [rootCls], 1, ask, [rootCls], 0, b0, prefix, 0, [], [])
  {
    assert rootCls.children[b0..] == [] && rootCls.children[..b0] == prefix;
    assert [rootCls][1..] == [];
  }

  /**
   * When the frontier is empty, every class is expanded, the classes after the
   * root are the children of the classes, class after class, each class's
   * children are all among them and each of them is a child of its father;
   * the levels never decrease and each round created the classes of one level.
   */
  lemma BuildEnd(taxonomy: Taxonomy, rootCls: TClass, owl: seq<TClass>, ii: nat, ask: Answers,
                 nodes: seq<TClass>, lo: nat, b0: nat, prefix: seq<TClass>,
                 rounds: nat, sizes: seq<nat>, log: seq<seq<TClass>>)
    requires Building(taxonomy, rootCls, owl, ii, ask, nodes, lo, b0, prefix, rounds, sizes, log) && owl == []
    requires b0 == |prefix|
    ensures taxonomy.root == rootCls && taxonomy.Valid()
    ensures nodes == [rootCls] + taxonomy.added && Distinct(nodes) && LevelsOk(nodes) && Bare(nodes)
    ensures prefix <= rootCls.children
    ensures Expanded(nodes, rootCls, b0, ask)
    ensures rounds >= 1 && taxonomy.depth == rounds - 1
    ensures LastRoundEmpty(sizes) && |sizes| == rounds && |nodes| == 1 + Sum(sizes)
    ensures taxonomy.depth == Productive(sizes)
    ensures nodes[1..] == KidsOfAll(nodes, rootCls, b0)
    ensures forall k, c :: 0 <= k < |nodes| && c in KidsOf(nodes[k], rootCls, b0) ==> c in nodes
    ensures forall k :: 1 <= k < |nodes| ==> nodes[k].father != null && nodes[k] in KidsOf(nodes[k].father, rootCls, b0)
    ensures LevelsSorted(nodes) && forall k :: 0 <= k < |sizes| ==> sizes[k] == CountLevel(nodes[1..], k + 1)
  {
    SplitUpTo(nodes, |nodes|, rootCls, b0, ask);
    assert nodes[..|nodes|] == nodes;
    assert nodes[0..|nodes|] == nodes && log[0..|log|] == log;
    KidsMatchAll(nodes, log, 0, |log|, rootCls, b0);
    ListedClosed(nodes, log, rootCls, b0, ask);
    ProductiveRounds(sizes);
  }

  /**
   * With every class expanded and the classes after the root listed block by
   * block, each listed child is a class and each class is a child of its
   * father.
   */
  lemma ListedClosed(nodes: seq<TClass>, log: seq<seq<TClass>>, root: TClass, b0: nat, ask: Answers)
    requires AnswersSubclassQueries(ask)
    requires 0 < |nodes| == |log| && KidsMatch(nodes, log, root, b0) && Flatten(log) == nodes[1..]
    requires Expanded(nodes, root, b0, ask)
    ensures forall k, c :: 0 <= k < |nodes| && c in KidsOf(nodes[k], root, b0) ==> c in nodes
    ensures forall k :: 1 <= k < |nodes| ==> nodes[k].father != null && nodes[k] in KidsOf(nodes[k].father, root, b0)
  {
    forall k, c | 0 <= k < |nodes| && c in KidsOf(nodes[k], root, b0)
      ensures c in nodes
    {
      FlattenHas(log, k, c);
      assert c in nodes[1..];
    }
    forall k | 1 <= k < |nodes|
      ensures nodes[k].father != null && nodes[k] in KidsOf(nodes[k].father, root, b0)
    {
      assert nodes[k] == nodes[1..][k - 1];
      var m := FlattenFind(log, nodes[k]);
      assert Done(nodes[m], root, b0, ask);
      var j :| 0 <= j < |log[m]| && log[m][j] == nodes[k];
      assert KidsOf(nodes[m], root, b0)[j] == nodes[k];
    }
  }

  /** The levels of the classes after the root never decrease. */
  predicate LevelsSorted(ns: seq<TClass>)
  {
    forall a, b :: 1 <= a < b < |ns| ==> ns[a].level <= ns[b].level
  }

  /** How many classes of `cs` are at level `l`. */
  function CountLevel(cs: seq<TClass>, l: nat): nat
  {
    if cs == [] then 0 else CountLevel(cs[..|cs| - 1], l) + (if cs[|cs| - 1].level == l then 1 else 0)
  }

  /**
   * Before round `ii`: the classes after the root are sorted by level, all
   * below level `ii`, and round `k + 1` created the `sizes[k]` classes of
   * level `k + 1`.
   */
  predicate LevelsSoFar(ns: seq<TClass>, ii: nat, sizes: seq<nat>)
  {
    0 < |ns| && LevelsSorted(ns) && (forall j :: 1 <= j < |ns| ==> ns[j].level < ii) &&
    forall k :: 0 <= k < |sizes| ==> sizes[k] == CountLevel(ns[1..], k + 1)
  }

  /** A round `ii`, whose classes are all at level `ii`, keeps the levels sorted and counted. */
  lemma LevelsStep(nodes0: seq<TClass>, newOwl: seq<TClass>, ii: nat, sizes: seq<nat>)
    requires LevelsSoFar(nodes0, ii, sizes) && |sizes| + 1 == ii
    requires forall j :: 0 <= j < |newOwl| ==> newOwl[j].level == ii
    ensures LevelsSoFar(nodes0 + newOwl, ii + 1, sizes + [|newOwl|])
  {
    var ns := nodes0 + newOwl;
    assert ns[1..] == nodes0[1..] + newOwl;
    forall a, b | 1 <= a < b < |ns|
      ensures ns[a].level <= ns[b].level
    {
      if b >= |nodes0| {
        assert ns[b] == newOwl[b - |nodes0|];
        if a >= |nodes0| {
          assert ns[a] == newOwl[a - |nodes0|];
        }
      }
    }
    forall k | 0 <= k < |sizes| + 1
      ensures (sizes + [|newOwl|])[k] == CountLevel(ns[1..], k + 1)
    {
      CountLevelAppend(nodes0[1..], newOwl, k + 1);
      CountLevelUniform(newOwl, ii, k + 1);
      if k == |sizes| {
        CountLevelBelow(nodes0[1..], ii);
      }
    }
  }

  lemma {:induction false} CountLevelAppend(a: seq<TClass>, b: seq<TClass>, l: nat)
    ensures CountLevel(a + b, l) == CountLevel(a, l) + CountLevel(b, l)
  {
    if b != [] {
      assert (a + b)[..|a + b| - 1] == a + b[..|b| - 1];
      CountLevelAppend(a, b[..|b| - 1], l);
    } else {
      assert a + b == a;
    }
  }

  /** Classes all at level `ii` count `|cs|` at level `ii` and none at any other. */
  lemma {:induction false} CountLevelUniform(cs: seq<TClass>, ii: nat, l: nat)
    requires forall j :: 0 <= j < |cs| ==> cs[j].level == ii
    ensures CountLevel(cs, l) == if l == ii then |cs| else 0
  {
    if cs != [] {
      CountLevelUniform(cs[..|cs| - 1], ii, l);
    }
  }

  /** Classes all below level `ii` count none at level `ii`. */
  lemma {:induction false} CountLevelBelow(cs: seq<TClass>, ii: nat)
    requires forall j :: 0 <= j < |cs| ==> cs[j].level < ii
    ensures CountLevel(cs, ii) == 0
  {
    if cs != [] {
      CountLevelBelow(cs[..|cs| - 1], ii);
    }
  }

  /** The children listed for the frontier, appended, extend the listing of all nodes. */
  lemma ListingStep(nodes0: seq<TClass>, newOwl: seq<TClass>, log: seq<seq<TClass>>, blocks: seq<seq<TClass>>)
    requires 0 < |nodes0| && Flatten(log) == nodes0[1..] && Flatten(blocks) == newOwl
    ensures Flatten(log + blocks) == (nodes0 + newOwl)[1..]
  {
    FlattenAppend(log, blocks);
    DropFirstAppend(nodes0, newOwl);
  }

  lemma DropFirstAppend<T>(a: seq<T>, b: seq<T>)
    requires 0 < |a|
    ensures (a + b)[1..] == a[1..] + b
  {
  }

  /** The total of `sizes`. */
  function Sum(sizes: seq<nat>): nat
  {
    if sizes == [] then 0 else Sum(sizes[..|sizes| - 1]) + sizes[|sizes| - 1]
  }

  lemma SumAppend(sizes: seq<nat>, n: nat)
    ensures Sum(sizes + [n]) == Sum(sizes) + n
  {
    assert (sizes + [n])[..|sizes|] == sizes;
  }

  /** How many of the rounds, whose numbers of created classes are `sizes`, created a class. */
  function Productive(sizes: seq<nat>): nat
  {
    if sizes == [] then 0
    else Productive(sizes[..|sizes| - 1]) + (if sizes[|sizes| - 1] > 0 then 1 else 0)
  }

  /** Every round but the last created a class, and the last created none. */
  predicate LastRoundEmpty(sizes: seq<nat>)
  {
    sizes != [] && sizes[|sizes| - 1] == 0 && forall k :: 0 <= k < |sizes| - 1 ==> sizes[k] > 0
  }

  /**
   * After `rounds` rounds that created `sizes` classes, the last of them the
   * current frontier of `owl` classes, `n` nodes exist; every round but the
   * last created a class.
   */
  predicate RoundsSoFar(sizes: seq<nat>, rounds: nat, owl: nat, n: nat)
  {
    |sizes| == rounds && n == 1 + Sum(sizes) &&
    (forall k :: 0 <= k < |sizes| - 1 ==> sizes[k] > 0) &&
    (sizes != [] ==> sizes[|sizes| - 1] == owl)
  }

  /** `sizes` with one more round of `m` classes. */
  function Snoc(sizes: seq<nat>, m: nat): seq<nat>
  {
    sizes + [m]
  }

  /** A round after a non-empty one that creates `m` classes. */
  lemma RoundsStep(sizes: seq<nat>, rounds: nat, owl: nat, n: nat, m: nat)
    requires RoundsSoFar(sizes, rounds, owl, n) && owl > 0
    ensures RoundsSoFar(sizes + [m], rounds + 1, m, n + m)
  {
    SumAppend(sizes, m);
  }

  /** When only the last round was empty, all rounds but one created a class. */
  lemma {:induction false} ProductiveRounds(sizes: seq<nat>)
    requires LastRoundEmpty(sizes)
    ensures Productive(sizes) == |sizes| - 1
  {
    var init := sizes[..|sizes| - 1];
    AllProductive(init);
  }

  /** Rounds that all created a class are all counted. */
  lemma {:induction false} AllProductive(sizes: seq<nat>)
    requires forall k :: 0 <= k < |sizes| ==> sizes[k] > 0
    ensures Productive(sizes) == |sizes|
  {
    if sizes != [] {
      AllProductive(sizes[..|sizes| - 1]);
    }
  }

  /**
   * Below a level-0 root, as the fetcher builds it, every created class is
   * one level below its father.
   */
  lemma OneBelowFather(ns: seq<TClass>, k: nat)
    requires LevelsOk(ns) && 1 <= k < |ns| && ns[0].level == 0
    ensures ns[k].father != null && ns[k].level == ns[k].father.level + 1
  {
    assert Placed(ns, k);
  }

  /** Subclasses rank below their class, so below any bound above it. */
  lemma RanksBelow(ask: Answers, rank: string -> nat, name: string, kids: seq<TClass>, b: nat)
    requires AnswersSubclassQueries(ask) && RankDecreases(ask, rank)
    requires rank(name) < b && Names(kids) == SubclassesOf(ask, name)
    ensures forall j :: 0 <= j < |kids| ==> rank(kids[j].name) + 1 < b
  {
    forall j | 0 <= j < |kids|
      ensures rank(kids[j].name) + 1 < b
    {
      assert kids[j].name == SubclassesOf(ask, name)[j];
    }
  }

  /**
   * Once node `e` has been given its reported subclasses `kids`, the nodes
   * up to it are expanded and the rest, `kids` included, are not.
   */
  lemma ExpandedStep(nodes: seq<TClass>, kids: seq<TClass>, e: nat, ii: nat, root: TClass, b0: nat, ask: Answers)
    requires AnswersSubclassQueries(ask)
    requires Distinct(nodes) && LevelsOk(nodes) && e < |nodes|
    requires if e == 0 then ii == 1 else nodes[e].level + 1 == ii
    requires Expanded(nodes[..e], root, b0, ask) && Unexpanded(nodes[e + 1..], root, b0)
    requires KidsOf(nodes[e], root, b0) == kids
    requires Names(kids) == SubclassesOf(ask, nodes[e].name)
    requires Created(kids, nodes[e], ii)
    requires forall i, j :: 0 <= i < |nodes| && 0 <= j < |kids| ==> nodes[i] != kids[j]
    ensures Distinct(nodes + kids) && LevelsOk(nodes + kids)
    ensures ExpandedUpTo(nodes + kids, e + 1, root, b0, ask)
  {
    DistinctAppend(nodes, kids);
    LevelsAppend(nodes, kids, e, ii);
    assert Expanded([nodes[e]], root, b0, ask);
    ExpandedAppend(nodes[..e], [nodes[e]], root, b0, ask);
    ChildlessUnexpanded(kids, root, b0);
    UnexpandedAppend(nodes[e + 1..], kids, root, b0);
    Rejoin(nodes, kids, e, root, b0, ask);
  }

  /** Classes without children have not been expanded. */
  lemma ChildlessUnexpanded(cs: seq<TClass>, root: TClass, b0: nat)
    requires forall j :: 0 <= j < |cs| ==> cs[j].children == []
    ensures Unexpanded(cs, root, b0)
  {
  }

  /** Node `e` of pairwise different nodes occurs neither before nor after itself. */
  lemma SplitAround(nodes: seq<TClass>, e: nat)
    requires Distinct(nodes) && e < |nodes|
    ensures nodes[e] !in nodes[..e] && nodes[e] !in nodes[e + 1..]
  {
    forall k | 0 <= k < |nodes| && k != e
      ensures nodes[k] != nodes[e]
    {
      if k < e {
        assert Apart(nodes, k, e);
      } else {
        assert Apart(nodes, e, k);
      }
    }
  }

  /**
   * Node `e` of pairwise different nodes, the first not yet expanded, split
   * off the expanded nodes before it and the unexpanded ones after it.
   */
  lemma SplitAt(nodes: seq<TClass>, e: nat, root: TClass, b0: nat, ask: Answers)
    requires AnswersSubclassQueries(ask)
    requires Distinct(nodes) && e < |nodes| && ExpandedUpTo(nodes, e, root, b0, ask)
    ensures KidsOf(nodes[e], root, b0) == []
    ensures Expanded(nodes[..e], root, b0, ask) && Unexpanded(nodes[e + 1..], root, b0)
    ensures nodes[e] !in nodes[..e] && nodes[e] !in nodes[e + 1..]
  {
    SplitUpTo(nodes, e, root, b0, ask);
    UnexpandedSplit(nodes, e, root, b0);
    SplitAround(nodes, e);
  }

  /** The first unexpanded node, split off the rest. */
  lemma UnexpandedSplit(nodes: seq<TClass>, e: nat, root: TClass, b0: nat)
    requires e < |nodes| && Unexpanded(nodes[e..], root, b0)
    ensures KidsOf(nodes[e], root, b0) == [] && Unexpanded(nodes[e + 1..], root, b0)
  {
    assert nodes[e..] == [nodes[e]] + nodes[e + 1..];
    UnexpandedParts([nodes[e]], nodes[e + 1..], root, b0);
  }

  /** Both parts of an unexpanded sequence are unexpanded. */
  lemma UnexpandedParts(a: seq<TClass>, b: seq<TClass>, root: TClass, b0: nat)
    requires Unexpanded(a + b, root, b0)
    ensures Unexpanded(a, root, b0) && Unexpanded(b, root, b0)
  {
    assert forall k :: 0 <= k < |a| ==> (a + b)[k] == a[k];
    assert forall k :: 0 <= k < |b| ==> (a + b)[|a| + k] == b[k];
  }

  /** Appending `kids` moves the boundary between expanded and unexpanded nodes past node `e`. */
  lemma Rejoin(nodes: seq<TClass>, kids: seq<TClass>, e: nat, root: TClass, b0: nat, ask: Answers)
    requires AnswersSubclassQueries(ask) && e < |nodes|
    requires Expanded(nodes[..e] + [nodes[e]], root, b0, ask) && Unexpanded(nodes[e + 1..] + kids, root, b0)
    ensures ExpandedUpTo(nodes + kids, e + 1, root, b0, ask)
  {
    var a, b := nodes[..e] + [nodes[e]], nodes[e + 1..] + kids;
    var all := nodes + kids;
    forall k | 0 <= k < |all|
      ensures if k < e + 1 then Done(all[k], root, b0, ask) else KidsOf(all[k], root, b0) == []
    {
      if k < e {
        assert all[k] == nodes[k] == nodes[..e][k] == a[k];
      } else if k == e {
        assert all[k] == a[k];
      } else if k < |nodes| {
        assert all[k] == nodes[k] == nodes[e + 1..][k - e - 1] == b[k - e - 1];
      } else {
        assert all[k] == kids[k - |nodes|] == b[k - e - 1];
      }
    }
  }

  /** The next frontier grows by `kids`, all of round `ii` and of rank below `b - 1`. */
  lemma FrontierAppend(newOwl: seq<TClass>, kids: seq<TClass>, ii: nat, rank: string -> nat, b: nat)
    requires forall j :: 0 <= j < |newOwl| ==> newOwl[j].level == ii
    requires forall j :: 0 <= j < |newOwl| ==> rank(newOwl[j].name) + 1 < b
    requires forall j :: 0 <= j < |kids| ==> kids[j].level == ii
    requires forall j :: 0 <= j < |kids| ==> rank(kids[j].name) + 1 < b
    ensures forall j :: 0 <= j < |newOwl + kids| ==> (newOwl + kids)[j].level == ii
    ensures forall j :: 0 <= j < |newOwl + kids| ==> rank((newOwl + kids)[j].name) + 1 < b
  {
  }

  /** Two pairwise different sequences with no object in common concatenate to one. */
  lemma DistinctAppend(a: seq<TClass>, b: seq<TClass>)
    requires Distinct(a) && Distinct(b)
    requires forall i, j :: 0 <= i < |a| && 0 <= j < |b| ==> a[i] != b[j]
    ensures Distinct(a + b)
  {
    forall x, y | 0 <= x < y < |a + b|
      ensures Apart(a + b, x, y)
    {
      if y < |a| {
        assert (a + b)[x] == a[x] && (a + b)[y] == a[y] && Apart(a, x, y);
      } else if x < |a| {
        assert (a + b)[x] == a[x] && (a + b)[y] == b[y - |a|];
      } else {
        assert (a + b)[x] == b[x - |a|] && (a + b)[y] == b[y - |a|] && Apart(b, x - |a|, y - |a|);
      }
    }
  }
}
