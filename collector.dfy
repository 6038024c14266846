/**
 * The collectors that run once the taxonomy is built: the instances of
 * every registered class, the abstract of every instance (with a checkpoint
 * of the taxonomy every thousand fetches), and the files the abstracts are
 * exported to.  The order in which the registry and the instance sets are
 * walked is the host's; it is a parameter here (`cs`, `visits`).
 */
module Collector {
  import opened Wrappers
  import opened Text
  import opened Queries
  import opened Sparql
  import opened Taxonomy
  import opened CheckpointSchedule

  /** The variable the instance query selects. */
  const ConceptVar: string := "Concept"
  /** The variable the abstract query selects. */
  const AbstractVar: string := "abstract"
  /** Progress is reported every this many fetches. */
  const ProgressEvery: nat := 100
  /** The path separator of the host. */
  const Sep: char := '/'

  /** The endpoint's answers to the instance queries, by class name. */
  function InstanceAnswers(endpoint: Endpoint): Answers
  {
    name => endpoint(SelectClassInstances(name))
  }

  /** The endpoint's answers to the abstract queries in English, by resource URI. */
  function AbstractAnswers(endpoint: Endpoint): Answers
  {
    uri => endpoint(GetAbstract(uri))
  }

  // ---------------------------------------------------------------------
  // Instances

  /** The URIs an instance-query answer lists: one bracketed value per row, a failed query none. */
  function InstanceUris(o: Option<ResultSet>): (r: seq<string>)
    requires Binds(o, ConceptVar)
    ensures o.None? ==> r == []
    ensures o.Some? ==> (|r| == |o.value.bindings| &&
                         forall j :: 0 <= j < |r| ==> r[j] == "<" + o.value.bindings[j][ConceptVar] + ">")
  {
    if o.None? then [] else Column(o.value.bindings, ConceptVar)
  }

  /** `xs` are pairwise different instances whose URIs are `uris`. */
  predicate Made(xs: seq<Instance>, uris: seq<string>)
  {
    |xs| == |uris| &&
    (forall j :: 0 <= j < |xs| ==> xs[j].uri == uris[j]) &&
    forall i, j :: 0 <= i < j < |xs| ==> xs[i] != xs[j]
  }

  /** None of `xs` has an abstract yet. */
  ghost predicate Blank(xs: seq<Instance>)
    reads xs
  {
    forall j :: 0 <= j < |xs| ==> xs[j].abstractText == None
  }

  /** One new instance per row of the answer for `clsName`, in row order; none when the query fails. */
  method FindInstancesOfClass(ask: Answers, clsName: string) returns (instances: seq<Instance>)
    requires Binds(ask(clsName), ConceptVar)
    ensures fresh(instances)
    ensures Made(instances, InstanceUris(ask(clsName))) && Blank(instances)
  {
    instances := [];
    var results := ask(clsName);
    if results.None? {
      return;
    }
    var bs := results.value.bindings;
    for bi := 0 to |bs|
      invariant fresh(instances)
      invariant Made(instances, Column(bs[..bi], ConceptVar)) && Blank(instances)
    {
      assert bs[bi] in bs;
      assert bs[..bi + 1][..bi] == bs[..bi];
      var instance := new Instance(Bracket(bs[bi][ConceptVar]));
      instances := instances + [instance];
    }
    assert bs[..|bs|] == bs;
  }

  /** Adds the instances `xs` to the instance set of `cls`, one by one. */
  method AddAll(cls: TClass, xs: seq<Instance>)
    modifies cls`instances
    ensures cls.instances == old(cls.instances) + (set x | x in xs)
  {
    for k := 0 to |xs|
      invariant cls.instances == old(cls.instances) + (set x | x in xs[..k])
    {
      assert xs[..k + 1] == xs[..k] + [xs[k]];
      cls.instances := cls.instances + {xs[k]};
    }
    assert xs[..|xs|] == xs;
  }

  /** The instances collected for `c` when `found[i]` were collected for `cs[i]`. */
  ghost function FoundFor(cs: seq<TClass>, found: seq<seq<Instance>>, c: TClass): set<Instance>
    requires |found| == |cs|
  {
    if cs == [] then {}
    else
      var n := |cs| - 1;
      FoundFor(cs[..n], found[..n], c) + (if cs[n] == c then set x | x in found[n] else {})
  }

  /** A class visited nowhere collects nothing. */
  lemma {:induction false} FoundForUnvisited(cs: seq<TClass>, found: seq<seq<Instance>>, c: TClass)
    requires |found| == |cs| && c !in cs
    ensures FoundFor(cs, found, c) == {}
  {
    if cs != [] {
      FoundForUnvisited(cs[..|cs| - 1], found[..|cs| - 1], c);
    }
  }

  /** A class visited once, at `i`, collects exactly what was found there. */
  lemma {:induction false} FoundForOnce(cs: seq<TClass>, found: seq<seq<Instance>>, i: nat)
    requires |found| == |cs| && i < |cs|
    requires forall j :: 0 <= j < |cs| && j != i ==> cs[j] != cs[i]
    ensures FoundFor(cs, found, cs[i]) == set x | x in found[i]
  {
    var n := |cs| - 1;
    if i < n {
      FoundForOnce(cs[..n], found[..n], i);
    } else {
      FoundForUnvisited(cs[..n], found[..n], cs[i]);
    }
  }

  /**
   * Gives every class of the registry, visited in the order `cs`, the
   * instances the endpoint reports for its name; `found[i]` are those
   * created on the visit of `cs[i]`.
   */
  method AddInstancesToTaxClasses(taxonomy: Taxonomy, endpoint: Endpoint, cs: seq<TClass>)
    returns (ghost found: seq<seq<Instance>>)
    requires forall c :: c in cs <==> c in taxonomy.classes.Values
    requires forall name :: Binds(InstanceAnswers(endpoint)(name), ConceptVar)
    modifies cs`instances
    ensures |found| == |cs|
    ensures forall i :: 0 <= i < |cs| ==> fresh(found[i])
    ensures forall i :: 0 <= i < |cs| ==> Blank(found[i])
    ensures forall i :: 0 <= i < |cs| ==> Made(found[i], InstanceUris(InstanceAnswers(endpoint)(cs[i].name)))
    ensures forall c :: c in cs ==> c.instances == old(c.instances) + FoundFor(cs, found, c)
    ensures forall c :: c in cs ==> c.children == old(c.children)
  {
    found := AddInstancesFrom(InstanceAnswers(endpoint), cs);
  }

  /** The loop of `AddInstancesToTaxClasses`, against the answers to the instance queries. */
  method AddInstancesFrom(ask: Answers, cs: seq<TClass>) returns (ghost found: seq<seq<Instance>>)
    requires forall name :: Binds(ask(name), ConceptVar)
    modifies cs`instances
    ensures |found| == |cs|
    ensures forall i :: 0 <= i < |cs| ==> fresh(found[i]) && Blank(found[i])
    ensures forall i :: 0 <= i < |cs| ==> Made(found[i], InstanceUris(ask(cs[i].name)))
    ensures forall c :: c in cs ==> c.instances == old(c.instances) + FoundFor(cs, found, c)
    ensures forall c :: c in cs ==> c.children == old(c.children)
  {
    found := [];
    ghost var start := map c | c in cs :: c.instances;
    var i := 0;
    while i < |cs|
      invariant i <= |cs| && |found| == i
      invariant forall j :: 0 <= j < i ==> fresh(found[j])
      invariant forall j :: 0 <= j < i ==> Blank(found[j])
      invariant forall j :: 0 <= j < i ==> Made(found[j], InstanceUris(ask(cs[j].name)))
      invariant Collected(cs, found, start)
    {
      var instances := CollectNext(ask, cs, i, found, start);
      found, i := found + [instances], i + 1;
    }
    CollectedAll(cs, found, start);
  }

  /** After the last visit, each class holds its instances from `start` and all found for it. */
  lemma CollectedAll(cs: seq<TClass>, found: seq<seq<Instance>>, start: map<TClass, set<Instance>>)
    requires Collected(cs, found, start) && |found| == |cs|
    ensures forall c :: c in cs ==> c in start && c.instances == start[c] + FoundFor(cs, found, c)
  {
    assert cs[..|found|] == cs;
  }

  /** Each class holds its instances from `start` and those found on the first `|found|` visits. */
  ghost predicate Collected(cs: seq<TClass>, found: seq<seq<Instance>>, start: map<TClass, set<Instance>>)
    reads cs
  {
    |found| <= |cs| &&
    forall c :: c in cs ==> c in start && c.instances == start[c] + FoundFor(cs[..|found|], found, c)
  }

  /** The visit of `cs[i]`, with `start` the instance sets before the first visit. */
  method CollectNext(ask: Answers, cs: seq<TClass>, i: nat, ghost found: seq<seq<Instance>>,
                     ghost start: map<TClass, set<Instance>>)
    returns (instances: seq<Instance>)
    requires forall name :: Binds(ask(name), ConceptVar)
    requires i < |cs| && |found| == i
    requires forall j :: 0 <= j < i ==> Blank(found[j])
    requires forall j :: 0 <= j < i ==> Made(found[j], InstanceUris(ask(cs[j].name)))
    requires Collected(cs, found, start)
    modifies {cs[i]}`instances
    ensures fresh(instances)
    ensures forall j :: 0 <= j < i + 1 ==> Blank((found + [instances])[j])
    ensures forall j :: 0 <= j < i + 1 ==> Made((found + [instances])[j], InstanceUris(ask(cs[j].name)))
    ensures Collected(cs, found + [instances], start)
  {
    instances := CollectFor(ask, cs[i]);
    FoundForStep(cs, found, instances, i);
    MadeAppend(ask, cs, found, instances);
    BlankAppend(found, instances);
  }

  /** The instances found so far, one more visit on, still have no abstracts. */
  lemma BlankAppend(found: seq<seq<Instance>>, xs: seq<Instance>)
    requires forall j :: 0 <= j < |found| ==> Blank(found[j])
    requires Blank(xs)
    ensures forall j :: 0 <= j < |found| + 1 ==> Blank((found + [xs])[j])
  {
    forall j | 0 <= j < |found| + 1
      ensures Blank((found + [xs])[j])
    {
      if j < |found| {
        assert (found + [xs])[j] == found[j];
      }
    }
  }

  /** One visit: the instances found for `cls`, added to its instance set. */
  method CollectFor(ask: Answers, cls: TClass) returns (instances: seq<Instance>)
    requires Binds(ask(cls.name), ConceptVar)
    modifies cls`instances
    ensures fresh(instances) && Blank(instances) && Made(instances, InstanceUris(ask(cls.name)))
    ensures cls.instances == old(cls.instances) + (set x | x in instances)
  {
    instances := FindInstancesOfClass(ask, cls.name);
    AddAll(cls, instances);
  }

  /** The instances found so far, one more visit on. */
  lemma MadeAppend(ask: Answers, cs: seq<TClass>, found: seq<seq<Instance>>, xs: seq<Instance>)
    requires |found| < |cs| && forall name :: Binds(ask(name), ConceptVar)
    requires forall j :: 0 <= j < |found| ==> Made(found[j], InstanceUris(ask(cs[j].name)))
    requires Made(xs, InstanceUris(ask(cs[|found|].name)))
    ensures forall j :: 0 <= j < |found| + 1 ==> Made((found + [xs])[j], InstanceUris(ask(cs[j].name)))
  {
    forall j | 0 <= j < |found| + 1
      ensures Made((found + [xs])[j], InstanceUris(ask(cs[j].name)))
    {
      if j < |found| {
        assert (found + [xs])[j] == found[j];
      } else {
        assert (found + [xs])[j] == xs;
      }
    }
  }

  /** Collecting for one more class adds to that class only. */
  lemma FoundForStep(cs: seq<TClass>, found: seq<seq<Instance>>, xs: seq<Instance>, i: nat)
    requires i < |cs| && |found| == i
    ensures forall c ::
              FoundFor(cs[..i + 1], found + [xs], c) ==
              FoundFor(cs[..i], found, c) + (if cs[i] == c then set x | x in xs else {})
  {
    assert cs[..i + 1][..i] == cs[..i];
    assert (found + [xs])[..i] == found;
  }

  // ---------------------------------------------------------------------
  // Abstracts

  /** The abstract in the first row of an abstract-query answer; `""` when the query failed or found nothing. */
  function AbstractOf(o: Option<ResultSet>): (r: string)
    requires FirstBinds(o, AbstractVar)
    ensures o.None? || o.value.bindings == [] ==> r == ""
    ensures o.Some? && o.value.bindings != [] ==> r == o.value.bindings[0][AbstractVar]
  {
    if o.None? || o.value.bindings == [] then "" else o.value.bindings[0][AbstractVar]
  }

  /**
   * `get_abstract`: the abstract of the resource `uri`, the first row's value
   * in the answer to the abstract query for `uri`, or `""`.
   */
  function FetchAbstract(ask: Answers, uri: string): (r: string)
    requires FirstBinds(ask(uri), AbstractVar)
    ensures ask(uri).None? ==> r == ""
    ensures ask(uri).Some? && ask(uri).value.bindings == [] ==> r == ""
    ensures ask(uri).Some? && ask(uri).value.bindings != [] ==> r == ask(uri).value.bindings[0][AbstractVar]
  {
    AbstractOf(ask(uri))
  }

  /** A failed query or an empty answer gives the empty abstract. */
  lemma NoAnswerNoAbstract(o: Option<ResultSet>)
    requires o.None? || o.value.bindings == []
    ensures FirstBinds(o, AbstractVar) && AbstractOf(o) == ""
  {
  }

  /** Otherwise the abstract is the text bound in the first row, whatever the later rows hold. */
  lemma FirstRowAbstract(rs: ResultSet, more: seq<Binding>)
    requires rs.bindings != [] && AbstractVar in rs.bindings[0]
    ensures FirstBinds(Some(rs), AbstractVar) && AbstractOf(Some(rs)) == rs.bindings[0][AbstractVar]
    ensures AbstractOf(Some(ResultSet(rs.vars, rs.bindings[..1] + more))) == AbstractOf(Some(rs))
  {
  }

  /** The visited instances that still lack an abstract. */
  ghost function Lacking(visits: seq<Instance>): set<Instance>
    reads visits
  {
    set x | x in visits && x.abstractText.None?
  }

  /** The instances held by the classes of the registry. */
  ghost function RegistryInstances(taxonomy: Taxonomy): set<Instance>
    reads taxonomy, taxonomy.classes.Values
  {
    set c, x | c in taxonomy.classes.Values && x in c.instances :: x
  }

  /** The instances of the registry's classes that lack an abstract. */
  ghost function RegistryLacking(taxonomy: Taxonomy): set<Instance>
    reads taxonomy, taxonomy.classes.Values, RegistryInstances(taxonomy)
  {
    set x | x in RegistryInstances(taxonomy) && x.abstractText.None?
  }

  /** A walk over every instance set of the registry lacks what the registry lacks. */
  lemma WalkLacking(taxonomy: Taxonomy, visits: seq<Instance>)
    requires forall x :: x in visits <==> x in RegistryInstances(taxonomy)
    ensures Lacking(visits) == RegistryLacking(taxonomy)
  {
  }

  /** A counter on a multiple of the batch size is on a multiple of the progress step. */
  lemma BatchIsProgressStep(n: nat)
    ensures n % Batch == 0 ==> n % ProgressEvery == 0
  {
    if n % Batch == 0 {
      var k := n / Batch;
      assert n == ProgressEvery * (10 * k);
    }
  }

  /**
   * The report before a visit: progress every hundred fetches and, on every
   * thousandth, a checkpoint of the taxonomy, recorded as the count in `log`.
   */
  method Report(ii: nat, ghost log: seq<nat>) returns (ghost logged: seq<nat>)
    ensures logged == log + (if ii % Batch == 0 then [ii] else [])
  {
    BatchIsProgressStep(ii);
    logged := log;
    if ii % ProgressEvery == 0 {
      if ii % Batch == 0 {
        logged := log + [ii];
      }
    }
  }

  /** One more visit extends the fetch count and the checkpoint schedule. */
  lemma ScheduleStep(needs: seq<bool>, b: bool)
    ensures Fetches(needs + [b]) == Fetches(needs) + (if b then 1 else 0)
    ensures Schedule(needs + [b]) == Schedule(needs) + (if FiresBefore(needs) then [Fetches(needs)] else [])
  {
    assert (needs + [b])[..|needs|] == needs;
  }

  /**
   * Fetches and records the abstract of every visited instance that has
   * none, in visit order.  Before each visit a checkpoint is recorded in
   * `log` (the fetch count at that point) when the count is a multiple of
   * the batch size; `needs[j]` tells whether visit `j` fetched.
   */
  method AddAbstractsToInstances(taxonomy: Taxonomy, endpoint: Endpoint, visits: seq<Instance>)
    returns (ii: nat, ghost log: seq<nat>, ghost needs: seq<bool>)
    requires forall x :: x in visits <==> x in RegistryInstances(taxonomy)
    requires forall j :: 0 <= j < |visits| ==> FirstBinds(AbstractAnswers(endpoint)(visits[j].uri), AbstractVar)
    modifies visits`abstractText
    ensures forall x :: x in RegistryInstances(taxonomy) ==> x.abstractText.Some?
    ensures ii == |old(RegistryLacking(taxonomy))|
    ensures |needs| == |visits|
    ensures forall j :: 0 <= j < |visits| ==>
      (needs[j] <==> old(visits[j].abstractText).None? && visits[j] !in visits[..j])
    ensures ii == Fetches(needs) && log == Schedule(needs)
    ensures ii == |old(Lacking(visits))|
    ensures forall j :: 0 <= j < |visits| ==>
              visits[j].abstractText ==
              if old(visits[j].abstractText).Some? then old(visits[j].abstractText)
              else Some(FetchAbstract(AbstractAnswers(endpoint), visits[j].uri))
  {
    WalkLacking(taxonomy, visits);
    ii, log, needs := AddAbstractsFrom(AbstractAnswers(endpoint), visits);
    forall x | x in RegistryInstances(taxonomy)
      ensures x.abstractText.Some?
    {
      var j :| 0 <= j < |visits| && visits[j] == x;
    }
  }

  /** The loop of `AddAbstractsToInstances`, against the answers to the abstract queries. */
  method AddAbstractsFrom(ask: Answers, visits: seq<Instance>)
    returns (ii: nat, ghost log: seq<nat>, ghost needs: seq<bool>)
    requires forall j :: 0 <= j < |visits| ==> FirstBinds(ask(visits[j].uri), AbstractVar)
    modifies visits`abstractText
    ensures |needs| == |visits|
    ensures forall j :: 0 <= j < |visits| ==>
      (needs[j] <==> old(visits[j].abstractText).None? && visits[j] !in visits[..j])
    ensures ii == Fetches(needs) && log == Schedule(needs)
    ensures ii == |old(Lacking(visits))|
    ensures forall j :: 0 <= j < |visits| ==>
              visits[j].abstractText ==
              if old(visits[j].abstractText).Some? then old(visits[j].abstractText)
              else Some(FetchAbstract(ask, visits[j].uri))
  {
    ghost var before := map x | x in visits :: x.abstractText;
    ghost var lacking := Lacking(visits);
    ii, log, needs := 0, [], [];
    var i := 0;
    assert visits[..0] == [];
    while i < |visits|
      invariant i <= |visits| && Visited(ask, visits, before, needs, i)
      invariant ii == Fetches(needs) && log == Schedule(needs)
    {
      ii, log, needs := VisitNext(ask, visits, i, ii, log, needs, before);
      i := i + 1;
    }
    assert visits[..i] == visits;
    FetchesCountFirstVisits(visits, lacking, needs);
  }

  /** The first `i` visits are done, against the abstracts `before` the first visit. */
  ghost predicate Visited(ask: Answers, visits: seq<Instance>, before: map<Instance, Option<string>>,
                          needs: seq<bool>, i: nat)
    reads visits
  {
    i <= |visits| && |needs| == i && Counted(visits, before, needs) && Fetched(ask, visits, before, i)
  }

  /** `needs[j]` tells whether visit `j` found an instance without an abstract, seen for the first time. */
  predicate Counted(visits: seq<Instance>, before: map<Instance, Option<string>>, needs: seq<bool>)
  {
    |needs| <= |visits| &&
    (forall x :: x in visits ==> x in before) &&
    forall j :: 0 <= j < |needs| ==>
      (needs[j] <==> before[visits[j]].None? && visits[j] !in visits[..j])
  }

  /** Every instance visited in the first `i` visits that had no abstract now has the fetched one. */
  ghost predicate Fetched(ask: Answers, visits: seq<Instance>, before: map<Instance, Option<string>>, i: nat)
    requires forall x :: x in visits ==> x in before
    reads visits
  {
    i <= |visits| &&
    forall j :: 0 <= j < |visits| ==>
      FirstBinds(ask(visits[j].uri), AbstractVar) &&
      visits[j].abstractText ==
      if before[visits[j]].Some? || visits[j] !in visits[..i] then before[visits[j]]
      else Some(FetchAbstract(ask, visits[j].uri))
  }

  /** One more visit, with `b` telling whether it fetched. */
  lemma CountedStep(visits: seq<Instance>, before: map<Instance, Option<string>>, needs: seq<bool>, b: bool)
    requires |needs| < |visits| && Counted(visits, before, needs)
    requires b <==> before[visits[|needs|]].None? && visits[|needs|] !in visits[..|needs|]
    ensures Counted(visits, before, needs + [b])
  {
    forall j | 0 <= j < |needs| + 1
      ensures (needs + [b])[j] <==> before[visits[j]].None? && visits[j] !in visits[..j]
    {
      if j < |needs| {
        assert (needs + [b])[j] == needs[j];
      }
    }
  }

  /** Visit `i`: report, then fetch the abstract if the instance has none. */
  method VisitNext(ask: Answers, visits: seq<Instance>, i: nat, ii: nat, ghost log: seq<nat>,
                   ghost needs: seq<bool>, ghost before: map<Instance, Option<string>>)
    returns (ii': nat, ghost log': seq<nat>, ghost needs': seq<bool>)
    requires i < |visits| && Visited(ask, visits, before, needs, i)
    requires ii == Fetches(needs) && log == Schedule(needs)
    modifies {visits[i]}`abstractText
    ensures Visited(ask, visits, before, needs', i + 1)
    ensures ii' == Fetches(needs') && log' == Schedule(needs')
  {
    var instance := visits[i];
    ghost var b := instance.abstractText.None?;
    assert b <==> before[instance].None? && instance !in visits[..i];
    CountedStep(visits, before, needs, b);
    ScheduleStep(needs, b);
    log' := Report(ii, log);
    needs' := needs + [b];
    if instance.abstractText.None? {
      FetchInto(ask, visits, before, i);
      ii' := ii + 1;
    } else {
      FetchedSkip(ask, visits, before, i);
      ii' := ii;
    }
  }

  /** Visit `i` of an instance without an abstract, not visited before: fetch and record it. */
  method FetchInto(ask: Answers, visits: seq<Instance>, ghost before: map<Instance, Option<string>>, i: nat)
    requires i < |visits| && (forall x :: x in visits ==> x in before) && Fetched(ask, visits, before, i)
    requires before[visits[i]].None? && visits[i] !in visits[..i]
    modifies {visits[i]}`abstractText
    ensures Fetched(ask, visits, before, i + 1)
  {
    var instance := visits[i];
    assert visits[..i + 1] == visits[..i] + [instance];
    var abstractText := FetchAbstract(ask, instance.uri);
    instance.abstractText := Some(abstractText);
    forall j | 0 <= j < |visits|
      ensures visits[j].abstractText ==
              if before[visits[j]].Some? || visits[j] !in visits[..i + 1] then before[visits[j]]
              else Some(FetchAbstract(ask, visits[j].uri))
    {
      if visits[j] != instance {
        assert visits[j] in visits[..i + 1] <==> visits[j] in visits[..i];
      }
    }
  }

  /** A visit of an instance that already has an abstract changes nothing. */
  lemma FetchedSkip(ask: Answers, visits: seq<Instance>, before: map<Instance, Option<string>>, i: nat)
    requires i < |visits| && (forall x :: x in visits ==> x in before) && Fetched(ask, visits, before, i)
    requires visits[i].abstractText.Some?
    ensures Fetched(ask, visits, before, i + 1)
  {
    assert visits[..i + 1] == visits[..i] + [visits[i]];
  }

  /**
   * When visit `j` fetches exactly if `visits[j]` is in `lacking` and was not
   * visited before, the fetches count the visited members of `lacking`.
   */
  lemma {:induction false} FetchesCountFirstVisits(visits: seq<Instance>, lacking: set<Instance>, needs: seq<bool>)
    requires |needs| == |visits| && forall x :: x in lacking ==> x in visits
    requires forall j :: 0 <= j < |visits| ==> (needs[j] <==> visits[j] in lacking && visits[j] !in visits[..j])
    ensures Fetches(needs) == |lacking|
  {
    if visits != [] {
      var n := |visits| - 1;
      var init, last := visits[..n], visits[n];
      var rest := if last in init then lacking else lacking - {last};
      forall x | x in rest
        ensures x in init
      {
        var j :| 0 <= j < |visits| && visits[j] == x;
        if j < n {
          assert init[j] == x;
        }
      }
      forall j | 0 <= j < n
        ensures needs[..n][j] <==> init[j] in rest && init[j] !in init[..j]
      {
        assert init[..j] == visits[..j];
      }
      FetchesCountFirstVisits(init, rest, needs[..n]);
      assert visits[..n] == init;
      assert |lacking| == |rest| + (if needs[n] then 1 else 0);
      assert needs[..n][..n] == needs[..n];
      assert Fetches(needs) == Fetches(needs[..n]) + (if needs[n] then 1 else 0);
    }
  }

  // ---------------------------------------------------------------------
  // Export

  /** The export directory with a trailing separator. */
  function ExportDir(exportDir: string): (d: string)
    ensures EndsWith(d, [Sep])
    ensures EndsWith(exportDir, [Sep]) ==> d == exportDir
    ensures !EndsWith(exportDir, [Sep]) ==> d == exportDir + [Sep]
  {
    if EndsWith(exportDir, [Sep]) then exportDir else exportDir + [Sep]
  }

  /** The file the abstract of `uri` is exported to: its local name, with `.txt`, in the directory. */
  function ExportFileName(exportDir: string, uri: string): (r: string)
    ensures StartsWith(r, ExportDir(exportDir)) && EndsWith(r, ".txt")
    ensures |r| == |ExportDir(exportDir)| + |LocalName(uri)| + 4
    ensures var n := r[|ExportDir(exportDir)|..|r| - 4]; n == LocalName(uri) && Sep !in n
  {
    var s := LastSegment(uri, '/');
    assert forall k :: 0 <= k < |LocalName(uri)| ==> LocalName(uri)[k] == s[k];
    ExportDir(exportDir) + LocalName(uri) + ".txt"
  }

  /** Adding the separator once is enough. */
  lemma ExportDirIdempotent(exportDir: string)
    ensures ExportDir(ExportDir(exportDir)) == ExportDir(exportDir)
  {
  }

  /** A bracketed resource URI `p/x>` is exported to `x.txt` in the directory. */
  lemma ExportFileNameOf(exportDir: string, p: string, x: string)
    requires Sep !in x
    ensures ExportFileName(exportDir, p + "/" + x + ">") == ExportDir(exportDir) + x + ".txt"
  {
    LocalNameOf(p, x, '>');
  }

  /** The files written for `visits`: one per instance with an abstract, in visit order. */
  ghost function Exports(exportDir: string, visits: seq<Instance>): (files: seq<(string, string)>)
    reads visits
  {
    if visits == [] then []
    else
      var n := |visits| - 1;
      var x := visits[n];
      Exports(exportDir, visits[..n]) +
      if x.abstractText.Some? then [(ExportFileName(exportDir, x.uri), x.abstractText.value)] else []
  }

  /** The abstract of every instance that has one is written, to the file its URI names. */
  lemma {:induction false} ExportsEveryAbstract(exportDir: string, visits: seq<Instance>, j: nat)
    requires j < |visits| && visits[j].abstractText.Some?
    ensures (ExportFileName(exportDir, visits[j].uri), visits[j].abstractText.value) in Exports(exportDir, visits)
  {
    var n := |visits| - 1;
    if j < n {
      assert visits[..n][j] == visits[j];
      ExportsEveryAbstract(exportDir, visits[..n], j);
    }
  }

  /** Only abstracts are written, each to the file named after its instance's URI. */
  lemma {:induction false} ExportsOnlyAbstracts(exportDir: string, visits: seq<Instance>, k: nat) returns (j: nat)
    requires k < |Exports(exportDir, visits)|
    ensures j < |visits| && visits[j].abstractText.Some?
    ensures Exports(exportDir, visits)[k] == (ExportFileName(exportDir, visits[j].uri), visits[j].abstractText.value)
  {
    var n := |visits| - 1;
    var head := Exports(exportDir, visits[..n]);
    if k < |head| {
      j := ExportsOnlyAbstracts(exportDir, visits[..n], k);
      assert visits[..n][j] == visits[j];
    } else {
      j := n;
    }
  }

  /**
   * The export loop: for every visited instance with an abstract, the file
   * name and the text that is written to it, in visit order.
   */
  method ExportAbstracts(taxonomy: Taxonomy, exportDir: string, visits: seq<Instance>)
    returns (files: seq<(string, string)>)
    requires forall x :: x in visits <==> x in RegistryInstances(taxonomy)
    ensures files == Exports(exportDir, visits)
    ensures forall x :: x in RegistryInstances(taxonomy) && x.abstractText.Some? ==>
              (ExportFileName(exportDir, x.uri), x.abstractText.value) in files
    ensures forall k :: 0 <= k < |files| ==>
              exists x :: x in RegistryInstances(taxonomy) && x.abstractText.Some? &&
                          files[k] == (ExportFileName(exportDir, x.uri), x.abstractText.value)
  {
    files := [];
    for i := 0 to |visits|
      invariant files == Exports(exportDir, visits[..i])
    {
      var instance := visits[i];
      assert visits[..i + 1][..i] == visits[..i];
      if instance.abstractText.None? {
        continue;
      }
      var fname := ExportFileName(exportDir, instance.uri);
      files := files + [(fname, instance.abstractText.value)];
    }
    assert visits[..|visits|] == visits;
    assert files == Exports(exportDir, visits);
    ExportsOfRegistry(taxonomy, exportDir, visits);
  }

  /**
   * Over a walk of every instance set of the registry, exactly the abstracts
   * of the registry's instances are written, each to the file its URI names.
   */
  lemma ExportsOfRegistry(taxonomy: Taxonomy, exportDir: string, visits: seq<Instance>)
    requires forall x :: x in visits <==> x in RegistryInstances(taxonomy)
    ensures forall x :: x in RegistryInstances(taxonomy) && x.abstractText.Some? ==>
              (ExportFileName(exportDir, x.uri), x.abstractText.value) in Exports(exportDir, visits)
    ensures forall k :: 0 <= k < |Exports(exportDir, visits)| ==>
              exists x :: x in RegistryInstances(taxonomy) && x.abstractText.Some? &&
                          Exports(exportDir, visits)[k] == (ExportFileName(exportDir, x.uri), x.abstractText.value)
  {
    forall x | x in RegistryInstances(taxonomy) && x.abstractText.Some?
      ensures (ExportFileName(exportDir, x.uri), x.abstractText.value) in Exports(exportDir, visits)
    {
      var j :| 0 <= j < |visits| && visits[j] == x;
      ExportsEveryAbstract(exportDir, visits, j);
    }
    forall k | 0 <= k < |Exports(exportDir, visits)|
      ensures exists x :: x in RegistryInstances(taxonomy) && x.abstractText.Some? &&
                          Exports(exportDir, visits)[k] == (ExportFileName(exportDir, x.uri), x.abstractText.value)
    {
      var j := ExportsOnlyAbstracts(exportDir, visits, k);
      var x := visits[j];
      assert x in RegistryInstances(taxonomy) && x.abstractText.Some? &&
             Exports(exportDir, visits)[k] == (ExportFileName(exportDir, x.uri), x.abstractText.value);
    }
  }
}
