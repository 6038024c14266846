/**
 * SPARQL query text for the three questions put to the DBpedia endpoint:
 * the direct subclasses of a class, the instances of a class, and the
 * abstract of a resource.  A class name is qualified with the ontology
 * namespace unless it already is.
 */
module Queries {
  import opened Text

  const Prefixes: string :=
    NL + "PREFIX rdf: <http://www.w3.org/1999/02/22-rdf-syntax-ns#>"
    + NL + "PREFIX rdfs: <http://www.w3.org/2000/01/rdf-schema#>"
    + NL + "PREFIX dbpedia: <http://dbpedia.org/resource/>"
    + NL + "PREFIX dbpedia-owl: <http://dbpedia.org/ontology/>"
    + NL + "PREFIX foaf: <http://xmlns.com/foaf/0.1/page/>" + NL

  /** The namespace token and the absolute ontology IRI a qualified name begins with. */
  const OntologyToken: string := "dbpedia-owl"
  const OntologyIri: string := "<http://dbpedia.org/ontology/"

  const SubclassHead: string := "SELECT DISTINCT ?subClass" + NL + "            WHERE { ?subClass rdfs:subClassOf "
  const InstancesHead: string := "SELECT DISTINCT ?Concept" + NL + "            WHERE { ?Concept rdf:type "
  const ClassQueryTail: string := " . }"
  const AbstractHead: string := "SELECT DISTINCT ?abstract WHERE {"
  const AbstractMiddle: string := " dbpedia-owl:abstract ?abstract . FILTER ( langMatches( lang(?abstract), " + ['"']
  const AbstractTail: string := ['"'] + " ) ) } "

  predicate IsQualified(name: string)
  {
    StartsWith(name, OntologyToken) || StartsWith(name, OntologyIri)
  }

  /** The name as embedded in a class query. */
  function Qualify(name: string): (r: string)
    ensures IsQualified(r)
    ensures r == name <==> IsQualified(name)
    ensures EndsWith(r, name)
    ensures r == name || r == OntologyToken + ":" + name
  {
    if IsQualified(name) then name else OntologyToken + ":" + name
  }

  /** Qualifying twice is qualifying once. */
  lemma QualifyIdempotent(name: string)
    ensures Qualify(Qualify(name)) == Qualify(name)
  {
  }

  /** The query for the direct subclasses of a class: its fixed head, then the qualified class name. */
  function SelectSubclass(owlClass: string): (r: string)
    ensures StartsWith(r, Prefixes + SubclassHead)
    ensures r[|Prefixes + SubclassHead|..] == Qualify(owlClass) + ClassQueryTail
  {
    Prefixes + SubclassHead + (Qualify(owlClass) + ClassQueryTail)
  }

  /** The query for the instances of a class: its fixed head, then the qualified class name. */
  function SelectClassInstances(owlClass: string): (r: string)
    ensures StartsWith(r, Prefixes + InstancesHead)
    ensures r[|Prefixes + InstancesHead|..] == Qualify(owlClass) + ClassQueryTail
  {
    Prefixes + InstancesHead + (Qualify(owlClass) + ClassQueryTail)
  }

  /** Both class queries open with the prefixes and close on the qualified class name. */
  lemma ClassQueriesFramed(owlClass: string)
    ensures StartsWith(SelectSubclass(owlClass), Prefixes)
    ensures EndsWith(SelectSubclass(owlClass), Qualify(owlClass) + ClassQueryTail)
    ensures StartsWith(SelectClassInstances(owlClass), Prefixes)
    ensures EndsWith(SelectClassInstances(owlClass), Qualify(owlClass) + ClassQueryTail)
  {
    var t := Qualify(owlClass) + ClassQueryTail;
    assert SelectSubclass(owlClass)[|Prefixes + SubclassHead|..] == t;
    assert SelectClassInstances(owlClass)[|Prefixes + InstancesHead|..] == t;
  }

  /** The abstract query; the resource and the language are inserted as given. */
  function GetAbstract(resource: string, lang: string := "en"): (r: string)
    ensures StartsWith(r, Prefixes)
    ensures |r| >= |Prefixes + AbstractHead| + |resource| && r[|Prefixes + AbstractHead|..][..|resource|] == resource
    ensures EndsWith(r, AbstractMiddle + lang + AbstractTail)
  {
    Prefixes + AbstractHead + (resource + (AbstractMiddle + lang + AbstractTail))
  }

  /** Cancels a common head and tail around two middle parts. */
  lemma Framed(h: string, a: string, b: string, t: string)
    requires h + (a + t) == h + (b + t)
    ensures a == b
  {
    var s, s' := h + (a + t), h + (b + t);
    assert |a| == |b|;
    assert a == s[|h|..|h| + |a|];
    assert b == s'[|h|..|h| + |b|];
  }

  /** Two subclass queries are equal exactly when the qualified names are. */
  lemma SelectSubclassDeterminedByName(a: string, b: string)
    ensures SelectSubclass(a) == SelectSubclass(b) <==> Qualify(a) == Qualify(b)
  {
    if SelectSubclass(a) == SelectSubclass(b) {
      Framed(Prefixes + SubclassHead, Qualify(a), Qualify(b), ClassQueryTail);
    }
  }

  /** The instance query applies the same qualification as the subclass query. */
  lemma ClassQueriesAgree(a: string, b: string)
    ensures SelectClassInstances(a) == SelectClassInstances(b) <==> SelectSubclass(a) == SelectSubclass(b)
  {
    SelectSubclassDeterminedByName(a, b);
    if SelectClassInstances(a) == SelectClassInstances(b) {
      Framed(Prefixes + InstancesHead, Qualify(a), Qualify(b), ClassQueryTail);
    }
  }

  /** Names that differ only by the namespace qualifier ask the same question. */
  lemma QualifiedAndBareAgree(name: string)
    requires !IsQualified(name)
    ensures SelectSubclass(OntologyToken + ":" + name) == SelectSubclass(name)
  {
    assert StartsWith(OntologyToken + ":" + name, OntologyToken);
  }

  /** With the language fixed, the abstract query determines the resource. */
  lemma GetAbstractInjective(r1: string, r2: string, lang: string)
    requires GetAbstract(r1, lang) == GetAbstract(r2, lang)
    ensures r1 == r2
  {
    Framed(Prefixes + AbstractHead, r1, r2, AbstractMiddle + lang + AbstractTail);
  }

  /** The three kinds of query never produce the same text. */
  lemma QueryKindsDistinct(a: string, b: string, res: string, lang: string)
    ensures SelectSubclass(a) != SelectClassInstances(b)
    ensures SelectSubclass(a) != GetAbstract(res, lang)
    ensures SelectClassInstances(b) != GetAbstract(res, lang)
  {
    assert SubclassHead[17] == 's' && InstancesHead[17] == 'C' && AbstractHead[17] == 'a';
    HeadsDiffer(Prefixes, SubclassHead, Qualify(a) + ClassQueryTail, InstancesHead, Qualify(b) + ClassQueryTail, 17);
    HeadsDiffer(Prefixes, SubclassHead, Qualify(a) + ClassQueryTail, AbstractHead, res + (AbstractMiddle + lang + AbstractTail), 17);
    HeadsDiffer(Prefixes, InstancesHead, Qualify(b) + ClassQueryTail, AbstractHead, res + (AbstractMiddle + lang + AbstractTail), 17);
  }

  /** Queries whose fixed heads differ at some position are different. */
  lemma HeadsDiffer(p: string, h1: string, r1: string, h2: string, r2: string, i: nat)
    requires i < |h1| && i < |h2| && h1[i] != h2[i]
    ensures p + h1 + r1 != p + h2 + r2
  {
    assert (p + h1 + r1)[|p| + i] == h1[i];
    assert (p + h2 + r2)[|p| + i] == h2[i];
  }
}
