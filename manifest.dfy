/**
 * Manifest flattening, `_parse_projects_from_xml` (src/ohdl/ohdl.py:75-85).
 * A manifest file is abstracted to what the parser takes from it: its
 * `<project>` elements and its `<include>` names, each in document order.
 * The parser appends a file's own projects to a shared list and then
 * expands its includes, in order, into the same list.
 */
module Manifest {

  /** One `<project name=.. path=..>` element. */
  datatype Project = Project(name: string, path: string)

  /** One manifest file: its projects and the names of the files it includes. */
  datatype ManifestFile = ManifestFile(projects: seq<Project>, includes: seq<string>)

  /** The manifest files of the manifests directory, by name relative to it. */
  type Tree = map<string, ManifestFile>

  /**
   * Every include names a file of the tree of strictly smaller rank, so the
   * include graph has no cycle (a cycle would make the parser recurse
   * without end) and every included file is present.
   */
  ghost predicate Ranked(tree: Tree, rank: map<string, nat>)
  {
    forall f :: f in tree ==>
      && f in rank
      && forall j :: 0 <= j < |tree[f].includes| ==>
           tree[f].includes[j] in tree && tree[f].includes[j] in rank && rank[tree[f].includes[j]] < rank[f]
  }

  /** The names of the files `fs` all belong to the tree and rank below `bound`. */
  ghost predicate Below(tree: Tree, rank: map<string, nat>, fs: seq<string>, bound: nat)
  {
    forall j :: 0 <= j < |fs| ==> fs[j] in tree && fs[j] in rank && rank[fs[j]] < bound
  }

  /**
   * The projects contributed by file `f`: its own, then each include
   * flattened in order. The file's own projects lead, in document order.
   */
  ghost function Flatten(tree: Tree, rank: map<string, nat>, f: string): (ps: seq<Project>)
    requires Ranked(tree, rank) && f in tree
    ensures |ps| >= |tree[f].projects|
    ensures forall j :: 0 <= j < |tree[f].projects| ==> ps[j] == tree[f].projects[j]
    decreases rank[f], 1, 0
  {
    tree[f].projects + FlattenAll(tree, rank, tree[f].includes, rank[f])
  }

  /**
   * The flattenings of the files `fs`, one after the other: nothing for no
   * file.
   */
  ghost function FlattenAll(tree: Tree, rank: map<string, nat>, fs: seq<string>, bound: nat): (ps: seq<Project>)
    requires Ranked(tree, rank) && Below(tree, rank, fs, bound)
    ensures fs == [] ==> ps == []
    decreases bound, 0, |fs|
  {
    if fs == [] then [] else Flatten(tree, rank, fs[0]) + FlattenAll(tree, rank, fs[1..], bound)
  }

  /** Flattening a concatenation of include lists concatenates their flattenings. */
  lemma {:induction false} FlattenAllAppend(tree: Tree, rank: map<string, nat>, a: seq<string>, b: seq<string>, bound: nat)
    requires Ranked(tree, rank) && Below(tree, rank, a, bound) && Below(tree, rank, b, bound)
    ensures Below(tree, rank, a + b, bound)
    ensures FlattenAll(tree, rank, a + b, bound) == FlattenAll(tree, rank, a, bound) + FlattenAll(tree, rank, b, bound)
    decreases |a|
  {
    if a == [] {
      assert a + b == b;
    } else {
      assert (a + b)[0] == a[0] && (a + b)[1..] == a[1..] + b;
      FlattenAllAppend(tree, rank, a[1..], b, bound);
    }
  }

  /** The flattening of the first `j + 1` files is that of the first `j` followed by that of file `j`. */
  lemma FlattenAllStep(tree: Tree, rank: map<string, nat>, fs: seq<string>, bound: nat, j: nat)
    requires Ranked(tree, rank) && Below(tree, rank, fs, bound) && j < |fs|
    ensures fs[j] in tree && fs[j] in rank && rank[fs[j]] < bound
    ensures Below(tree, rank, fs[..j], bound) && Below(tree, rank, fs[..j + 1], bound)
    ensures FlattenAll(tree, rank, fs[..j + 1], bound) == FlattenAll(tree, rank, fs[..j], bound) + Flatten(tree, rank, fs[j])
  {
    assert fs[..j + 1] == fs[..j] + [fs[j]];
    assert [fs[j]][1..] == [];
    FlattenAllAppend(tree, rank, fs[..j], [fs[j]], bound);
  }

  /**
   * The result does not depend on the ranking chosen to show that includes
   * have no cycle, nor on the bound: the ranking is only a proof device.
   */
  lemma {:induction false} FlattenRankIrrelevant(tree: Tree, r1: map<string, nat>, r2: map<string, nat>, f: string)
    requires Ranked(tree, r1) && Ranked(tree, r2) && f in tree
    ensures Flatten(tree, r1, f) == Flatten(tree, r2, f)
    decreases r1[f], 1, 0
  {
    FlattenAllRankIrrelevant(tree, r1, r2, tree[f].includes, r1[f], r2[f]);
  }

  lemma {:induction false} FlattenAllRankIrrelevant(tree: Tree, r1: map<string, nat>, r2: map<string, nat>, fs: seq<string>, b1: nat, b2: nat)
    requires Ranked(tree, r1) && Ranked(tree, r2) && Below(tree, r1, fs, b1) && Below(tree, r2, fs, b2)
    ensures FlattenAll(tree, r1, fs, b1) == FlattenAll(tree, r2, fs, b2)
    decreases b1, 0, |fs|
  {
    if fs != [] {
      FlattenRankIrrelevant(tree, r1, r2, fs[0]);
      FlattenAllRankIrrelevant(tree, r1, r2, fs[1..], b1, b2);
    }
  }

  /**
   * No de-duplication: the flattening of a file holds, with multiplicity,
   * its own projects and the whole flattening of each file it includes.
   */
  lemma IncludeKept(tree: Tree, rank: map<string, nat>, f: string, j: nat)
    requires Ranked(tree, rank) && f in tree && j < |tree[f].includes|
    ensures multiset(tree[f].projects) + multiset(Flatten(tree, rank, tree[f].includes[j])) <= multiset(Flatten(tree, rank, f))
  {
    var fs := tree[f].includes;
    FlattenAllKeeps(tree, rank, fs, rank[f], j);
  }

  lemma {:induction false} FlattenAllKeeps(tree: Tree, rank: map<string, nat>, fs: seq<string>, bound: nat, j: nat)
    requires Ranked(tree, rank) && Below(tree, rank, fs, bound) && j < |fs|
    ensures multiset(Flatten(tree, rank, fs[j])) <= multiset(FlattenAll(tree, rank, fs, bound))
    decreases |fs|
  {
    if j > 0 {
      FlattenAllKeeps(tree, rank, fs[1..], bound, j - 1);
    }
  }

  /**
   * The length of the flattening is the number of projects summed over the
   * whole include tree, every include counted each time it is included.
   */
  lemma {:induction false} FlattenLength(tree: Tree, rank: map<string, nat>, f: string)
    requires Ranked(tree, rank) && f in tree
    ensures |Flatten(tree, rank, f)| == TreeCount(tree, rank, f)
    decreases rank[f], 1, 0
  {
    FlattenAllLength(tree, rank, tree[f].includes, rank[f]);
  }

  lemma {:induction false} FlattenAllLength(tree: Tree, rank: map<string, nat>, fs: seq<string>, bound: nat)
    requires Ranked(tree, rank) && Below(tree, rank, fs, bound)
    ensures |FlattenAll(tree, rank, fs, bound)| == TreeCountAll(tree, rank, fs, bound)
    decreases bound, 0, |fs|
  {
    if fs != [] {
      FlattenLength(tree, rank, fs[0]);
      FlattenAllLength(tree, rank, fs[1..], bound);
    }
  }

  /** The number of project elements in `f` and, recursively, in every file it includes. */
  ghost function TreeCount(tree: Tree, rank: map<string, nat>, f: string): nat
    requires Ranked(tree, rank) && f in tree
    decreases rank[f], 1, 0
  {
    |tree[f].projects| + TreeCountAll(tree, rank, tree[f].includes, rank[f])
  }

  ghost function TreeCountAll(tree: Tree, rank: map<string, nat>, fs: seq<string>, bound: nat): nat
    requires Ranked(tree, rank) && Below(tree, rank, fs, bound)
    decreases bound, 0, |fs|
  {
    if fs == [] then 0 else TreeCount(tree, rank, fs[0]) + TreeCountAll(tree, rank, fs[1..], bound)
  }

  /** The include order of a manifest that includes B and then C. */
  lemma IncludeOrderExample(p1: Project, p2: Project, p3: Project)
    ensures var tree := map[
              "A" := ManifestFile([], ["B", "C"]),
              "B" := ManifestFile([p1, p2], []),
              "C" := ManifestFile([p3], [])];
            var rank := map["A" := 1, "B" := 0, "C" := 0];
            Ranked(tree, rank) && Flatten(tree, rank, "A") == [p1, p2, p3]
  {
    var tree := map[
      "A" := ManifestFile([], ["B", "C"]),
      "B" := ManifestFile([p1, p2], []),
      "C" := ManifestFile([p3], [])];
    var rank := map["A" := 1, "B" := 0, "C" := 0];
    assert Ranked(tree, rank);
    assert ["B", "C"][1..] == ["C"];
    assert FlattenAll(tree, rank, ["C"], 1) == [p3];
  }

  /**
   * `_parse_projects_from_xml(base, xml_path, projects)`: leaves `projects`
   * as its old contents followed by the flattening of `xmlPath`. The shared
   * list is threaded through as a value; `tree` stands for the files under
   * `base`.
   */
  method ParseProjectsFromXml(tree: Tree, ghost rank: map<string, nat>, xmlPath: string, projects: seq<Project>)
    returns (projects': seq<Project>)
    requires Ranked(tree, rank) && xmlPath in tree
    ensures projects' == projects + Flatten(tree, rank, xmlPath)
    decreases rank[xmlPath]
  {
    var doc := tree[xmlPath];
    projects' := projects;
    for i := 0 to |doc.projects|
      invariant projects' == projects + doc.projects[..i]
    {
      projects' := projects' + [doc.projects[i]];
    }
    assert doc.projects[..|doc.projects|] == doc.projects;
    assert Below(tree, rank, doc.includes, rank[xmlPath]);
    for j := 0 to |doc.includes|
      invariant Below(tree, rank, doc.includes[..j], rank[xmlPath])
      invariant projects' == projects + doc.projects + FlattenAll(tree, rank, doc.includes[..j], rank[xmlPath])
    {
      FlattenAllStep(tree, rank, doc.includes, rank[xmlPath], j);
      ghost var before := FlattenAll(tree, rank, doc.includes[..j], rank[xmlPath]);
      projects' := ParseProjectsFromXml(tree, rank, doc.includes[j], projects');
      assert projects' == projects + doc.projects + (before + Flatten(tree, rank, doc.includes[j]));
    }
    assert doc.includes[..|doc.includes|] == doc.includes;
    assert Flatten(tree, rank, xmlPath) == doc.projects + FlattenAll(tree, rank, doc.includes, rank[xmlPath]);
  }

}
