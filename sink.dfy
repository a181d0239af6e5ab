/** Where `Execute` puts the resources once the filters have run: back into
    the package (in place), or, when an `Output` writer is configured, onto
    that stream with the package left untouched. The package is a map from
    the path of each file the reader read to the documents that file holds;
    a resource is one document with the path of the file it belongs to. */
module Sink {
  import Runfn

  /** A resource after the filters ran, with the package file it belongs to. */
  datatype Resource = Resource(path: string, content: string)

  /** The package files and the documents written to `Output` after a run. */
  datatype Outcome = Outcome(files: map<string, seq<string>>, stream: seq<string>)

  /** The paths the resources belong to. */
  function Paths(rs: seq<Resource>): (ps: set<string>)
    ensures forall i :: 0 <= i < |rs| ==> rs[i].path in ps
    ensures forall p :: p in ps ==> exists i :: 0 <= i < |rs| && rs[i].path == p
  {
    set i | 0 <= i < |rs| :: rs[i].path
  }

  /** The paths of a non-empty list: the first resource's and the rest's. */
  lemma PathsCons(rs: seq<Resource>)
    requires rs != []
    ensures Paths(rs) == {rs[0].path} + Paths(rs[1..])
  {
    forall p | p in Paths(rs)
      ensures p in {rs[0].path} + Paths(rs[1..])
    {
      var i :| 0 <= i < |rs| && rs[i].path == p;
      if i > 0 {
        assert rs[1..][i - 1].path == p;
      }
    }
  }

  /** The contents of the resources, in order: what the writer emits. */
  function Contents(rs: seq<Resource>): (cs: seq<string>)
    ensures |cs| == |rs|
  {
    if rs == [] then [] else [rs[0].content] + Contents(rs[1..])
  }

  /** Position by position, the emitted documents are the resources' contents. */
  lemma {:induction false} ContentsAt(rs: seq<Resource>)
    ensures forall i :: 0 <= i < |rs| ==> Contents(rs)[i] == rs[i].content
  {
    if rs != [] {
      ContentsAt(rs[1..]);
      forall i | 1 <= i < |rs|
        ensures Contents(rs)[i] == rs[i].content
      {
        assert Contents(rs)[i] == Contents(rs[1..])[i - 1];
      }
    }
  }

  /** The documents of file `p` after writing back: the contents of the
      resources that belong to `p`, in resource order. */
  function Grouped(rs: seq<Resource>, p: string): (g: seq<string>)
    ensures |g| <= |rs|
  {
    if rs == [] then []
    else (if rs[0].path == p then [rs[0].content] else []) + Grouped(rs[1..], p)
  }

  /** Grouping distributes over concatenation of resource lists. */
  lemma {:induction false} GroupedSplit(a: seq<Resource>, b: seq<Resource>, p: string)
    ensures Grouped(a + b, p) == Grouped(a, p) + Grouped(b, p)
  {
    if a == [] {
      assert a + b == b;
    } else {
      var head := if a[0].path == p then [a[0].content] else [];
      assert (a + b)[0] == a[0] && (a + b)[1..] == a[1..] + b;
      assert Grouped(a + b, p) == head + Grouped(a[1..] + b, p);
      GroupedSplit(a[1..], b, p);
      assert Grouped(a, p) == head + Grouped(a[1..], p);
    }
  }

  /** Resource i's content is in its file, at the position given by the
      number of earlier resources of the same file. */
  lemma GroupedAt(rs: seq<Resource>, i: nat)
    requires i < |rs|
    ensures var rank := |Grouped(rs[..i], rs[i].path)|;
            rank < |Grouped(rs, rs[i].path)| && Grouped(rs, rs[i].path)[rank] == rs[i].content
  {
    var p := rs[i].path;
    assert rs == rs[..i] + rs[i..];
    GroupedSplit(rs[..i], rs[i..], p);
    assert rs[i..][0] == rs[i];
    assert Grouped(rs[i..], p) == [rs[i].content] + Grouped(rs[i..][1..], p);
  }

  /** Of two resources of the same file, the earlier one comes first in it. */
  lemma GroupedKeepsOrder(rs: seq<Resource>, i: nat, j: nat)
    requires i < j < |rs| && rs[i].path == rs[j].path
    ensures |Grouped(rs[..i], rs[i].path)| < |Grouped(rs[..j], rs[j].path)|
  {
    var p := rs[i].path;
    assert rs[..j] == rs[..i] + rs[i..j];
    GroupedSplit(rs[..i], rs[i..j], p);
    assert rs[i..j][0] == rs[i];
    assert Grouped(rs[i..j], p) == [rs[i].content] + Grouped(rs[i..j][1..], p);
  }

  /** Resource `i` belongs to file `p` and has `k` earlier resources of that
      file: its content is document `k` of the file. */
  predicate HasRank(rs: seq<Resource>, p: string, i: int, k: int)
  {
    0 <= i < |rs| && rs[i].path == p && |Grouped(rs[..i], p)| == k
  }

  /** Document `k` of a file comes from the resource of that file with rank `k`. */
  lemma {:induction false} GroupedRank(rs: seq<Resource>, p: string, k: nat) returns (i: nat)
    requires k < |Grouped(rs, p)|
    ensures HasRank(rs, p, i, k) && Grouped(rs, p)[k] == rs[i].content
    decreases |rs|
  {
    var n := |rs| - 1;
    var front := rs[..n];
    assert rs == front + [rs[n]];
    GroupedSplit(front, [rs[n]], p);
    assert [rs[n]][1..] == [];
    if k < |Grouped(front, p)| {
      i := GroupedRank(front, p, k);
      assert rs[..i] == front[..i];
    } else {
      i := n;
    }
  }

  /** Document `k` of `file` is the content of the resource of `p` whose
      rank among the resources of `p` is `k`. */
  ghost predicate Ranked(rs: seq<Resource>, p: string, file: seq<string>, k: int)
  {
    0 <= k < |file| && exists i :: HasRank(rs, p, i, k) && file[k] == rs[i].content
  }

  /** Every document of a file is the content of the resource of that file
      with the matching rank, so a file holds no document beyond one per
      resource. */
  lemma GroupedOnto(rs: seq<Resource>, p: string)
    ensures forall k :: 0 <= k < |Grouped(rs, p)| ==> Ranked(rs, p, Grouped(rs, p), k)
  {
    forall k | 0 <= k < |Grouped(rs, p)|
      ensures Ranked(rs, p, Grouped(rs, p), k)
    {
      var i := GroupedRank(rs, p, k);
    }
  }

  /** Every document of a file is the content of a resource of that file. */
  lemma {:induction false} GroupedSound(rs: seq<Resource>, p: string)
    ensures forall c :: c in Grouped(rs, p) ==> exists i :: 0 <= i < |rs| && rs[i].path == p && rs[i].content == c
  {
    if rs != [] {
      GroupedSound(rs[1..], p);
      forall c | c in Grouped(rs, p)
        ensures exists i :: 0 <= i < |rs| && rs[i].path == p && rs[i].content == c
      {
        if rs[0].path == p && c == rs[0].content {
          assert rs[0].path == p && rs[0].content == c;
        } else {
          assert c in Grouped(rs[1..], p);
          var k :| 0 <= k < |rs[1..]| && rs[1..][k].path == p && rs[1..][k].content == c;
          assert rs[k + 1].path == p && rs[k + 1].content == c;
        }
      }
    }
  }

  /** A file holds documents after writing back exactly when some resource
      belongs to it. */
  lemma {:induction false} GroupedEmpty(rs: seq<Resource>, p: string)
    ensures Grouped(rs, p) == [] <==> p !in Paths(rs)
  {
    if rs != [] {
      PathsCons(rs);
      GroupedEmpty(rs[1..], p);
    }
  }

  /** In-place write-back: every file some resource belongs to holds that
      file's resources in order; a file that held resources before the run
      and holds none now is deleted. */
  function WriteBack(rs: seq<Resource>): (out: map<string, seq<string>>)
    ensures out.Keys == Paths(rs)
  {
    map p | p in Paths(rs) :: Grouped(rs, p)
  }

  /** The sink choice of `Execute`: with `Output` set, the resources go to the
      stream, in order, and the files stay as they were; otherwise the
      package becomes the write-back of the resources and nothing is
      streamed. */
  function Commit(r: Runfn.RunFns, files: map<string, seq<string>>, rs: seq<Resource>): (o: Outcome)
    ensures r.output ==> o.files == files && |o.stream| == |rs|
    ensures !r.output ==> o.stream == [] && o.files.Keys == Paths(rs)
  {
    if r.output then Outcome(files, Contents(rs)) else Outcome(WriteBack(rs), [])
  }

  /** With `Output` set, the package is untouched and the stream carries
      every resource's new content, in order. */
  lemma OutputLeavesPackage(r: Runfn.RunFns, files: map<string, seq<string>>, rs: seq<Resource>)
    requires r.output
    ensures var o := Commit(r, files, rs);
            o.files == files && forall i :: 0 <= i < |rs| ==> o.stream[i] == rs[i].content
  {
    ContentsAt(rs);
  }

  /** In place, each resource's content is written into its file, at the
      position given by the earlier resources of that file. */
  lemma InPlaceRewrites(r: Runfn.RunFns, files: map<string, seq<string>>, rs: seq<Resource>, i: nat)
    requires !r.output && i < |rs|
    ensures var o, p, rank := Commit(r, files, rs), rs[i].path, |Grouped(rs[..i], rs[i].path)|;
            p in o.files && rank < |o.files[p]| && o.files[p][rank] == rs[i].content
  {
    GroupedAt(rs, i);
  }

  /** In place, every document of a file is the content of the resource of
      that file with the matching rank: together with `InPlaceRewrites`, a
      file holds exactly its resources' contents, one document each. */
  lemma InPlaceOnto(r: Runfn.RunFns, files: map<string, seq<string>>, rs: seq<Resource>, p: string)
    requires !r.output
    ensures var o := Commit(r, files, rs);
            p in o.files ==> forall k :: 0 <= k < |o.files[p]| ==> Ranked(rs, p, o.files[p], k)
  {
    GroupedOnto(rs, p);
  }

  /** In place, a file holds nothing but the contents of its own resources. */
  lemma InPlaceOnlyOwnResources(r: Runfn.RunFns, files: map<string, seq<string>>, rs: seq<Resource>, p: string)
    requires !r.output
    ensures var o := Commit(r, files, rs);
            p in o.files ==>
              && o.files[p] != []
              && forall c :: c in o.files[p] ==> exists i :: 0 <= i < |rs| && rs[i].path == p && rs[i].content == c
  {
    GroupedSound(rs, p);
    GroupedEmpty(rs, p);
  }

  /** In place, a package file none of whose resources survived is deleted. */
  lemma InPlaceDeletesEmptied(r: Runfn.RunFns, files: map<string, seq<string>>, rs: seq<Resource>, p: string)
    requires !r.output && p in files && p !in Paths(rs)
    ensures p !in Commit(r, files, rs).files
  {
  }

  /** The in-place run: whichever resources the filters produced, each file
      a resource belongs to contains that resource's new content afterwards
      (the test reads `java/java-deployment.resource.yaml` back). */
  lemma InPlaceRun(r: Runfn.RunFns, files: map<string, seq<string>>, rs: seq<Resource>, i: nat)
    requires !r.output && i < |rs|
    ensures var o := Commit(r, files, rs);
            rs[i].path in o.files && rs[i].content in o.files[rs[i].path]
  {
    InPlaceRewrites(r, files, rs, i);
  }

  /** The run with `Output` set: every package file keeps its old content and
      each resource's new content appears on the stream instead. */
  lemma OutputRun(r: Runfn.RunFns, files: map<string, seq<string>>, rs: seq<Resource>, i: nat, p: string)
    requires r.output && i < |rs| && p in files
    ensures var o := Commit(r, files, rs);
            p in o.files && o.files[p] == files[p] && rs[i].content in o.stream
  {
    OutputLeavesPackage(r, files, rs);
  }
}
