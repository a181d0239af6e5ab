/** Function definitions as they are found in a configuration package: the
    documents that carry the `config.kubernetes.io/function` annotation, their
    home-directory depth, and their discovery in a stream of documents. */
module Functions {

  datatype Option<+T> = None | Some(value: T)

  /** One structured document read from a package or from a function path.
      `functionImage` is the container image named by the function annotation
      (None when the document carries no function annotation); `localConfig` is
      the `config.kubernetes.io/local-config` marker. The rest of the document
      is not interpreted. */
  datatype Document = Document(path: string, functionImage: Option<string>, localConfig: bool)

  /** Where a function was found: inside the package (implicit) or in the
      `location`-th entry of `FunctionPaths` (explicit). */
  datatype Origin = Implicit | Explicit(location: nat)

  /** A discovered function: its image, the path of the file declaring it
      (relative to the root it was read from), where it came from, its
      discovery index and the backing document, handed to the filter factory
      as the function's configuration. */
  datatype FunctionSpec = FunctionSpec(image: string, path: string, origin: Origin, index: nat, config: Document)

  /** Number of directories between the root and a file: the number of path
      separators in its relative path ("a.yaml" is at depth 0, "foo/b.yaml" at
      depth 1). */
  function Depth(path: string): (d: nat)
    ensures d <= |path|
  {
    if path == [] then 0
    else (if path[0] == '/' then 1 else 0) + Depth(path[1..])
  }

  /** A file name without a separator sits at the root. */
  lemma {:induction false} DepthOfName(name: string)
    requires forall i :: 0 <= i < |name| ==> name[i] != '/'
    ensures Depth(name) == 0
  {
    if name != [] {
      DepthOfName(name[1..]);
    }
  }

  /** The function a document declares, if any. Only the function annotation
      decides: a document without the local-config marker is still a function. */
  function SpecOf(d: Document, origin: Origin, index: nat): (f: Option<FunctionSpec>)
    ensures f.Some? <==> d.functionImage.Some?
    ensures f.Some? ==> f.value.image == d.functionImage.value && f.value.path == d.path
                        && f.value.origin == origin && f.value.index == index && f.value.config == d
  {
    match d.functionImage
    case None => None
    case Some(image) => Some(FunctionSpec(image, d.path, origin, index, d))
  }

  /** The functions declared in `docs`, in document order; the document at
      position j gets discovery index `start + j`. */
  function DiscoverFrom(docs: seq<Document>, origin: Origin, start: nat): (fns: seq<FunctionSpec>)
    ensures |fns| <= |docs|
    ensures forall i :: 0 <= i < |fns| ==> start <= fns[i].index < start + |docs|
    ensures forall i, k :: 0 <= i < k < |fns| ==> fns[i].index < fns[k].index
    decreases |docs|
  {
    if docs == [] then []
    else
      var rest := DiscoverFrom(docs[1..], origin, start + 1);
      match SpecOf(docs[0], origin, start)
      case None => rest
      case Some(f) => [f] + rest
  }

  /** Every discovered function is the one declared by the document its
      discovery index points at. */
  lemma {:induction false} DiscoverSound(docs: seq<Document>, origin: Origin, start: nat)
    ensures forall f :: f in DiscoverFrom(docs, origin, start) ==>
              start <= f.index < start + |docs| && SpecOf(docs[f.index - start], origin, f.index) == Some(f)
    decreases |docs|
  {
    if docs != [] {
      var rest := DiscoverFrom(docs[1..], origin, start + 1);
      DiscoverSound(docs[1..], origin, start + 1);
      forall f | f in rest
        ensures start < f.index < start + |docs| && SpecOf(docs[f.index - start], origin, f.index) == Some(f)
      {
        assert docs[f.index - start] == docs[1..][f.index - (start + 1)];
      }
      if docs[0].functionImage.Some? {
        var g := SpecOf(docs[0], origin, start).value;
        assert DiscoverFrom(docs, origin, start) == [g] + rest;
      } else {
        assert DiscoverFrom(docs, origin, start) == rest;
      }
    }
  }

  /** Every document carrying the function annotation yields a function. */
  lemma {:induction false} DiscoverComplete(docs: seq<Document>, origin: Origin, start: nat)
    ensures forall j :: 0 <= j < |docs| && docs[j].functionImage.Some? ==>
              SpecOf(docs[j], origin, start + j).value in DiscoverFrom(docs, origin, start)
    decreases |docs|
  {
    if docs != [] {
      var rest := DiscoverFrom(docs[1..], origin, start + 1);
      DiscoverComplete(docs[1..], origin, start + 1);
      forall j | 1 <= j < |docs| && docs[j].functionImage.Some?
        ensures SpecOf(docs[j], origin, start + j).value in rest
      {
        assert docs[1..][j - 1] == docs[j];
      }
      if docs[0].functionImage.Some? {
        var g := SpecOf(docs[0], origin, start).value;
        assert DiscoverFrom(docs, origin, start) == [g] + rest;
      } else {
        assert DiscoverFrom(docs, origin, start) == rest;
      }
    }
  }

  /** When every document declares a function, discovery yields exactly one
      function per document, in document order. */
  lemma {:induction false} DiscoverAllAnnotated(docs: seq<Document>, origin: Origin, start: nat)
    requires forall j :: 0 <= j < |docs| ==> docs[j].functionImage.Some?
    ensures var fns := DiscoverFrom(docs, origin, start);
            |fns| == |docs| && forall j :: 0 <= j < |docs| ==> Some(fns[j]) == SpecOf(docs[j], origin, start + j)
    decreases |docs|
  {
    if docs != [] {
      DiscoverAllAnnotated(docs[1..], origin, start + 1);
      var rest := DiscoverFrom(docs[1..], origin, start + 1);
      var fns := DiscoverFrom(docs, origin, start);
      assert fns == [SpecOf(docs[0], origin, start).value] + rest;
      forall j | 1 <= j < |docs|
        ensures Some(fns[j]) == SpecOf(docs[j], origin, start + j)
      {
        assert fns[j] == rest[j - 1] && docs[j] == docs[1..][j - 1];
      }
    }
  }

  /** Function discovery over one stream of documents. */
  function Discover(docs: seq<Document>, origin: Origin): (fns: seq<FunctionSpec>)
  {
    DiscoverFrom(docs, origin, 0)
  }

  /** Every discovered function carries the origin it was discovered under. */
  lemma DiscoverOrigin(docs: seq<Document>, origin: Origin)
    ensures forall f :: f in Discover(docs, origin) ==> f.origin == origin
  {
    DiscoverSound(docs, origin, 0);
  }

  /** The two document streams agree on everything but the local-config marker. */
  predicate SameButMarker(a: seq<Document>, b: seq<Document>)
  {
    |a| == |b| &&
    forall j :: 0 <= j < |a| ==> a[j].path == b[j].path && a[j].functionImage == b[j].functionImage
  }

  /** What a discovered function contributes to the filter chain apart from its
      backing document: image, path, origin and discovery index. */
  function Keys(fns: seq<FunctionSpec>): (ks: seq<(string, string, Origin, nat)>)
    ensures |ks| == |fns|
    ensures forall i :: 0 <= i < |fns| ==> ks[i] == (fns[i].image, fns[i].path, fns[i].origin, fns[i].index)
  {
    seq(|fns|, i requires 0 <= i < |fns| => (fns[i].image, fns[i].path, fns[i].origin, fns[i].index))
  }

  /** The keys of a function followed by others. */
  lemma KeysCons(f: FunctionSpec, rest: seq<FunctionSpec>)
    ensures Keys([f] + rest) == [(f.image, f.path, f.origin, f.index)] + Keys(rest)
  {
    var ks := Keys([f] + rest);
    assert forall i :: 1 <= i < |ks| ==> ([f] + rest)[i] == rest[i - 1];
  }

  /** Discovery does not look at the local-config marker: marking or unmarking
      documents changes neither which functions are found, nor their order,
      images, paths or indices. */
  lemma {:induction false} DiscoverIgnoresMarker(a: seq<Document>, b: seq<Document>, origin: Origin, start: nat)
    requires SameButMarker(a, b)
    ensures Keys(DiscoverFrom(a, origin, start)) == Keys(DiscoverFrom(b, origin, start))
    decreases |a|
  {
    if a != [] {
      assert SameButMarker(a[1..], b[1..]) by {
        forall j | 0 <= j < |a[1..]|
          ensures a[1..][j].path == b[1..][j].path && a[1..][j].functionImage == b[1..][j].functionImage
        {
          assert a[1..][j] == a[j + 1] && b[1..][j] == b[j + 1];
        }
      }
      var ra, rb := DiscoverFrom(a[1..], origin, start + 1), DiscoverFrom(b[1..], origin, start + 1);
      DiscoverIgnoresMarker(a[1..], b[1..], origin, start + 1);
      assert a[0].functionImage == b[0].functionImage;
      if a[0].functionImage.Some? {
        var fa, fb := SpecOf(a[0], origin, start).value, SpecOf(b[0], origin, start).value;
        assert DiscoverFrom(a, origin, start) == [fa] + ra;
        assert DiscoverFrom(b, origin, start) == [fb] + rb;
        KeysCons(fa, ra);
        KeysCons(fb, rb);
      } else {
        assert DiscoverFrom(a, origin, start) == ra;
        assert DiscoverFrom(b, origin, start) == rb;
      }
    }
  }
}
