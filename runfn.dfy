/** The `RunFns` orchestrator: which discovered functions become filters, in
    which order, and how each filter is built. */
module Runfn {
  import opened Functions
  import opened Ordering

  /** The configuration of one run. `noFunctionsFromInput` is the tri-state
      `*bool` of the source: None (nil), Some(true), Some(false). `output`
      records whether an `Output` writer is configured. */
  datatype RunFns = RunFns(
    path: string,
    functionPaths: seq<string>,
    noFunctionsFromInput: Option<bool>,
    globalScope: bool,
    output: bool)

  /** A `RunFns{}` literal with only the given fields set. */
  function WithDefaults(path: string, functionPaths: seq<string>, noFunctionsFromInput: Option<bool>): RunFns
  {
    RunFns(path, functionPaths, noFunctionsFromInput, false, false)
  }

  /** The filter that runs one function's container. Running it is outside
      the model; it is known by its image, configuration and scope. */
  datatype ContainerFilter = ContainerFilter(image: string, config: Document, globalScope: bool)

  /** What `fmt.Sprintf("%v", filter)` prints for a container filter: its image. */
  function FilterString(f: ContainerFilter): string
  {
    f.image
  }

  /** White space as `unicode.IsSpace` defines it. */
  predicate IsSpace(c: char)
  {
    c == ' ' || c == '\t' || c == '\n' || c == '\r' || c == '\U{000B}' || c == '\U{000C}' ||
    c == '\U{0085}' || c == '\U{00A0}' || c == '\U{1680}' || ('\U{2000}' <= c <= '\U{200A}') ||
    c == '\U{2028}' || c == '\U{2029}' || c == '\U{202F}' || c == '\U{205F}' || c == '\U{3000}'
  }

  /** A string that neither starts nor ends with white space. */
  predicate Trimmed(s: string)
  {
    s == [] || (!IsSpace(s[0]) && !IsSpace(s[|s| - 1]))
  }

  /** `s` without its leading white space. */
  function TrimLeft(s: string): string
  {
    if s != [] && IsSpace(s[0]) then TrimLeft(s[1..]) else s
  }

  /** `s` without its trailing white space. */
  function TrimRight(s: string): string
  {
    if s != [] && IsSpace(s[|s| - 1]) then TrimRight(s[..|s| - 1]) else s
  }

  /** `strings.TrimSpace`: `s` without its leading and trailing white space. */
  function TrimSpace(s: string): string
  {
    TrimRight(TrimLeft(s))
  }

  /** Trimming on the left drops exactly the leading white space. */
  lemma {:induction false} TrimLeftDropsLeading(s: string)
    ensures var r := TrimLeft(s);
            && |r| <= |s| && r == s[|s| - |r|..]
            && (forall k :: 0 <= k < |s| - |r| ==> IsSpace(s[k]))
            && (r == [] || !IsSpace(r[0]))
  {
    if s != [] && IsSpace(s[0]) {
      TrimLeftDropsLeading(s[1..]);
      var r := TrimLeft(s[1..]);
      forall k | 1 <= k < |s| - |r|
        ensures IsSpace(s[k])
      {
        assert s[k] == s[1..][k - 1];
      }
    }
  }

  /** Trimming on the right drops exactly the trailing white space. */
  lemma {:induction false} TrimRightDropsTrailing(s: string)
    ensures var r := TrimRight(s);
            && |r| <= |s| && r == s[..|r|]
            && (forall k :: |r| <= k < |s| ==> IsSpace(s[k]))
            && (r == [] || !IsSpace(r[|r| - 1]))
  {
    if s != [] && IsSpace(s[|s| - 1]) {
      var t := s[..|s| - 1];
      TrimRightDropsTrailing(t);
      var r := TrimRight(t);
      assert r == s[..|r|];
      forall k | |r| <= k < |s| - 1
        ensures IsSpace(s[k])
      {
        assert s[k] == t[k];
      }
    }
  }

  /** Trimming removes white space only, and only at the two ends: the result
      is the slice of `s` between its leading and its trailing white space,
      and it neither starts nor ends with white space. */
  lemma TrimSpaceSlice(s: string)
    ensures var r, i := TrimSpace(s), |s| - |TrimLeft(s)|;
            && Trimmed(r)
            && |TrimLeft(s)| <= |s| && i + |r| <= |s| && r == s[i..i + |r|]
            && (forall k :: 0 <= k < i ==> IsSpace(s[k]))
            && (forall k :: i + |r| <= k < |s| ==> IsSpace(s[k]))
  {
    var t := TrimLeft(s);
    TrimLeftDropsLeading(s);
    TrimRightDropsTrailing(t);
    var r := TrimRight(t);
    var i := |s| - |t|;
    assert r == s[i..i + |r|];
    forall k | i + |r| <= k < |s|
      ensures IsSpace(s[k])
    {
      assert s[k] == t[k - i];
    }
    if r != [] {
      assert r[0] == t[0];
    }
  }

  /** Trimming a string that has no white space at either end keeps it. */
  lemma TrimSpaceKeepsTrimmed(s: string)
    requires Trimmed(s)
    ensures TrimSpace(s) == s
  {
    assert TrimLeft(s) == s;
    assert TrimRight(s) == s;
  }

  /** Each string of a list, trimmed. */
  function TrimAll(ss: seq<string>): (ts: seq<string>)
    ensures |ts| == |ss| && forall i :: 0 <= i < |ss| ==> ts[i] == TrimSpace(ss[i])
  {
    seq(|ss|, i requires 0 <= i < |ss| => TrimSpace(ss[i]))
  }

  /** Trimming a list of strings without outer white space keeps it. */
  lemma TrimAllKeepsTrimmed(ss: seq<string>)
    requires forall i :: 0 <= i < |ss| ==> Trimmed(ss[i])
    ensures TrimAll(ss) == ss
  {
    forall i | 0 <= i < |ss|
      ensures TrimAll(ss)[i] == ss[i]
    {
      TrimSpaceKeepsTrimmed(ss[i]);
    }
  }

  /** Inclusion policy for functions found inside the package: forced off by
      `true`, forced on by `false`, and when unset, kept only if no
      `FunctionPaths` were given. */
  function KeepImplicit(noFunctionsFromInput: Option<bool>, functionPaths: seq<string>): (keep: bool)
    ensures keep <==> noFunctionsFromInput == Some(false) || (noFunctionsFromInput == None && functionPaths == [])
  {
    match noFunctionsFromInput
    case Some(skip) => !skip
    case None => |functionPaths| == 0
  }

  /** Functions found in the `FunctionPaths` locations, location by location in
      the order the locations were supplied; those of location k are explicit
      with location index k. */
  function ExplicitFunctions(locationDocs: seq<seq<Document>>): (fns: seq<FunctionSpec>)
    ensures forall i :: 0 <= i < |fns| ==> fns[i].origin.Explicit? && fns[i].origin.location < |locationDocs|
    ensures forall i, j :: 0 <= i < j < |fns| ==> fns[i].origin.location <= fns[j].origin.location
    ensures forall i, j :: 0 <= i < j < |fns| && fns[i].origin == fns[j].origin ==> fns[i].index < fns[j].index
    decreases |locationDocs|
  {
    if locationDocs == [] then []
    else
      var n := |locationDocs| - 1;
      var front := ExplicitFunctions(locationDocs[..n]);
      var last := Discover(locationDocs[n], Explicit(n));
      DiscoverOrigin(locationDocs[n], Explicit(n));
      assert forall j :: 0 <= j < |last| ==> last[j] in last;
      front + last
  }

  /** A function comes from `FunctionPaths` exactly when it is discovered in
      one of the locations, under that location's index. */
  lemma {:induction false} ExplicitMembers(locationDocs: seq<seq<Document>>)
    ensures forall f :: f in ExplicitFunctions(locationDocs) <==>
              exists k :: 0 <= k < |locationDocs| && f in Discover(locationDocs[k], Explicit(k))
    decreases |locationDocs|
  {
    if locationDocs != [] {
      var n := |locationDocs| - 1;
      var front := locationDocs[..n];
      ExplicitMembers(front);
      assert ExplicitFunctions(locationDocs) == ExplicitFunctions(front) + Discover(locationDocs[n], Explicit(n));
      forall f | f in ExplicitFunctions(locationDocs)
        ensures exists k :: 0 <= k < |locationDocs| && f in Discover(locationDocs[k], Explicit(k))
      {
        if f in ExplicitFunctions(front) {
          var k :| 0 <= k < |front| && f in Discover(front[k], Explicit(k));
          assert front[k] == locationDocs[k];
        } else {
          assert f in Discover(locationDocs[n], Explicit(n));
        }
      }
      forall f, k | 0 <= k < |locationDocs| && f in Discover(locationDocs[k], Explicit(k))
        ensures f in ExplicitFunctions(locationDocs)
      {
        if k < n {
          assert front[k] == locationDocs[k];
        }
      }
    }
  }

  /** `fns` is a filter chain made of the kept implicit functions, deepest
      first, followed by the explicit functions in the order they were found. */
  ghost predicate ChainOf(fns: seq<FunctionSpec>, keep: bool, implicit: seq<FunctionSpec>, explicit: seq<FunctionSpec>)
  {
    exists kept :: fns == kept + explicit && DeepestFirst(kept) &&
                   multiset(kept) == (if keep then multiset(implicit) else multiset{})
  }

  /** The functions of one run in execution order. */
  function OrderedFunctions(r: RunFns, packageDocs: seq<Document>, locationDocs: seq<seq<Document>>): (fns: seq<FunctionSpec>)
    requires |locationDocs| == |r.functionPaths|
    ensures ChainOf(fns, KeepImplicit(r.noFunctionsFromInput, r.functionPaths),
                    Discover(packageDocs, Implicit), ExplicitFunctions(locationDocs))
  {
    var implicit := Discover(packageDocs, Implicit);
    var kept := if KeepImplicit(r.noFunctionsFromInput, r.functionPaths) then SortDeepestFirst(implicit) else [];
    SortKeepsLength(implicit);
    assert (kept + ExplicitFunctions(locationDocs))[..|kept|] == kept;
    kept + ExplicitFunctions(locationDocs)
  }

  /** The chain of a run split at the boundary between its implicit part and
      its explicit part. */
  lemma {:induction false} OrderedSplit(r: RunFns, packageDocs: seq<Document>, locationDocs: seq<seq<Document>>)
    requires |locationDocs| == |r.functionPaths|
    ensures var fns, explicit := OrderedFunctions(r, packageDocs, locationDocs), ExplicitFunctions(locationDocs);
            var implicit := Discover(packageDocs, Implicit);
            var keep := KeepImplicit(r.noFunctionsFromInput, r.functionPaths);
            && |fns| == (if keep then |implicit| else 0) + |explicit|
            && fns[|fns| - |explicit|..] == explicit
            && DeepestFirst(fns[..|fns| - |explicit|])
            && multiset(fns[..|fns| - |explicit|]) == (if keep then multiset(implicit) else multiset{})
  {
    var fns, explicit := OrderedFunctions(r, packageDocs, locationDocs), ExplicitFunctions(locationDocs);
    var implicit := Discover(packageDocs, Implicit);
    var keep := KeepImplicit(r.noFunctionsFromInput, r.functionPaths);
    var kept :| fns == kept + explicit && DeepestFirst(kept) &&
                multiset(kept) == (if keep then multiset(implicit) else multiset{});
    assert fns[..|kept|] == kept && fns[|kept|..] == explicit;
    assert |kept| == |multiset(kept)|;
  }

  /** The functions before the explicit suffix of a chain are all implicit. */
  lemma PrefixImplicit(r: RunFns, packageDocs: seq<Document>, locationDocs: seq<seq<Document>>)
    requires |locationDocs| == |r.functionPaths|
    ensures var fns := OrderedFunctions(r, packageDocs, locationDocs);
            forall i :: 0 <= i < |fns| - |ExplicitFunctions(locationDocs)| ==> fns[i].origin == Implicit
  {
    var fns := OrderedFunctions(r, packageDocs, locationDocs);
    var k := |fns| - |ExplicitFunctions(locationDocs)|;
    OrderedSplit(r, packageDocs, locationDocs);
    DiscoverOrigin(packageDocs, Implicit);
    forall i | 0 <= i < k
      ensures fns[i].origin == Implicit
    {
      assert fns[..k][i] in multiset(fns[..k]);
      assert fns[i] in Discover(packageDocs, Implicit);
    }
  }

  /** The functions of the explicit suffix of a chain are all explicit. */
  lemma SuffixExplicit(r: RunFns, packageDocs: seq<Document>, locationDocs: seq<seq<Document>>)
    requires |locationDocs| == |r.functionPaths|
    ensures var fns := OrderedFunctions(r, packageDocs, locationDocs);
            forall j :: |fns| - |ExplicitFunctions(locationDocs)| <= j < |fns| ==> fns[j].origin.Explicit?
  {
    var fns := OrderedFunctions(r, packageDocs, locationDocs);
    var k := |fns| - |ExplicitFunctions(locationDocs)|;
    OrderedSplit(r, packageDocs, locationDocs);
    forall j | k <= j < |fns|
      ensures fns[j].origin.Explicit?
    {
      assert fns[j] == fns[k..][j - k];
    }
  }

  /** Every function found inside the package runs before every function
      from `FunctionPaths`. */
  lemma ImplicitBeforeExplicit(r: RunFns, packageDocs: seq<Document>, locationDocs: seq<seq<Document>>)
    requires |locationDocs| == |r.functionPaths|
    ensures var fns := OrderedFunctions(r, packageDocs, locationDocs);
            forall i, j :: 0 <= i < j < |fns| && fns[i].origin.Explicit? ==> fns[j].origin.Explicit?
  {
    PrefixImplicit(r, packageDocs, locationDocs);
    SuffixExplicit(r, packageDocs, locationDocs);
  }

  /** The implicit functions of a run, in the order they run, run deepest first. */
  lemma ImplicitDeepestFirst(r: RunFns, packageDocs: seq<Document>, locationDocs: seq<seq<Document>>)
    requires |locationDocs| == |r.functionPaths|
    ensures var fns := OrderedFunctions(r, packageDocs, locationDocs);
            forall i, j :: 0 <= i < j < |fns| && fns[j].origin == Implicit ==>
              fns[i].origin == Implicit && FnDepth(fns[j]) <= FnDepth(fns[i])
  {
    var fns := OrderedFunctions(r, packageDocs, locationDocs);
    var explicit := ExplicitFunctions(locationDocs);
    var k := |fns| - |explicit|;
    OrderedSplit(r, packageDocs, locationDocs);
    ImplicitBeforeExplicit(r, packageDocs, locationDocs);
    forall i, j | 0 <= i < j < |fns| && fns[j].origin == Implicit
      ensures fns[i].origin == Implicit && FnDepth(fns[j]) <= FnDepth(fns[i])
    {
      assert fns[..k][i] == fns[i] && fns[..k][j] == fns[j];
    }
  }

  /** The inclusion policy, run by run: an implicit function is in the chain
      exactly when the policy keeps implicit functions and the package
      declares it. */
  lemma InclusionPolicy(r: RunFns, packageDocs: seq<Document>, locationDocs: seq<seq<Document>>, f: FunctionSpec)
    requires |locationDocs| == |r.functionPaths|
    requires f.origin == Implicit
    ensures f in OrderedFunctions(r, packageDocs, locationDocs) <==>
            KeepImplicit(r.noFunctionsFromInput, r.functionPaths) && f in Discover(packageDocs, Implicit)
  {
    var fns := OrderedFunctions(r, packageDocs, locationDocs);
    var explicit := ExplicitFunctions(locationDocs);
    OrderedSplit(r, packageDocs, locationDocs);
    var k := |fns| - |explicit|;
    assert fns == fns[..k] + fns[k..];
    assert f !in explicit;
    assert f in fns <==> f in multiset(fns[..k]);
  }

  /** When the policy drops implicit functions, only the explicit ones run. */
  lemma DroppedImplicitRunNothing(r: RunFns, packageDocs: seq<Document>, locationDocs: seq<seq<Document>>)
    requires |locationDocs| == |r.functionPaths|
    requires !KeepImplicit(r.noFunctionsFromInput, r.functionPaths)
    ensures OrderedFunctions(r, packageDocs, locationDocs) == ExplicitFunctions(locationDocs)
  {
    OrderedSplit(r, packageDocs, locationDocs);
  }

  /** A package with one function runs exactly that function, before the
      explicit ones. */
  lemma SingleImplicitRuns(r: RunFns, packageDocs: seq<Document>, locationDocs: seq<seq<Document>>, a: FunctionSpec)
    requires |locationDocs| == |r.functionPaths|
    requires KeepImplicit(r.noFunctionsFromInput, r.functionPaths)
    requires Discover(packageDocs, Implicit) == [a]
    ensures OrderedFunctions(r, packageDocs, locationDocs) == [a] + ExplicitFunctions(locationDocs)
  {
    var fns, explicit := OrderedFunctions(r, packageDocs, locationDocs), ExplicitFunctions(locationDocs);
    OrderedSplit(r, packageDocs, locationDocs);
    var kept := fns[..|fns| - |explicit|];
    assert kept[0] in multiset(kept);
    assert fns == kept + explicit;
  }

  /** Of two functions in a package, the deeper one runs first whichever of
      them was discovered first. */
  lemma DeeperImplicitRunsFirst(r: RunFns, packageDocs: seq<Document>, locationDocs: seq<seq<Document>>,
                                a: FunctionSpec, b: FunctionSpec)
    requires |locationDocs| == |r.functionPaths|
    requires KeepImplicit(r.noFunctionsFromInput, r.functionPaths)
    requires multiset(Discover(packageDocs, Implicit)) == multiset{a, b}
    requires FnDepth(b) < FnDepth(a)
    ensures OrderedFunctions(r, packageDocs, locationDocs) == [a, b] + ExplicitFunctions(locationDocs)
  {
    var fns, explicit := OrderedFunctions(r, packageDocs, locationDocs), ExplicitFunctions(locationDocs);
    OrderedSplit(r, packageDocs, locationDocs);
    var kept := fns[..|fns| - |explicit|];
    DeeperRunsFirst(kept, a, b);
    assert fns == kept + explicit;
  }

  /** Two annotated package documents yield one function each, in order. */
  lemma DiscoverPair(docs: seq<Document>)
    requires |docs| == 2 && docs[0].functionImage.Some? && docs[1].functionImage.Some?
    ensures Discover(docs, Implicit) == [SpecOf(docs[0], Implicit, 0).value, SpecOf(docs[1], Implicit, 1).value]
  {
    DiscoverAllAnnotated(docs, Implicit, 0);
  }

  /** The images of a pair of functions. */
  lemma ImagesOfPair(a: FunctionSpec, b: FunctionSpec)
    ensures Images([a, b]) == [a.image, b.image]
  {
    assert [a, b][1..] == [b];
    assert [b][1..] == [];
  }

  /** Two package functions at different depths, implicit functions kept and
      no function paths: the deeper image is printed first. */
  lemma TwoImplicitImages(r: RunFns, docs: seq<Document>, a: FunctionSpec, b: FunctionSpec)
    requires r.functionPaths == [] && KeepImplicit(r.noFunctionsFromInput, r.functionPaths)
    requires Discover(docs, Implicit) == [a, b] || Discover(docs, Implicit) == [b, a]
    requires FnDepth(b) < FnDepth(a)
    ensures Images(OrderedFunctions(r, docs, [])) == [a.image, b.image]
  {
    PairMultiset(a, b);
    assert ExplicitFunctions([]) == [];
    DeeperImplicitRunsFirst(r, docs, [], a, b);
    ImagesOfPair(a, b);
  }

  /** The filter factory installed by `init()`: a container filter for the
      image and configuration, globally scoped exactly when the run is. The
      function's path is not used. */
  function ContainerFilterProvider(r: RunFns, image: string, path: string, config: Document): (f: ContainerFilter)
    ensures f.image == image && f.config == config
    ensures f.globalScope <==> r.globalScope
  {
    ContainerFilter(image, config, r.globalScope)
  }

  /** The filter a function turns into. */
  function FilterFor(r: RunFns, f: FunctionSpec): ContainerFilter
  {
    ContainerFilterProvider(r, f.image, f.path, f.config)
  }

  /** `getFilters`: the filters of one run, one per function in execution
      order, built by appending to a list. */
  method GetFilters(r: RunFns, packageDocs: seq<Document>, locationDocs: seq<seq<Document>>)
    returns (fltrs: seq<ContainerFilter>)
    requires |locationDocs| == |r.functionPaths|
    ensures var fns := OrderedFunctions(r, packageDocs, locationDocs);
            |fltrs| == |fns| && forall i :: 0 <= i < |fns| ==> fltrs[i] == FilterFor(r, fns[i])
  {
    var fns := OrderedFunctions(r, packageDocs, locationDocs);
    fltrs := [];
    var i := 0;
    while i < |fns|
      invariant 0 <= i <= |fns|
      invariant |fltrs| == i
      invariant forall k :: 0 <= k < i ==> fltrs[k] == FilterFor(r, fns[k])
    {
      fltrs := fltrs + [ContainerFilterProvider(r, fns[i].image, fns[i].path, fns[i].config)];
      i := i + 1;
    }
  }

  /** The images of the functions, in order. */
  function Images(fns: seq<FunctionSpec>): (images: seq<string>)
    ensures |images| == |fns|
  {
    if fns == [] then [] else [fns[0].image] + Images(fns[1..])
  }

  /** Position by position, the images are those of the functions. */
  lemma {:induction false} ImagesAt(fns: seq<FunctionSpec>)
    ensures forall i :: 0 <= i < |fns| ==> Images(fns)[i] == fns[i].image
  {
    if fns != [] {
      ImagesAt(fns[1..]);
      forall i | 1 <= i < |fns|
        ensures Images(fns)[i] == fns[i].image
      {
        assert Images(fns)[i] == Images(fns[1..])[i - 1];
      }
    }
  }

  /** The printed form of a filter list: each filter's printed form, with
      `strings.TrimSpace` applied. */
  method FilterStrings(fltrs: seq<ContainerFilter>) returns (results: seq<string>)
    ensures |results| == |fltrs|
    ensures forall i :: 0 <= i < |fltrs| ==> results[i] == TrimSpace(FilterString(fltrs[i]))
  {
    results := [];
    for i := 0 to |fltrs|
      invariant |results| == i
      invariant forall k :: 0 <= k < i ==> results[k] == TrimSpace(FilterString(fltrs[k]))
    {
      results := results + [TrimSpace(FilterString(fltrs[i]))];
    }
  }
}
