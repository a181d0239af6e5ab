# kyaml `runfn`: choosing, ordering and building the functions of a run

`RunFns` runs the functions of a configuration package. A function is a
document that carries the `config.kubernetes.io/function` annotation naming a
container image. Functions come from two places. Implicit functions are
declared inside the package under `Path`. Explicit functions are declared in
the locations listed in `FunctionPaths`.

`getFilters` turns the functions into the filter chain of a run:

- The tri-state `NoFunctionsFromInput` decides whether implicit functions are
  used. `true` drops them. `false` keeps them. Unset (`nil`) keeps them only
  when `FunctionPaths` is empty.
- Kept implicit functions run first, the one declared deepest in the
  directory tree first. Explicit functions run last, location by location.
- The filter factory installed by `init()`,
  `containerFilterProvider(image, path, config)`, builds a
  `ContainerFilter{Image, Config, GlobalScope}`. `GlobalScope` is copied from
  `RunFns.GlobalScope`.

After the filters have run, `Execute` writes the resources back to their
files. When an `Output` writer is set, it writes them to that stream instead
and leaves the package untouched.

The implementation file of `runfn` is not part of this model. These rules
are the ones fixed by its test file, `kyaml/runfn/runfn_test.go`:

- the `getFilters` table;
- the two `containerFilterProvider` tests;
- the three `Execute` tests.

The test's own loops are modelled too: the loop that writes the function
files and builds `FunctionPaths`, and the loop that prints each filter.

Modules:

- `Functions` (functions.dfy) defines documents, function specs, depth, and
  discovery of the functions in a stream of documents.
- `Ordering` (ordering.dfy) holds the deepest-first sort. It is an insertion
  sort proved to give a deepest-first permutation of its input.
- `Runfn` (runfn.dfy) models `RunFns`:
  - the inclusion policy;
  - the chain of a run;
  - `containerFilterProvider`;
  - `getFilters` as a loop that appends one filter per function;
  - the printing loop.
- `RunfnTest` (runfn_test.dfy) models the table-driven test:
  - where each row's files are written (`PlaceFiles`, a loop with `fnPath`
    carried across iterations, proved equal to the function `Place`);
  - the body of a row (`RunCase`);
  - one lemma per table row, proving that the row yields exactly its expected
    image list.
- `Sink` (sink.dfy) models the sink choice of `Execute`. The package is a
  map from the path of each file the reader read to the documents in that
  file. In place, each file is rewritten with its resources' contents, one
  document per resource in resource-list order, and a file left without
  resources is deleted. With `Output` set,
  the documents go to the stream and the package stays as it was.

Modelling choices:

- `NoFunctionsFromInput` is `Option<bool>`: `None` is `nil`.
- The depth of a function is the number of `/` in the path of its file,
  relative to the root it was read from. `a.yaml` is at depth 0 and
  `foo/b.yaml` at depth 1.
- The directories that `ioutil.TempDir` hands out are a parameter `temps`.
  The names in it are non-empty, pairwise distinct, and differ from the
  package directory.
- `RunFns.Path` is carried in the model's `RunFns`, but the package is handed
  to the model as its documents, so nothing reads it. `RunFns.Output` is
  reduced to whether an output writer is set; `Sink.Commit` reads it.
- Writing a file truncates it. When a row writes the same path twice into
  one directory, only the later file is found there.
- The test prints each filter with `strings.TrimSpace`. The model trims with
  the white space of Go's `unicode.IsSpace`.

Two points follow the tests where a reader might expect otherwise:

- **Local-config marker.** A document with the function annotation but
  without the `config.kubernetes.io/local-config` marker is still a function.
  Rows 116-261 of the table write exactly such documents and expect their
  images. It is not treated as a configuration error.
- **`NoFunctionsFromInput = true`.** Only implicit functions are dropped;
  explicit functions still run. The only row with `true` (lines 175-200) has
  no explicit function. So the model keeps to the inclusion rule, which is
  about implicit functions only. It does not empty the whole chain.

## Model

| member | source | states |
|---|---|---|
| Functions.DepthOfName | kyaml/runfn/runfn_test.go:119 | a file name without a separator, such as `a.yaml`, is at depth 0 |
| Functions.SpecOf | kyaml/runfn/runfn_test.go:98-108 | a document declares a function exactly when it carries the function annotation; the function has the annotation's image, the document's path, the given origin and index, and the document as config; the local-config marker plays no part |
| Functions.DiscoverFrom | kyaml/runfn/runfn_test.go:316 | discovery finds at most one function per document; their indices point into the stream and strictly increase in stream order |
| Functions.DiscoverSound | kyaml/runfn/runfn_test.go:316 | every discovered function is the one declared by the document its index points at |
| Functions.DiscoverComplete | kyaml/runfn/runfn_test.go:316 | every document carrying the function annotation yields its function |
| Functions.DiscoverAllAnnotated | kyaml/runfn/runfn_test.go:94-261 | when every document declares a function (as in every table row), discovery yields exactly one function per document, in document order |
| Functions.DiscoverOrigin | kyaml/runfn/runfn_test.go:316 | every function found in a stream carries the origin (implicit, or explicit with its location) it was read under |
| Functions.DiscoverIgnoresMarker | kyaml/runfn/runfn_test.go:120-137 | two document streams that differ only in the local-config marker yield the same functions, in the same order, with the same images, paths and indices |
| Ordering.Insert | kyaml/runfn/runfn_test.go:116-140 | inserting a function into a deepest-first list gives a deepest-first list with the same functions plus the new one |
| Ordering.SortDeepestFirst | kyaml/runfn/runfn_test.go:116-140 | the implicit functions are put in deepest-first order, and the result is a permutation of the input |
| Ordering.DeeperRunsFirst | kyaml/runfn/runfn_test.go:116-140 | for two functions at different depths, the only deepest-first order puts the deeper one first, whichever was discovered first |
| Runfn.KeepImplicit | kyaml/runfn/runfn_test.go:307-311 | implicit functions are kept exactly when `NoFunctionsFromInput` is `false`, or it is unset and `FunctionPaths` is empty |
| Runfn.ExplicitFunctions | kyaml/runfn/runfn_test.go:145-170 | every function from `FunctionPaths` is explicit with the index of its location; locations never go backwards along the list; within one location, functions keep their discovery order |
| Runfn.ExplicitMembers | kyaml/runfn/runfn_test.go:145-170 | a function comes from `FunctionPaths` exactly when it is discovered in one of the locations, under that location's index |
| Runfn.OrderedFunctions | kyaml/runfn/runfn_test.go:316 | the chain of a run is a deepest-first arrangement of the kept implicit functions (all of them if the policy keeps them, none otherwise), followed by the explicit functions |
| Runfn.OrderedSplit | kyaml/runfn/runfn_test.go:316 | the chain splits into an implicit prefix and an explicit suffix; the suffix is exactly the explicit functions; the prefix is deepest-first and has the kept implicit functions as its multiset |
| Runfn.ImplicitBeforeExplicit | kyaml/runfn/runfn_test.go:235-261 | out of package is run last: once an explicit function appears in the chain, every later function is explicit too |
| Runfn.ImplicitDeepestFirst | kyaml/runfn/runfn_test.go:116-140 | every function before an implicit function is implicit and at least as deep |
| Runfn.InclusionPolicy | kyaml/runfn/runfn_test.go:145-230 | an implicit function is in the chain if and only if the policy keeps implicit functions and the package declares it |
| Runfn.DroppedImplicitRunNothing | kyaml/runfn/runfn_test.go:175-200 | when the policy drops implicit functions, the chain is exactly the explicit functions |
| Runfn.SingleImplicitRuns | kyaml/runfn/runfn_test.go:94-111 | a package with one function, kept by the policy, runs that function and then the explicit ones |
| Runfn.DeeperImplicitRunsFirst | kyaml/runfn/runfn_test.go:116-140 | of two kept package functions at different depths, the deeper runs first, then the shallower, then the explicit ones |
| Runfn.TwoImplicitImages | kyaml/runfn/runfn_test.go:205-230 | with two package functions at different depths, no function paths and implicit functions kept, the printed images are the deeper one's, then the shallower one's |
| Runfn.ContainerFilterProvider | kyaml/runfn/runfn_test.go:37-62 | the filter has the given image and config, and it is globally scoped exactly when the run is |
| Runfn.GetFilters | kyaml/runfn/runfn_test.go:316-319 | `getFilters` returns one filter per function of the chain, in chain order: the factory's filter for that function's image, path and config |
| Runfn.ImagesAt | kyaml/runfn/runfn_test.go:320-322 | position by position, the printed image list is the image of each function of the chain |
| Runfn.FilterStrings | kyaml/runfn/runfn_test.go:320-322 | the printing loop appends one string per filter, in order: the filter's printed form (its image) with `strings.TrimSpace` applied |
| Runfn.TrimLeftDropsLeading | kyaml/runfn/runfn_test.go:321 | trimming on the left gives a suffix of the string; everything dropped is white space, and the result does not start with white space |
| Runfn.TrimRightDropsTrailing | kyaml/runfn/runfn_test.go:321 | trimming on the right gives a prefix of the string; everything dropped is white space, and the result does not end with white space |
| Runfn.TrimSpaceSlice | kyaml/runfn/runfn_test.go:321 | `strings.TrimSpace` gives the slice of the string between its leading and its trailing white space, and the slice has no white space at either end |
| Runfn.TrimSpaceKeepsTrimmed | kyaml/runfn/runfn_test.go:321 | a string without white space at either end is left as it is by trimming |
| Runfn.TrimAllKeepsTrimmed | kyaml/runfn/runfn_test.go:320-322 | trimming each string of a list changes nothing when none has white space at either end |
| RunfnTest.Place | kyaml/runfn/runfn_test.go:272-304 | where each file is written: in-package files go to the package directory; each out-of-package file goes to a directory recorded in `FunctionPaths`; the recorded directories are the temporary directories in creation order; `fnPath` is the last one, or empty before the first |
| RunfnTest.LastOut | kyaml/runfn/runfn_test.go:75-79 | the last out-of-package file before a position is out of package, and lies before that position |
| RunfnTest.LastOutIsLast | kyaml/runfn/runfn_test.go:75-79 | no out-of-package file lies between that last one and the position |
| RunfnTest.PlaceFnPath | kyaml/runfn/runfn_test.go:276-291 | the current out-of-package directory is empty until an out-of-package file is written; afterwards it is the directory of the last such file |
| RunfnTest.PlaceCountsNewDirs | kyaml/runfn/runfn_test.go:280-288 | `FunctionPaths` gets one entry for each out-of-package file that sets `newFnPath` or is the first out-of-package file, and for no other file |
| RunfnTest.PlaceFreshDirs | kyaml/runfn/runfn_test.go:75-79 | an out-of-package file that sets `newFnPath`, or is the first out-of-package file, goes to a directory that no earlier file went to |
| RunfnTest.ReuseLastDir | kyaml/runfn/runfn_test.go:278-289 | the last file, when out of package without asking for a new directory, goes to the directory of the out-of-package file before it |
| RunfnTest.PlaceReusesDir | kyaml/runfn/runfn_test.go:75-79 | any other out-of-package file goes to the directory of the last out-of-package file before it |
| RunfnTest.PlaceFiles | kyaml/runfn/runfn_test.go:272-304 | the write loop, carrying `fnPath` from one iteration to the next, produces exactly the `FunctionPaths` and directories given by `Place` |
| RunfnTest.FunctionPathsIffOutOfPackage | kyaml/runfn/runfn_test.go:272-311 | the `FunctionPaths` of a row are non-empty exactly when one of its files is out of package |
| RunfnTest.DocsInWritten | kyaml/runfn/runfn_test.go:296-300 | every document found in a directory comes from a file written to that path in that directory |
| RunfnTest.DocsInDistinctPaths | kyaml/runfn/runfn_test.go:296-300 | a directory holds at most one file per path: a second write to a path replaces the first |
| RunfnTest.LastWriteRemains | kyaml/runfn/runfn_test.go:296-300 | the last file written to a path of a directory is the one found there |
| RunfnTest.DocsInPair | kyaml/runfn/runfn_test.go:296-300 | of two files, each is found in the directory it was written to, except that the second replaces the first when both have the same path there |
| RunfnTest.RunCase | kyaml/runfn/runfn_test.go:264-329 | a row's body (write the files, build the `RunFns`, call `getFilters`, print the filters) prints exactly the trimmed images of the row's chain |
| RunfnTest.BothInPackage | kyaml/runfn/runfn_test.go:275-304 | two in-package files both go to the package directory and no function path is created |
| RunfnTest.OneOutOfPackage | kyaml/runfn/runfn_test.go:280-294 | a single out-of-package file is written into the first temporary directory, which becomes the only function path |
| RunfnTest.FirstOutOfPackage | kyaml/runfn/runfn_test.go:275-304 | an out-of-package file followed by an in-package one creates one function path, the first temporary directory, holding the first file |
| RunfnTest.PackagePair | kyaml/runfn/runfn_test.go:275-304 | two files written into the package are discovered in write order, with indices 0 and 1 |
| RunfnTest.OneLocation | kyaml/runfn/runfn_test.go:145-170 | a single function path holding one file contributes exactly that file's function, explicit with location 0 |
| RunfnTest.InPackageDocs | kyaml/runfn/runfn_test.go:306-316 | for two in-package files at different paths, `getFilters` reads both documents from the package and gets no function path |
| RunfnTest.OutThenInDocs | kyaml/runfn/runfn_test.go:306-316 | for an out-of-package file followed by an in-package one, `getFilters` reads the second from the package and the first from the single function path |
| RunfnTest.DeeperSecondResults | kyaml/runfn/runfn_test.go:116-140 | two in-package files with the second one deeper, implicit functions kept: the second file's image is printed first |
| RunfnTest.DeeperFirstResults | kyaml/runfn/runfn_test.go:205-230 | two in-package files with the first one deeper, implicit functions kept: the first file's image is printed first |
| RunfnTest.OutThenInResults | kyaml/runfn/runfn_test.go:145-261 | an out-of-package file followed by an in-package one prints the package image and then the out-of-package image when implicit functions are kept, and only the out-of-package image when they are not |
| RunfnTest.SamePathResults | kyaml/runfn/runfn_test.go:296-300 | two in-package files written to the same path, implicit functions kept: only the second file's image is printed |
| RunfnTest.RowFromImages | kyaml/runfn/runfn_test.go:320-325 | a row passes when its chain's images are its expected list and trimming leaves that list as it is |
| RunfnTest.ExpectedTrimmed | kyaml/runfn/runfn_test.go:94-261 | no expected image of the table has white space at either end |
| RunfnTest.SingleImplicitImages | kyaml/runfn/runfn_test.go:94-111 | the chain of row "single implicit function" has exactly the images `gcr.io/example.com/image:v1.0.0` |
| RunfnTest.SingleImplicitRow | kyaml/runfn/runfn_test.go:94-111 | row "single implicit function" prints exactly `gcr.io/example.com/image:v1.0.0` |
| RunfnTest.DeepestFirstRow | kyaml/runfn/runfn_test.go:116-140 | row "sort functions -- deepest first" prints exactly `b`, `a` |
| RunfnTest.SkipImplicitWithOutOfPackageRow | kyaml/runfn/runfn_test.go:145-170 | row "sort functions -- skip implicit with output of package" prints exactly `a` |
| RunfnTest.SkipImplicitRow | kyaml/runfn/runfn_test.go:175-200 | row "sort functions -- skip implicit" prints nothing |
| RunfnTest.IncludeImplicitRow | kyaml/runfn/runfn_test.go:205-230 | row "sort functions -- include implicit" prints exactly `a`, `b` |
| RunfnTest.ImplicitFirstRow | kyaml/runfn/runfn_test.go:235-261 | row "sort functions -- implicit first" prints exactly `b`, `a` |
| RunfnTest.SamePathRow | kyaml/runfn/runfn_test.go:296-300 | an extra case beyond the table, where `a.yaml` is written twice inside the package: only the second image, `y`, is printed |
| RunfnTest.ProviderDefaultScope | kyaml/runfn/runfn_test.go:37-48 | for `RunFns{}`, the factory builds `ContainerFilter{Image: "example.com:version", Config: api}`, not globally scoped |
| RunfnTest.ProviderGlobalScope | kyaml/runfn/runfn_test.go:50-62 | for `RunFns{GlobalScope: true}`, the factory builds the same filter with `GlobalScope: true` |
| Sink.ContentsAt | kyaml/runfn/runfn_test.go:386-413 | position by position, the documents written to `Output` are the contents of the resources |
| Sink.GroupedSplit | kyaml/runfn/runfn_test.go:332-352 | the documents a file gets from two lists of resources, one after the other, are those from the first list followed by those from the second |
| Sink.GroupedAt | kyaml/runfn/runfn_test.go:332-352 | in place, each resource's content is in its file, at the position given by the number of earlier resources of the same file |
| Sink.GroupedKeepsOrder | kyaml/runfn/runfn_test.go:332-352 | of two resources of the same file, the earlier one comes first in that file |
| Sink.GroupedOnto | kyaml/runfn/runfn_test.go:332-352 | every document of a rewritten file is the content of the resource of that file with the same rank, so a file holds one document per resource and no more |
| Sink.GroupedSound | kyaml/runfn/runfn_test.go:332-352 | every document of a rewritten file is the content of one of that file's resources |
| Sink.GroupedEmpty | kyaml/runfn/runfn_test.go:332-352 | a file receives documents exactly when some resource belongs to it |
| Sink.WriteBack | kyaml/runfn/runfn_test.go:332-352 | after writing back in place, the package holds exactly the files that resources belong to: new paths are created and files left without resources are gone |
| Sink.Commit | kyaml/runfn/runfn_test.go:332-413 | with `Output` set, the files are unchanged and one document per resource is streamed; in place, nothing is streamed and the package holds exactly the resources' files |
| Sink.OutputLeavesPackage | kyaml/runfn/runfn_test.go:386-413 | with `Output` set, the package is unchanged and the stream carries each resource's new content, in order |
| Sink.InPlaceRewrites | kyaml/runfn/runfn_test.go:332-384 | in place, each resource's file holds that resource's content, at the position of the resource among that file's resources |
| Sink.InPlaceOnto | kyaml/runfn/runfn_test.go:332-384 | in place, document `k` of a remaining file is the content of that file's resource of rank `k`; with `InPlaceRewrites` and `GroupedKeepsOrder`, a file holds exactly its resources' contents, one document each |
| Sink.InPlaceOnlyOwnResources | kyaml/runfn/runfn_test.go:332-384 | in place, a remaining file is not empty and holds nothing but the contents of its own resources |
| Sink.InPlaceDeletesEmptied | kyaml/runfn/runfn_test.go:332-384 | in place, a package file none of whose resources survived is deleted |
| Sink.InPlaceRun | kyaml/runfn/runfn_test.go:346-351 | in place, whatever resources the filters produced, each resource's file (the test reads `java/java-deployment.resource.yaml`) contains that resource's new content afterwards |
| Sink.OutputRun | kyaml/runfn/runfn_test.go:406-412 | with `Output` set, every package file keeps its old content and each resource's new content appears on the stream |

## Left out

- The directory walk and YAML loading (reading files, parsing documents, load errors) are not modelled. A package or a function path is given as its sequence of documents, in write order. That order stands in for discovery order. The reader walks directories depth-first in lexical order, so in rows 175-230, where both files are in the package, it reads `b.yaml` before `foo/a.yaml`, the reverse of write order. No row's output depends on this: in rows 175-200 no implicit function is kept, and in rows 205-230 the two functions sit at different depths, so the sort decides.
- `setupTest` is not modelled: the copy of the test data, `os.Chdir`, and the removal of the temporary directories.
- `getFilterProvider` is not modelled: the YAML encode/decode round trip and the `filters.Modifier` that rewrites `kind: Deployment` to `kind: StatefulSet`. It is library code outside this model. `Sink` takes the filtered resources as given. So `InPlaceRun` and `OutputRun` speak of "the new content", not of the `StatefulSet` text.
- Running a container is not modelled. A `ContainerFilter` is a value known by its image, config and scope.
- The scope guard is not modelled. It limits a package-local function to the resources under its home directory. No test shown here exercises it.
- Runfn.OrderedFunctions: does not fix the order of implicit functions at equal depth, because no test row has two functions at the same depth. The proof covers only deepest-first order and permutation. The sort used happens to keep discovery order on ties.
- `Execute`'s thread of resources through the filter chain is not modelled: applying each filter to the previous one's output, and stopping at the first error. The tests shown observe only the final write-back or output.
- Sink.WriteBack: a resource with an empty or new path is written under that path as given. The writer's naming convention for such resources is not modelled. Files the reader does not read (those that are not resource files) are not part of the package map.
- Sink.WriteBack: a file's documents are the resources' contents as a list. Serializing them to YAML text is not modelled.
- Sink.WriteBack: the documents of a file are put in resource-list order. This is a modelling choice: no test fixes the order of the documents inside one file.
- Go's `*bool` is modelled as the three-valued `Option<bool>`. Which address the `*bool` holds plays no part.
