/** Which built files load only with a lazy renderer: two worklists over the import graph. */
module RendererManifest {

  /** A built chunk: the files it imports, and the assets and styles that come with it. */
  datatype Chunk = Chunk(imports: seq<string>, dynamicImports: seq<string>,
                         assets: seq<string>, css: seq<string>, isEntry: bool, isRenderer: bool)

  type Bundle = map<string, Chunk>

  function Dependencies(bundle: Bundle, file: string): seq<string> {
    if file in bundle then bundle[file].imports + bundle[file].dynamicImports else []
  }

  function Attached(bundle: Bundle, file: string): set<string> {
    if file in bundle then (set a | a in bundle[file].assets) + (set c | c in bundle[file].css) else {}
  }

  /** No asset or style is named like a chunk. */
  predicate AssetsAreNotChunks(bundle: Bundle) {
    forall file | file in bundle :: Attached(bundle, file) !! bundle.Keys
  }

  /** The files a traversal steps on: named, and not behind a boundary. */
  predicate Open(file: string, boundary: set<string>) {
    file != "" && file !in boundary
  }

  /** Whether a file names another among its imports, static or dynamic. */
  predicate Imports(bundle: Bundle, file: string, next: string) {
    file in bundle && (next in bundle[file].imports || next in bundle[file].dynamicImports)
  }

  /** Whether an asset or a style comes with a file. */
  predicate BringsAlong(bundle: Bundle, file: string, other: string) {
    file in bundle && (other in bundle[file].assets || other in bundle[file].css)
  }

  /** A way along imports that never steps behind the boundary. */
  predicate Path(bundle: Bundle, boundary: set<string>, path: seq<string>) {
    && path != []
    && (forall k | 0 <= k < |path| :: Open(path[k], boundary))
    && forall k | 0 <= k < |path| - 1 :: Imports(bundle, path[k], path[k + 1])
  }

  ghost predicate Reachable(bundle: Bundle, starts: set<string>, boundary: set<string>, file: string) {
    exists path :: Path(bundle, boundary, path) && path[0] in starts && path[|path| - 1] == file
  }

  /** What loading the starts brings in: every reachable file and all that comes with it. */
  ghost predicate Loaded(bundle: Bundle, starts: set<string>, boundary: set<string>, file: string) {
    || Reachable(bundle, starts, boundary, file)
    || exists chunk :: Reachable(bundle, starts, boundary, chunk) && BringsAlong(bundle, chunk, file)
  }

  lemma StartIsReachable(bundle: Bundle, starts: set<string>, boundary: set<string>, file: string)
    requires file in starts && Open(file, boundary)
    ensures Reachable(bundle, starts, boundary, file)
  {
    assert Path(bundle, boundary, [file]);
  }

  lemma DependencyIsReachable(bundle: Bundle, starts: set<string>, boundary: set<string>, file: string, next: string)
    requires Reachable(bundle, starts, boundary, file)
    requires next in Dependencies(bundle, file) && Open(next, boundary)
    ensures Reachable(bundle, starts, boundary, next)
  {
    var path :| Path(bundle, boundary, path) && path[0] in starts && path[|path| - 1] == file;
    assert Path(bundle, boundary, path + [next]);
  }

  /** A set that holds the open starts and is closed under imports holds every reachable file. */
  lemma {:induction false} ClosedSetHoldsPath(bundle: Bundle, starts: set<string>, boundary: set<string>,
                                              closed: set<string>, path: seq<string>, n: nat)
    requires Path(bundle, boundary, path) && path[0] in starts && n < |path|
    requires forall f | f in starts && Open(f, boundary) :: f in closed
    requires forall f, d | f in closed && d in Dependencies(bundle, f) && Open(d, boundary) :: d in closed
    ensures path[n] in closed
  {
    if n > 0 {
      ClosedSetHoldsPath(bundle, starts, boundary, closed, path, n - 1);
    }
  }

  /** Every name a traversal can pop. */
  function Universe(bundle: Bundle, starts: set<string>): set<string> {
    starts + set f, d | f in bundle && d in Dependencies(bundle, f) :: d
  }

  /** All a traversal holds loads. */
  ghost predicate Sound(bundle: Bundle, starts: set<string>, boundary: set<string>,
                        pending: seq<string>, seen: set<string>, visited: set<string>)
  {
    && (forall f | f in pending :: f in Universe(bundle, starts))
    && (forall f | f in pending && Open(f, boundary) :: Reachable(bundle, starts, boundary, f))
    && (forall f | f in visited :: Reachable(bundle, starts, boundary, f))
    && (forall f | f in seen :: f in visited || exists chunk :: chunk in visited && f in Attached(bundle, chunk))
  }

  /** And all that loads is held, or still to be reached from what is pending. */
  ghost predicate Complete(bundle: Bundle, starts: set<string>, boundary: set<string>,
                           pending: seq<string>, seen: set<string>, visited: set<string>)
  {
    && (forall f | f in starts && Open(f, boundary) :: f in seen || f in pending)
    && (forall f, d | f in visited && d in Dependencies(bundle, f) && Open(d, boundary) :: d in seen || d in pending)
    && (forall f | f in visited :: f in seen && Attached(bundle, f) <= seen)
  }

  ghost predicate Progress(bundle: Bundle, starts: set<string>, boundary: set<string>,
                           pending: seq<string>, seen: set<string>, visited: set<string>)
  {
    Sound(bundle, starts, boundary, pending, seen, visited) && Complete(bundle, starts, boundary, pending, seen, visited)
  }

  function Elements(files: seq<string>): set<string> {
    set f | f in files
  }

  /** Either worklist of the build: pops files and marks them, with what comes with them, until none
      is pending. It ends on every graph, cyclic or not. */
  method Traverse(bundle: Bundle, start: seq<string>, boundary: set<string>) returns (seen: set<string>)
    requires AssetsAreNotChunks(bundle)
    ensures forall f :: f in seen <==> Loaded(bundle, Elements(start), boundary, f)
  {
    ghost var starts := Elements(start);
    ghost var visited: set<string> := {};
    var pending := start;
    seen := {};
    forall f | f in start && Open(f, boundary) {
      StartIsReachable(bundle, starts, boundary, f);
    }
    while pending != []
      invariant Progress(bundle, starts, boundary, pending, seen, visited)
      decreases Universe(bundle, starts) - seen, |pending|
    {
      var file := pending[|pending| - 1];
      ghost var stacked := pending;
      pending := pending[..|pending| - 1];
      assert stacked == pending + [file];
      if file == "" || file in seen || file in boundary {
        SkipKeepsSound(bundle, starts, boundary, pending, file, seen, visited);
        SkipKeepsComplete(bundle, starts, boundary, pending, file, seen, visited);
        continue;
      }
      VisitKeepsSound(bundle, starts, boundary, pending, file, seen, visited);
      VisitKeepsComplete(bundle, starts, boundary, pending, file, seen, visited);
      seen := seen + {file};
      visited := visited + {file};
      pending := pending + Dependencies(bundle, file);
      seen := seen + Attached(bundle, file);
    }
    AllLoaded(bundle, starts, boundary, seen, visited);
  }

  lemma SkipKeepsSound(bundle: Bundle, starts: set<string>, boundary: set<string>,
                       pending: seq<string>, file: string, seen: set<string>, visited: set<string>)
    requires Sound(bundle, starts, boundary, pending + [file], seen, visited)
    ensures Sound(bundle, starts, boundary, pending, seen, visited)
  {
    var stacked := pending + [file];
    assert forall f | f in pending :: f in stacked;
  }

  lemma SkipKeepsComplete(bundle: Bundle, starts: set<string>, boundary: set<string>,
                          pending: seq<string>, file: string, seen: set<string>, visited: set<string>)
    requires Complete(bundle, starts, boundary, pending + [file], seen, visited)
    requires !Open(file, boundary) || file in seen
    ensures Complete(bundle, starts, boundary, pending, seen, visited)
  {
    var stacked := pending + [file];
    assert forall f | f in stacked :: f in pending || f == file;
  }

  lemma VisitKeepsSound(bundle: Bundle, starts: set<string>, boundary: set<string>,
                        pending: seq<string>, file: string, seen: set<string>, visited: set<string>)
    requires Sound(bundle, starts, boundary, pending + [file], seen, visited)
    requires Open(file, boundary)
    ensures Sound(bundle, starts, boundary, pending + Dependencies(bundle, file),
                  seen + {file} + Attached(bundle, file), visited + {file})
    ensures file in Universe(bundle, starts)
  {
    var stacked, more := pending + [file], pending + Dependencies(bundle, file);
    assert file in stacked && forall f | f in pending :: f in stacked;
    assert forall f | f in more :: f in pending || f in Dependencies(bundle, file);
    forall f | f in Dependencies(bundle, file) && Open(f, boundary)
      ensures Reachable(bundle, starts, boundary, f)
    {
      DependencyIsReachable(bundle, starts, boundary, file, f);
    }
  }

  lemma VisitKeepsComplete(bundle: Bundle, starts: set<string>, boundary: set<string>,
                           pending: seq<string>, file: string, seen: set<string>, visited: set<string>)
    requires Complete(bundle, starts, boundary, pending + [file], seen, visited)
    ensures Complete(bundle, starts, boundary, pending + Dependencies(bundle, file),
                     seen + {file} + Attached(bundle, file), visited + {file})
  {
    var stacked, more := pending + [file], pending + Dependencies(bundle, file);
    assert forall f | f in stacked :: f in pending || f == file;
    assert forall f | f in pending || f in Dependencies(bundle, file) :: f in more;
  }

  lemma AllLoaded(bundle: Bundle, starts: set<string>, boundary: set<string>, seen: set<string>, visited: set<string>)
    requires AssetsAreNotChunks(bundle)
    requires Progress(bundle, starts, boundary, [], seen, visited)
    ensures forall f :: f in seen <==> Loaded(bundle, starts, boundary, f)
  {
    forall f | Reachable(bundle, starts, boundary, f)
      ensures f in seen && (f in bundle ==> f in visited)
    {
      var path :| Path(bundle, boundary, path) && path[0] in starts && path[|path| - 1] == f;
      forall k, d | k in seen && d in Dependencies(bundle, k) && Open(d, boundary)
        ensures d in seen
      {
        assert k in bundle && k in visited;
      }
      ClosedSetHoldsPath(bundle, starts, boundary, seen, path, |path| - 1);
    }
  }

  /** The lists of the build: files that load only with a renderer are those a renderer root brings in
      and no entry does without stepping through a root that is not itself an entry. */
  method GenerateBundle(bundle: Bundle, files: seq<string>) returns (optional: set<string>, core: set<string>)
    requires AssetsAreNotChunks(bundle) && Elements(files) == bundle.Keys
    ensures var roots := set f | f in bundle && bundle[f].isRenderer;
            var entries := set f | f in bundle && bundle[f].isEntry;
            && (forall f :: f in core <==> Loaded(bundle, entries, roots - entries, f))
            && (forall f :: f in optional <==> Loaded(bundle, roots, {}, f) && !Loaded(bundle, entries, roots - entries, f))
            && optional !! core
  {
    var roots := Filter(files, f => f in bundle && bundle[f].isRenderer);
    var entries := Filter(files, f => f in bundle && bundle[f].isEntry);
    ghost var rootSet, entrySet := set f | f in bundle && bundle[f].isRenderer, set f | f in bundle && bundle[f].isEntry;
    assert Elements(roots) == rootSet && Elements(entries) == entrySet;
    optional := Traverse(bundle, roots, {});
    core := Traverse(bundle, entries, Elements(roots) - Elements(entries));
    optional := optional - core;
  }

  function Filter(files: seq<string>, keep: string -> bool): (r: seq<string>)
    ensures forall f :: f in r <==> f in files && keep(f)
  {
    if files == [] then []
    else
      var last := files[|files| - 1];
      Filter(files[..|files| - 1], keep) + if keep(last) then [last] else []
  }
}
