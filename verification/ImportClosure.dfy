/** Which modules a set of root files reaches through imports, which of those the shipped copy lacks,
  * and which load a library by path. A dotted name is the list of its parts, and a file is named by its
  * path under the library folder without the extension, so `a.b` is the file a/b or a/b/__init__.
  */
module ImportClosure {

  import opened Wrappers

  type Name = seq<string>

  datatype Statement =
    | Import(m: Name)
    | FromImport(package: Name, names: seq<string>)

  datatype Source = Source(statements: seq<Statement>, loadsDll: bool)

  type Lib = map<Name, Source>

  /** A plain module file wins over a package's `__init__`; None when the library has neither. */
  function Resolve(lib: Lib, name: Name): (file: Option<Name>)
    ensures file.Some? ==> file.value in lib && file.value in [name, name + ["__init__"]]
    ensures file.None? <==> name !in lib && name + ["__init__"] !in lib
    ensures name in lib ==> file == Some(name)
  {
    if name in lib then Some(name)
    else if name + ["__init__"] in lib then Some(name + ["__init__"])
    else None
  }

  /** The names after `import` that are modules themselves and not symbols of the package. */
  function Submodules(lib: Lib, package: Name, names: seq<string>): seq<Name> {
    if names == [] then []
    else if names[0] != "" && Resolve(lib, package + [names[0]]).Some?
    then [package + [names[0]]] + Submodules(lib, package, names[1..])
    else Submodules(lib, package, names[1..])
  }

  function ModulesOf(lib: Lib, statements: seq<Statement>): seq<Name> {
    if statements == [] then []
    else
      (match statements[0]
       case Import(m) => [m]
       case FromImport(package, names) => [package] + Submodules(lib, package, names))
      + ModulesOf(lib, statements[1..])
  }

  function ImportedModules(lib: Lib, file: Name): seq<Name>
    requires file in lib
  {
    ModulesOf(lib, lib[file].statements)
  }

  // ---------------------------------------------------------------- what the closure is

  /** Importing a module imports every ancestor of it, so each counts as imported by the file. */
  ghost predicate Imports(lib: Lib, file: Name, name: Name) {
    file in lib && exists k, d :: 0 <= k < |ImportedModules(lib, file)| && 1 <= d <= |ImportedModules(lib, file)[k]|
                                  && name == ImportedModules(lib, file)[k][..d]
  }

  /** A file that would be loaded: a root, or the file of a reached name. */
  ghost predicate Loads(lib: Lib, roots: seq<Name>, reached: set<Name>, file: Name) {
    file in roots || exists name :: name in reached && Resolve(lib, name) == Some(file)
  }

  ghost predicate IsClosed(lib: Lib, roots: seq<Name>, reached: set<Name>) {
    forall file, name :: Loads(lib, roots, reached, file) && Imports(lib, file, name) ==> name in reached
  }

  /** The least closed set. */
  ghost predicate IsClosure(lib: Lib, roots: seq<Name>, reached: set<Name>) {
    && IsClosed(lib, roots, reached)
    && (forall s :: IsClosed(lib, roots, s) ==> reached <= s)
  }

  ghost predicate Distinct<T(!new)>(s: seq<T>) {
    forall i, j :: 0 <= i < j < |s| ==> s[i] != s[j]
  }

  function NamesOf(missing: seq<(Name, Name)>): (names: seq<Name>)
    ensures |names| == |missing|
  {
    seq(|missing|, k requires 0 <= k < |missing| => missing[k].0)
  }

  /** Each reached name that no file answers is listed once, with a loaded file that imports it. */
  ghost predicate ListsMissing(lib: Lib, roots: seq<Name>, reached: set<Name>, missing: seq<(Name, Name)>) {
    && (forall name :: name in NamesOf(missing) <==> name in reached && Resolve(lib, name).None?)
    && (forall k :: 0 <= k < |missing| ==>
          Loads(lib, roots, reached, missing[k].1) && Imports(lib, missing[k].1, missing[k].0))
    && Distinct(NamesOf(missing))
  }

  ghost predicate LoadsDll(lib: Lib, name: Name) {
    Resolve(lib, name).Some? && lib[Resolve(lib, name).value].loadsDll
  }

  ghost predicate ListsDllLoaders(lib: Lib, reached: set<Name>, dllLoaders: seq<Name>) {
    && (forall name :: name in dllLoaders <==> name in reached && LoadsDll(lib, name))
    && Distinct(dllLoaders)
  }

  /** Every name any shipped file imports: the finite bound of the search. */
  ghost function Universe(lib: Lib): set<Name> {
    set file, k, d | file in lib.Keys && 0 <= k < |ImportedModules(lib, file)| && 0 <= d <= |ImportedModules(lib, file)[k]|
      :: ImportedModules(lib, file)[k][..d]
  }

  // ---------------------------------------------------------------- the worklist

  /** What holds between any two visits. */
  ghost predicate Sound(lib: Lib, roots: seq<Name>, reached: set<Name>,
                        missing: seq<(Name, Name)>, dllLoaders: seq<Name>, queue: seq<Name>) {
    && reached <= Universe(lib)
    && (forall s :: IsClosed(lib, roots, s) ==> reached <= s)
    && ListsMissing(lib, roots, reached, missing)
    && ListsDllLoaders(lib, reached, dllLoaders)
    && (forall file :: file in queue ==> file in lib && Loads(lib, roots, reached, file))
  }

  /** Every loaded file has been handled, waits in the queue, or is the one being handled. */
  ghost predicate Covered(lib: Lib, roots: seq<Name>, reached: set<Name>, handled: set<Name>, queue: seq<Name>) {
    && (forall file :: Loads(lib, roots, reached, file) ==> file in handled || file in queue)
  }

  ghost predicate Handled(lib: Lib, reached: set<Name>, handled: set<Name>) {
    forall file, name :: file in handled && Imports(lib, file, name) ==> name in reached
  }

  lemma VisitedIsNeeded(lib: Lib, roots: seq<Name>, reached: set<Name>, file: Name, name: Name, s: set<Name>)
    requires Loads(lib, roots, reached, file) && Imports(lib, file, name)
    requires IsClosed(lib, roots, s) && reached <= s
    ensures name in s
  {
    hide Imports;
    assert Loads(lib, roots, s, file);
  }

  lemma ImportIsInUniverse(lib: Lib, file: Name, name: Name)
    requires Imports(lib, file, name)
    ensures name in Universe(lib)
  {
    hide ImportedModules;
  }

  lemma LoadsGrows(lib: Lib, roots: seq<Name>, reached: set<Name>, name: Name)
    ensures forall file :: Loads(lib, roots, reached + {name}, file)
                      <==> Loads(lib, roots, reached, file) || Resolve(lib, name) == Some(file)
  {
    hide Resolve;
    forall file | Resolve(lib, name) == Some(file)
      ensures Loads(lib, roots, reached + {name}, file)
    {
      assert name in reached + {name};
    }
  }

  lemma MissingGrows(lib: Lib, roots: seq<Name>, reached: set<Name>, missing: seq<(Name, Name)>, file: Name, name: Name)
    requires ListsMissing(lib, roots, reached, missing) && name !in reached
    requires Loads(lib, roots, reached, file) && Imports(lib, file, name)
    ensures var more := if Resolve(lib, name).None? then missing + [(name, file)] else missing;
            ListsMissing(lib, roots, reached + {name}, more)
  {
    hide Resolve, Imports, Loads;
    LoadsGrows(lib, roots, reached, name);
    if Resolve(lib, name).None? {
      var more := missing + [(name, file)];
      assert NamesOf(more) == NamesOf(missing) + [name];
    }
  }

  lemma DllLoadersGrow(lib: Lib, reached: set<Name>, dllLoaders: seq<Name>, name: Name)
    requires ListsDllLoaders(lib, reached, dllLoaders) && name !in reached
    ensures var more := if LoadsDll(lib, name) then dllLoaders + [name] else dllLoaders;
            ListsDllLoaders(lib, reached + {name}, more)
  {
    hide LoadsDll;
  }

  /** One new name keeps everything. */
  lemma VisitKeeps(lib: Lib, roots: seq<Name>, reached: set<Name>, missing: seq<(Name, Name)>,
                   dllLoaders: seq<Name>, queue: seq<Name>, file: Name, name: Name)
    requires Sound(lib, roots, reached, missing, dllLoaders, queue) && name !in reached
    requires Loads(lib, roots, reached, file) && Imports(lib, file, name)
    ensures var found := Resolve(lib, name);
            Sound(lib, roots, reached + {name},
                  if found.None? then missing + [(name, file)] else missing,
                  if LoadsDll(lib, name) then dllLoaders + [name] else dllLoaders,
                  if found.Some? then queue + [found.value] else queue)
  {
    hide Resolve, Imports, Loads, LoadsDll, Universe, ListsMissing, ListsDllLoaders;
    ImportIsInUniverse(lib, file, name);
    forall s | IsClosed(lib, roots, s)
      ensures reached + {name} <= s
    {
      VisitedIsNeeded(lib, roots, reached, file, name, s);
    }
    MissingGrows(lib, roots, reached, missing, file, name);
    DllLoadersGrow(lib, reached, dllLoaders, name);
    LoadsGrows(lib, roots, reached, name);
    ResolvedIsThere(lib, name);
  }

  lemma ResolvedIsThere(lib: Lib, name: Name)
    ensures Resolve(lib, name).Some? ==> Resolve(lib, name).value in lib
  {
  }

  lemma CoverGrows(lib: Lib, roots: seq<Name>, reached: set<Name>, handled: set<Name>, queue: seq<Name>, name: Name)
    requires Covered(lib, roots, reached, handled, queue)
    ensures var found := Resolve(lib, name);
            Covered(lib, roots, reached + {name}, handled, if found.Some? then queue + [found.value] else queue)
  {
    hide Resolve, Loads;
    LoadsGrows(lib, roots, reached, name);
  }

  lemma StartIsSound(lib: Lib, roots: seq<Name>)
    requires forall file :: file in roots ==> file in lib
    ensures Sound(lib, roots, {}, [], [], roots) && Covered(lib, roots, {}, {}, roots) && Handled(lib, {}, {})
  {
    hide Resolve, Imports, LoadsDll;
  }

  lemma PopKeeps(lib: Lib, roots: seq<Name>, reached: set<Name>, missing: seq<(Name, Name)>,
                 dllLoaders: seq<Name>, queue: seq<Name>, handled: set<Name>)
    requires Sound(lib, roots, reached, missing, dllLoaders, queue) && queue != []
    requires Covered(lib, roots, reached, handled, queue)
    ensures var file, rest := queue[|queue| - 1], queue[..|queue| - 1];
            && file in lib && Loads(lib, roots, reached, file)
            && Sound(lib, roots, reached, missing, dllLoaders, rest)
            && Covered(lib, roots, reached, handled + {file}, rest)
  {
    hide Resolve, Loads, Universe, ListsMissing, ListsDllLoaders;
    var file, rest := queue[|queue| - 1], queue[..|queue| - 1];
    assert queue == rest + [file];
  }

  lemma LoadsIsMonotone(lib: Lib, roots: seq<Name>, less: set<Name>, more: set<Name>, file: Name)
    requires less <= more && Loads(lib, roots, less, file)
    ensures Loads(lib, roots, more, file)
  {
    hide Resolve;
  }

  /** An emptied queue leaves the least closed set. */
  lemma EmptyQueueIsClosure(lib: Lib, roots: seq<Name>, reached: set<Name>, missing: seq<(Name, Name)>,
                            dllLoaders: seq<Name>, handled: set<Name>)
    requires Sound(lib, roots, reached, missing, dllLoaders, [])
    requires Covered(lib, roots, reached, handled, []) && Handled(lib, reached, handled)
    ensures IsClosure(lib, roots, reached)
  {
    hide Resolve, Loads, Imports, Universe, ListsMissing, ListsDllLoaders;
  }

  /** The worklist: take the last file, visit every ancestor of every module it imports. */
  method FindClosure(lib: Lib, roots: seq<Name>) returns (reached: set<Name>, missing: seq<(Name, Name)>, dllLoaders: seq<Name>)
    requires forall file :: file in roots ==> file in lib
    ensures IsClosure(lib, roots, reached)
    ensures ListsMissing(lib, roots, reached, missing)
    ensures ListsDllLoaders(lib, reached, dllLoaders)
  {
    hide *;
    reached, missing, dllLoaders := {}, [], [];
    var queue := roots;
    ghost var handled: set<Name> := {};
    StartIsSound(lib, roots);
    while queue != []
      invariant Sound(lib, roots, reached, missing, dllLoaders, queue)
      invariant Covered(lib, roots, reached, handled, queue)
      invariant Handled(lib, reached, handled)
      decreases Universe(lib) - reached, |queue|
    {
      var file := queue[|queue| - 1];
      PopKeeps(lib, roots, reached, missing, dllLoaders, queue, handled);
      queue := queue[..|queue| - 1];
      ghost var before, waiting := reached, queue;
      var modules := ImportedModules(lib, file);
      for k := 0 to |modules|
        invariant before <= reached && (reached == before ==> queue == waiting)
        invariant Loads(lib, roots, reached, file)
        invariant Sound(lib, roots, reached, missing, dllLoaders, queue)
        invariant Covered(lib, roots, reached, handled + {file}, queue)
        invariant forall j, d :: 0 <= j < k && 1 <= d <= |modules[j]| ==> modules[j][..d] in reached
      {
        var parts := modules[k];
        for depth := 1 to |parts| + 1
          invariant before <= reached && (reached == before ==> queue == waiting)
          invariant Loads(lib, roots, reached, file)
          invariant Sound(lib, roots, reached, missing, dllLoaders, queue)
          invariant Covered(lib, roots, reached, handled + {file}, queue)
          invariant forall j, d :: 0 <= j < k && 1 <= d <= |modules[j]| ==> modules[j][..d] in reached
          invariant forall d :: 1 <= d < depth ==> parts[..d] in reached
        {
          var name := parts[..depth];
          if name !in reached {
            ImportsByIndex(lib, file, k, depth);
            VisitKeeps(lib, roots, reached, missing, dllLoaders, queue, file, name);
            CoverGrows(lib, roots, reached, handled + {file}, queue, name);
            LoadsIsMonotone(lib, roots, reached, reached + {name}, file);
            ResolvedIsThere(lib, name);
            DllTest(lib, name);
            reached := reached + {name};
            var resolved := Resolve(lib, name);
            if resolved == None {
              missing := missing + [(name, file)];
            } else {
              queue := queue + [resolved.value];
              if lib[resolved.value].loadsDll {
                dllLoaders := dllLoaders + [name];
              }
            }
          }
        }
      }
      HandledGrows(lib, before, reached, handled, file);
      UniverseShrinks(lib, roots, before, reached, missing, dllLoaders, queue);
      handled := handled + {file};
    }
    EmptyQueueIsClosure(lib, roots, reached, missing, dllLoaders, handled);
    SoundLists(lib, roots, reached, missing, dllLoaders, queue);
  }

  lemma ImportsByIndex(lib: Lib, file: Name, k: nat, d: nat)
    requires file in lib && k < |ImportedModules(lib, file)| && 1 <= d <= |ImportedModules(lib, file)[k]|
    ensures Imports(lib, file, ImportedModules(lib, file)[k][..d])
  {
    hide ImportedModules;
  }

  lemma DllTest(lib: Lib, name: Name)
    ensures LoadsDll(lib, name) <==> Resolve(lib, name).Some? && lib[Resolve(lib, name).value].loadsDll
  {
  }

  lemma HandledGrows(lib: Lib, before: set<Name>, reached: set<Name>, handled: set<Name>, file: Name)
    requires file in lib && before <= reached && Handled(lib, before, handled)
    requires var modules := ImportedModules(lib, file);
             forall j, d :: 0 <= j < |modules| && 1 <= d <= |modules[j]| ==> modules[j][..d] in reached
    ensures Handled(lib, reached, handled + {file})
  {
    hide ImportedModules;
    assert forall name :: Imports(lib, file, name) ==> name in reached;
    hide Imports;
  }

  lemma UniverseShrinks(lib: Lib, roots: seq<Name>, before: set<Name>, reached: set<Name>, missing: seq<(Name, Name)>,
                        dllLoaders: seq<Name>, queue: seq<Name>)
    requires before <= reached && Sound(lib, roots, reached, missing, dllLoaders, queue)
    ensures reached == before || Universe(lib) - reached < Universe(lib) - before
  {
    hide Universe, ListsMissing, ListsDllLoaders, Loads;
    if reached != before {
      var name :| name in reached && name !in before;
      assert name in Universe(lib) - before;
    }
  }

  lemma SoundLists(lib: Lib, roots: seq<Name>, reached: set<Name>, missing: seq<(Name, Name)>, dllLoaders: seq<Name>, queue: seq<Name>)
    requires Sound(lib, roots, reached, missing, dllLoaders, queue)
    ensures ListsMissing(lib, roots, reached, missing) && ListsDllLoaders(lib, reached, dllLoaders)
  {
  }

  /** The exit status: 0 iff everything reachable is shipped and nothing reachable loads a library. */
  method Check(lib: Lib, roots: seq<Name>) returns (status: int, ghost reached: set<Name>)
    requires forall file :: file in roots ==> file in lib
    ensures IsClosure(lib, roots, reached)
    ensures status == 0 || status == 1
    ensures status == 0 <==> forall name :: name in reached ==> Resolve(lib, name).Some? && !LoadsDll(lib, name)
  {
    hide Resolve, Loads, Imports, IsClosure, LoadsDll;
    var found, missing, dllLoaders := FindClosure(lib, roots);
    reached := found;
    assert missing != [] ==> NamesOf(missing)[0] in NamesOf(missing);
    assert dllLoaders != [] ==> dllLoaders[0] in dllLoaders;
    status := if missing != [] || dllLoaders != [] then 1 else 0;
  }

  /** There is only one closure, so what is reported does not depend on the order of the walk. */
  lemma ClosureIsUnique(lib: Lib, roots: seq<Name>, a: set<Name>, b: set<Name>)
    requires IsClosure(lib, roots, a) && IsClosure(lib, roots, b)
    ensures a == b
  {
    hide IsClosed;
  }

  // ---------------------------------------------------------------- what a statement imports

  predicate HasModule(lib: Lib, name: Name) { name in lib || name + ["__init__"] in lib }

  /** `import m` names m; `from p import ...` names p, and of the words listed those that are modules under p. */
  predicate Mentions(lib: Lib, s: Statement, name: Name) {
    match s
    case Import(m) => name == m
    case FromImport(package, words) =>
      name == package || exists k :: 0 <= k < |words| && words[k] != "" && name == package + [words[k]] && HasModule(lib, name)
  }

  lemma {:induction false} SubmodulesAre(lib: Lib, package: Name, words: seq<string>, name: Name)
    ensures name in Submodules(lib, package, words) <==>
            exists k :: 0 <= k < |words| && words[k] != "" && name == package + [words[k]] && HasModule(lib, name)
  {
    hide Resolve;
    if words != [] {
      SubmodulesAre(lib, package, words[1..], name);
      assert words == [words[0]] + words[1..];
      if k :| 0 <= k < |words| && words[k] != "" && name == package + [words[k]] && HasModule(lib, name) {
        if k > 0 {
          assert words[1..][k - 1] == words[k];
        }
      }
      if k :| 0 <= k < |words[1..]| && words[1..][k] != "" && name == package + [words[1..][k]] && HasModule(lib, name) {
        assert words[k + 1] == words[1..][k];
      }
    }
  }

  lemma {:induction false} ModulesAreMentioned(lib: Lib, statements: seq<Statement>, name: Name)
    ensures name in ModulesOf(lib, statements) <==> exists k :: 0 <= k < |statements| && Mentions(lib, statements[k], name)
  {
    hide HasModule, Submodules;
    if statements != [] {
      var first, rest := statements[0], statements[1..];
      ModulesAreMentioned(lib, rest, name);
      if first.FromImport? {
        SubmodulesAre(lib, first.package, first.names, name);
      }
      assert name in ModulesOf(lib, statements) <==> Mentions(lib, first, name) || name in ModulesOf(lib, rest);
      hide Mentions, ModulesOf;
      if k :| 0 <= k < |rest| && Mentions(lib, rest[k], name) {
        assert statements[k + 1] == rest[k];
      }
      if k :| 0 <= k < |statements| && Mentions(lib, statements[k], name) {
        assert k == 0 || statements[k] == rest[k - 1];
      }
    }
  }

  /** A file imports exactly what its statements mention and every ancestor of that. */
  lemma ImportsAreMentioned(lib: Lib, file: Name, name: Name)
    ensures Imports(lib, file, name) <==>
            file in lib && name != []
            && exists m, k :: 0 <= k < |lib[file].statements| && Mentions(lib, lib[file].statements[k], m) && name <= m
  {
    hide ModulesOf, Mentions;
    if file in lib {
      forall m
        ensures m in ImportedModules(lib, file) <==>
                exists k :: 0 <= k < |lib[file].statements| && Mentions(lib, lib[file].statements[k], m)
      {
        ModulesAreMentioned(lib, lib[file].statements, m);
      }
      var modules, statements := ImportedModules(lib, file), lib[file].statements;
      hide ImportedModules;
      if Imports(lib, file, name) {
        var i, d :| 0 <= i < |modules| && 1 <= d <= |modules[i]| && name == modules[i][..d];
        assert modules[i] in modules && name <= modules[i];
      }
      if m, k :| 0 <= k < |statements| && Mentions(lib, statements[k], m) && name <= m && name != [] {
        assert m in modules;
        var i :| 0 <= i < |modules| && modules[i] == m;
        assert name == modules[i][..|name|];
      }
    }
  }

  /** So whatever a loaded file mentions is reached, the modules among the words of a `from` import included. */
  lemma MentionedIsReached(lib: Lib, roots: seq<Name>, reached: set<Name>, file: Name, k: nat, name: Name)
    requires IsClosure(lib, roots, reached) && Loads(lib, roots, reached, file) && file in lib
    requires k < |lib[file].statements| && Mentions(lib, lib[file].statements[k], name) && name != []
    ensures name in reached
  {
    ImportsAreMentioned(lib, file, name);
    hide Imports, Mentions, Loads;
  }
}
