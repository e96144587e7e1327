/**
 * Include expansion of the modularity plugin. Before a specification is
 * parsed, every line `include <file>` is replaced by the lines of that module
 * file, themselves expanded; a module already loaded in this run contributes
 * nothing, which is what makes cyclic includes terminate.
 *
 * The files `Specification.loadSpec` can read are a map from file name to
 * lines; a name that is not in the map stands for an `IOException`.
 */
module Modularity {
  import opened Wrappers
  import opened IncludeSyntax

  /** A line of a specification: its text, the file it comes from and its number there. */
  datatype SpecLine = SpecLine(text: string, fileName: string, line: nat)

  /** The error reported when an included module cannot be loaded, with the include line. */
  datatype LoadError = CannotLoad(moduleName: string, at: SpecLine)

  /**
   * The result of expanding lines: the new lines, the set of loaded modules
   * afterwards, the modules whose loading was started (in order; one
   * "Loading module" message each) and the errors reported.
   */
  datatype Expansion = Expansion(lines: seq<SpecLine>, loaded: set<string>, loading: seq<string>, errors: seq<LoadError>)

  type Files = map<string, seq<SpecLine>>

  /**
   * How a line is recognised as an include directive: the module it names, or
   * `None`. The plugin uses `IncludeTarget`; the expansion and its properties
   * hold for any recogniser.
   */
  type Recogniser = string -> Option<string>

  predicate IsInclude(target: Recogniser, l: SpecLine)
  {
    target(l.text).Some?
  }

  predicate Distinct(s: seq<string>)
  {
    forall i, j :: 0 <= i < j < |s| ==> s[i] != s[j]
  }

  /** More loaded modules leave fewer readable modules to load. */
  lemma FewerToLoad(names: set<string>, a: set<string>, b: set<string>)
    requires a <= b
    ensures |names - b| <= |names - a|
  {
    assert names - a == (names - b) + ((names - a) - (names - b));
  }

  /** Loading one more readable module leaves strictly fewer to load. */
  lemma OneFewerToLoad(names: set<string>, a: set<string>, b: set<string>, n: string)
    requires a <= b && n in names && n !in b
    ensures |names - (b + {n})| < |names - a|
  {
    FewerToLoad(names, a, b);
    assert names - b == (names - (b + {n})) + {n};
  }

  /**
   * How an expansion treats the loaded modules: it only adds to them, and what
   * it adds are the modules whose loading it started, each once and none that
   * was loaded before.
   */
  ghost predicate LoadsOnce(loaded: set<string>, r: Expansion)
  {
    loaded <= r.loaded &&
    (forall n :: n in r.loaded <==> n in loaded || n in r.loading) &&
    (forall i :: 0 <= i < |r.loading| ==> r.loading[i] !in loaded) &&
    Distinct(r.loading)
  }

  /** The lines that are no include directive, in order. */
  function Kept(target: Recogniser, lines: seq<SpecLine>): seq<SpecLine>
    decreases |lines|
  {
    if |lines| == 0 then []
    else Kept(target, lines[..|lines| - 1]) + (if IsInclude(target, lines[|lines| - 1]) then [] else [lines[|lines| - 1]])
  }

  /**
   * The lines that are no include directive of the named modules that can be
   * read, counted with their multiplicity.
   */
  function ModuleKept(files: Files, target: Recogniser, names: seq<string>): multiset<SpecLine>
    decreases |names|
  {
    if |names| == 0 then multiset{}
    else
      var n := names[|names| - 1];
      ModuleKept(files, target, names[..|names| - 1]) + (if n in files then multiset(Kept(target, files[n])) else multiset{})
  }

  lemma {:induction false} KeptAppend(target: Recogniser, a: seq<SpecLine>, b: seq<SpecLine>)
    ensures Kept(target, a + b) == Kept(target, a) + Kept(target, b)
    decreases |b|
  {
    if |b| == 0 {
      assert a + b == a;
    } else {
      var n := |b| - 1;
      var ab := a + b;
      assert ab[..|ab| - 1] == a + b[..n];
      assert ab[|ab| - 1] == b[n];
      KeptAppend(target, a, b[..n]);
    }
  }

  lemma {:induction false} ModuleKeptAppend(files: Files, target: Recogniser, a: seq<string>, b: seq<string>)
    ensures ModuleKept(files, target, a + b) == ModuleKept(files, target, a) + ModuleKept(files, target, b)
    decreases |b|
  {
    if |b| == 0 {
      assert a + b == a;
    } else {
      var n := |b| - 1;
      var ab := a + b;
      assert ab[..|ab| - 1] == a + b[..n];
      assert ab[|ab| - 1] == b[n];
      ModuleKeptAppend(files, target, a, b[..n]);
    }
  }

  /** No kept line is an include directive. */
  lemma {:induction false} KeptClean(target: Recogniser, lines: seq<SpecLine>)
    ensures forall l :: l in Kept(target, lines) ==> !IsInclude(target, l)
    decreases |lines|
  {
    if |lines| > 0 {
      KeptClean(target, lines[..|lines| - 1]);
    }
  }

  /** No line of a module counted as kept is an include directive. */
  lemma {:induction false} ModuleKeptClean(files: Files, target: Recogniser, names: seq<string>)
    ensures forall l :: l in ModuleKept(files, target, names) ==> !IsInclude(target, l)
    decreases |names|
  {
    if |names| > 0 {
      var n := names[|names| - 1];
      ModuleKeptClean(files, target, names[..|names| - 1]);
      if n in files {
        KeptClean(target, files[n]);
      }
    }
  }

  /**
   * Where an expansion's output comes from: its lines are, up to order, the
   * lines that are no include directive of the input and of the modules whose
   * loading it started; every error names such a module that cannot be read.
   */
  ghost predicate Origin(files: Files, target: Recogniser, input: seq<SpecLine>, r: Expansion)
  {
    multiset(r.lines) == multiset(Kept(target, input)) + ModuleKept(files, target, r.loading) &&
    (forall e :: e in r.errors ==> e.moduleName in r.loading && e.moduleName !in files)
  }

  /** The expansions of two consecutive parts, one after the other. */
  function Then(front: Expansion, back: Expansion): Expansion
  {
    Expansion(front.lines + back.lines, back.loaded, front.loading + back.loading, front.errors + back.errors)
  }

  lemma LoadsOnceThen(loaded: set<string>, front: Expansion, back: Expansion)
    requires LoadsOnce(loaded, front) && LoadsOnce(front.loaded, back)
    ensures LoadsOnce(loaded, Then(front, back))
  {
    var r := Then(front, back);
    forall i, j | 0 <= i < j < |r.loading|
      ensures r.loading[i] != r.loading[j]
    {
      if j >= |front.loading| && i < |front.loading| {
        assert r.loading[j] == back.loading[j - |front.loading|];
        assert r.loading[j] !in front.loaded;
      }
    }
  }

  lemma OriginThen(files: Files, target: Recogniser, a: seq<SpecLine>, front: Expansion, b: seq<SpecLine>, back: Expansion)
    requires Origin(files, target, a, front) && Origin(files, target, b, back)
    ensures Origin(files, target, a + b, Then(front, back))
  {
    ModuleKeptAppend(files, target, front.loading, back.loading);
    KeptAppend(target, a, b);
  }

  lemma OriginLast(files: Files, target: Recogniser, lines: seq<SpecLine>, front: Expansion, last: Expansion, r: Expansion)
    requires |lines| > 0 && r == Then(front, last)
    requires Origin(files, target, lines[..|lines| - 1], front)
    requires Origin(files, target, [lines[|lines| - 1]], last)
    ensures Origin(files, target, lines, r)
  {
    var n := |lines| - 1;
    OriginThen(files, target, lines[..n], front, [lines[n]], last);
    assert lines[..n] + [lines[n]] == lines;
  }

  /** A module's expansion put in place of the include line that loads it. */
  lemma LoadsOnceSplice(loaded: set<string>, name: string, sub: Expansion)
    requires name !in loaded && LoadsOnce(loaded + {name}, sub)
    ensures LoadsOnce(loaded, Expansion(sub.lines, sub.loaded, [name] + sub.loading, sub.errors))
  {
  }

  lemma OriginSplice(files: Files, target: Recogniser, line: SpecLine, name: string, sub: Expansion)
    requires target(line.text) == Some(name) && name in files && Origin(files, target, files[name], sub)
    ensures Origin(files, target, [line], Expansion(sub.lines, sub.loaded, [name] + sub.loading, sub.errors))
  {
    ModuleKeptAppend(files, target, [name], sub.loading);
    assert ModuleKept(files, target, [name]) == multiset(Kept(target, files[name])) by {
      assert [name][..0] == [];
    }
    assert Kept(target, [line]) == [] by {
      assert [line][..0] == [];
    }
  }

  /** A line that is no include directive is kept; one that is contributes nothing itself. */
  lemma OriginOneLine(files: Files, target: Recogniser, line: SpecLine, loaded: set<string>, loading: seq<string>, errors: seq<LoadError>)
    requires ModuleKept(files, target, loading) == multiset{}
    requires forall e :: e in errors ==> e.moduleName in loading && e.moduleName !in files
    ensures Origin(files, target, [line], Expansion(if IsInclude(target, line) then [] else [line], loaded, loading, errors))
  {
    assert [line][..0] == [];
    assert Kept(target, [line]) == if IsInclude(target, line) then [] else [line];
  }

  /**
   * `injectModules` as a function of the files and the modules loaded so far:
   * the lines are expanded one after the other, each with the modules loaded
   * by the lines before it. Modules only ever get loaded.
   */
  function Expand(files: Files, target: Recogniser, loaded: set<string>, lines: seq<SpecLine>): (r: Expansion)
    ensures loaded <= r.loaded
    decreases |files.Keys - loaded|, |lines|, 1
  {
    if |lines| == 0 then Expansion([], loaded, [], [])
    else
      var front := Expand(files, target, loaded, lines[..|lines| - 1]);
      FewerToLoad(files.Keys, loaded, front.loaded);
      Then(front, ExpandLine(files, target, front.loaded, lines[|lines| - 1]))
  }

  /**
   * One line: a line that is no include directive is kept; an include of a
   * loaded module is dropped; otherwise the module is marked loaded and either
   * its expanded lines take the include's place or, when it cannot be read, an
   * error is reported.
   */
  function ExpandLine(files: Files, target: Recogniser, loaded: set<string>, line: SpecLine): (r: Expansion)
    ensures loaded <= r.loaded
    decreases |files.Keys - loaded|, 0, 0
  {
    match target(line.text)
    case None => Expansion([line], loaded, [], [])
    case Some(name) =>
      if name in loaded then Expansion([], loaded, [], [])
      else if name !in files then Expansion([], loaded + {name}, [name], [CannotLoad(name, line)])
      else
        OneFewerToLoad(files.Keys, loaded, loaded, name);
        var sub := Expand(files, target, loaded + {name}, files[name]);
        Expansion(sub.lines, sub.loaded, [name] + sub.loading, sub.errors)
  }

  /** Expanding loads each module at most once, and none that was loaded before. */
  lemma {:induction false} ExpandLoadsOnce(files: Files, target: Recogniser, loaded: set<string>, lines: seq<SpecLine>)
    ensures LoadsOnce(loaded, Expand(files, target, loaded, lines))
    decreases |files.Keys - loaded|, |lines|, 1
  {
    if |lines| > 0 {
      var n := |lines| - 1;
      var front := Expand(files, target, loaded, lines[..n]);
      ExpandLoadsOnce(files, target, loaded, lines[..n]);
      FewerToLoad(files.Keys, loaded, front.loaded);
      ExpandLineLoadsOnce(files, target, front.loaded, lines[n]);
      LoadsOnceThen(loaded, front, ExpandLine(files, target, front.loaded, lines[n]));
      ExpandsLast(files, target, loaded, lines);
    }
  }

  lemma {:induction false} ExpandLineLoadsOnce(files: Files, target: Recogniser, loaded: set<string>, line: SpecLine)
    ensures LoadsOnce(loaded, ExpandLine(files, target, loaded, line))
    decreases |files.Keys - loaded|, 0, 0
  {
    match target(line.text)
    case None =>
    case Some(name) =>
      if name !in loaded && name in files {
        OneFewerToLoad(files.Keys, loaded, loaded, name);
        ExpandLoadsOnce(files, target, loaded + {name}, files[name]);
        LoadsOnceSplice(loaded, name, Expand(files, target, loaded + {name}, files[name]));
      }
  }

  /**
   * No include directive is left after expanding; every line comes from the
   * input or from a module the expansion loaded; every error names a loaded
   * module that cannot be read.
   */
  lemma {:induction false} ExpandOrigin(files: Files, target: Recogniser, loaded: set<string>, lines: seq<SpecLine>)
    ensures Origin(files, target, lines, Expand(files, target, loaded, lines))
    decreases |files.Keys - loaded|, |lines|, 1
  {
    if |lines| == 0 {
      assert Expand(files, target, loaded, lines) == Expansion([], loaded, [], []);
    } else {
      var n := |lines| - 1;
      var front := Expand(files, target, loaded, lines[..n]);
      ExpandOrigin(files, target, loaded, lines[..n]);
      FewerToLoad(files.Keys, loaded, front.loaded);
      ExpandLineOrigin(files, target, front.loaded, lines[n]);
      ExpandOriginStep(files, target, loaded, lines);
    }
  }

  lemma ExpandOriginStep(files: Files, target: Recogniser, loaded: set<string>, lines: seq<SpecLine>)
    requires |lines| > 0
    requires Origin(files, target, lines[..|lines| - 1], Expand(files, target, loaded, lines[..|lines| - 1]))
    requires Origin(files, target, [lines[|lines| - 1]], ExpandLine(files, target, Expand(files, target, loaded, lines[..|lines| - 1]).loaded, lines[|lines| - 1]))
    ensures Origin(files, target, lines, Expand(files, target, loaded, lines))
  {
    var front := Expand(files, target, loaded, lines[..|lines| - 1]);
    ExpandsLast(files, target, loaded, lines);
    OriginLast(files, target, lines, front, ExpandLine(files, target, front.loaded, lines[|lines| - 1]), Expand(files, target, loaded, lines));
  }

  lemma {:induction false} ExpandLineOrigin(files: Files, target: Recogniser, loaded: set<string>, line: SpecLine)
    ensures Origin(files, target, [line], ExpandLine(files, target, loaded, line))
    decreases |files.Keys - loaded|, 0, 0
  {
    match target(line.text)
    case None =>
      OriginOneLine(files, target, line, loaded, [], []);
    case Some(name) =>
      if name in loaded {
        OriginOneLine(files, target, line, loaded, [], []);
      } else if name !in files {
        assert ModuleKept(files, target, [name]) == multiset{} by {
          assert [name][..0] == [];
        }
        OriginOneLine(files, target, line, loaded + {name}, [name], [CannotLoad(name, line)]);
      } else {
        OneFewerToLoad(files.Keys, loaded, loaded, name);
        ExpandOrigin(files, target, loaded + {name}, files[name]);
        OriginSplice(files, target, line, name, Expand(files, target, loaded + {name}, files[name]));
      }
  }

  /** No include directive is left after expanding. */
  lemma ExpandClean(files: Files, target: Recogniser, loaded: set<string>, lines: seq<SpecLine>)
    ensures forall l :: l in Expand(files, target, loaded, lines).lines ==> !IsInclude(target, l)
  {
    var r := Expand(files, target, loaded, lines);
    ExpandOrigin(files, target, loaded, lines);
    KeptClean(target, lines);
    ModuleKeptClean(files, target, r.loading);
    forall l | l in r.lines
      ensures !IsInclude(target, l)
    {
      assert l in multiset(r.lines);
    }
  }

  /** Putting expansions one after the other does not depend on the grouping. */
  lemma ThenAssociative(x: Expansion, y: Expansion, z: Expansion)
    ensures Then(Then(x, y), z) == Then(x, Then(y, z))
  {
    assert (x.lines + y.lines) + z.lines == x.lines + (y.lines + z.lines);
    assert (x.loading + y.loading) + z.loading == x.loading + (y.loading + z.loading);
    assert (x.errors + y.errors) + z.errors == x.errors + (y.errors + z.errors);
  }

  /** Nothing expanded after an expansion leaves it as it is. */
  lemma ThenNothing(x: Expansion)
    ensures Then(x, Expansion([], x.loaded, [], [])) == x
  {
    assert x.lines + [] == x.lines && x.loading + [] == x.loading && x.errors + [] == x.errors;
  }

  /** Expanding lines one part after the other is expanding them all. */
  lemma {:induction false} ExpandAppend(files: Files, target: Recogniser, loaded: set<string>, a: seq<SpecLine>, b: seq<SpecLine>)
    ensures Expand(files, target, loaded, a + b) == Then(Expand(files, target, loaded, a), Expand(files, target, Expand(files, target, loaded, a).loaded, b))
    decreases |b|
  {
    var front := Expand(files, target, loaded, a);
    if |b| == 0 {
      assert a + b == a;
      ThenNothing(front);
    } else {
      var n := |b| - 1;
      ExpandAppend(files, target, loaded, a, b[..n]);
      var mid := Expand(files, target, front.loaded, b[..n]);
      var last := ExpandLine(files, target, mid.loaded, b[n]);
      ExpandsPrefix(files, target, front.loaded, b, n);
      assert b[..n + 1] == b;
      ExpandsPrefix(files, target, loaded, a + b, |a| + n);
      assert (a + b)[..|a| + n] == a + b[..n] && (a + b)[|a| + n] == b[n] && (a + b)[..|a| + n + 1] == a + b;
      ThenAssociative(front, mid, last);
    }
  }

  /** Lines without include directives come out as they are, loading nothing. */
  lemma {:induction false} NoIncludesUnchanged(files: Files, target: Recogniser, loaded: set<string>, lines: seq<SpecLine>)
    requires forall l :: l in lines ==> !IsInclude(target, l)
    ensures Expand(files, target, loaded, lines) == Expansion(lines, loaded, [], [])
    decreases |lines|
  {
    if |lines| > 0 {
      var n := |lines| - 1;
      assert lines[n] in lines;
      forall l | l in lines[..n]
        ensures !IsInclude(target, l)
      {
        assert l in lines;
      }
      NoIncludesUnchanged(files, target, loaded, lines[..n]);
      assert lines[..n] + [lines[n]] == lines;
    }
  }

  /** Expanding an expanded specification again changes nothing and loads nothing. */
  lemma ExpansionIdempotent(files: Files, target: Recogniser, loaded: set<string>, lines: seq<SpecLine>, again: set<string>)
    ensures Expand(files, target, again, Expand(files, target, loaded, lines).lines) == Expansion(Expand(files, target, loaded, lines).lines, again, [], [])
  {
    ExpandClean(files, target, loaded, lines);
    NoIncludesUnchanged(files, target, again, Expand(files, target, loaded, lines).lines);
  }

  /**
   * Two modules that include each other: the main specification includes a,
   * whose first line includes b, whose first line includes a again. The second
   * include of a is dropped, so the result is b's own lines followed by a's,
   * and each module is loaded once.
   */
  lemma MutualIncludes(files: Files, target: Recogniser, a: string, b: string, incA: SpecLine, incB: SpecLine, bodyA: seq<SpecLine>, bodyB: seq<SpecLine>)
    requires a != b && a in files && b in files
    requires target(incA.text) == Some(a) && target(incB.text) == Some(b)
    requires files[a] == [incB] + bodyA && files[b] == [incA] + bodyB
    requires forall l :: l in bodyA ==> !IsInclude(target, l)
    requires forall l :: l in bodyB ==> !IsInclude(target, l)
    ensures Expand(files, target, {}, [incA]) == Expansion(bodyB + bodyA, {a, b}, [a, b], [])
  {
    // inside b: the include of a is dropped, b's own lines stay
    ExpandAppend(files, target, {a, b}, [incA], bodyB);
    ExpandsOne(files, target, {a, b}, incA);
    NoIncludesUnchanged(files, target, {a, b}, bodyB);
    assert Expand(files, target, {a, b}, files[b]) == Expansion(bodyB, {a, b}, [], []);
    // inside a: b's expansion takes the place of its include, a's own lines follow
    ExpandsOne(files, target, {a}, incB);
    assert {a} + {b} == {a, b};
    assert ExpandLine(files, target, {a}, incB) == Expansion(bodyB, {a, b}, [b], []);
    ExpandAppend(files, target, {a}, [incB], bodyA);
    NoIncludesUnchanged(files, target, {a, b}, bodyA);
    assert Expand(files, target, {a}, files[a]) == Expansion(bodyB + bodyA, {a, b}, [b], []);
    ExpandsOne(files, target, {}, incA);
    assert {} + {a} == {a};
  }

  /** A single line expands as that line does. */
  lemma ExpandsOne(files: Files, target: Recogniser, loaded: set<string>, line: SpecLine)
    ensures Expand(files, target, loaded, [line]) == ExpandLine(files, target, loaded, line)
  {
    assert [line][..0] == [];
    var e := ExpandLine(files, target, loaded, line);
    assert [] + e.lines == e.lines && [] + e.loading == e.loading && [] + e.errors == e.errors;
  }

  /** The phases of the engine; only the transition into parsing matters here. */
  datatype EngineMode = EmParsingSpec | OtherMode(name: string)

  /**
   * The plugin's state: the module files it can read, the set of loaded
   * modules, the "Loading module" messages and load errors it has reported,
   * and the lines of the specification being parsed.
   */
  class ModularityPlugin {
    const files: Files
    /** how an include directive is recognised: `IncludeTarget` */
    const target: Recogniser
    var loadedModules: set<string>
    var loading: seq<string>
    var errors: seq<LoadError>
    var specLines: seq<SpecLine>

    constructor (files: Files, spec: seq<SpecLine>)
      ensures this.files == files && target == IncludeTarget && specLines == spec
      ensures loadedModules == {} && loading == [] && errors == []
    {
      this.files := files;
      target := IncludeTarget;
      specLines := spec;
      loadedModules := {};
      loading := [];
      errors := [];
    }

    /**
     * `fireOnModeTransition`: entering the parsing phase forgets the modules
     * loaded before and replaces the specification by its expansion; any other
     * transition does nothing.
     */
    method FireOnModeTransition(source: EngineMode, mode: EngineMode)
      modifies this
      ensures mode == EmParsingSpec ==>
                var e := Expand(files, target, {}, old(specLines));
                specLines == e.lines && loadedModules == e.loaded &&
                loading == old(loading) + e.loading && errors == old(errors) + e.errors
      ensures mode != EmParsingSpec ==> unchanged(this)
    {
      if mode == EmParsingSpec {
        loadedModules := {};
        var newSpec := InjectModules(specLines);
        specLines := newSpec;
      }
    }

    /** `injectModules`: expand the lines one after the other. */
    method InjectModules(lines: seq<SpecLine>) returns (newSpec: seq<SpecLine>)
      modifies this
      ensures var e := Expand(files, target, old(loadedModules), lines);
              newSpec == e.lines && loadedModules == e.loaded &&
              loading == old(loading) + e.loading && errors == old(errors) + e.errors
      ensures specLines == old(specLines)
      decreases |files.Keys - loadedModules|, |lines|, 3
    {
      newSpec := [];
      for i := 0 to |lines|
        invariant var e := Expand(files, target, old(loadedModules), lines[..i]);
                  newSpec == e.lines && loadedModules == e.loaded &&
                  loading == old(loading) + e.loading && errors == old(errors) + e.errors
        invariant specLines == old(specLines)
      {
        ghost var before := Expand(files, target, old(loadedModules), lines[..i]);
        FewerToLoad(files.Keys, old(loadedModules), loadedModules);
        var added := InjectLine(lines[i]);
        ghost var step := ExpandLine(files, target, before.loaded, lines[i]);
        newSpec := newSpec + added;
        ExpandsPrefix(files, target, old(loadedModules), lines, i);
        Regroup(before, step, old(loading), old(errors));
      }
      assert lines[..|lines|] == lines;
    }

    /**
     * One line of `injectModules`: a line that is no include directive is
     * kept, an include directive loads the module it names.
     */
    method InjectLine(line: SpecLine) returns (added: seq<SpecLine>)
      modifies this
      ensures var e := ExpandLine(files, target, old(loadedModules), line);
              added == e.lines && loadedModules == e.loaded &&
              loading == old(loading) + e.loading && errors == old(errors) + e.errors
      ensures specLines == old(specLines)
      decreases |files.Keys - loadedModules|, 0, 2
    {
      var name := target(line.text);
      if name.None? {
        ExpandLineCases(files, target, loadedModules, line);
        added := [line];
        assert loading == loading + [] && errors == errors + [];
      } else {
        added := InjectModule(line, name.value);
      }
    }

    /**
     * The module an include directive names: skipped when loaded already;
     * otherwise marked loaded and announced, then expanded in place of the
     * line or, when it cannot be read, reported.
     */
    method InjectModule(line: SpecLine, name: string) returns (added: seq<SpecLine>)
      requires target(line.text) == Some(name)
      modifies this
      ensures var e := ExpandLine(files, target, old(loadedModules), line);
              added == e.lines && loadedModules == e.loaded &&
              loading == old(loading) + e.loading && errors == old(errors) + e.errors
      ensures specLines == old(specLines)
      decreases |files.Keys - loadedModules|, 0, 1
    {
      ExpandLineCases(files, target, loadedModules, line);
      if name in loadedModules {
        added := [];
        assert loading == loading + [] && errors == errors + [];
      } else if name !in files {
        loadedModules := loadedModules + {name};
        loading := loading + [name];
        errors := errors + [CannotLoad(name, line)];
        added := [];
      } else {
        added := LoadModule(line, name);
      }
    }

    /** Load a module that can be read and put its expanded lines in place of the include directive. */
    method LoadModule(line: SpecLine, name: string) returns (added: seq<SpecLine>)
      requires target(line.text) == Some(name) && name !in loadedModules && name in files
      modifies this
      ensures var sub := Expand(files, target, old(loadedModules) + {name}, files[name]);
              added == sub.lines && loadedModules == sub.loaded &&
              loading == old(loading) + ([name] + sub.loading) && errors == old(errors) + sub.errors
      ensures specLines == old(specLines)
      decreases |files.Keys - loadedModules|, 0, 0
    {
      loadedModules := loadedModules + {name};
      loading := loading + [name];
      OneFewerToLoad(files.Keys, old(loadedModules), old(loadedModules), name);
      added := InjectModules(files[name]);
      Associative(old(loading), [name], Expand(files, target, old(loadedModules) + {name}, files[name]).loading);
    }
  }

  /** The four ways a line expands. */
  lemma ExpandLineCases(files: Files, target: Recogniser, loaded: set<string>, line: SpecLine)
    ensures target(line.text).None? ==> ExpandLine(files, target, loaded, line) == Expansion([line], loaded, [], [])
    ensures target(line.text).Some? && target(line.text).value in loaded ==>
              ExpandLine(files, target, loaded, line) == Expansion([], loaded, [], [])
    ensures target(line.text).Some? && target(line.text).value !in loaded && target(line.text).value !in files ==>
              var name := target(line.text).value;
              ExpandLine(files, target, loaded, line) == Expansion([], loaded + {name}, [name], [CannotLoad(name, line)])
    ensures target(line.text).Some? && target(line.text).value !in loaded && target(line.text).value in files ==>
              var name := target(line.text).value;
              var sub := Expand(files, target, loaded + {name}, files[name]);
              ExpandLine(files, target, loaded, line) == Expansion(sub.lines, sub.loaded, [name] + sub.loading, sub.errors)
  {
  }

  lemma Associative<T>(a: seq<T>, b: seq<T>, c: seq<T>)
    ensures (a + b) + c == a + (b + c)
  {
  }

  /** The logs after one more step of an expansion. */
  lemma Regroup(before: Expansion, step: Expansion, loading: seq<string>, errors: seq<LoadError>)
    ensures (loading + before.loading) + step.loading == loading + Then(before, step).loading
    ensures (errors + before.errors) + step.errors == errors + Then(before, step).errors
  {
  }

  /** The expansion of all lines but the last, followed by the last line's. */
  lemma ExpandsLast(files: Files, target: Recogniser, loaded: set<string>, lines: seq<SpecLine>)
    requires |lines| > 0
    ensures var front := Expand(files, target, loaded, lines[..|lines| - 1]);
            Expand(files, target, loaded, lines) == Then(front, ExpandLine(files, target, front.loaded, lines[|lines| - 1]))
  {
  }

  /**
   * The include recognition of `injectModules`: match `^\s*include\s+`, take
   * the rest of the line, trim it and remove surrounding quotation marks.
   */
  method Recognise(text: string) returns (r: Option<string>)
    ensures r == IncludeTarget(text)
  {
    var prefix := IncludePrefix(text);
    if prefix.None? {
      return None;
    }
    var fileName := StripQuotes(Trim(text[prefix.value..]));
    return Some(fileName);
  }

  /** One more line extends the expansion by that line's. */
  lemma ExpandsPrefix(files: Files, target: Recogniser, loaded: set<string>, lines: seq<SpecLine>, i: nat)
    requires i < |lines|
    ensures var front := Expand(files, target, loaded, lines[..i]);
            Expand(files, target, loaded, lines[..i + 1]) == Then(front, ExpandLine(files, target, front.loaded, lines[i]))
  {
    assert lines[..i + 1][..i] == lines[..i];
  }

  /**
   * A node for an include directive that reaches the parser. Its file name is
   * the string token of its "alpha" child without the first and last
   * character (the quotation marks), computed once and then kept.
   */
  class IncludeNode {
    const alpha: string
    var filename: Option<string>

    constructor (alpha: string)
      ensures this.alpha == alpha && filename == None
    {
      this.alpha := alpha;
      filename := None;
    }

    /** `getFilename` */
    method GetFilename() returns (r: string)
      requires filename.Some? || |alpha| >= 2
      modifies this
      ensures old(filename).Some? ==> r == old(filename).value
      ensures old(filename).None? ==> |r| + 2 == |alpha| && forall k :: 0 <= k < |r| ==> r[k] == alpha[k + 1]
      ensures filename == Some(r)
    {
      if filename.None? {
        filename := Some(alpha[1..|alpha| - 1]);
      }
      r := filename.value;
    }
  }
}
