/** The answer set the generator threads through its steps, as an object
    whose fields the steps update in place, and the app modules in it as
    objects that processing extends with `importName` and `from`. */
module Answers {
  import opened JsStrings
  import opened StateNaming
  import ModuleLists

  /** One entry of `answers.appModules`: the `{name}` the prompt returned,
      later given its `importName` and `from`. */
  class AppModule {
    const name: string
    var importName: string
    var from: string

    constructor (name: string)
      ensures this.name == name && importName == [] && from == []
    {
      this.name := name;
      importName := [];
      from := [];
    }
  }

  /** The names of a list of app modules, in order. */
  function Names(mods: seq<AppModule>): (names: seq<string>)
    ensures |names| == |mods|
    ensures forall i :: 0 <= i < |mods| ==> names[i] == mods[i].name
  {
    seq(|mods|, i requires 0 <= i < |mods| => mods[i].name)
  }

  class Answers {
    var app: string
    var state: string
    var appModules: seq<AppModule>
    var npmModules: ModuleLists.Option<seq<ModuleLists.NpmModule>>
    var baseState: string
    var moduleName: string
    var outputDir: string
    var stateConfigFn: string
    var stateCtrlFn: string

    /** The answers of the first prompt; the lists are not there yet and
        nothing is derived. */
    constructor (app: string, state: string)
      ensures this.app == app && this.state == state
      ensures appModules == [] && npmModules == ModuleLists.None
      ensures baseState == [] && moduleName == [] && outputDir == []
      ensures stateConfigFn == [] && stateCtrlFn == []
    {
      this.app := app;
      this.state := state;
      appModules := [];
      npmModules := ModuleLists.None;
      baseState, moduleName, outputDir := [], [], [];
      stateConfigFn, stateCtrlFn := [], [];
    }

    /** Seeds an absent npm list with the default module. */
    method SeedNpmModules()
      modifies this`npmModules
      ensures npmModules == ModuleLists.Some(ModuleLists.SeedNpmModules(old(npmModules)))
    {
      if npmModules.None? {
        npmModules := ModuleLists.Some(ModuleLists.DefaultNpmModules);
      }
    }

    /** Appends one answer to the npm-module prompt when both of its fields
        are set; the list has always been seeded by then. */
    method AddNpmModule(packageName: string, moduleName: string)
      requires npmModules.Some?
      modifies this`npmModules
      ensures npmModules == ModuleLists.Some(ModuleLists.AddNpmModule(
                                old(npmModules).value, ModuleLists.NpmModule(packageName, moduleName)))
    {
      if |packageName| > 0 && |moduleName| > 0 {
        npmModules := ModuleLists.Some(npmModules.value + [ModuleLists.NpmModule(packageName, moduleName)]);
      }
    }

    /** Appends a new module object for one answer to the app-module prompt
        when its name is non-empty; the objects already there stay. */
    method AddAppModule(name: string)
      modifies this`appModules
      ensures Names(appModules) == ModuleLists.AddAppModule(Names(old(appModules)), name)
      ensures |name| > 0 ==>
                && |appModules| == |old(appModules)| + 1
                && appModules[..|old(appModules)|] == old(appModules)
                && fresh(appModules[|old(appModules)|])
                && appModules[|old(appModules)|].importName == []
                && appModules[|old(appModules)|].from == []
      ensures |name| == 0 ==> appModules == old(appModules)
    {
      if |name| > 0 {
        var m := new AppModule(name);
        appModules := appModules + [m];
        assert Names(appModules) == Names(old(appModules)) + [name];
      }
    }

    /** `processStateAnswers`: derives the names and paths from `app` and
        `state`, then gives every app module its `importName` and `from`.
        The app, the state, both lists and every module's name stay as they
        were. */
    method ProcessStateAnswers()
      modifies this, appModules
      ensures app == old(app) && state == old(state)
      ensures appModules == old(appModules) && npmModules == old(npmModules)
      ensures baseState == BaseState(state)
      ensures moduleName == app + ".states." + state
      ensures outputDir == OutputDir(state)
      ensures stateConfigFn == ConfigFnName(app, state)
      ensures stateCtrlFn == CtrlFnName(app, state)
      ensures forall i :: 0 <= i < |appModules| ==>
                appModules[i].importName == ImportName(appModules[i].name)
                && appModules[i].from == ImportFrom(moduleName, state, appModules[i].name)
    {
      DeriveStateNames();
      ResolveImports();
    }

    /** The `_.extend` step: the five derived fields, from `app` and `state`. */
    method DeriveStateNames()
      modifies this`baseState, this`moduleName, this`outputDir, this`stateConfigFn, this`stateCtrlFn
      ensures baseState == BaseState(state)
      ensures moduleName == app + ".states." + state
      ensures outputDir == OutputDir(state)
      ensures stateConfigFn == ConfigFnName(app, state)
      ensures stateCtrlFn == CtrlFnName(app, state)
    {
      var app, state := this.app, this.state;
      baseState, moduleName, outputDir := Last(Split(state, '.')), ModuleName(app, state), OutputDir(state);
      stateConfigFn, stateCtrlFn := ConfigFnName(app, state), CtrlFnName(app, state);
    }

    /** The `map` over the app modules: each one in turn gets its
        `importName` and `from`, relative to the derived `moduleName`. */
    method ResolveImports()
      requires moduleName != []
      modifies appModules
      ensures forall i :: 0 <= i < |appModules| ==>
                appModules[i].importName == ImportName(appModules[i].name)
                && appModules[i].from == ImportFrom(moduleName, state, appModules[i].name)
    {
      var i := 0;
      while i < |appModules|
        invariant 0 <= i <= |appModules|
        invariant forall j :: 0 <= j < i ==>
                    appModules[j].importName == ImportName(appModules[j].name)
                    && appModules[j].from == ImportFrom(moduleName, state, appModules[j].name)
      {
        ResolveImport(appModules[i], moduleName, state);
        i := i + 1;
      }
    }
  }

  /** The callback `processStateAnswers` maps over the app modules: sets the
      module's `importName` and its `from` relative to the state module
      `moduleName`, which is never empty. */
  method ResolveImport(m: AppModule, moduleName: string, state: string)
    requires moduleName != []
    modifies m
    ensures m.importName == ImportName(m.name)
    ensures m.from == ImportFrom(moduleName, state, m.name)
  {
    var name := m.name;
    var moduleParts := Split(name, '.');
    var parentModule := Join(moduleParts[..|moduleParts| - 1], ".");
    var stateModuleDepth := |Split(state, '.')| + 1;
    var relativeSrcDir := DropLast(HolesJoin(stateModuleDepth + 1, "../"));

    var first := moduleParts[0];
    var rest := moduleParts[1..];
    var importName := first + Join(Map(HyphenToSnakeCase, rest), "");

    var from;
    if parentModule == moduleName {
      // The parent of a one-segment name is empty, and moduleName is not.
      assert |rest| > 0;
      from := "./" + rest[|rest| - 1];
      assert rest[|rest| - 1] == Last(moduleParts);
    } else {
      from := FoldComponents(relativeSrcDir, rest);
    }
    m.importName, m.from := importName, from;
  }
}
