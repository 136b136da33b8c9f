/** The rules by which the prompt steps of slushfile.js build the two module
    lists: which answers are appended, and what an absent npm list starts as. */
module ModuleLists {

  datatype Option<T> = None | Some(value: T)

  /** An npm dependency: the package and the angular module it provides. */
  datatype NpmModule = NpmModule(packageName: string, moduleName: string)

  /** What an absent `npmModules` is seeded with. */
  const DefaultNpmModules: seq<NpmModule> := [NpmModule("angular-ui-router", "ui.router")]

  /** `answers.npmModules` once `promptAddNpmModule` has run: seeded when absent. */
  function SeedNpmModules(npm: Option<seq<NpmModule>>): seq<NpmModule>
  {
    if npm.None? then DefaultNpmModules else npm.value
  }

  /** One answer to the app-module prompt: kept only when the name is non-empty. */
  function AddAppModule(names: seq<string>, name: string): seq<string>
  {
    if |name| > 0 then names + [name] else names
  }

  /** One answer to the npm-module prompt: kept only when both fields are set. */
  function AddNpmModule(mods: seq<NpmModule>, m: NpmModule): seq<NpmModule>
  {
    if |m.packageName| > 0 && |m.moduleName| > 0 then mods + [m] else mods
  }

  /** The app-module list after the prompt has been answered with `answers`,
      one name per "yes", in the order given. */
  function CollectAppModules(names: seq<string>, answers: seq<string>): seq<string>
    decreases |answers|
  {
    if answers == [] then names
    else CollectAppModules(AddAppModule(names, answers[0]), answers[1..])
  }

  /** The npm-module list after the prompt has been answered with `answers`;
      every round seeds an absent list before it takes an answer. */
  function CollectNpmModules(npm: Option<seq<NpmModule>>, answers: seq<NpmModule>): seq<NpmModule>
    decreases |answers|
  {
    var seeded := SeedNpmModules(npm);
    if answers == [] then seeded
    else CollectNpmModules(Some(AddNpmModule(seeded, answers[0])), answers[1..])
  }

  /** The non-empty names among `answers`, in order. */
  function Named(answers: seq<string>): (r: seq<string>)
    ensures forall i :: 0 <= i < |r| ==> |r[i]| > 0
    ensures |r| <= |answers|
  {
    if answers == [] then []
    else (if |answers[0]| > 0 then [answers[0]] else []) + Named(answers[1..])
  }

  /** The answers among `answers` whose two fields are both set, in order. */
  function Complete(answers: seq<NpmModule>): (r: seq<NpmModule>)
    ensures forall i :: 0 <= i < |r| ==> |r[i].packageName| > 0 && |r[i].moduleName| > 0
    ensures |r| <= |answers|
  {
    if answers == [] then []
    else
      var m := answers[0];
      (if |m.packageName| > 0 && |m.moduleName| > 0 then [m] else []) + Complete(answers[1..])
  }

  /** A name is among `Named(answers)` exactly when it was answered and is non-empty. */
  lemma {:induction false} NamedMembers(answers: seq<string>, x: string)
    ensures x in Named(answers) <==> x in answers && |x| > 0
  {
    if answers != [] {
      NamedMembers(answers[1..], x);
      assert answers == [answers[0]] + answers[1..];
    }
  }

  /** An npm module is among `Complete(answers)` exactly when it was answered
      with both fields set. */
  lemma {:induction false} CompleteMembers(answers: seq<NpmModule>, m: NpmModule)
    ensures m in Complete(answers) <==> m in answers && |m.packageName| > 0 && |m.moduleName| > 0
  {
    if answers != [] {
      CompleteMembers(answers[1..], m);
      assert answers == [answers[0]] + answers[1..];
    }
  }

  /** The app-module prompt keeps the earlier list and appends exactly the
      non-empty names, in the order answered. */
  lemma {:induction false} CollectAppModulesKeepsNamed(names: seq<string>, answers: seq<string>)
    ensures CollectAppModules(names, answers) == names + Named(answers)
    decreases |answers|
  {
    if answers != [] {
      CollectAppModulesKeepsNamed(AddAppModule(names, answers[0]), answers[1..]);
      if |answers[0]| > 0 {
        assert names + [answers[0]] + Named(answers[1..]) == names + ([answers[0]] + Named(answers[1..]));
      } else {
        assert [] + Named(answers[1..]) == Named(answers[1..]);
      }
    }
  }

  /** The npm-module prompt seeds an absent list exactly once with the
      default, keeps a present one, and appends exactly the answers whose
      two fields are set, in the order answered. */
  lemma {:induction false} CollectNpmModulesKeepsComplete(npm: Option<seq<NpmModule>>, answers: seq<NpmModule>)
    ensures CollectNpmModules(npm, answers) == SeedNpmModules(npm) + Complete(answers)
    ensures npm.None? ==> CollectNpmModules(npm, answers)[..1] == DefaultNpmModules
    decreases |answers|
  {
    var seeded := SeedNpmModules(npm);
    if answers != [] {
      var m := answers[0];
      CollectNpmModulesKeepsComplete(Some(AddNpmModule(seeded, m)), answers[1..]);
      if |m.packageName| > 0 && |m.moduleName| > 0 {
        assert seeded + [m] + Complete(answers[1..]) == seeded + ([m] + Complete(answers[1..]));
      } else {
        assert [] + Complete(answers[1..]) == Complete(answers[1..]);
      }
    }
  }
}
