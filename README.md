# slush generator state answers, in Dafny

This project models the core of the `state` generator in `slushfile.js`: the
answer processor `processStateAnswers`, and the rules by which the prompt
steps build the answer set's two module lists.

The answer processor takes the answers `app` (the root angular module), a
dot-delimited `state` such as `admin.users`, and a list of app modules
(angular modules named with dots, such as `myApp.widget`). It extends the
answers in place with derived names and paths:

- `baseState`, the last state segment;
- `moduleName`, `app.states.<state>`;
- `outputDir`, `src/states/` followed by the state's segments joined by `/`;
- `stateConfigFn` and `stateCtrlFn`, the two generated function names.

It also writes an `importName` and a relative import path `from` onto every
app-module object. The prompt steps only append answers that are complete:
app modules with a name, and npm modules with both a package and an angular
module name. An absent npm list is seeded with `angular-ui-router` /
`ui.router`.

The project has five modules, one file each:

- `JsStrings` (`js_strings.dfy`): the JavaScript built-ins the code is written
  with. These are `split` on one character (never empty, so `"".split('.')`
  is `[""]`), `join`, `map`, `pop`, `slice(0, -1)` and
  `new Array(n).join(sep)`. Lemmas relate them to each other.
- `StateNaming` (`state_naming.dfy`): the pure helpers of
  `processStateAnswers` (`ucFirst`, `hyphenToSnakeCase`, `createConfigFnName`,
  `createCtrlFnName`, `createOutputDir`) and the per-module `importName` and
  `from` rules. Each is a function that follows the code's expression. Each
  is proved equal to an independent reading:
  - a character-level `PascalCase` for the generated identifiers and
    `importName`;
  - `src/states/` plus the state with dots turned into slashes, for
    `outputDir`;
  - `".."` followed by one `"/.."` per state segment, then one
    `/components/<segment>` per module segment after the first, for `from`.
- `ModuleLists` (`module_lists.dfy`): the append and seed rules of the two
  prompt loops, as pure list steps and folds. They are proved to keep
  exactly the complete answers, in order.
- `Answers` (`answers.dfy`): the answer set as a class whose fields are
  updated in place, and the app modules as objects that processing extends
  with `importName` and `from`. `ProcessStateAnswers` is the `_.extend`
  followed by the loop over the modules. Its contract is stated in terms of
  the `StateNaming` functions, and it says that only the derived fields and
  each module's two new fields change.
- `Examples` (`examples.dfy`): the app `myApp` with the state `admin.users`,
  worked through the general lemmas.

`hyphenToSnakeCase` does not produce snake case, in spite of its name. It
drops the hyphens and upper-cases the first character of every hyphen piece,
which is PascalCase. `HyphenToSnakeCaseIsPascalCase` states this.

The code's `from` rule puts `/components/` before every segment after the
first, middle or last. So `myApp.components.widget`, under the state
`admin.users`, is imported from
`../../../components/components/components/widget`. A reading that keeps only
the middle segments would give `../../../components/widget` for that name.
The model follows the code (`Examples.AdminUsersNested`).
`../../../components/widget` is what the code gives for `myApp.widget`
(`Examples.AdminUsersWidget`).

## Model

| member | source | states |
|---|---|---|
| JsStrings.Map | slushfile.js:18 | `map` keeps the length, and each result element is the callback applied to the element at the same index |
| JsStrings.SplitPiecesFree | slushfile.js:44 | no piece of a `split` contains the separator |
| JsStrings.SplitWithoutSeparator | slushfile.js:18 | a string without the separator splits into itself alone |
| JsStrings.SplitAppend | slushfile.js:52 | splitting at one occurrence of the separator is splitting each side and concatenating the pieces |
| JsStrings.SplitCount | slushfile.js:54 | `split(c).length` is one more than the number of `c` in the string |
| JsStrings.JoinSplit | slushfile.js:40 | joining the pieces of `split(c)` with `d` is the string with every `c` replaced by `d` |
| JsStrings.JoinSplitIdentity | slushfile.js:52-53 | joining the pieces of `split(c)` with `c` gives back the string |
| JsStrings.JoinLast | slushfile.js:53 | a join of two or more pieces is the join of all but the last, the separator, and the last piece |
| JsStrings.DropLast | slushfile.js:55 | `slice(0, -1)` removes exactly the last character, and leaves an empty string empty |
| JsStrings.HolesJoinRepeat | slushfile.js:55 | `new Array(n + 1).join(sep)` is `n` copies of `sep` |
| JsStrings.DropLastRepeat | slushfile.js:55 | `n` copies of `x + [y]` without their final `y` are `x` followed by `n - 1` copies of `[y] + x` |
| StateNaming.Upper | slushfile.js:14 | upper-casing maps `a`-`z` into `A`-`Z` and keeps every other character |
| StateNaming.UcFirst | slushfile.js:13-15 | `ucFirst` keeps the length of its argument |
| StateNaming.UcFirstIdempotent | slushfile.js:13-15 | `ucFirst` applied twice is `ucFirst` applied once |
| StateNaming.UcFirstIsPascalCase | slushfile.js:13-15 | `ucFirst` upper-cases the first character only, and `""` stays `""` |
| StateNaming.PascalCase | slushfile.js:17-19 | the character-level reading drops exactly the separators: its length is the input's less the separators |
| StateNaming.PascalCaseDropsSeps | slushfile.js:17-19 | no separator survives the character-level reading, when no separator is an upper-case letter |
| StateNaming.SplitThenPascalCase | slushfile.js:18 | splitting at `c` and putting each piece in PascalCase is PascalCase with `c` as one more separator |
| StateNaming.HyphenToSnakeCaseIsPascalCase | slushfile.js:17-19 | `hyphenToSnakeCase` drops every hyphen, upper-cases the first character and each character after a hyphen, and keeps all others |
| StateNaming.HyphenToSnakeCaseShape | slushfile.js:17-19 | `hyphenToSnakeCase` leaves no hyphen, and its length is the input length less the hyphen count |
| StateNaming.StateIdentIsPascalCase | slushfile.js:25 | the state part of both function names is the state in PascalCase, with dots and hyphens both as separators |
| StateNaming.StateIdentShape | slushfile.js:25 | the state part of both function names has no dot and no hyphen, and is as long as the state less its dots and hyphens |
| StateNaming.ConfigFnNameShape | slushfile.js:21-28 | `stateConfigFn` is the app name verbatim, `States`, the state in PascalCase and `Config` |
| StateNaming.CtrlFnNameShape | slushfile.js:30-37 | `stateCtrlFn` is `ucFirst` of the app name, `States`, the state in PascalCase and `Ctrl`; it is also the config name's stem with its first character upper-cased, then `Ctrl` |
| StateNaming.UcFirstStem | slushfile.js:32-34 | upper-casing the first character of app + `States` + state part touches only the app name |
| StateNaming.OutputDirMirrorsState | slushfile.js:39-41 | `outputDir` is `src/states/` followed by the state with every dot replaced by a slash |
| StateNaming.BaseStateIsLastSegment | slushfile.js:44 | `baseState` has no dot, and is either the whole state or the part after its last dot |
| StateNaming.ModuleName | slushfile.js:45 | `moduleName` is the app, `.states.` and the state |
| StateNaming.ImportNameIsRef | slushfile.js:52-57 | `importName` copies the module name up to the first dot, then the rest in PascalCase with dots and hyphens as separators |
| StateNaming.ImportNameWithoutDot | slushfile.js:57 | a module name without a dot is its own `importName` |
| StateNaming.ParentModuleIff | slushfile.js:52-59 | a module is a direct child of the state module exactly when its name is the state module's name, a dot and its own last segment |
| StateNaming.RelativeSrcDirAscends | slushfile.js:54-55 | the relative source directory for a module depth `d >= 1` is `..` followed by `d - 1` copies of `/..` |
| StateNaming.FoldComponentsAppends | slushfile.js:62-64 | the `reduce` appends one `/components/<part>` per part, in order, to the starting path |
| StateNaming.ImportFromDirectChild | slushfile.js:59-60 | a module one segment below the state module is imported from `./` and that segment |
| StateNaming.ImportFromOther | slushfile.js:61-65 | any other module is imported from `..`, one `/..` per state segment, then `/components/<segment>` for each module segment after the first, in order |
| ModuleLists.Named | slushfile.js:102-104 | the kept app-module names are all non-empty, and there are no more of them than answers |
| ModuleLists.NamedMembers | slushfile.js:102-104 | a name is kept exactly when it was answered and is non-empty |
| ModuleLists.CollectAppModulesKeepsNamed | slushfile.js:101-105 | the app-module prompt keeps the earlier list and appends exactly the non-empty names, in the order answered |
| ModuleLists.Complete | slushfile.js:140-142 | every kept npm module has both fields set, and there are no more of them than answers |
| ModuleLists.CompleteMembers | slushfile.js:140-142 | an npm module is kept exactly when it was answered with both fields set |
| ModuleLists.CollectNpmModulesKeepsComplete | slushfile.js:112-143 | the npm-module prompt keeps a present list, seeds an absent one once with the default, and appends exactly the complete answers, in order |
| Answers.AppModule.constructor | slushfile.js:101-103 | a new module object has the answered name and no `importName` or `from` yet |
| Answers.Answers.constructor | slushfile.js:150-168 | the first prompt's answers hold `app` and `state`, no module lists, and no derived fields |
| Answers.Answers.SeedNpmModules | slushfile.js:112-119 | an absent npm list becomes the default list; a present one stays as it is |
| Answers.Answers.AddNpmModule | slushfile.js:140-142 | an npm answer is pushed exactly when both of its fields are non-empty; nothing else changes |
| Answers.Answers.AddAppModule | slushfile.js:102-104 | a new module object is pushed exactly when the name is non-empty; the objects already in the list stay, in order |
| Answers.Answers.ProcessStateAnswers | slushfile.js:43-70 | the five derived fields are set; each app module gets its `importName` and `from`; app, state, both lists and every module's name are unchanged |
| Answers.Answers.DeriveStateNames | slushfile.js:43-49 | `_.extend` sets `baseState`, `moduleName`, `outputDir`, `stateConfigFn` and `stateCtrlFn` from `app` and `state`, and nothing else |
| Answers.Answers.ResolveImports | slushfile.js:51-68 | after the loop every module in the list has its `importName` and its `from` relative to `moduleName` |
| Answers.ResolveImport | slushfile.js:52-65 | the callback sets one module's `importName` and `from`, as the JavaScript computes them statement by statement |
| Examples.TwoSegmentFrom | slushfile.js:61-65 | a two-segment module outside the state climbs one level per state dot plus two, then goes through `/components/` once |
| Examples.ThreeSegmentFrom | slushfile.js:61-65 | a three-segment module outside the state gets `/components/` before each of its last two segments |
| Examples.AdminUsersPaths | slushfile.js:39-46 | for `admin.users`, `baseState` is `users` and `outputDir` is `src/states/admin/users` |
| Examples.AdminUsersModuleName | slushfile.js:45 | for `myApp` / `admin.users`, `moduleName` is `myApp.states.admin.users` |
| Examples.AdminUsersConfigFn | slushfile.js:21-28 | for `myApp` / `admin.users`, `stateConfigFn` is `myAppStatesAdminUsersConfig` |
| Examples.AdminUsersCtrlFn | slushfile.js:30-37 | for `myApp` / `admin.users`, `stateCtrlFn` is `MyAppStatesAdminUsersCtrl` |
| Examples.HyphenPieces | slushfile.js:17-19 | `user-list` becomes `UserList` |
| Examples.AdminUsersWidget | slushfile.js:61-65 | under `admin.users`, `myApp.widget` is imported from `../../../components/widget` |
| Examples.AdminUsersNested | slushfile.js:61-65 | under `admin.users`, `myApp.components.widget` is imported from `../../../components/components/components/widget` |
| Examples.AdminUsersChild | slushfile.js:59-60 | under `myApp` / `admin.users`, `myApp.states.admin.users.list` is imported from `./list` |

## Left out

- The inquirer prompt flow and its recursive callbacks (slushfile.js:73-170) are not modelled. Their append and seed rules are: `ModuleLists` has them as folds, and `Answers` has them as methods. The answers arrive as parameters.
- The validation that `app` and `state` are non-empty (slushfile.js:155-165) is not modelled. No operation of the model needs it, so nothing requires it. An empty state splits into `[""]`, like any other state.
- `answers.appModules || []` (slushfile.js:86) is not a separate step. `appModules` is always a list in the class, and it starts empty.
- The `.sort()` calls (slushfile.js:92, 125) are left out. With no comparator they compare the objects as the string `"[object Object]"`, so a stable sort keeps the order. The model keeps the order.
- `prettyjson` and `console.log` (slushfile.js:75) are output only.
- The confirmation prompt (slushfile.js:77-82) is not modelled. A `continue` answer of false ends the task before anything is built (slushfile.js:205-207).
- The gulp pipelines (slushfile.js:172-201) are left out. They render the templates with gulp-ejs, rename them, check for conflicts and write files. All of that is foreign libraries and file I/O.
- The task's stream event chaining (slushfile.js:203-217) is left out.
- StateNaming.Upper: `toUpperCase` is modelled on ASCII letters only. The JavaScript runtime's Unicode case mapping, which can change a string's length, is not modelled.
- `importName` and `from` are absent on a module object before processing. The model has them as empty strings.
- `map` returns a new array (slushfile.js:51), but the code ignores it. Only the objects' new fields are kept.
- The parent module is compared with `moduleName` by `===` (slushfile.js:59). On two strings that is the model's `==` on `seq<char>`.
