/** The pure helpers of the answer processor (`processStateAnswers` in
    slushfile.js): the names and paths derived from the app name, the
    dot-delimited state and each app module's dotted name. */
module StateNaming {
  import opened JsStrings

  /** `toUpperCase` of one character, on ASCII letters only. */
  function Upper(c: char): (u: char)
    ensures 'a' <= c <= 'z' ==> 'A' <= u <= 'Z'
    ensures !('a' <= c <= 'z') ==> u == c
  {
    if 'a' <= c <= 'z' then (c as int - 32) as char else c
  }

  /** `ucFirst`: the first character upper-cased, the rest as it is. */
  function UcFirst(s: string): (r: string)
    ensures |r| == |s|
  {
    if s == [] then [] else [Upper(s[0])] + s[1..]
  }

  /** `hyphenToSnakeCase`: in spite of its name, joins the hyphen pieces with
      each piece's first character upper-cased, which is PascalCase. */
  function HyphenToSnakeCase(s: string): string
  {
    Join(Map(UcFirst, Split(s, '-')), "")
  }

  /** Reference reading, one character at a time: every separator of `seps`
      is dropped, and the first character after one is upper-cased (the
      first character of `s` too when `up` holds); all others are kept. */
  function PascalCase(s: string, seps: set<char>, up: bool): (r: string)
    ensures |r| == |s| - CountIn(s, seps)
  {
    if s == [] then []
    else if s[0] in seps then PascalCase(s[1..], seps, true)
    else [if up then Upper(s[0]) else s[0]] + PascalCase(s[1..], seps, false)
  }

  /** `state.split('.').map(hyphenToSnakeCase).join('')`, shared by both
      generated function names. */
  function StateIdent(state: string): string
  {
    Join(Map(HyphenToSnakeCase, Split(state, '.')), "")
  }

  /** `createConfigFnName`. */
  function ConfigFnName(app: string, state: string): string
  {
    Join([app, "States", StateIdent(state), "Config"], "")
  }

  /** `createCtrlFnName`. */
  function CtrlFnName(app: string, state: string): string
  {
    Join([UcFirst(app), "States", StateIdent(state), "Ctrl"], "")
  }

  /** `createOutputDir`. */
  function OutputDir(state: string): string
  {
    Join(["src", "states"] + Split(state, '.'), "/")
  }

  /** `answers.state.split('.').pop()`. */
  function BaseState(state: string): string
  {
    Last(Split(state, '.'))
  }

  /** `[app, 'states', state].join('.')`. */
  function ModuleName(app: string, state: string): (r: string)
    ensures r == app + ".states." + state
  {
    assert [app, "states", state][1..] == ["states", state];
    assert ["states", state][1..] == [state];
    assert Join(["states", state], ".") == "states" + "." + state;
    assert app + "." + ("states" + "." + state) == app + ".states." + state;
    Join([app, "states", state], ".")
  }

  /** `moduleParts.shift() + moduleParts.map(hyphenToSnakeCase).join('')`. */
  function ImportName(name: string): string
  {
    var parts := Split(name, '.');
    parts[0] + Join(Map(HyphenToSnakeCase, parts[1..]), "")
  }

  /** Reference reading of `ImportName`: the characters up to the first dot
      are copied as they are, and what follows it is put in PascalCase with
      both dots and hyphens as separators. */
  function ImportNameRef(name: string): string
  {
    if name == [] then []
    else if name[0] == '.' then PascalCase(name[1..], {'.', '-'}, true)
    else [name[0]] + ImportNameRef(name[1..])
  }

  /** `moduleParts.slice(0, -1).join('.')`: the dotted name without its last segment. */
  function ParentModule(name: string): string
  {
    var parts := Split(name, '.');
    Join(parts[..|parts| - 1], ".")
  }

  /** `new Array(depth + 1).join('../').slice(0, -1)`. */
  function RelativeSrcDir(depth: nat): string
  {
    DropLast(HolesJoin(depth + 1, "../"))
  }

  /** The `reduce` of the import path: left to right, `'/components/' + part`
      is added to the path for each part. */
  function FoldComponents(path: string, parts: seq<string>): string
    decreases |parts|
  {
    if parts == [] then path
    else FoldComponents(path + "/components/" + parts[0], parts[1..])
  }

  /** Reference reading of what the fold adds: one `/components/<part>` per
      part, in order. */
  function ComponentsPath(parts: seq<string>): string
  {
    if parts == [] then [] else "/components/" + parts[0] + ComponentsPath(parts[1..])
  }

  /** The `from` of one app module, given the state's module name `moduleName`. */
  function ImportFrom(moduleName: string, state: string, name: string): string
  {
    var parts := Split(name, '.');
    if ParentModule(name) == moduleName then "./" + Last(parts)
    else FoldComponents(RelativeSrcDir(|Split(state, '.')| + 1), parts[1..])
  }

  // ---------------------------------------------------------------------
  // Character-level readings of the helpers

  /** Upper-casing is idempotent, so `ucFirst` is too. */
  lemma UcFirstIdempotent(s: string)
    ensures UcFirst(UcFirst(s)) == UcFirst(s)
  {
    if s != [] {
      assert UcFirst(s)[1..] == s[1..];
    }
  }

  /** Without separators and not at a word start, `PascalCase` changes nothing. */
  lemma {:induction false} PascalCaseNoSepsKeeps(s: string)
    ensures PascalCase(s, {}, false) == s
  {
    if s != [] {
      PascalCaseNoSepsKeeps(s[1..]);
      assert [s[0]] + s[1..] == s;
    }
  }

  /** `ucFirst` is `PascalCase` with no separators. */
  lemma UcFirstIsPascalCase(s: string)
    ensures UcFirst(s) == PascalCase(s, {}, true)
  {
    if s != [] {
      PascalCaseNoSepsKeeps(s[1..]);
    }
  }

  /** Each part in PascalCase on `seps`, starting a word, all joined. */
  function PascalCasePieces(parts: seq<string>, seps: set<char>): string
  {
    if parts == [] then [] else PascalCase(parts[0], seps, true) + PascalCasePieces(parts[1..], seps)
  }

  /** Mapping a PascalCase on `seps` over the parts and joining them without
      a separator is `PascalCasePieces`. */
  lemma {:induction false} JoinMapPascalCase(parts: seq<string>, seps: set<char>, f: string -> string)
    requires forall i :: 0 <= i < |parts| ==> f(parts[i]) == PascalCase(parts[i], seps, true)
    ensures Join(Map(f, parts), "") == PascalCasePieces(parts, seps)
  {
    if parts != [] {
      JoinMapPascalCase(parts[1..], seps, f);
      assert Map(f, parts) == [f(parts[0])] + Map(f, parts[1..]);
      JoinConcatCons(f(parts[0]), Map(f, parts[1..]));
    }
  }

  /** Splitting at `c` and putting every piece in PascalCase on `seps` is
      PascalCase on `seps` and `c` together. */
  lemma {:induction false} SplitThenPascalCase(s: string, c: char, seps: set<char>, up: bool)
    requires c !in seps
    ensures PascalCase(s, seps + {c}, up)
         == PascalCase(Split(s, c)[0], seps, up) + PascalCasePieces(Split(s, c)[1..], seps)
  {
    if s != [] {
      var rest := Split(s[1..], c);
      if s[0] == c {
        SplitThenPascalCase(s[1..], c, seps, true);
        assert Split(s, c)[1..] == rest;
      } else {
        assert Split(s, c)[0] == [s[0]] + rest[0];
        assert Split(s, c)[1..] == rest[1..];
        assert ([s[0]] + rest[0])[1..] == rest[0];
        SplitThenPascalCase(s[1..], c, seps, s[0] in seps);
      }
    }
  }

  /** `hyphenToSnakeCase` drops every hyphen and upper-cases only the first
      character of each hyphen piece. */
  lemma HyphenToSnakeCaseIsPascalCase(s: string)
    ensures HyphenToSnakeCase(s) == PascalCase(s, {'-'}, true)
  {
    var parts := Split(s, '-');
    forall i | 0 <= i < |parts| ensures UcFirst(parts[i]) == PascalCase(parts[i], {}, true) {
      UcFirstIsPascalCase(parts[i]);
    }
    JoinMapPascalCase(parts, {}, UcFirst);
    SplitThenPascalCase(s, '-', {}, true);
    assert {} + {'-'} == {'-'};
  }

  /** `hyphenToSnakeCase` leaves no hyphen, and its result is as long as its
      input less the hyphens. */
  lemma HyphenToSnakeCaseShape(s: string)
    ensures '-' !in HyphenToSnakeCase(s)
    ensures |HyphenToSnakeCase(s)| == |s| - CountIn(s, {'-'})
  {
    HyphenToSnakeCaseIsPascalCase(s);
    PascalCaseDropsSeps(s, {'-'}, true);
  }

  /** The state part of both generated names is the state in PascalCase with
      dots and hyphens both as separators. */
  lemma StateIdentIsPascalCase(state: string)
    ensures StateIdent(state) == PascalCase(state, {'.', '-'}, true)
  {
    var parts := Split(state, '.');
    forall i | 0 <= i < |parts| ensures HyphenToSnakeCase(parts[i]) == PascalCase(parts[i], {'-'}, true) {
      HyphenToSnakeCaseIsPascalCase(parts[i]);
    }
    JoinMapPascalCase(parts, {'-'}, HyphenToSnakeCase);
    SplitThenPascalCase(state, '.', {'-'}, true);
    assert {'-'} + {'.'} == {'.', '-'};
  }

  /** When no separator is an upper-case letter, none survives `PascalCase`. */
  lemma {:induction false} PascalCaseDropsSeps(s: string, seps: set<char>, up: bool)
    requires forall c :: c in seps ==> !('A' <= c <= 'Z')
    ensures forall i :: 0 <= i < |PascalCase(s, seps, up)| ==> PascalCase(s, seps, up)[i] !in seps
  {
    if s != [] {
      PascalCaseDropsSeps(s[1..], seps, true);
      PascalCaseDropsSeps(s[1..], seps, false);
    }
  }

  // ---------------------------------------------------------------------
  // The derived names and paths

  /** The state part of both generated names holds no dot and no hyphen, and
      is as long as the state without them. */
  lemma StateIdentShape(state: string)
    ensures '.' !in StateIdent(state) && '-' !in StateIdent(state)
    ensures |StateIdent(state)| == |state| - CountIn(state, {'.', '-'})
  {
    StateIdentIsPascalCase(state);
    PascalCaseDropsSeps(state, {'.', '-'}, true);
  }

  /** `stateConfigFn` is the app name as it is, `States`, the state in
      PascalCase and `Config`. */
  lemma ConfigFnNameShape(app: string, state: string)
    ensures ConfigFnName(app, state) == app + "States" + PascalCase(state, {'.', '-'}, true) + "Config"
  {
    StateIdentIsPascalCase(state);
    JoinFour(app, "States", StateIdent(state), "Config");
  }

  /** `stateCtrlFn` is `ucFirst` of the app name, `States`, the state in
      PascalCase and `Ctrl`: the stem of `stateConfigFn` with its first
      character upper-cased. */
  lemma CtrlFnNameShape(app: string, state: string)
    ensures CtrlFnName(app, state) == UcFirst(app) + "States" + PascalCase(state, {'.', '-'}, true) + "Ctrl"
    ensures CtrlFnName(app, state) == UcFirst(app + "States" + StateIdent(state)) + "Ctrl"
  {
    StateIdentIsPascalCase(state);
    JoinFour(UcFirst(app), "States", StateIdent(state), "Ctrl");
    UcFirstStem(app, StateIdent(state));
  }

  /** Upper-casing the first character of `app + "States" + ident` touches
      `app` only, or nothing when `app` is empty, since `S` is already upper case. */
  lemma UcFirstStem(app: string, ident: string)
    ensures UcFirst(app + "States" + ident) == UcFirst(app) + "States" + ident
  {
    if app == [] {
      assert app + "States" + ident == "States" + ident;
      UcFirstAppend("States", ident);
      assert UcFirst("States") == "States" by { assert Upper('S') == 'S'; }
    } else {
      UcFirstAppend(app, "States" + ident);
    }
  }

  /** `ucFirst` only looks at the first character. */
  lemma UcFirstAppend(a: string, b: string)
    requires a != []
    ensures UcFirst(a + b) == UcFirst(a) + b
  {
    assert (a + b)[0] == a[0];
    assert (a + b)[1..] == a[1..] + b;
  }

  /** `outputDir` is `src/states/` followed by the state with every dot turned
      into a slash. */
  lemma OutputDirMirrorsState(state: string)
    ensures OutputDir(state) == "src/states/" + ReplaceAll(state, '.', '/')
  {
    var parts := Split(state, '.');
    assert ["src", "states"] + parts == ["src"] + (["states"] + parts);
    JoinCons("src", ["states"] + parts, "/");
    JoinCons("states", parts, "/");
    JoinSplit(state, '.', '/');
    assert "src" + "/" + ("states" + "/" + ReplaceAll(state, '.', '/'))
        == "src/states/" + ReplaceAll(state, '.', '/');
  }

  /** `baseState` is the state's last dot-segment: a suffix of the state
      without a dot, that is either the whole state or follows a dot. */
  lemma BaseStateIsLastSegment(state: string)
    ensures '.' !in BaseState(state)
    ensures BaseState(state) == state
         || exists prefix :: state == prefix + "." + BaseState(state)
  {
    var parts := Split(state, '.');
    SplitPiecesFree(state, '.');
    JoinSplitIdentity(state, '.');
    if |parts| >= 2 {
      JoinLast(parts, ".");
      assert state == Join(parts[..|parts| - 1], ".") + "." + BaseState(state);
    }
  }

  /** `importName` copies the module name up to its first dot and puts the
      rest in PascalCase, dots and hyphens both counting as separators. */
  lemma {:induction false} ImportNameIsRef(name: string)
    ensures ImportName(name) == ImportNameRef(name)
  {
    if name != [] {
      var rest := Split(name[1..], '.');
      if name[0] == '.' {
        assert Split(name, '.')[1..] == rest;
        StateIdentIsPascalCase(name[1..]);
      } else {
        ImportNameIsRef(name[1..]);
        assert Split(name, '.')[0] == [name[0]] + rest[0];
        assert Split(name, '.')[1..] == rest[1..];
      }
    }
  }

  /** A dot-free module name is its own import name. */
  lemma ImportNameWithoutDot(name: string)
    requires '.' !in name
    ensures ImportName(name) == name
  {
    SplitWithoutSeparator(name, '.');
  }

  /** The module is a direct child of the state module exactly when its name
      is the state module's name, a dot and its own last segment. */
  lemma ParentModuleIff(moduleName: string, name: string)
    requires moduleName != []
    ensures ParentModule(name) == moduleName
        <==> name == moduleName + "." + Last(Split(name, '.'))
  {
    var parts := Split(name, '.');
    var last := Last(parts);
    SplitPiecesFree(name, '.');
    if ParentModule(name) == moduleName {
      assert |parts| >= 2;
      JoinSplitIdentity(name, '.');
      JoinLast(parts, ".");
    }
    if name == moduleName + "." + last {
      SplitAppend(moduleName, last, '.');
      SplitWithoutSeparator(last, '.');
      assert parts[..|parts| - 1] == Split(moduleName, '.');
      JoinSplitIdentity(moduleName, '.');
    }
  }

  /** `n + 1` holes joined with `../`, less the final slash, climb `n` levels. */
  lemma RelativeSrcDirAscends(depth: nat)
    requires depth >= 1
    ensures RelativeSrcDir(depth) == ".." + Repeat("/..", depth - 1)
  {
    HolesJoinRepeat(depth, "../");
    assert ".." + ['/'] == "../" && ['/'] + ".." == "/..";
    DropLastRepeat("..", '/', depth);
  }

  /** The `reduce` appends one `/components/<part>` per part, in order. */
  lemma {:induction false} FoldComponentsAppends(path: string, parts: seq<string>)
    ensures FoldComponents(path, parts) == path + ComponentsPath(parts)
    decreases |parts|
  {
    if parts != [] {
      FoldComponentsAppends(path + "/components/" + parts[0], parts[1..]);
    }
  }

  /** A module that is a direct child of the state module is imported from
      `./` and its last segment. */
  lemma ImportFromDirectChild(app: string, state: string, segment: string)
    requires '.' !in segment
    ensures ImportFrom(ModuleName(app, state), state, ModuleName(app, state) + "." + segment)
         == "./" + segment
  {
    var mn := ModuleName(app, state);
    var name := mn + "." + segment;
    SplitAppend(mn, segment, '.');
    SplitWithoutSeparator(segment, '.');
    assert Last(Split(name, '.')) == segment;
    ParentModuleIff(mn, name);
  }

  /** Any other module climbs one `..` per state segment and one more, then
      descends through `/components/<segment>` for every segment of its name
      after the first, in order. */
  lemma ImportFromOther(moduleName: string, state: string, name: string)
    requires ParentModule(name) != moduleName
    ensures ImportFrom(moduleName, state, name)
         == ".." + Repeat("/..", CountIn(state, {'.'}) + 1) + ComponentsPath(Split(name, '.')[1..])
  {
    var depth := |Split(state, '.')| + 1;
    var rest := Split(name, '.')[1..];
    assert ImportFrom(moduleName, state, name) == FoldComponents(RelativeSrcDir(depth), rest);
    SplitCount(state, '.');
    assert depth - 1 == CountIn(state, {'.'}) + 1;
    RelativeSrcDirAscends(depth);
    FoldComponentsAppends(RelativeSrcDir(depth), rest);
  }
}
