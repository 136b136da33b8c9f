/** Worked instances of the answer processor for the app `myApp` and the
    state `admin.users`. Each instance is a general lemma about a shape of
    input (two dot-free segments, a direct child of the state module, ...)
    applied to strings that come in as parameters fixed by the
    precondition; the equalities between string literals are kept in small
    lemmas of their own. */
module Examples {
  import opened JsStrings
  import opened StateNaming

  // ---------------------------------------------------------------------
  // Shapes of input

  /** Two separator-free pieces joined by the separator split back apart. */
  lemma SplitPair(a: string, b: string, c: char)
    requires c !in a && c !in b
    ensures Split(a + [c] + b, c) == [a, b]
  {
    SplitAppend(a, b, c);
    SplitWithoutSeparator(a, c);
    SplitWithoutSeparator(b, c);
  }

  /** A hyphen-free piece is only `ucFirst`ed. */
  lemma HyphenFree(s: string)
    requires '-' !in s
    ensures HyphenToSnakeCase(s) == UcFirst(s)
  {
    SplitWithoutSeparator(s, '-');
  }

  /** A two-segment state: its base state is the second segment and its
      output directory has one directory per segment. */
  lemma PairPaths(a: string, b: string)
    requires '.' !in a && '.' !in b
    ensures BaseState(a + "." + b) == b
    ensures OutputDir(a + "." + b) == "src/states/" + a + "/" + b
  {
    SplitPair(a, b, '.');
    assert ["src", "states"] + [a, b] == ["src"] + (["states"] + ([a] + [b]));
    JoinCons("src", ["states"] + ([a] + [b]), "/");
    JoinCons("states", [a] + [b], "/");
    JoinCons(a, [b], "/");
  }

  /** Two dot-free, hyphen-free segments give their `ucFirst`s, joined. */
  lemma PairIdent(a: string, b: string)
    requires '.' !in a && '-' !in a && '.' !in b && '-' !in b
    ensures StateIdent(a + "." + b) == UcFirst(a) + UcFirst(b)
  {
    SplitPair(a, b, '.');
    HyphenFree(a);
    HyphenFree(b);
    assert Map(HyphenToSnakeCase, [a, b]) == [UcFirst(a)] + [UcFirst(b)];
    JoinConcatCons(UcFirst(a), [UcFirst(b)]);
  }

  /** For a state with `CountIn(state, {'.'})` dots, a two-segment module that
      is not a child of the state module climbs that many levels plus two,
      then goes through `/components/` once. */
  lemma TwoSegmentFrom(moduleName: string, state: string, p: string, w: string)
    requires '.' !in p && '.' !in w && p != moduleName
    ensures ImportFrom(moduleName, state, p + "." + w)
         == ".." + Repeat("/..", CountIn(state, {'.'}) + 1) + "/components/" + w
  {
    SplitPair(p, w, '.');
    assert [p, w][..1] == [p];
    assert ParentModule(p + "." + w) == p;
    ImportFromOther(moduleName, state, p + "." + w);
    assert [p, w][1..] == [w];
  }

  /** Three separator-free segments: the split, and the parent is the first two. */
  lemma SplitTriple(a: string, b: string, d: string)
    requires '.' !in a && '.' !in b && '.' !in d
    ensures Split(a + "." + b + "." + d, '.') == [a, b, d]
    ensures ParentModule(a + "." + b + "." + d) == a + "." + b
  {
    assert a + "." + b + "." + d == a + ['.'] + (b + ['.'] + d);
    SplitPair(b, d, '.');
    SplitAppend(a, b + "." + d, '.');
    SplitWithoutSeparator(a, '.');
    assert Split(a + "." + b + "." + d, '.') == [a] + [b, d];
    assert [a] + [b, d] == [a, b, d];
    assert [a, b, d][..2] == [a, b];
    assert [a, b][1..] == [b];
    assert Join([a, b], ".") == a + "." + b;
  }

  /** A three-segment module that is not a child of the state module goes
      through `/components/` once for each segment after the first. */
  lemma ThreeSegmentFrom(moduleName: string, state: string, p: string, q: string, w: string)
    requires '.' !in p && '.' !in q && '.' !in w && p + "." + q != moduleName
    ensures ImportFrom(moduleName, state, p + "." + q + "." + w)
         == ".." + Repeat("/..", CountIn(state, {'.'}) + 1) + "/components/" + q + "/components/" + w
  {
    SplitTriple(p, q, w);
    ImportFromOther(moduleName, state, p + "." + q + "." + w);
    assert [p, q, w][1..] == [q, w];
    assert [q, w][1..] == [w];
    assert ComponentsPath([w]) == "/components/" + w;
    assert ComponentsPath([q, w]) == "/components/" + q + ("/components/" + w);
  }

  // ---------------------------------------------------------------------
  // `myApp` / `admin.users`

  lemma AdminUsersSplit(state: string)
    requires state == "admin.users"
    ensures state == "admin" + "." + "users"
    ensures Split(state, '.') == ["admin", "users"]
  {
    assert state == "admin" + "." + "users";
    SplitPair("admin", "users", '.');
  }

  /** The base state and the output directory of `admin.users`. */
  lemma AdminUsersPaths(state: string)
    requires state == "admin.users"
    ensures BaseState(state) == "users"
    ensures OutputDir(state) == "src/states/admin/users"
  {
    AdminUsersSplit(state);
    PairPaths("admin", "users");
    OutputDirLiteral("admin", "users");
  }

  lemma OutputDirLiteral(a: string, b: string)
    requires a == "admin" && b == "users"
    ensures "src/states/" + a + "/" + b == "src/states/admin/users"
  {
  }

  /** The module name of `myApp` / `admin.users`. */
  lemma AdminUsersModuleName(app: string, state: string)
    requires app == "myApp" && state == "admin.users"
    ensures ModuleName(app, state) == "myApp.states.admin.users"
  {
  }

  /** The state part of both function names for `admin.users`. */
  lemma AdminUsersIdent(state: string)
    requires state == "admin.users"
    ensures StateIdent(state) == "AdminUsers"
  {
    AdminUsersSplit(state);
    PairIdent("admin", "users");
    assert UcFirst("admin") == "Admin" by { assert Upper('a') == 'A'; }
    assert UcFirst("users") == "Users" by { assert Upper('u') == 'U'; }
  }

  /** The generated config function name of `myApp` / `admin.users`. */
  lemma AdminUsersConfigFn(app: string, state: string)
    requires app == "myApp" && state == "admin.users"
    ensures ConfigFnName(app, state) == "myAppStatesAdminUsersConfig"
  {
    AdminUsersIdent(state);
    JoinFour(app, "States", StateIdent(state), "Config");
    ConfigFnLiteral(app, StateIdent(state));
  }

  lemma ConfigFnLiteral(app: string, ident: string)
    requires app == "myApp" && ident == "AdminUsers"
    ensures app + "States" + ident + "Config" == "myAppStatesAdminUsersConfig"
  {
  }

  /** The generated controller function name of `myApp` / `admin.users`. */
  lemma AdminUsersCtrlFn(app: string, state: string)
    requires app == "myApp" && state == "admin.users"
    ensures CtrlFnName(app, state) == "MyAppStatesAdminUsersCtrl"
  {
    AdminUsersIdent(state);
    assert UcFirst(app) == "MyApp" by { assert Upper('m') == 'M'; }
    JoinFour(UcFirst(app), "States", StateIdent(state), "Ctrl");
    CtrlFnLiteral(UcFirst(app), StateIdent(state));
  }

  lemma CtrlFnLiteral(app: string, ident: string)
    requires app == "MyApp" && ident == "AdminUsers"
    ensures app + "States" + ident + "Ctrl" == "MyAppStatesAdminUsersCtrl"
  {
  }

  /** Hyphen pieces are joined in PascalCase: `user-list` gives `UserList`. */
  lemma HyphenPieces(s: string)
    requires s == "user-list"
    ensures HyphenToSnakeCase(s) == "UserList"
  {
    assert Split(s, '-') == ["user", "list"] by {
      assert s == "user" + "-" + "list";
      SplitPair("user", "list", '-');
    }
    assert Map(UcFirst, ["user", "list"]) == ["User", "List"] by {
      assert UcFirst("user") == "User" by { assert Upper('u') == 'U'; }
      assert UcFirst("list") == "List" by { assert Upper('l') == 'L'; }
    }
    JoinConcatCons("User", ["List"]);
  }

  lemma AdminUsersDots(state: string)
    requires state == "admin.users"
    ensures CountIn(state, {'.'}) == 1
  {
    AdminUsersSplit(state);
    SplitCount(state, '.');
  }

  /** Under `admin.users` (two segments) the ascent is three levels, and
      `myApp.widget` goes through `components` once. */
  lemma AdminUsersWidget(app: string, state: string, widget: string)
    requires app == "myApp" && state == "admin.users" && widget == "myApp.widget"
    ensures ImportFrom(ModuleName(app, state), state, widget) == "../../../components/widget"
  {
    AdminUsersDots(state);
    assert widget == "myApp" + "." + "widget";
    TwoSegmentFrom(ModuleName(app, state), state, "myApp", "widget");
    WidgetLiteral(Repeat("/..", 2));
  }

  lemma WidgetLiteral(up: string)
    requires up == Repeat("/..", 2)
    ensures ".." + up + "/components/" + "widget" == "../../../components/widget"
  {
    assert up == "/../..";
  }

  /** Every segment after the first gets its own `/components/`:
      `myApp.components.widget` goes through `components` twice. */
  lemma AdminUsersNested(app: string, state: string, nested: string)
    requires app == "myApp" && state == "admin.users" && nested == "myApp.components.widget"
    ensures ImportFrom(ModuleName(app, state), state, nested)
         == "../../../components/components/components/widget"
  {
    AdminUsersDots(state);
    assert nested == "myApp" + "." + "components" + "." + "widget";
    assert |"myApp" + "." + "components"| < |ModuleName(app, state)|;
    ThreeSegmentFrom(ModuleName(app, state), state, "myApp", "components", "widget");
    NestedLiteral(Repeat("/..", 2));
  }

  lemma NestedLiteral(up: string)
    requires up == Repeat("/..", 2)
    ensures ".." + up + "/components/" + "components" + "/components/" + "widget"
         == "../../../components/components/components/widget"
  {
    NestedLiteralHead(up);
    NestedLiteralTail("../../../components/components");
  }

  lemma NestedLiteralHead(up: string)
    requires up == Repeat("/..", 2)
    ensures ".." + up + "/components/" + "components" == "../../../components/components"
  {
    assert up == "/../..";
    assert ".." + up == "../../..";
  }

  lemma NestedLiteralTail(head: string)
    requires head == "../../../components/components"
    ensures head + "/components/" + "widget" == "../../../components/components/components/widget"
  {
    assert "/components/" + "widget" == "/components/widget";
  }

  /** A module one segment below the state module is imported from `./`. */
  lemma AdminUsersChild(app: string, state: string, child: string)
    requires app == "myApp" && state == "admin.users" && child == "myApp.states.admin.users.list"
    ensures ImportFrom(ModuleName(app, state), state, child) == "./list"
  {
    ChildName(app, state, child);
    ImportFromDirectChild(app, state, "list");
  }

  lemma ChildName(app: string, state: string, child: string)
    requires app == "myApp" && state == "admin.users" && child == "myApp.states.admin.users.list"
    ensures child == ModuleName(app, state) + "." + "list"
  {
    assert "myApp.states.admin.users.list" == "myApp" + ".states." + "admin.users" + "." + "list";
  }
}
