/** Per-path rules of scripts/ci_scope.py: which CI half a changed path concerns,
    and which paths may exempt a pull request as documentation only. */
module CiPaths {
  type Path = string

  datatype Half = Frontend | Rust

  /** The pair (frontend, rust) that the classifier returns. */
  datatype Scope = Scope(frontend: bool, rust: bool) {
    predicate On(h: Half) { if h.Frontend? then frontend else rust }
  }

  const NEITHER := Scope(false, false)
  const BOTH := Scope(true, true)

  // ---------- PurePosixPath ----------

  /** The pieces of `rest` between slashes, empty and "." pieces dropped; `piece` is the one being read. */
  function Pieces(rest: string, piece: string): seq<string>
    decreases |rest|
  {
    var kept := if piece == "" || piece == "." then [] else [piece];
    if rest == "" then kept
    else if rest[0] == '/' then kept + Pieces(rest[1..], "")
    else Pieces(rest[1..], piece + [rest[0]])
  }

  function Components(name: Path): seq<string> { Pieces(name, "") }

  function Parts(name: Path): seq<string> {
    var root := if !("/" <= name) then []
                else if "//" <= name && !("///" <= name) then ["//"]
                else ["/"];
    root + Components(name)
  }

  /** Index of the last `c` in `s`, or -1. */
  function LastIndex(s: string, c: char): (i: int)
    ensures -1 <= i < |s|
    ensures i >= 0 ==> s[i] == c
    ensures forall j :: i < j < |s| ==> s[j] != c
  {
    if s == "" then -1
    else if s[|s| - 1] == c then |s| - 1
    else LastIndex(s[..|s| - 1], c)
  }

  /** The extension of the last component: a leading or a trailing dot starts none. */
  function Suffix(name: Path): string {
    var parts := Components(name);
    if parts == [] then ""
    else
      var last := parts[|parts| - 1];
      var i := LastIndex(last, '.');
      if 0 < i < |last| - 1 then last[i..] else ""
  }

  lemma {:induction false} SlashFreePieces(rest: string, piece: string)
    requires '/' !in rest
    ensures Pieces(rest, piece) == Pieces("", piece + rest)
    decreases |rest|
  {
    if rest == "" {
      assert piece + rest == piece;
    } else {
      SlashFreePieces(rest[1..], piece + [rest[0]]);
      assert piece + [rest[0]] + rest[1..] == piece + rest;
    }
  }

  // ---------- classification ----------

  predicate CiScopeOnly(name: Path) {
    name == "scripts/ci_scope.py" || name == "scripts/test_ci_scope.py"
  }

  /** Paths that turn no half on. */
  predicate Ignored(name: Path) {
    CiScopeOnly(name) || "docs/" <= name || Suffix(name) == ".md" || ".superpowers/" <= name
  }

  predicate Shared(name: Path) {
    "scripts/" <= name || ".github/workflows/" <= name || ".github/actions/" <= name || SharedFile(name)
  }

  predicate SharedFile(name: Path) {
    || name == "package.json" || name == "pnpm-lock.yaml" || name == "pnpm-workspace.yaml"
    || name == "Cargo.toml" || name == "Cargo.lock" || name == "build.rs"
    || name == "drivers-registry.json"
  }

  predicate FrontendTree(name: Path) {
    || "src/" <= name || "e2e/" <= name || "site/" <= name || "test/" <= name
    || "public/" <= name || "fixtures/themes/" <= name
  }

  predicate RustTree(name: Path) {
    || "src-tauri/" <= name || "crates/" <= name
    || ("packages/" <= name && (Suffix(name) == ".rs" || Suffix(name) == ".toml"))
  }

  predicate FrontendConfig(name: Path) {
    || "tsconfig" <= name || "vite.config." <= name || "vitest" <= name
    || "tailwind.config." <= name || "postcss.config." <= name
    || name == "index.html" || name == "window.html"
  }

  predicate FrontendRoot(name: Path) {
    || "packages/ui/" <= name || "packages/driver-sdk/" <= name
    || "packages/backend-client/" <= name || "packages/wapp-sdk/" <= name
    || "packages/extension-points/" <= name || "packages/wapps/" <= name
  }

  predicate DriverUi(name: Path) {
    var parts := Parts(name);
    |parts| >= 4 && parts[0] == "packages" && parts[1] == "drivers" && parts[3] == "ui"
  }

  predicate FrontendSource(name: Path) {
    var suffix := Suffix(name);
    && "packages/" <= name
    && (suffix == ".ts" || suffix == ".tsx" || suffix == ".js" || suffix == ".jsx" || suffix == ".css")
  }

  /** What one path contributes: the cascade of the loop body, in its order. */
  function ClassifyPath(name: Path): Scope {
    if Ignored(name) then NEITHER
    else if Shared(name) then BOTH
    else if FrontendTree(name) then Scope(true, false)
    else if RustTree(name) then Scope(false, true)
    else if FrontendConfig(name) || FrontendRoot(name) || DriverUi(name) || FrontendSource(name) then
      Scope(true, false)
    else BOTH
  }

  predicate Selects(h: Half, name: Path) { ClassifyPath(name).On(h) }

  /** Some path of the window concerns half `h`. */
  predicate AnySelected(h: Half, paths: seq<Path>) {
    exists p :: p in paths && Selects(h, p)
  }

  function Classify(paths: seq<Path>): Scope {
    Scope(AnySelected(Frontend, paths), AnySelected(Rust, paths))
  }

  lemma SelectedInLongerPrefix(h: Half, paths: seq<Path>, i: nat)
    requires i < |paths|
    ensures AnySelected(h, paths[..i + 1]) <==> AnySelected(h, paths[..i]) || Selects(h, paths[i])
  {
    assert paths[..i + 1] == paths[..i] + [paths[i]];
    assert paths[i] in paths[..i + 1];
  }

  /** classify_changed_paths: one pass over the window with two flags. */
  method ClassifyChangedPaths(paths: seq<Path>) returns (scope: Scope)
    ensures scope.frontend <==> AnySelected(Frontend, paths)
    ensures scope.rust <==> AnySelected(Rust, paths)
  {
    var frontend, rust := false, false;
    for i := 0 to |paths|
      invariant frontend <==> AnySelected(Frontend, paths[..i])
      invariant rust <==> AnySelected(Rust, paths[..i])
    {
      var name := paths[i];
      SelectedInLongerPrefix(Frontend, paths, i);
      SelectedInLongerPrefix(Rust, paths, i);
      if Ignored(name) {
        continue;
      }
      if Shared(name) {
        frontend, rust := true, true;
      } else if FrontendTree(name) {
        frontend := true;
      } else if RustTree(name) {
        rust := true;
      } else if FrontendConfig(name) || FrontendRoot(name) || DriverUi(name) || FrontendSource(name) {
        frontend := true;
      } else {
        frontend, rust := true, true;
      }
    }
    assert paths[..|paths|] == paths;
    scope := Scope(frontend, rust);
  }

  lemma DirectoryIsNoPrefix(dir: string, k: nat, name: Path)
    requires k < |dir| && dir[k] == '/' && '/' !in name
    ensures !(dir <= name)
  {
  }

  lemma RootFileOutsideSharedTrees(name: Path)
    requires '/' !in name
    ensures !CiScopeOnly(name) && !("docs/" <= name) && !(".superpowers/" <= name)
    ensures !FrontendTree(name) && !RustTree(name)
  {
    DirectoryIsNoPrefix("docs/", 4, name);
    DirectoryIsNoPrefix(".superpowers/", 12, name);
    DirectoryIsNoPrefix("src/", 3, name);
    DirectoryIsNoPrefix("e2e/", 3, name);
    DirectoryIsNoPrefix("site/", 4, name);
    DirectoryIsNoPrefix("test/", 4, name);
    DirectoryIsNoPrefix("public/", 6, name);
    DirectoryIsNoPrefix("fixtures/themes/", 8, name);
    DirectoryIsNoPrefix("src-tauri/", 9, name);
    DirectoryIsNoPrefix("crates/", 6, name);
    DirectoryIsNoPrefix("packages/", 8, name);
    assert "scripts/ci_scope.py"[7] == '/' && "scripts/test_ci_scope.py"[7] == '/';
  }

  lemma RootFileOutsidePackages(name: Path)
    requires '/' !in name
    ensures !FrontendRoot(name) && !DriverUi(name) && !FrontendSource(name)
  {
    DirectoryIsNoPrefix("packages/", 8, name);
    DirectoryIsNoPrefix("packages/ui/", 8, name);
    DirectoryIsNoPrefix("packages/driver-sdk/", 8, name);
    DirectoryIsNoPrefix("packages/backend-client/", 8, name);
    DirectoryIsNoPrefix("packages/wapp-sdk/", 8, name);
    DirectoryIsNoPrefix("packages/extension-points/", 8, name);
    DirectoryIsNoPrefix("packages/wapps/", 8, name);
    DirectoryIsNoPrefix("/", 0, name);
    SlashFreePieces(name, "");
  }

  /** Fail closed at the top level: a root file is tested by both halves unless it is markdown
      or one of the named frontend configurations. */
  lemma UnknownRootFileIsShared(name: Path)
    requires '/' !in name && Suffix(name) != ".md" && !FrontendConfig(name)
    ensures ClassifyPath(name) == BOTH
  {
    RootFileOutsideSharedTrees(name);
    RootFileOutsidePackages(name);
  }

  predicate FrontendOwned(name: Path) {
    FrontendTree(name) || FrontendConfig(name) || FrontendRoot(name) || DriverUi(name) || FrontendSource(name)
  }

  /** Who owns a path, in one test per half: a path leaves the frontend half off exactly when it is
      ignored or in Rust's own trees, and leaves the Rust half off exactly when it is ignored or passes
      a frontend test and no Rust test (a path may pass both, and then Rust's comes first). No path
      outside `Ignored` is off for both. */
  lemma OwnershipIsExact(name: Path)
    ensures !Selects(Frontend, name) <==> Ignored(name) || RustTree(name)
    ensures !Selects(Rust, name) <==> Ignored(name) || (FrontendOwned(name) && !RustTree(name))
  {
    if RustTree(name) {
      RustTreeIsApart(name);
    }
    if Shared(name) {
      SharedIsApart(name);
    }
  }

  lemma RustTreeIsApart(name: Path)
    requires RustTree(name)
    ensures !Shared(name) && !FrontendTree(name)
  {
    if "packages/" <= name {
      PackagesAreApart(name);
    } else {
      RustRootsAreApart(name);
    }
  }

  lemma RustRootsAreApart(name: Path)
    requires "src-tauri/" <= name || "crates/" <= name
    ensures !Shared(name) && !FrontendTree(name)
  {
    if "src-tauri/" <= name {
      assert name[3] == '-' && name[0] == 's' && name[1] == 'r';
    } else {
      assert name[0] == 'c' && name[1] == 'r';
    }
  }

  lemma PackagesAreApart(name: Path)
    requires "packages/" <= name
    ensures !Shared(name) && !FrontendTree(name)
  {
    assert name[0] == 'p' && name[1] == 'a' && name[7] == 's';
  }

  lemma SharedIsApart(name: Path)
    requires Shared(name)
    ensures !FrontendOwned(name)
  {
    if SharedFile(name) {
      SharedFileIsAtRoot(name);
      RootFileOutsideSharedTrees(name);
      RootFileOutsidePackages(name);
    } else if "scripts/" <= name {
      assert name[0] == 's' && name[1] == 'c';
      UnderOtherDirectory("scripts", name);
    } else {
      assert ".github/" <= name && name[0] == '.';
      UnderOtherDirectory(".github", name);
    }
  }

  lemma UnderOtherDirectory(dir: string, name: Path)
    requires dir + "/" <= name && '/' !in dir && dir != "" && dir != "." && dir != "packages"
    requires StartsElsewhere(name)
    ensures !FrontendOwned(name)
  {
    OtherFirstLetters(name);
    NoDriverUi(dir, name);
  }

  predicate StartsElsewhere(name: Path) {
    |name| > 1 && (name[0] == '.' || (name[0] == 's' && name[1] == 'c'))
  }

  lemma OtherFirstLetters(name: Path)
    requires StartsElsewhere(name)
    ensures !FrontendTree(name) && !FrontendConfig(name) && !FrontendRoot(name) && !FrontendSource(name)
  {
    NotAFrontendConfigEither(name);
    NotUnderPackages(name);
  }

  lemma NotAFrontendConfigEither(name: Path)
    requires StartsElsewhere(name)
    ensures !FrontendConfig(name)
  {
  }

  lemma NotUnderPackages(name: Path)
    requires StartsElsewhere(name)
    ensures !FrontendRoot(name) && !FrontendSource(name)
  {
  }

  lemma NoDriverUi(dir: string, name: Path)
    requires dir + "/" <= name && '/' !in dir && dir != "" && dir != "." && dir != "packages"
    ensures !DriverUi(name)
  {
    var rest := name[|dir| + 1..];
    assert name == dir + "/" + rest;
    FirstComponent(dir, rest);
    assert name[0] == dir[0];
    assert Parts(name)[0] == dir;
  }

  lemma SharedFileIsAtRoot(name: Path)
    requires SharedFile(name)
    ensures '/' !in name && !FrontendConfig(name)
  {
    NotAFrontendConfig(name);
  }

  lemma NotAFrontendConfig(name: Path)
    requires name != "" && name[0] in "pCbd"
    requires name[0] == 'p' ==> |name| > 1 && name[1] != 'o'
    ensures !FrontendConfig(name)
  {
  }

  /** A leading directory is the first component. */
  lemma FirstComponent(dir: string, rest: string)
    requires '/' !in dir && dir != "" && dir != "."
    ensures Components(dir + "/" + rest) == [dir] + Components(rest)
  {
    DirectoryThenRest(dir, "", rest);
    assert "" + dir == dir;
  }

  lemma {:induction false} DirectoryThenRest(dir: string, piece: string, rest: string)
    requires '/' !in dir
    ensures Pieces(dir + "/" + rest, piece) == Pieces("", piece + dir) + Pieces(rest, "")
    decreases |dir|
  {
    var all := dir + "/" + rest;
    if dir == "" {
      assert all[1..] == rest && piece + dir == piece;
    } else {
      assert all[1..] == dir[1..] + "/" + rest;
      DirectoryThenRest(dir[1..], piece + [dir[0]], rest);
      assert piece + [dir[0]] + dir[1..] == piece + dir;
    }
  }

  /** A window's verdict is the pointwise or of its parts, so order and repetition do not matter
      and adding paths never turns a half off. */
  lemma ClassifyIsUnion(a: seq<Path>, b: seq<Path>, h: Half)
    ensures Classify(a + b).On(h) <==> Classify(a).On(h) || Classify(b).On(h)
  {
    assert forall p :: p in a + b <==> p in a || p in b;
  }

  lemma ClassifyIsMonotone(a: seq<Path>, b: seq<Path>, h: Half)
    requires forall p :: p in a ==> p in b
    requires Classify(a).On(h)
    ensures Classify(b).On(h)
  {
  }

  // ---------- documentation-only paths ----------

  predicate IsDocsOnlyPath(name: Path) {
    if name == "LICENSE" || name == ".gitignore" then true
    else if "docs/" <= name then true
    else if ".github/" <= name then Suffix(name) == ".md"
    else |Parts(name)| == 1 && Suffix(name) == ".md"
  }

  predicate IsDocsOnlyPaths(paths: seq<Path>) {
    paths != [] && forall p :: p in paths ==> IsDocsOnlyPath(p)
  }

  /** What a half must be tested for: paths classified for it that no documentation exemption covers. */
  predicate Relevant(h: Half, name: Path) {
    Selects(h, name) && !IsDocsOnlyPath(name)
  }

  lemma SuffixOfRootFile(name: Path)
    requires name != "" && name != "." && '/' !in name && LastIndex(name, '.') <= 0
    ensures Suffix(name) == ""
  {
    SlashFreePieces(name, "");
    assert "" + name == name;
  }

  lemma LicenseIsShared()
    ensures ClassifyPath("LICENSE") == BOTH
  {
    var name := "LICENSE";
    assert name[0] == 'L';
    SuffixOfRootFile(name);
    assert !FrontendConfig(name);
    UnknownRootFileIsShared(name);
  }

  lemma GitignoreIsShared()
    ensures ClassifyPath(".gitignore") == BOTH
  {
    var name := ".gitignore";
    assert name[0] == '.';
    SuffixOfRootFile(name);
    assert !FrontendConfig(name);
    UnknownRootFileIsShared(name);
  }

  /** The two rules disagree on exactly two files: LICENSE and .gitignore are exempt for a whole
      pull request although the classifier turns both halves on for them. */
  lemma DocsOnlyYetSelected(h: Half, name: Path)
    ensures IsDocsOnlyPath(name) && Selects(h, name) <==> name == "LICENSE" || name == ".gitignore"
  {
    LicenseIsShared();
    GitignoreIsShared();
    if IsDocsOnlyPath(name) && name != "LICENSE" && name != ".gitignore" {
      assert Ignored(name);
    }
  }
}
