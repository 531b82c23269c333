/** What the rules of scripts/ci_scope.py mean for the paths that git prints: a reference that reads a
    path by its components, from the top directory down, instead of by string prefixes. */
module CiPathVerdicts {
  import opened CiPaths

  // ---------- paths as components ----------

  predicate IsName(s: string) { s != "" && s != "." && '/' !in s }

  predicate Proper(parts: seq<string>) {
    parts != [] && forall i :: 0 <= i < |parts| ==> IsName(parts[i])
  }

  function Join(parts: seq<string>): Path
    requires parts != []
  {
    if |parts| == 1 then parts[0] else parts[0] + "/" + Join(parts[1..])
  }

  function Last(parts: seq<string>): string
    requires parts != []
  {
    parts[|parts| - 1]
  }

  /** Something, a dot, and the extension. */
  predicate HasExtension(last: string, extension: string) {
    |last| > |extension| + 1 && last[|last| - |extension| - 1..] == "." + extension
  }

  // ---------- the reference ----------

  const FRONTEND_ONLY := Scope(true, false)
  const RUST_ONLY := Scope(false, true)

  predicate Under(parts: seq<string>, top: string) { |parts| > 1 && parts[0] == top }

  predicate UnderBoth(parts: seq<string>, top: string, second: string) {
    |parts| > 2 && parts[0] == top && parts[1] == second
  }

  predicate StartsLikeConfig(top: string) {
    || "tsconfig" <= top || "vite.config." <= top || "vitest" <= top
    || "tailwind.config." <= top || "postcss.config." <= top
  }

  predicate InFrontendTree(parts: seq<string>) {
    || Under(parts, "src") || Under(parts, "e2e") || Under(parts, "site") || Under(parts, "test") || Under(parts, "public")
    || UnderBoth(parts, "fixtures", "themes")
  }

  predicate InRootPackage(parts: seq<string>) {
    || UnderBoth(parts, "packages", "ui") || UnderBoth(parts, "packages", "driver-sdk")
    || UnderBoth(parts, "packages", "backend-client") || UnderBoth(parts, "packages", "wapp-sdk")
    || UnderBoth(parts, "packages", "extension-points") || UnderBoth(parts, "packages", "wapps")
  }

  predicate InFrontendPackage(parts: seq<string>) {
    || InRootPackage(parts)
    || (UnderBoth(parts, "packages", "drivers") && |parts| >= 4 && parts[3] == "ui")
  }

  predicate IsScript(last: string) {
    || HasExtension(last, "ts") || HasExtension(last, "tsx") || HasExtension(last, "js") || HasExtension(last, "jsx")
    || HasExtension(last, "css")
  }

  predicate IsScopeScript(parts: seq<string>) {
    parts == ["scripts", "ci_scope.py"] || parts == ["scripts", "test_ci_scope.py"]
  }

  predicate IsIgnorable(parts: seq<string>)
    requires parts != []
  {
    HasExtension(Last(parts), "md") || Under(parts, "docs") || Under(parts, ".superpowers") || IsScopeScript(parts)
  }

  predicate OwnedByRust(parts: seq<string>)
    requires parts != []
  {
    || Under(parts, "src-tauri") || Under(parts, "crates")
    || (Under(parts, "packages") && (HasExtension(Last(parts), "rs") || HasExtension(Last(parts), "toml")))
  }

  predicate OwnedByFrontend(parts: seq<string>)
    requires parts != []
  {
    || InFrontendTree(parts) || InFrontendPackage(parts) || (Under(parts, "packages") && IsScript(Last(parts)))
    || StartsLikeConfig(parts[0]) || parts == ["index.html"] || parts == ["window.html"]
  }

  /** Markdown concerns no half, wherever it is. Other files go by their top directory or their name;
      what is not mentioned concerns both halves. */
  function Verdict(parts: seq<string>): Scope
    requires parts != []
  {
    if IsIgnorable(parts) then NEITHER
    else if OwnedByRust(parts) then RUST_ONLY
    else if OwnedByFrontend(parts) then FRONTEND_ONLY
    else BOTH
  }

  /** What a pull request may consist of to be exempt: the two named files, anything in docs, and
      markdown at the root or in .github. */
  predicate IsDocumentation(parts: seq<string>)
    requires parts != []
  {
    || parts == ["LICENSE"] || parts == [".gitignore"] || Under(parts, "docs")
    || (HasExtension(Last(parts), "md") && (|parts| == 1 || Under(parts, ".github")))
  }

  // ---------- reading a joined path ----------

  lemma {:induction false} ComponentsOfJoin(parts: seq<string>)
    requires Proper(parts)
    ensures Components(Join(parts)) == parts
  {
    if |parts| == 1 {
      SlashFreePieces(parts[0], "");
      assert "" + parts[0] == parts[0];
    } else {
      ComponentsOfJoin(parts[1..]);
      FirstComponent(parts[0], Join(parts[1..]));
    }
  }

  lemma PartsOfJoin(parts: seq<string>)
    requires Proper(parts)
    ensures Parts(Join(parts)) == parts
  {
    ComponentsOfJoin(parts);
    assert Join(parts)[0] == parts[0][0] && parts[0][0] in parts[0];
  }

  lemma SuffixOfJoin(parts: seq<string>, extension: string)
    requires Proper(parts) && extension != "" && '.' !in extension
    ensures Suffix(Join(parts)) == "." + extension <==> HasExtension(Last(parts), extension)
  {
    ComponentsOfJoin(parts);
    var last := Last(parts);
    var i := LastIndex(last, '.');
    if HasExtension(last, extension) {
      var k := |last| - |extension| - 1;
      assert last[k] == last[k..][0] == '.';
      forall j | k < j < |last| ensures last[j] != '.' {
        assert last[j] == last[k..][j - k] == extension[j - k - 1];
      }
      assert i == k;
    }
  }

  /** Every suffix is such an extension: a leading or a trailing dot starts none. */
  lemma SuffixIsExtension(parts: seq<string>)
    requires Proper(parts) && Suffix(Join(parts)) != ""
    ensures exists extension ::
      && extension != "" && '.' !in extension && Suffix(Join(parts)) == "." + extension && HasExtension(Last(parts), extension)
  {
    var extension := Suffix(Join(parts))[1..];
    ComponentsOfJoin(parts);
    assert Suffix(Join(parts)) == "." + extension;
    SuffixOfJoin(parts, extension);
  }

  /** How a path is spelled: a leading "./" is not part of it, and a leading slash is a part of its own,
      so an absolute file is never one at the root of the repository. */
  lemma SpellingOfRoots(name: Path)
    ensures Components("./" + name) == Components(name) && Components("/" + name) == Components(name)
    ensures !("/" <= name) ==> Parts("/" + name) == ["/"] + Components(name)
  {
    assert ("/" + name)[1..] == name;
    var dotted := "./" + name;
    assert dotted[1..] == "/" + name && [] + ['.'] == ".";
    assert Pieces(dotted, "") == Pieces(dotted[1..], ".");
    if !("/" <= name) {
      assert !("//" <= "/" + name);
    }
  }

  /** A top directory, as the code tests for it. */
  lemma TopDirectory(parts: seq<string>, top: string, prefix: string)
    requires Proper(parts) && '/' !in top && prefix == top + "/"
    ensures prefix <= Join(parts) <==> Under(parts, top)
  {
    var name, first := Join(parts), parts[0];
    assert name[..|first|] == first && (|parts| > 1 ==> name[|first|] == '/');
    if prefix <= name {
      assert name[|top|] == '/' && name[..|top|] == top;
    }
  }

  lemma SecondDirectory(parts: seq<string>, top: string, second: string, prefix: string)
    requires Proper(parts) && '/' !in top && '/' !in second && prefix == top + "/" + second + "/"
    ensures prefix <= Join(parts) <==> UnderBoth(parts, top, second)
  {
    var front, inner := top + "/", second + "/";
    assert prefix == front + inner;
    TopDirectory(parts, top, front);
    if front <= Join(parts) {
      var rest := parts[1..];
      assert Join(parts) == front + Join(rest);
      TopDirectory(rest, second, inner);
      PrefixUnderFront(front, inner, Join(rest));
    } else {
      assert front <= front + inner;
    }
  }

  lemma PrefixUnderFront(front: string, a: string, b: string)
    ensures front + a <= front + b <==> a <= b
  {
    assert (front + a)[|front|..] == a && (front + b)[|front|..] == b;
  }

  /** The beginning of a top name, as the code tests for it. */
  lemma TopStart(parts: seq<string>, start: string)
    requires Proper(parts) && '/' !in start
    ensures start <= Join(parts) <==> start <= parts[0]
  {
    var name, first := Join(parts), parts[0];
    assert name[..|first|] == first && (|parts| > 1 ==> name[|first|] == '/');
    if start <= name && |start| <= |first| {
      assert start == name[..|start|] == first[..|start|];
    }
  }

  lemma JoinIsInjective(a: seq<string>, b: seq<string>)
    requires Proper(a) && Proper(b)
    ensures Join(a) == Join(b) <==> a == b
  {
    ComponentsOfJoin(a);
    ComponentsOfJoin(b);
  }

  lemma OneComponent(parts: seq<string>, name: string)
    requires Proper(parts) && IsName(name)
    ensures Join(parts) == name <==> parts == [name]
  {
    JoinIsInjective(parts, [name]);
  }

  lemma TwoComponents(parts: seq<string>, top: string, last: string, name: string)
    requires Proper(parts) && IsName(top) && IsName(last) && name == top + "/" + last
    ensures Join(parts) == name <==> parts == [top, last]
  {
    assert [top, last][1..] == [last];
    JoinIsInjective(parts, [top, last]);
  }

  lemma Extension(parts: seq<string>, extension: string, suffix: string)
    requires Proper(parts) && extension != "" && '.' !in extension && suffix == "." + extension
    ensures Suffix(Join(parts)) == suffix <==> HasExtension(Last(parts), extension)
  {
    SuffixOfJoin(parts, extension);
  }

  // ---------- the rules, read by components ----------

  lemma IgnoredByComponents(parts: seq<string>)
    requires Proper(parts)
    ensures Ignored(Join(parts)) <==> IsIgnorable(parts)
  {
    Extension(parts, "md", ".md");
    TopDirectory(parts, "docs", "docs/");
    TopDirectory(parts, ".superpowers", ".superpowers/");
    ScopeScripts(parts);
  }

  lemma ScopeScripts(parts: seq<string>)
    requires Proper(parts)
    ensures CiScopeOnly(Join(parts)) <==> IsScopeScript(parts)
  {
    TwoComponents(parts, "scripts", "ci_scope.py", "scripts/ci_scope.py");
    TwoComponents(parts, "scripts", "test_ci_scope.py", "scripts/test_ci_scope.py");
  }

  lemma FrontendTreeByComponents(parts: seq<string>)
    requires Proper(parts)
    ensures FrontendTree(Join(parts)) <==> InFrontendTree(parts)
  {
    TopDirectory(parts, "src", "src/");
    TopDirectory(parts, "e2e", "e2e/");
    TopDirectory(parts, "site", "site/");
    TopDirectory(parts, "test", "test/");
    TopDirectory(parts, "public", "public/");
    SecondDirectory(parts, "fixtures", "themes", "fixtures/themes/");
  }

  lemma RustTreeByComponents(parts: seq<string>)
    requires Proper(parts)
    ensures RustTree(Join(parts)) <==> OwnedByRust(parts)
  {
    TopDirectory(parts, "src-tauri", "src-tauri/");
    TopDirectory(parts, "crates", "crates/");
    TopDirectory(parts, "packages", "packages/");
    Extension(parts, "rs", ".rs");
    Extension(parts, "toml", ".toml");
  }

  lemma FrontendConfigByComponents(parts: seq<string>)
    requires Proper(parts)
    ensures FrontendConfig(Join(parts)) <==>
      StartsLikeConfig(parts[0]) || parts == ["index.html"] || parts == ["window.html"]
  {
    TopStart(parts, "tsconfig");
    TopStart(parts, "vite.config.");
    TopStart(parts, "vitest");
    TopStart(parts, "tailwind.config.");
    TopStart(parts, "postcss.config.");
    OneComponent(parts, "index.html");
    OneComponent(parts, "window.html");
  }

  lemma FrontendPackageByComponents(parts: seq<string>)
    requires Proper(parts)
    ensures FrontendRoot(Join(parts)) || DriverUi(Join(parts)) <==> InFrontendPackage(parts)
  {
    RootPackageByComponents(parts);
    PartsOfJoin(parts);
  }

  lemma RootPackageByComponents(parts: seq<string>)
    requires Proper(parts)
    ensures FrontendRoot(Join(parts)) <==> InRootPackage(parts)
  {
    InUi(parts);
    InDriverSdk(parts);
    InBackendClient(parts);
    InWappSdk(parts);
    InExtensionPoints(parts);
    InWapps(parts);
  }

  lemma InUi(parts: seq<string>)
    requires Proper(parts)
    ensures "packages/ui/" <= Join(parts) <==> UnderBoth(parts, "packages", "ui")
  {
    SecondDirectory(parts, "packages", "ui", "packages/ui/");
  }

  lemma InDriverSdk(parts: seq<string>)
    requires Proper(parts)
    ensures "packages/driver-sdk/" <= Join(parts) <==> UnderBoth(parts, "packages", "driver-sdk")
  {
    SecondDirectory(parts, "packages", "driver-sdk", "packages/driver-sdk/");
  }

  lemma InBackendClient(parts: seq<string>)
    requires Proper(parts)
    ensures "packages/backend-client/" <= Join(parts) <==> UnderBoth(parts, "packages", "backend-client")
  {
    SecondDirectory(parts, "packages", "backend-client", "packages/backend-client/");
  }

  lemma InWappSdk(parts: seq<string>)
    requires Proper(parts)
    ensures "packages/wapp-sdk/" <= Join(parts) <==> UnderBoth(parts, "packages", "wapp-sdk")
  {
    SecondDirectory(parts, "packages", "wapp-sdk", "packages/wapp-sdk/");
  }

  lemma InExtensionPoints(parts: seq<string>)
    requires Proper(parts)
    ensures "packages/extension-points/" <= Join(parts) <==> UnderBoth(parts, "packages", "extension-points")
  {
    SecondDirectory(parts, "packages", "extension-points", "packages/extension-points/");
  }

  lemma InWapps(parts: seq<string>)
    requires Proper(parts)
    ensures "packages/wapps/" <= Join(parts) <==> UnderBoth(parts, "packages", "wapps")
  {
    SecondDirectory(parts, "packages", "wapps", "packages/wapps/");
  }

  lemma FrontendSourceByComponents(parts: seq<string>)
    requires Proper(parts)
    ensures FrontendSource(Join(parts)) <==> Under(parts, "packages") && IsScript(Last(parts))
  {
    TopDirectory(parts, "packages", "packages/");
    Extension(parts, "ts", ".ts");
    Extension(parts, "tsx", ".tsx");
    Extension(parts, "js", ".js");
    Extension(parts, "jsx", ".jsx");
    Extension(parts, "css", ".css");
  }

  // ---------- main results ----------

  /** The order of the cascade, without the shared trees and files, which end in the last branch anyway. */
  lemma CascadeByOwners(name: Path)
    ensures ClassifyPath(name) ==
      if Ignored(name) then NEITHER
      else if RustTree(name) then RUST_ONLY
      else if FrontendOwned(name) then FRONTEND_ONLY
      else BOTH
  {
    OwnershipIsExact(name);
    if RustTree(name) {
      RustTreeIsApart(name);
    }
    if Shared(name) {
      SharedIsApart(name);
    }
  }

  lemma FrontendOwnedByComponents(parts: seq<string>)
    requires Proper(parts)
    ensures FrontendOwned(Join(parts)) <==> OwnedByFrontend(parts)
  {
    FrontendTreeByComponents(parts);
    FrontendConfigByComponents(parts);
    FrontendPackageByComponents(parts);
    FrontendSourceByComponents(parts);
  }

  /** The cascade of prefix and suffix tests computes the reference, for every path. */
  lemma ClassificationByComponents(parts: seq<string>)
    requires Proper(parts)
    ensures ClassifyPath(Join(parts)) == Verdict(parts)
  {
    CascadeByOwners(Join(parts));
    IgnoredByComponents(parts);
    RustTreeByComponents(parts);
    FrontendOwnedByComponents(parts);
  }

  lemma DocumentationByComponents(parts: seq<string>)
    requires Proper(parts)
    ensures IsDocsOnlyPath(Join(parts)) <==> IsDocumentation(parts)
  {
    NamedFiles(parts);
    Extension(parts, "md", ".md");
    assert ("docs/" <= Join(parts)) == Under(parts, "docs") by {
      TopDirectory(parts, "docs", "docs/");
    }
    assert (".github/" <= Join(parts)) == Under(parts, ".github") by {
      TopDirectory(parts, ".github", ".github/");
    }
    assert Parts(Join(parts)) == parts by {
      PartsOfJoin(parts);
    }
  }

  lemma NamedFiles(parts: seq<string>)
    requires Proper(parts)
    ensures Join(parts) == "LICENSE" || Join(parts) == ".gitignore" <==> parts == ["LICENSE"] || parts == [".gitignore"]
  {
    OneComponent(parts, "LICENSE");
    OneComponent(parts, ".gitignore");
  }
}
