/**
 * scripts/setup.js: the older CommonJS setup script. It runs top to
 * bottom in sloppy mode: it edits the parsed package.json and
 * jbrowse_config.json in place, writes each back with writeFileSync as
 * soon as it is done with it, and then streams README.md out again line
 * by line with a CRLF after every line.
 */
module LegacySetup {
  import opened Wrappers
  import opened Text
  import opened Json
  import opened Workspace
  import Setup

  /** The `jbrowse-plugin.name` the template ships with; any other value means setup has run. */
  const Sentinel := "MyProject"

  const ScriptsPath := ["scripts"]

  /** How a run ends: success, the exit with status 1 at the guard, or a thrown TypeError. */
  datatype Status = Finished | AlreadyRun | Crashed(fault: Fault)

  datatype Report = Report(status: Status, files: Files)

  // ---------------------------------------------------------------------
  // Sloppy-mode property access
  // ---------------------------------------------------------------------

  /**
   * JavaScript `v[key]` on a non-null value: objects and arrays as in the
   * document; a string yields its characters and its length; other
   * primitives, and null (whose reads throw), yield nothing.
   */
  function PropertyOf(v: Json, key: string): (r: Option<Json>)
    ensures Child(v, key).Some? ==> r == Child(v, key)
    ensures IsContainer(r) ==> r == Child(v, key)
    ensures IsPlainName(key) && !v.JObj? ==> r.None?
  {
    match v
    case JStr(s) =>
      if key == "length" then Some(JNum(|s|))
      else (match ArrayIndex(key)
            case Some(i) => if i < |s| then Some(JStr([s[i]])) else None
            case None => None)
    case JArr(items) =>
      if key == "length" then Some(JNum(|items|)) else Child(v, key)
    case _ => Child(v, key)
  }

  /**
   * The value `v.p0.p1…pn` reads, or None when a step reads undefined
   * (the next step, or an assignment there, throws).
   */
  function Reach(v: Json, path: seq<string>): (r: Option<Json>)
    ensures Lookup(v, path).Some? ==> r == Lookup(v, path)
    ensures IsContainer(r) ==> r == Lookup(v, path)
    decreases |path|
  {
    if path == [] then Some(v)
    else match PropertyOf(v, path[0])
      case None => None
      case Some(c) => Reach(c, path[1..])
  }

  /** Assigning a property of this value throws: it is undefined or null. */
  predicate Throws(x: Option<Json>) {
    x.None? || x == Some(JNull)
  }

  /**
   * JavaScript `v.p0.p1…pn.key = val` in sloppy mode: on an object or an
   * array it is the strict assignment; on a string, number or boolean it
   * is silently ignored; on undefined or null it throws.
   */
  function SloppyAssign(v: Json, path: seq<string>, key: string, val: Option<Json>): (r: Result<Json, Fault>)
    requires IsPlainName(key)
    ensures r.Failure? <==> Throws(Reach(v, path))
    ensures r.Success? && v.JObj? ==> r.value.JObj?
    decreases |path|
  {
    if path == [] then
      if v.JNull? then Failure(TypeError)
      else if v.JObj? || v.JArr? then Put(v, key, val)
      else Success(v)
    else match PropertyOf(v, path[0])
      case None => Failure(TypeError)
      case Some(c) =>
        match SloppyAssign(c, path[1..], key, val)
        case Failure(e) => Failure(e)
        case Success(c') =>
          if Child(v, path[0]).Some? then Success(ReplaceChild(v, path[0], c')) else Success(v)
  }

  /** An assignment whose target is a primitive leaves the whole document as it was. */
  lemma {:induction false} SloppyPrimitiveNoOp(v: Json, path: seq<string>, key: string, val: Option<Json>)
    requires IsPlainName(key)
    requires SloppyAssign(v, path, key, val).Success?
    requires !IsContainer(Reach(v, path))
    ensures SloppyAssign(v, path, key, val).value == v
    decreases |path|
  {
    if path != [] {
      var c := PropertyOf(v, path[0]).value;
      SloppyPrimitiveNoOp(c, path[1..], key, val);
      if Child(v, path[0]).Some? {
        ReplaceSameChild(v, path[0], c);
      }
    }
  }

  /** Along a path of objects and arrays, sloppy and strict assignment agree. */
  lemma {:induction false} SloppyIsStrict(v: Json, path: seq<string>, key: string, val: Option<Json>)
    requires IsPlainName(key)
    requires IsContainer(Lookup(v, path))
    ensures SloppyAssign(v, path, key, val) == Assign(v, path, key, val)
    decreases |path|
  {
    if path != [] {
      SloppyIsStrict(Child(v, path[0]).value, path[1..], key, val);
    }
  }

  /** A sloppy assignment changes nothing off its own path. */
  lemma SloppyFrame(v: Json, path: seq<string>, key: string, val: Option<Json>, q: seq<string>)
    requires IsPlainName(key)
    requires SloppyAssign(v, path, key, val).Success?
    requires Diverges(path + [key], q)
    ensures Lookup(SloppyAssign(v, path, key, val).value, q) == Lookup(v, q)
  {
    if IsContainer(Lookup(v, path)) {
      SloppyIsStrict(v, path, key, val);
      AssignFrame(v, path, key, val, q);
    } else {
      SloppyPrimitiveNoOp(v, path, key, val);
    }
  }

  /** Assigning into an object makes the property read back the value (undefined drops it). */
  lemma SloppySets(v: Json, path: seq<string>, key: string, val: Option<Json>)
    requires IsPlainName(key)
    requires Lookup(v, path).Some? && Lookup(v, path).value.JObj?
    ensures SloppyAssign(v, path, key, val).Success?
    ensures Lookup(SloppyAssign(v, path, key, val).value, path + [key]) == val
  {
    SloppyIsStrict(v, path, key, val);
    if val.Some? {
      AssignSets(v, path, key, val.value);
    } else {
      AssignUndefinedDrops(v, path, key);
    }
  }

  /** An object that is assigned into stays at its path, still an object. */
  lemma SloppyKeepsObject(v: Json, path: seq<string>, key: string, val: Option<Json>)
    requires IsPlainName(key)
    requires Lookup(v, path).Some? && Lookup(v, path).value.JObj?
    ensures SloppyAssign(v, path, key, val).Success?
    ensures var after := Lookup(SloppyAssign(v, path, key, val).value, path);
      after.Some? && after.value.JObj?
  {
    SloppyIsStrict(v, path, key, val);
    AssignKeepsShape(v, path, key, val);
  }

  // ---------------------------------------------------------------------
  // Template literals
  // ---------------------------------------------------------------------

  /** ToString of a value read from a JSON document, as `${v}` applies it. */
  function JsString(v: Json): (r: string)
    ensures v.JObj? ==> r == "[object Object]"
    decreases v
  {
    match v
    case JNull => "null"
    case JBool(b) => if b then "true" else "false"
    case JNum(n) => IntToString(n)
    case JStr(s) => s
    case JArr(items) =>
      // Array.prototype.join writes null elements as empty strings
      Join(seq(|items|, i requires 0 <= i < |items| => if items[i].JNull? then "" else JsString(items[i])), ",")
    case JObj(_) => "[object Object]"
  }

  /** `${x}` for a property read that may be undefined. */
  function TemplateString(x: Option<Json>): (r: string)
    ensures x.None? ==> r == "undefined"
    ensures x.Some? && x.value.JStr? ==> r == x.value.s
  {
    match x
    case None => "undefined"
    case Some(v) => JsString(v)
  }

  const NameFlag := "--name JBrowsePlugin"
  const StartHead := "tsdx watch --verbose --noClean --format umd "
  const StartTail := " --onFirstSuccess \"yarn serve --cors --listen 9000 .\""
  const BuildHead := "tsdx build --format cjs,esm,umd "

  function StartScript(projectName: string): string {
    StartHead + NameFlag + projectName + StartTail
  }

  function BuildScript(projectName: string): string {
    BuildHead + NameFlag + projectName
  }

  function ModuleFile(projectName: string): string {
    "dist/" + projectName + ".esm.js"
  }

  /** Both scripts pass the bundler the global name JBrowsePlugin<projectName>. */
  lemma ScriptsNameThePlugin(projectName: string)
    ensures Contains(StartScript(projectName), NameFlag + projectName)
    ensures Contains(BuildScript(projectName), NameFlag + projectName)
  {
    var flag := NameFlag + projectName;
    assert StartScript(projectName) == StartHead + flag + StartTail;
    ContainsMiddle(StartHead, flag, StartTail);
    assert BuildScript(projectName) == BuildHead + flag + [];
    ContainsMiddle(BuildHead, flag, []);
  }

  // ---------------------------------------------------------------------
  // The repository URL in the README
  // ---------------------------------------------------------------------

  /** `.slice(0, -4)`: everything but the last four elements (nothing, if there are fewer). */
  function DropLastFour<T>(s: seq<T>): (r: seq<T>)
    ensures r <= s
    ensures |r| == if |s| < 4 then 0 else |s| - 4
  {
    if |s| <= 4 then [] else s[..|s| - 4]
  }

  /**
   * `${packageJSON.repository.slice(0, -4)}`: strings and arrays have a
   * slice method; for anything else the call throws.
   */
  function RepositorySlice(repo: Option<Json>): (r: Result<string, Fault>)
    ensures r.Success? <==> repo.Some? && (repo.value.JStr? || repo.value.JArr?)
    ensures r.Success? && repo.value.JStr? ==> r.value <= repo.value.s
  {
    match repo
    case Some(JStr(s)) => Success(DropLastFour(s))
    case Some(JArr(items)) => Success(JsString(JArr(DropLastFour(items))))
    case _ => Failure(TypeError)
  }

  /** A URL ending in ".git" loses exactly that suffix; any other URL loses its last four characters all the same. */
  lemma RepositoryWithGitSuffix(url: string)
    ensures EndsWith(url, ".git") ==> RepositorySlice(Some(JStr(url))).value + ".git" == url
    ensures |url| >= 4 ==> RepositorySlice(Some(JStr(url))).value + url[|url| - 4..] == url
  {
  }

  /** README line 0: the project name followed by the badge of the Integration workflow. */
  function BadgeLine(projectName: string, url: string): string {
    projectName + " " + Setup.Badge(url)
  }

  function ReadmeLines(readme: string, projectName: string, url: string): seq<string> {
    SplitLines(readme)[0 := BadgeLine(projectName, url)]
  }

  /** What the write stream receives: every line followed by CRLF, the last one too. */
  function Terminated(lines: seq<string>): string
    decreases |lines|
  {
    if lines == [] then [] else lines[0] + "\r\n" + Terminated(lines[1..])
  }

  lemma {:induction false} TerminatedSnoc(lines: seq<string>, line: string)
    ensures Terminated(lines + [line]) == Terminated(lines) + line + "\r\n"
    decreases |lines|
  {
    if lines == [] {
      assert [line][1..] == [];
    } else {
      assert (lines + [line])[1..] == lines[1..] + [line];
      TerminatedSnoc(lines[1..], line);
    }
  }

  /** Reading the written README back gives the lines and one empty line after them. */
  lemma {:induction false} SplitTerminated(lines: seq<string>)
    requires forall i :: 0 <= i < |lines| ==> '\n' !in lines[i]
    ensures SplitLines(Terminated(lines)) == lines + [""]
    decreases |lines|
  {
    if lines != [] {
      var rest := Terminated(lines[1..]);
      assert SplitLines(Terminated(lines)) == [lines[0]] + SplitLines(rest) by {
        SplitAfterLine(lines[0], "\r\n", rest);
      }
      SplitTerminated(lines[1..]);
      ConsRest(lines, [""]);
    }
  }

  // ---------------------------------------------------------------------
  // The script
  // ---------------------------------------------------------------------

  /** Lines 20-29: the package.json edits, in order, on the document in memory. */
  function PackageUpdated(pkg: Json, name: Option<Json>): Result<Json, Fault> {
    PlainName("name");
    PlainName("start");
    PlainName("build");
    PlainName("module");
    var projectName := TemplateString(name);
    var named :- SloppyAssign(pkg, Setup.JBrowsePluginPath, "name", name);
    var started :- SloppyAssign(named, ScriptsPath, "start", Some(JStr(StartScript(projectName))));
    var built :- SloppyAssign(started, ScriptsPath, "build", Some(JStr(BuildScript(projectName))));
    SloppyAssign(built, [], "module", Some(JStr(ModuleFile(projectName))))
  }

  /**
   * The script after its guard: package.json is written once its edits
   * are done, jbrowse_config.json once plugins[0].name is set, and
   * README.md last; a TypeError keeps what was already written.
   */
  function LegacyUpdates(files: Files, name: Option<Json>): (r: Report)
    ensures r.status.Finished? || r.status.Crashed?
    ensures r.files.fixture == files.fixture && r.files.srcIndex == files.srcIndex
  {
    PlainName("name");
    match PackageUpdated(files.packageJson, name)
    case Failure(e) => Report(Crashed(e), files)
    case Success(pkg) =>
      var f1 := files.(packageJson := pkg);
      match SloppyAssign(files.jbrowseConfig, Setup.FirstPluginPath, "name", name)
      case Failure(e) => Report(Crashed(e), f1)
      case Success(cfg) =>
        var f2 := f1.(jbrowseConfig := cfg);
        match RepositorySlice(PropertyOf(pkg, "repository"))
        case Failure(e) => Report(Crashed(e), f2)
        case Success(url) =>
          Report(Finished, f2.(readme := Terminated(ReadmeLines(files.readme, TemplateString(name), url))))
  }

  /** The whole script: the guard on `jbrowse-plugin.name`, then the updates. */
  function LegacyRun(files: Files): (r: Report)
    ensures var plugin := PropertyOf(files.packageJson, "jbrowse-plugin");
      (Throws(plugin) ==> r == Report(Crashed(TypeError), files)) &&
      (r.status == AlreadyRun <==> !Throws(plugin) && PropertyOf(plugin.value, "name") != Some(JStr(Sentinel)))
    ensures r.status == AlreadyRun ==> r.files == files
    ensures r.status.Finished? ==> Lookup(files.packageJson, ["jbrowse-plugin", "name"]) == Some(JStr(Sentinel))
    ensures r.files.fixture == files.fixture && r.files.srcIndex == files.srcIndex
  {
    PlainName("jbrowse-plugin");
    PlainName("name");
    var pkg := files.packageJson;
    var plugin := PropertyOf(pkg, "jbrowse-plugin");
    if Throws(plugin) then Report(Crashed(TypeError), files)
    else if PropertyOf(plugin.value, "name") != Some(JStr(Sentinel)) then Report(AlreadyRun, files)
    else LegacyUpdates(files, PropertyOf(pkg, "name"))
  }

  // ---------------------------------------------------------------------
  // What a finished run leaves behind
  // ---------------------------------------------------------------------

  /** The project name a run reads from package.json. */
  function NameOf(files: Files): Option<Json> {
    PropertyOf(files.packageJson, "name")
  }

  /** The guard passed: package.json is an object, and so is its jbrowse-plugin field. */
  lemma GuardShapes(files: Files)
    requires LegacyRun(files).status.Finished?
    ensures files.packageJson.JObj?
    ensures IsPlainName("name") && IsPlainName("jbrowse-plugin")
    ensures var plugin := Lookup(files.packageJson, Setup.JBrowsePluginPath);
      plugin.Some? && plugin.value.JObj?
    ensures LegacyRun(files) == LegacyUpdates(files, NameOf(files))
    ensures PackageUpdated(files.packageJson, NameOf(files)).Success?
    ensures LegacyRun(files).files.packageJson == PackageUpdated(files.packageJson, NameOf(files)).value
  {
    PlainName("name");
    PlainName("jbrowse-plugin");
    var plugin := Lookup(files.packageJson, Setup.JBrowsePluginPath);
    assert Lookup(files.packageJson, ["jbrowse-plugin", "name"]) == Some(JStr(Sentinel));
    assert ["jbrowse-plugin", "name"][1..] == ["name"];
    assert Child(plugin.value, "name").Some?;
  }

  /** package.json: jbrowse-plugin.name holds the project name and `module` the ESM bundle path. */
  lemma LegacyPackageFields(files: Files)
    requires LegacyRun(files).status.Finished?
    ensures var pkg' := LegacyRun(files).files.packageJson;
      Lookup(pkg', ["jbrowse-plugin", "name"]) == NameOf(files) &&
      Lookup(pkg', ["module"]) == Some(JStr(ModuleFile(TemplateString(NameOf(files)))))
  {
    GuardShapes(files);
    PlainName("start");
    PlainName("build");
    PlainName("module");
    var pkg, name := files.packageJson, NameOf(files);
    var projectName := TemplateString(name);
    var target := ["jbrowse-plugin", "name"];
    SloppySets(pkg, Setup.JBrowsePluginPath, "name", name);
    var named := SloppyAssign(pkg, Setup.JBrowsePluginPath, "name", name).value;
    assert Setup.JBrowsePluginPath + ["name"] == target;
    var started := SloppyAssign(named, ScriptsPath, "start", Some(JStr(StartScript(projectName)))).value;
    assert (ScriptsPath + ["start"])[0] != target[0];
    SloppyFrame(named, ScriptsPath, "start", Some(JStr(StartScript(projectName))), target);
    var built := SloppyAssign(started, ScriptsPath, "build", Some(JStr(BuildScript(projectName)))).value;
    assert (ScriptsPath + ["build"])[0] != target[0];
    SloppyFrame(started, ScriptsPath, "build", Some(JStr(BuildScript(projectName))), target);
    assert ([] + ["module"])[0] != target[0];
    SloppyFrame(built, [], "module", Some(JStr(ModuleFile(projectName))), target);
    SloppySets(built, [], "module", Some(JStr(ModuleFile(projectName))));
    assert [] + ["module"] == ["module"];
  }

  /** When `scripts` is an object, its start and build entries name the plugin JBrowsePlugin<projectName>. */
  lemma LegacyScriptsFields(files: Files)
    requires LegacyRun(files).status.Finished?
    requires var scripts := Lookup(files.packageJson, ScriptsPath); scripts.Some? && scripts.value.JObj?
    ensures var pkg', projectName := LegacyRun(files).files.packageJson, TemplateString(NameOf(files));
      Lookup(pkg', ["scripts", "start"]) == Some(JStr(StartScript(projectName))) &&
      Lookup(pkg', ["scripts", "build"]) == Some(JStr(BuildScript(projectName)))
  {
    GuardShapes(files);
    ScriptsSet(files.packageJson, NameOf(files));
  }

  lemma ScriptsSet(pkg: Json, name: Option<Json>)
    requires PackageUpdated(pkg, name).Success?
    requires var scripts := Lookup(pkg, ScriptsPath); scripts.Some? && scripts.value.JObj?
    ensures var pkg', projectName := PackageUpdated(pkg, name).value, TemplateString(name);
      Lookup(pkg', ["scripts", "start"]) == Some(JStr(StartScript(projectName))) &&
      Lookup(pkg', ["scripts", "build"]) == Some(JStr(BuildScript(projectName)))
  {
    PlainName("name");
    PlainName("start");
    PlainName("build");
    PlainName("module");
    var projectName := TemplateString(name);
    var start, build := Some(JStr(StartScript(projectName))), Some(JStr(BuildScript(projectName)));
    var named := SloppyAssign(pkg, Setup.JBrowsePluginPath, "name", name).value;
    assert (Setup.JBrowsePluginPath + ["name"])[0] != ScriptsPath[0];
    SloppyFrame(pkg, Setup.JBrowsePluginPath, "name", name, ScriptsPath);
    StartAndBuildSet(named, start, build);
    var started := SloppyAssign(named, ScriptsPath, "start", start).value;
    var built := SloppyAssign(started, ScriptsPath, "build", build).value;
    var moduleField := Some(JStr(ModuleFile(projectName)));
    assert ([] + ["module"])[0] != "scripts";
    SloppyFrame(built, [], "module", moduleField, ["scripts", "start"]);
    SloppyFrame(built, [], "module", moduleField, ["scripts", "build"]);
  }

  /** Setting scripts.start and then scripts.build on an object leaves both set. */
  lemma StartAndBuildSet(named: Json, start: Option<Json>, build: Option<Json>)
    requires var scripts := Lookup(named, ScriptsPath); scripts.Some? && scripts.value.JObj?
    ensures IsPlainName("start") && IsPlainName("build")
    ensures SloppyAssign(named, ScriptsPath, "start", start).Success?
    ensures var started := SloppyAssign(named, ScriptsPath, "start", start).value;
      SloppyAssign(started, ScriptsPath, "build", build).Success? &&
      var built := SloppyAssign(started, ScriptsPath, "build", build).value;
      Lookup(built, ["scripts", "start"]) == start && Lookup(built, ["scripts", "build"]) == build
  {
    PlainName("start");
    PlainName("build");
    SloppySets(named, ScriptsPath, "start", start);
    SloppyKeepsObject(named, ScriptsPath, "start", start);
    var started := SloppyAssign(named, ScriptsPath, "start", start).value;
    SloppySets(started, ScriptsPath, "build", build);
    assert ScriptsPath + ["start"] == ["scripts", "start"];
    assert ScriptsPath + ["build"] == ["scripts", "build"];
    assert ["scripts", "build"][1] != ["scripts", "start"][1];
    SloppyFrame(started, ScriptsPath, "build", build, ["scripts", "start"]);
  }

  /**
   * jbrowse_config.json: nothing off plugins[0].name changes, and when
   * plugins[0] is an object its name becomes the project name.
   */
  lemma LegacyConfigField(files: Files, q: seq<string>)
    requires LegacyRun(files).status.Finished?
    ensures Diverges(["plugins", "0", "name"], q) ==>
      Lookup(LegacyRun(files).files.jbrowseConfig, q) == Lookup(files.jbrowseConfig, q)
    ensures var entry := Lookup(files.jbrowseConfig, Setup.FirstPluginPath);
      entry.Some? && entry.value.JObj? ==>
        Lookup(LegacyRun(files).files.jbrowseConfig, ["plugins", "0", "name"]) == NameOf(files)
  {
    GuardShapes(files);
    var cfg, name := files.jbrowseConfig, NameOf(files);
    assert Setup.FirstPluginPath + ["name"] == ["plugins", "0", "name"];
    if Diverges(["plugins", "0", "name"], q) {
      SloppyFrame(cfg, Setup.FirstPluginPath, "name", name, q);
    }
    var entry := Lookup(cfg, Setup.FirstPluginPath);
    if entry.Some? && entry.value.JObj? {
      SloppySets(cfg, Setup.FirstPluginPath, "name", name);
    }
  }

  /**
   * README.md: read back, it is the old lines with line 0 replaced by the
   * badge line, and one empty line after the last (each line was written
   * with CRLF after it).
   */
  lemma LegacyReadme(files: Files, url: string)
    requires LegacyRun(files).status.Finished?
    requires RepositorySlice(Lookup(files.packageJson, ["repository"])) == Success(url)
    requires '\n' !in TemplateString(NameOf(files)) && '\n' !in url
    ensures SplitLines(LegacyRun(files).files.readme) ==
      SplitLines(files.readme)[0 := BadgeLine(TemplateString(NameOf(files)), url)] + [""]
  {
    FinishedReadme(files, url);
    ReadmeLinesSplit(files.readme, TemplateString(NameOf(files)), url);
  }

  lemma FinishedReadme(files: Files, url: string)
    requires LegacyRun(files).status.Finished?
    requires RepositorySlice(Lookup(files.packageJson, ["repository"])) == Success(url)
    ensures LegacyRun(files).files.readme == Terminated(ReadmeLines(files.readme, TemplateString(NameOf(files)), url))
  {
    GuardShapes(files);
    RepositoryAfterUpdate(files.packageJson, NameOf(files));
  }

  /** The `repository` the README step reads is the one the manifest had before the edits. */
  lemma RepositoryAfterUpdate(pkg: Json, name: Option<Json>)
    requires pkg.JObj? && PackageUpdated(pkg, name).Success?
    ensures PropertyOf(PackageUpdated(pkg, name).value, "repository") == Lookup(pkg, ["repository"])
  {
    PlainName("repository");
    var pkg' := PackageUpdated(pkg, name).value;
    assert Lookup(pkg, ["repository"]) == Child(pkg, "repository");
    assert pkg'.JObj?;
    assert Lookup(pkg', ["repository"]) == PropertyOf(pkg', "repository");
    PackageKeepsRepository(pkg, name);
  }

  lemma ReadmeLinesSplit(readme: string, projectName: string, url: string)
    requires '\n' !in projectName && '\n' !in url
    ensures SplitLines(Terminated(ReadmeLines(readme, projectName, url))) == ReadmeLines(readme, projectName, url) + [""]
  {
    Setup.BadgeIsOneLine(url);
    assert '\n' !in BadgeLine(projectName, url);
    SplitTerminated(ReadmeLines(readme, projectName, url));
  }

  /** The package.json edits leave `repository` as it was. */
  lemma PackageKeepsRepository(pkg: Json, name: Option<Json>)
    requires PackageUpdated(pkg, name).Success?
    ensures Lookup(PackageUpdated(pkg, name).value, ["repository"]) == Lookup(pkg, ["repository"])
  {
    PlainName("name");
    PlainName("start");
    PlainName("build");
    PlainName("module");
    var projectName := TemplateString(name);
    var q := ["repository"];
    var named := SloppyAssign(pkg, Setup.JBrowsePluginPath, "name", name).value;
    assert (Setup.JBrowsePluginPath + ["name"])[0] != q[0];
    SloppyFrame(pkg, Setup.JBrowsePluginPath, "name", name, q);
    var started := SloppyAssign(named, ScriptsPath, "start", Some(JStr(StartScript(projectName)))).value;
    assert (ScriptsPath + ["start"])[0] != q[0];
    SloppyFrame(named, ScriptsPath, "start", Some(JStr(StartScript(projectName))), q);
    var built := SloppyAssign(started, ScriptsPath, "build", Some(JStr(BuildScript(projectName)))).value;
    assert (ScriptsPath + ["build"])[0] != q[0];
    SloppyFrame(started, ScriptsPath, "build", Some(JStr(BuildScript(projectName))), q);
    assert ([] + ["module"])[0] != q[0];
    SloppyFrame(built, [], "module", Some(JStr(ModuleFile(projectName))), q);
  }

  /**
   * Running the script again on what a finished run wrote stops at the
   * guard, unless the project itself is called MyProject.
   */
  lemma LegacyRerun(files: Files)
    requires LegacyRun(files).status.Finished?
    requires NameOf(files) != Some(JStr(Sentinel))
    ensures LegacyRun(LegacyRun(files).files) == Report(AlreadyRun, LegacyRun(files).files)
  {
    GuardShapes(files);
    LegacyPackageFields(files);
    LegacyPluginStaysObject(files);
    var pkg' := LegacyRun(files).files.packageJson;
    assert pkg'.JObj?;
    SecondGuard(pkg', NameOf(files));
  }

  /** The guard of a second run reads jbrowse-plugin.name back. */
  lemma SecondGuard(pkg: Json, name: Option<Json>)
    requires pkg.JObj?
    requires var plugin := Lookup(pkg, Setup.JBrowsePluginPath); plugin.Some? && plugin.value.JObj?
    requires Lookup(pkg, ["jbrowse-plugin", "name"]) == name
    ensures var plugin := PropertyOf(pkg, "jbrowse-plugin");
      !Throws(plugin) && PropertyOf(plugin.value, "name") == name
  {
    var plugin := Child(pkg, "jbrowse-plugin");
    assert ["jbrowse-plugin", "name"][1..] == ["name"];
    assert Lookup(plugin.value, ["name"]) == name;
  }

  /** The jbrowse-plugin object is still an object after the run. */
  lemma LegacyPluginStaysObject(files: Files)
    requires LegacyRun(files).status.Finished?
    ensures var plugin := Lookup(LegacyRun(files).files.packageJson, Setup.JBrowsePluginPath);
      plugin.Some? && plugin.value.JObj?
  {
    GuardShapes(files);
    PlainName("start");
    PlainName("build");
    PlainName("module");
    var pkg, name := files.packageJson, NameOf(files);
    var projectName := TemplateString(name);
    var q := Setup.JBrowsePluginPath;
    SloppyKeepsObject(pkg, q, "name", name);
    var named := SloppyAssign(pkg, q, "name", name).value;
    var started := SloppyAssign(named, ScriptsPath, "start", Some(JStr(StartScript(projectName)))).value;
    assert (ScriptsPath + ["start"])[0] != q[0];
    SloppyFrame(named, ScriptsPath, "start", Some(JStr(StartScript(projectName))), q);
    var built := SloppyAssign(started, ScriptsPath, "build", Some(JStr(BuildScript(projectName)))).value;
    assert (ScriptsPath + ["build"])[0] != q[0];
    SloppyFrame(started, ScriptsPath, "build", Some(JStr(BuildScript(projectName))), q);
    assert ([] + ["module"])[0] != q[0];
    SloppyFrame(built, [], "module", Some(JStr(ModuleFile(projectName))), q);
  }

  /** A TypeError on the config keeps the package.json already written, and leaves the config and README. */
  lemma LegacyConfigCrash(files: Files)
    requires LegacyRun(files).status.Crashed?
    requires PackageUpdated(files.packageJson, NameOf(files)).Success?
    requires Throws(Reach(files.jbrowseConfig, Setup.FirstPluginPath))
    ensures LegacyRun(files).files ==
      files.(packageJson := PackageUpdated(files.packageJson, NameOf(files)).value)
  {
  }

  // ---------------------------------------------------------------------
  // The script as it runs
  // ---------------------------------------------------------------------

  /** Lines 56-57: a fresh write stream, then each line and a CRLF. */
  method WriteLines(p: Project, lines: seq<string>)
    modifies p`readme
    ensures p.readme == Terminated(lines)
  {
    p.readme := [];
    var i := 0;
    while i < |lines|
      invariant 0 <= i <= |lines|
      invariant p.readme == Terminated(lines[..i])
    {
      TerminatedSnoc(lines[..i], lines[i]);
      assert lines[..i + 1] == lines[..i] + [lines[i]];
      p.readme := p.readme + lines[i] + "\r\n";
      i := i + 1;
    }
    assert lines[..i] == lines;
  }

  /** Lines 20-57, on the files of the project. */
  method PerformLegacyUpdates(p: Project, name: Option<Json>) returns (status: Status)
    modifies p
    ensures Report(status, p.Snapshot()) == LegacyUpdates(old(p.Snapshot()), name)
  {
    PlainName("name");
    PlainName("start");
    PlainName("build");
    PlainName("module");
    var projectName := TemplateString(name);
    var pkg := p.packageJson;
    match SloppyAssign(pkg, Setup.JBrowsePluginPath, "name", name) {
      case Failure(e) => return Crashed(e);
      case Success(d) => pkg := d;
    }
    match SloppyAssign(pkg, ScriptsPath, "start", Some(JStr(StartScript(projectName)))) {
      case Failure(e) => return Crashed(e);
      case Success(d) => pkg := d;
    }
    match SloppyAssign(pkg, ScriptsPath, "build", Some(JStr(BuildScript(projectName)))) {
      case Failure(e) => return Crashed(e);
      case Success(d) => pkg := d;
    }
    match SloppyAssign(pkg, [], "module", Some(JStr(ModuleFile(projectName)))) {
      case Failure(e) => return Crashed(e);
      case Success(d) => pkg := d;
    }
    p.packageJson := pkg;
    match SloppyAssign(p.jbrowseConfig, Setup.FirstPluginPath, "name", name) {
      case Failure(e) => return Crashed(e);
      case Success(d) => p.jbrowseConfig := d;
    }
    match RepositorySlice(PropertyOf(pkg, "repository")) {
      case Failure(e) => return Crashed(e);
      case Success(url) =>
        var lines := SplitLines(p.readme);
        lines := lines[0 := BadgeLine(projectName, url)];
        WriteLines(p, lines);
    }
    status := Finished;
  }

  /** The whole script on the files of the project. */
  method RunLegacySetup(p: Project) returns (status: Status)
    modifies p
    ensures Report(status, p.Snapshot()) == LegacyRun(old(p.Snapshot()))
  {
    PlainName("jbrowse-plugin");
    PlainName("name");
    var plugin := PropertyOf(p.packageJson, "jbrowse-plugin");
    if Throws(plugin) {
      return Crashed(TypeError);
    }
    if PropertyOf(plugin.value, "name") != Some(JStr(Sentinel)) {
      return AlreadyRun;
    }
    status := PerformLegacyUpdates(p, PropertyOf(p.packageJson, "name"));
  }
}
