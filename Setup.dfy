/**
 * scripts/setup.ts: the one-shot transform that renames the template
 * plugin after the package. Each step is a function over file contents
 * (the specification) and a method that overwrites one field of the
 * Project (the step as the script performs it). updatePackageJSON is
 * synchronous, so its TypeError ends main before any other step starts;
 * the four async steps after it are not awaited, so a TypeError in one of
 * them rejects only its own promise and the others still write their files.
 */
module Setup {
  import opened Wrappers
  import opened Text
  import opened Json
  import opened Util
  import opened Workspace

  /** The name `yarn init` has not yet replaced. */
  const TemplateName := "jbrowse-plugin-template"
  const Prefix := "jbrowse-plugin-"
  /** The class name that src/index.ts declares and registers. */
  const Placeholder := "TemplatePlugin"

  const JBrowsePluginPath := ["jbrowse-plugin"]
  const ConfigPluginPath := ["config", "jbrowse", "plugin"]
  const FirstPluginPath := ["plugins", "0"]

  /** How a run ends: the two guarded exits with status 1, a thrown error, or success. */
  datatype Status = Completed | NoName | NotInitialised | Crashed(fault: Fault)

  datatype Report = Report(status: Status, files: Files)

  // ---------------------------------------------------------------------
  // The steps as functions
  // ---------------------------------------------------------------------

  /** The plugin class name: the safe package name without its jbrowse-plugin- prefix, in PascalCase. */
  function PluginClassName(packageName: string): string {
    ToPascalCase(if StartsWith(packageName, Prefix) then packageName[|Prefix|..] else packageName)
  }

  /**
   * updatePackageJSON: set jbrowse-plugin.name, give a falsy `config` an
   * empty object, then set config.jbrowse.plugin.name.
   */
  function UpdatedPackageJson(doc: Json, cls: string): (r: Result<Json, Fault>)
    ensures r.Success? <==> ManifestFits(doc)
  {
    PlainName("name");
    PlainName("config");
    var named :- Assign(doc, JBrowsePluginPath, "name", Some(JStr(cls)));
    ConfigAfterName(doc, cls);
    var configured :- if Truthy(Child(named, "config")) then Success(named) else Put(named, "config", Some(JObj([])));
    Assign(configured, ConfigPluginPath, "name", Some(JStr(cls)))
  }

  /** updateSrcIndex: every TemplatePlugin becomes the class name followed by Plugin. */
  function UpdatedSrcIndex(text: string, cls: string): string {
    ReplaceAll(text, Placeholder, cls + "Plugin")
  }

  /** Where the development server serves the UMD bundle of the package. */
  function DevUrl(packageName: string): string {
    "http://localhost:9000/dist/" + packageName + ".umd.development.js"
  }

  /** updateJBrowseConfig and updateExampleFixture: plugins[0].name, then plugins[0].url. */
  function UpdatedPluginEntry(doc: Json, packageName: string, cls: string): (r: Result<Json, Fault>)
    ensures r.Success? <==> EntryFits(doc)
  {
    PlainName("name");
    PlainName("url");
    var named :- Assign(doc, FirstPluginPath, "name", Some(JStr(cls)));
    AssignKeepsShape(doc, FirstPluginPath, "name", Some(JStr(cls)));
    Assign(named, FirstPluginPath, "url", Some(JStr(DevUrl(packageName))))
  }

  function Title(name: string): string {
    "# " + name
  }

  /** The badge of a url without a line break has none either, and does not end in a carriage return. */
  lemma BadgeIsOneLine(url: string)
    requires '\n' !in url
    ensures '\n' !in Badge(url) && NoCrEnd(Badge(url))
  {
    HeadAndTailAreOneLine();
    var b := Badge(url);
    assert b == BadgeHead + url + BadgeTail;
    assert b[|b| - 1] == BadgeTail[|BadgeTail| - 1] == ')';
  }

  lemma HeadAndTailAreOneLine()
    ensures '\n' !in BadgeHead && '\n' !in BadgeTail
    ensures |BadgeTail| > 0 && BadgeTail[|BadgeTail| - 1] == ')'
  {
  }

  const BadgeHead := "![Integration]("
  const BadgeTail := "/workflows/Integration/badge.svg?branch=main)"

  /** The status badge of the Integration workflow of the repository at `url`. */
  function Badge(url: string): string {
    BadgeHead + url + BadgeTail
  }

  /**
   * updateReadme: the new README text, or None when line 0 already starts
   * with the title and nothing is written.
   */
  function ReadmeUpdated(readme: string, name: string, repo: Option<Json>, eol: string): (r: Result<Option<string>, Fault>)
    ensures r.Failure? <==> repo == Some(JNull)
    ensures r == Success(None) <==> repo != Some(JNull) && StartsWith(SplitLines(readme)[0], Title(name))
  {
    var url :- GetUrlFromRepo(repo);
    var lines := SplitLines(readme);
    if StartsWith(lines[0], Title(name)) then Success(None)
    else
      var titled := lines[0 := Title(name)];
      var out := if url.Some? then [Badge(url.value) + eol] + titled else titled;
      Success(Some(Join(out, eol)))
  }

  /** main: the gate on the manifest name, then the updates. */
  function Run(files: Files, eol: string): (r: Report)
    ensures r.status == NoName <==> Get(files.packageJson, "name") == Success(None)
    ensures r.status == NotInitialised <==> Get(files.packageJson, "name") == Success(Some(JStr(TemplateName)))
    ensures r.status.NoName? || r.status.NotInitialised? ==> r.files == files
    ensures r.status.Completed? ==>
      var raw := Child(files.packageJson, "name");
      raw.Some? && raw.value.JStr? && raw.value.s != TemplateName
  {
    PlainName("name");
    match Get(files.packageJson, "name")
    case Failure(e) => Report(Crashed(e), files)
    case Success(None) => Report(NoName, files)
    case Success(Some(raw)) =>
      if raw == JStr(TemplateName) then Report(NotInitialised, files)
      else if !raw.JStr? then Report(Crashed(TypeError), files)
      else RunUpdates(files, raw.s, eol)
  }

  /** What updatePackageJSON needs: jbrowse-plugin and config.jbrowse.plugin are objects or arrays. */
  predicate ManifestFits(doc: Json) {
    IsContainer(Lookup(doc, JBrowsePluginPath)) && IsContainer(Lookup(doc, ConfigPluginPath))
  }

  /** What updateJBrowseConfig and updateExampleFixture need: plugins[0] is an object or an array. */
  predicate EntryFits(doc: Json) {
    IsContainer(Lookup(doc, FirstPluginPath))
  }

  /**
   * The five updates of main for a manifest named `name`. A manifest that
   * does not fit throws in the synchronous updatePackageJSON and nothing is
   * written. Otherwise package.json and src/index.ts are rewritten, and
   * RunUpdatesLater says what becomes of the other three files.
   */
  function RunUpdates(files: Files, name: string, eol: string): (r: Report)
    ensures r.status.Completed? || r.status.Crashed?
    ensures !ManifestFits(files.packageJson) ==> r == Report(Crashed(TypeError), files)
    ensures ManifestFits(files.packageJson) ==>
      var cls := PluginClassName(GetSafePackageName(name));
      r.files.packageJson == UpdatedPackageJson(files.packageJson, cls).value &&
      r.files.srcIndex == UpdatedSrcIndex(files.srcIndex, cls)
  {
    var packageName := GetSafePackageName(name);
    var cls := PluginClassName(packageName);
    match UpdatedPackageJson(files.packageJson, cls)
    case Failure(e) => Report(Crashed(e), files)
    case Success(pkg) =>
      var f1 := files.(packageJson := pkg, srcIndex := UpdatedSrcIndex(files.srcIndex, cls));
      LaterUpdates(f1, name, packageName, cls, eol)
  }

  /**
   * The rest of the five updates, once updatePackageJSON has passed: each
   * plugin entry that fits is rewritten, and the README is rewritten unless
   * the repository is null or the title is already there; the run completes
   * exactly when both entries fit and the repository is not null.
   */
  lemma RunUpdatesLater(files: Files, name: string, eol: string)
    requires ManifestFits(files.packageJson)
    ensures var r := RunUpdates(files, name, eol);
      var packageName := GetSafePackageName(name);
      var cls := PluginClassName(packageName);
      var repo := Child(files.packageJson, "repository");
      r.files.jbrowseConfig == (if EntryFits(files.jbrowseConfig) then UpdatedPluginEntry(files.jbrowseConfig, packageName, cls).value else files.jbrowseConfig) &&
      r.files.fixture == (if EntryFits(files.fixture) then UpdatedPluginEntry(files.fixture, packageName, cls).value else files.fixture) &&
      r.files.readme == (if repo == Some(JNull) then files.readme else ReadmeUpdated(files.readme, name, repo, eol).value.GetOr(files.readme)) &&
      (r.status.Completed? <==> EntryFits(files.jbrowseConfig) && EntryFits(files.fixture) && repo != Some(JNull))
  {
    var packageName := GetSafePackageName(name);
    var cls := PluginClassName(packageName);
    ManifestKeepsOtherFields(files.packageJson, cls, "repository");
    var f1 := files.(packageJson := UpdatedPackageJson(files.packageJson, cls).value, srcIndex := UpdatedSrcIndex(files.srcIndex, cls));
    LaterUpdatesFiles(f1, name, packageName, cls, eol);
  }

  /**
   * updateJBrowseConfig, updateExampleFixture and updateReadme, started one
   * after the other and not awaited: each writes its file when it succeeds,
   * whatever the others do. The status reports the first step, in program
   * order, that threw.
   */
  function LaterUpdates(f1: Files, name: string, packageName: string, cls: string, eol: string): (r: Report)
    ensures r.status.Completed? || r.status.Crashed?
    ensures r.files.packageJson == f1.packageJson && r.files.srcIndex == f1.srcIndex
  {
    var config := UpdatedPluginEntry(f1.jbrowseConfig, packageName, cls);
    var fixture := UpdatedPluginEntry(f1.fixture, packageName, cls);
    PlainName("repository");
    var readme := ReadmeUpdated(f1.readme, name, Child(f1.packageJson, "repository"), eol);
    var status :=
      if config.Failure? then Crashed(config.error)
      else if fixture.Failure? then Crashed(fixture.error)
      else if readme.Failure? then Crashed(readme.error)
      else Completed;
    Report(status, f1.(jbrowseConfig := Written(config, f1.jbrowseConfig), fixture := Written(fixture, f1.fixture),
                       readme := Written(readme, None).GetOr(f1.readme)))
  }

  /**
   * Each of the three steps writes its file when it succeeds, whatever the
   * others do, and the run completes exactly when none of them throws.
   */
  lemma LaterUpdatesFiles(f1: Files, name: string, packageName: string, cls: string, eol: string)
    ensures var r := LaterUpdates(f1, name, packageName, cls, eol);
      var repo := Child(f1.packageJson, "repository");
      r.files.jbrowseConfig == (if EntryFits(f1.jbrowseConfig) then UpdatedPluginEntry(f1.jbrowseConfig, packageName, cls).value else f1.jbrowseConfig) &&
      r.files.fixture == (if EntryFits(f1.fixture) then UpdatedPluginEntry(f1.fixture, packageName, cls).value else f1.fixture) &&
      r.files.readme == (if repo == Some(JNull) then f1.readme else ReadmeUpdated(f1.readme, name, repo, eol).value.GetOr(f1.readme)) &&
      (r.status.Completed? <==> EntryFits(f1.jbrowseConfig) && EntryFits(f1.fixture) && repo != Some(JNull))
  {
    PlainName("repository");
  }

  /** What a step leaves in its file: the new contents when it succeeds, the old ones when it throws. */
  function Written<T>(r: Result<T, Fault>, previous: T): T {
    if r.Success? then r.value else previous
  }

  // ---------------------------------------------------------------------
  // The steps as the script performs them
  // ---------------------------------------------------------------------

  method UpdatePackageJson(p: Project, cls: string) returns (outcome: Outcome<Fault>)
    modifies p`packageJson
    ensures var r := UpdatedPackageJson(old(p.packageJson), cls);
      (r.Success? ==> outcome.Pass? && p.packageJson == r.value) &&
      (r.Failure? ==> outcome == Fail(r.error) && p.packageJson == old(p.packageJson))
    ensures p.Snapshot() == old(p.Snapshot()).(packageJson := p.packageJson)
  {
    PlainName("name");
    PlainName("config");
    var doc := p.packageJson;
    match Assign(doc, JBrowsePluginPath, "name", Some(JStr(cls))) {
      case Failure(e) => return Fail(e);
      case Success(d) => doc := d;
    }
    if !Truthy(Child(doc, "config")) {
      match Put(doc, "config", Some(JObj([]))) {
        case Failure(e) => return Fail(e);
        case Success(d) => doc := d;
      }
    }
    match Assign(doc, ConfigPluginPath, "name", Some(JStr(cls))) {
      case Failure(e) => return Fail(e);
      case Success(d) => doc := d;
    }
    p.packageJson := doc;
    return Pass;
  }

  method UpdateSrcIndex(p: Project, cls: string)
    modifies p`srcIndex
    ensures p.srcIndex == UpdatedSrcIndex(old(p.srcIndex), cls)
    ensures p.Snapshot() == old(p.Snapshot()).(srcIndex := p.srcIndex)
  {
    var text := p.srcIndex;
    text := ReplaceAll(text, Placeholder, cls + "Plugin");
    p.srcIndex := text;
  }

  method UpdateJBrowseConfig(p: Project, packageName: string, cls: string) returns (outcome: Outcome<Fault>)
    modifies p`jbrowseConfig
    ensures var r := UpdatedPluginEntry(old(p.jbrowseConfig), packageName, cls);
      (r.Success? ==> outcome.Pass? && p.jbrowseConfig == r.value) &&
      (r.Failure? ==> outcome == Fail(r.error) && p.jbrowseConfig == old(p.jbrowseConfig))
    ensures p.Snapshot() == old(p.Snapshot()).(jbrowseConfig := p.jbrowseConfig)
  {
    PlainName("name");
    PlainName("url");
    var config := p.jbrowseConfig;
    match Assign(config, FirstPluginPath, "name", Some(JStr(cls))) {
      case Failure(e) => return Fail(e);
      case Success(d) => config := d;
    }
    match Assign(config, FirstPluginPath, "url", Some(JStr(DevUrl(packageName)))) {
      case Failure(e) => return Fail(e);
      case Success(d) => config := d;
    }
    p.jbrowseConfig := config;
    return Pass;
  }

  method UpdateExampleFixture(p: Project, packageName: string, cls: string) returns (outcome: Outcome<Fault>)
    modifies p`fixture
    ensures var r := UpdatedPluginEntry(old(p.fixture), packageName, cls);
      (r.Success? ==> outcome.Pass? && p.fixture == r.value) &&
      (r.Failure? ==> outcome == Fail(r.error) && p.fixture == old(p.fixture))
    ensures p.Snapshot() == old(p.Snapshot()).(fixture := p.fixture)
  {
    PlainName("name");
    PlainName("url");
    var fixture := p.fixture;
    match Assign(fixture, FirstPluginPath, "name", Some(JStr(cls))) {
      case Failure(e) => return Fail(e);
      case Success(d) => fixture := d;
    }
    match Assign(fixture, FirstPluginPath, "url", Some(JStr(DevUrl(packageName)))) {
      case Failure(e) => return Fail(e);
      case Success(d) => fixture := d;
    }
    p.fixture := fixture;
    return Pass;
  }

  method UpdateReadme(p: Project, name: string, repo: Option<Json>, eol: string) returns (outcome: Outcome<Fault>)
    modifies p`readme
    ensures var r := ReadmeUpdated(old(p.readme), name, repo, eol);
      (r.Failure? ==> outcome == Fail(r.error) && p.readme == old(p.readme)) &&
      (r.Success? ==> outcome.Pass? && p.readme == r.value.GetOr(old(p.readme)))
    ensures p.Snapshot() == old(p.Snapshot()).(readme := p.readme)
  {
    var url: Option<string>;
    match GetUrlFromRepo(repo) {
      case Failure(e) => return Fail(e);
      case Success(u) => url := u;
    }
    var lines := SplitLines(p.readme);
    if StartsWith(lines[0], Title(name)) {
      return Pass;
    }
    lines := lines[0 := Title(name)];
    if url.Some? {
      lines := [Badge(url.value) + eol] + lines;
    }
    p.readme := Join(lines, eol);
    return Pass;
  }

  /** main, performed on the project directory. */
  method RunSetup(p: Project, eol: string) returns (status: Status)
    modifies p
    ensures Report(status, p.Snapshot()) == Run(old(p.Snapshot()), eol)
  {
    PlainName("name");
    var raw: Json;
    match Get(p.packageJson, "name") {
      case Failure(e) => return Crashed(e);
      case Success(None) => return NoName;
      case Success(Some(v)) => raw := v;
    }
    if raw == JStr(TemplateName) {
      return NotInitialised;
    }
    if !raw.JStr? {
      return Crashed(TypeError);
    }
    status := PerformUpdates(p, raw.s, eol);
  }

  method PerformUpdates(p: Project, name: string, eol: string) returns (status: Status)
    modifies p
    ensures Report(status, p.Snapshot()) == RunUpdates(old(p.Snapshot()), name, eol)
  {
    ghost var files := p.Snapshot();
    var packageName := GetSafePackageName(name);
    var cls := PluginClassName(packageName);
    var outcome := UpdatePackageJson(p, cls);
    if outcome.Fail? {
      return Crashed(outcome.error);
    }
    UpdateSrcIndex(p, cls);
    status := PerformLaterUpdates(p, name, packageName, cls, eol);
  }

  /** The three steps main does not await: each runs, whatever the others do. */
  method PerformLaterUpdates(p: Project, name: string, packageName: string, cls: string, eol: string) returns (status: Status)
    modifies p
    ensures Report(status, p.Snapshot()) == LaterUpdates(old(p.Snapshot()), name, packageName, cls, eol)
  {
    ghost var f1 := p.Snapshot();
    var config := UpdateJBrowseConfig(p, packageName, cls);
    ghost var f2 := p.Snapshot();
    assert f2 == f1.(jbrowseConfig := Written(UpdatedPluginEntry(f1.jbrowseConfig, packageName, cls), f1.jbrowseConfig));
    var fixture := UpdateExampleFixture(p, packageName, cls);
    ghost var f3 := p.Snapshot();
    assert f3 == f2.(fixture := Written(UpdatedPluginEntry(f1.fixture, packageName, cls), f1.fixture));
    PlainName("repository");
    var readme := UpdateReadme(p, name, Child(p.packageJson, "repository"), eol);
    assert p.Snapshot() == f3.(readme := Written(ReadmeUpdated(f1.readme, name, Child(f1.packageJson, "repository"), eol), None).GetOr(f1.readme));
    if config.Fail? {
      status := Crashed(config.error);
    } else if fixture.Fail? {
      status := Crashed(fixture.error);
    } else if readme.Fail? {
      status := Crashed(readme.error);
    } else {
      status := Completed;
    }
  }

  // ---------------------------------------------------------------------
  // Properties of the steps
  // ---------------------------------------------------------------------

  /** "jbrowse-plugin-cool-tool" yields the class name "CoolTool". */
  lemma ClassNameExample(name: string)
    requires name == "jbrowse-plugin-cool-tool"
    ensures GetSafePackageName(name) == name
    ensures PluginClassName(GetSafePackageName(name)) == "CoolTool"
  {
    var rest := "cool-tool";
    assert name == Prefix + rest;
    assert forall i :: 0 <= i < |rest| ==> IsSafeChar(rest[i]) && !('A' <= rest[i] <= 'Z');
    PrefixedClassName(rest);
    PascalCaseExample(rest);
  }

  /** A safe name after the plugin prefix is kept, and only the part after the prefix is PascalCased. */
  lemma PrefixedClassName(rest: string)
    requires rest != [] && IsAsciiAlnum(rest[|rest| - 1])
    requires forall i :: 0 <= i < |rest| ==> IsSafeChar(rest[i]) && !('A' <= rest[i] <= 'Z')
    ensures GetSafePackageName(Prefix + rest) == Prefix + rest
    ensures PluginClassName(Prefix + rest) == ToPascalCase(rest)
  {
    var name := Prefix + rest;
    assert forall i :: 0 <= i < |name| ==> IsSafeChar(name[i]) && !('A' <= name[i] <= 'Z') by {
      forall i | 0 <= i < |name| ensures IsSafeChar(name[i]) && !('A' <= name[i] <= 'Z') {
        if i >= |Prefix| {
          assert name[i] == rest[i - |Prefix|];
        }
      }
    }
    SafeNameKeepsSafeName(name);
    assert name[..|Prefix|] == Prefix;
    assert name[|Prefix|..] == rest;
  }

  /** A falsy value read from the document has no children. */
  lemma FalsyHasNoChild(x: Option<Json>, k: string)
    requires !Truthy(x) && x.Some?
    ensures Child(x.value, k).None?
  {
  }

  lemma LookupStep(v: Json, k: string, rest: seq<string>)
    ensures Lookup(v, [k] + rest) == match Child(v, k) case None => None case Some(c) => Lookup(c, rest)
  {
    assert ([k] + rest)[0] == k;
    assert ([k] + rest)[1..] == rest;
  }

  /**
   * Once jbrowse-plugin.name is set, config.jbrowse.plugin is where it was;
   * with a falsy config it exists neither there nor after the `{}` is put in.
   */
  lemma ConfigAfterName(doc: Json, cls: string)
    requires Assign(doc, JBrowsePluginPath, "name", Some(JStr(cls))).Success?
    ensures var named := Assign(doc, JBrowsePluginPath, "name", Some(JStr(cls))).value;
      Lookup(named, ConfigPluginPath) == Lookup(doc, ConfigPluginPath) &&
      (!Truthy(Child(named, "config")) ==>
        !IsContainer(Lookup(named, ConfigPluginPath)) &&
        (Put(named, "config", Some(JObj([]))).Success? ==> !IsContainer(Lookup(Put(named, "config", Some(JObj([]))).value, ConfigPluginPath))))
  {
    PlainName("name");
    var named := Assign(doc, JBrowsePluginPath, "name", Some(JStr(cls))).value;
    assert (JBrowsePluginPath + ["name"])[0] != ConfigPluginPath[0];
    AssignFrame(doc, JBrowsePluginPath, "name", Some(JStr(cls)), ConfigPluginPath);
    if !Truthy(Child(named, "config")) {
      FalsyConfig(named);
    }
  }

  /** With a falsy `config`, config.jbrowse.plugin does not exist before or after the `{}` is put in. */
  lemma FalsyConfig(named: Json)
    requires !Truthy(Child(named, "config"))
    ensures !IsContainer(Lookup(named, ConfigPluginPath))
    ensures IsPlainName("config")
    ensures Put(named, "config", Some(JObj([]))).Success? ==>
      !IsContainer(Lookup(Put(named, "config", Some(JObj([]))).value, ConfigPluginPath))
  {
    PlainName("config");
    assert ConfigPluginPath == ["config"] + ["jbrowse", "plugin"];
    assert ["jbrowse", "plugin"] == ["jbrowse"] + ["plugin"];
    LookupStep(named, "config", ["jbrowse", "plugin"]);
    if Child(named, "config").Some? {
      FalsyHasNoChild(Child(named, "config"), "jbrowse");
      LookupStep(Child(named, "config").value, "jbrowse", ["plugin"]);
    }
    var put := Put(named, "config", Some(JObj([])));
    if put.Success? {
      LookupStep(put.value, "config", ["jbrowse", "plugin"]);
      if named.JObj? {
        AssignSets(named, [], "config", JObj([]));
        assert [] + ["config"] == ["config"];
        LookupStep(put.value, "config", []);
        LookupStep(JObj([]), "jbrowse", ["plugin"]);
      }
    }
  }

  /**
   * updatePackageJSON succeeds exactly when jbrowse-plugin and
   * config.jbrowse.plugin both exist as objects (or arrays); it then sets
   * the two names to the class name and every other path reads as before.
   */
  lemma PackageJsonUpdate(doc: Json, cls: string)
    ensures var r := UpdatedPackageJson(doc, cls);
      (r.Success? <==> IsContainer(Lookup(doc, JBrowsePluginPath)) && IsContainer(Lookup(doc, ConfigPluginPath))) &&
      (r.Success? && Lookup(doc, JBrowsePluginPath).value.JObj? ==> Lookup(r.value, JBrowsePluginPath + ["name"]) == Some(JStr(cls))) &&
      (r.Success? && Lookup(doc, ConfigPluginPath).value.JObj? ==> Lookup(r.value, ConfigPluginPath + ["name"]) == Some(JStr(cls))) &&
      (r.Success? ==> forall q :: Diverges(JBrowsePluginPath + ["name"], q) && Diverges(ConfigPluginPath + ["name"], q) ==> Lookup(r.value, q) == Lookup(doc, q))
  {
    PlainName("name");
    PlainName("config");
    var v := Some(JStr(cls));
    var first := Assign(doc, JBrowsePluginPath, "name", v);
    if first.Success? {
      var named := first.value;
      assert (JBrowsePluginPath + ["name"])[0] != ConfigPluginPath[0];
      AssignFrame(doc, JBrowsePluginPath, "name", v, ConfigPluginPath);
      assert (JBrowsePluginPath + ["name"])[0] != ["config"][0];
      AssignFrame(doc, JBrowsePluginPath, "name", v, ["config"]);
      LookupStep(named, "config", []);
      LookupStep(doc, "config", []);
      if !Truthy(Child(named, "config")) {
        FalsyConfig(named);
      } else {
        var second := Assign(named, ConfigPluginPath, "name", v);
        if second.Success? {
          forall q | Diverges(JBrowsePluginPath + ["name"], q) && Diverges(ConfigPluginPath + ["name"], q)
            ensures Lookup(second.value, q) == Lookup(doc, q)
          {
            AssignFrame(named, ConfigPluginPath, "name", v, q);
            AssignFrame(doc, JBrowsePluginPath, "name", v, q);
          }
          if Lookup(doc, JBrowsePluginPath).value.JObj? {
            AssignSets(doc, JBrowsePluginPath, "name", JStr(cls));
            assert (ConfigPluginPath + ["name"])[0] != (JBrowsePluginPath + ["name"])[0];
            AssignFrame(named, ConfigPluginPath, "name", v, JBrowsePluginPath + ["name"]);
          }
          if Lookup(doc, ConfigPluginPath).value.JObj? {
            AssignSets(named, ConfigPluginPath, "name", JStr(cls));
          }
        }
      }
    }
  }

  /** A manifest whose `config` is missing or falsy makes updatePackageJSON throw. */
  lemma MissingConfigCrashes(doc: Json, cls: string)
    requires !Truthy(Child(doc, "config"))
    ensures UpdatedPackageJson(doc, cls).Failure?
  {
    PlainName("config");
    assert ConfigPluginPath == ["config"] + ["jbrowse", "plugin"];
    LookupStep(doc, "config", ["jbrowse", "plugin"]);
    if Child(doc, "config").Some? {
      FalsyHasNoChild(Child(doc, "config"), "jbrowse");
      assert ["jbrowse", "plugin"] == ["jbrowse"] + ["plugin"];
      LookupStep(Child(doc, "config").value, "jbrowse", ["plugin"]);
    }
    PackageJsonUpdate(doc, cls);
  }

  /** updatePackageJSON leaves every top-level field other than jbrowse-plugin and config as it was. */
  lemma ManifestKeepsOtherFields(doc: Json, cls: string, k: string)
    requires UpdatedPackageJson(doc, cls).Success?
    requires k != "jbrowse-plugin" && k != "config"
    ensures Child(UpdatedPackageJson(doc, cls).value, k) == Child(doc, k)
  {
    PackageJsonUpdate(doc, cls);
    var pkg := UpdatedPackageJson(doc, cls).value;
    assert (JBrowsePluginPath + ["name"])[0] != [k][0];
    assert (ConfigPluginPath + ["name"])[0] != [k][0];
    assert Lookup(pkg, [k]) == Lookup(doc, [k]);
    LookupStep(pkg, k, []);
    LookupStep(doc, k, []);
  }

  /** A config that leads on to config.jbrowse.plugin is an object or array, so it is truthy. */
  lemma ConfigPathTruthy(doc: Json)
    requires IsContainer(Lookup(doc, ConfigPluginPath))
    ensures Truthy(Child(doc, "config"))
  {
    assert ConfigPluginPath == ["config"] + ["jbrowse", "plugin"];
    LookupStep(doc, "config", ["jbrowse", "plugin"]);
    var c := Child(doc, "config").value;
    assert ["jbrowse", "plugin"] == ["jbrowse"] + ["plugin"];
    LookupStep(c, "jbrowse", ["plugin"]);
  }

  /**
   * After updatePackageJSON, the manifest still fits, and a second
   * updatePackageJSON with the same class name writes it back unchanged.
   */
  lemma PackageJsonRerun(doc: Json, cls: string)
    requires ManifestFits(doc)
    ensures var pkg := UpdatedPackageJson(doc, cls).value;
      ManifestFits(pkg) && UpdatedPackageJson(pkg, cls) == Success(pkg)
  {
    PlainName("name");
    PlainName("config");
    PackageJsonUpdate(doc, cls);
    var v := Some(JStr(cls));
    var named := Assign(doc, JBrowsePluginPath, "name", v).value;
    AssignKeepsShape(doc, JBrowsePluginPath, "name", v);
    assert (JBrowsePluginPath + ["name"])[0] != ConfigPluginPath[0];
    AssignFrame(doc, JBrowsePluginPath, "name", v, ConfigPluginPath);
    ConfigPathTruthy(named);
    var pkg := Assign(named, ConfigPluginPath, "name", v).value;
    assert pkg == UpdatedPackageJson(doc, cls).value;
    AssignKeepsShape(named, ConfigPluginPath, "name", v);
    assert (ConfigPluginPath + ["name"])[0] != JBrowsePluginPath[0];
    AssignFrame(named, ConfigPluginPath, "name", v, JBrowsePluginPath);
    AssignSameValue(pkg, JBrowsePluginPath, "name", JStr(cls));
    ConfigPathTruthy(pkg);
    AssignSameValue(pkg, ConfigPluginPath, "name", JStr(cls));
  }

  /**
   * After the plugin entry update, plugins[0] still fits, and a second
   * update with the same names writes the document back unchanged.
   */
  lemma PluginEntryRerun(doc: Json, packageName: string, cls: string)
    requires EntryFits(doc)
    ensures var e := UpdatedPluginEntry(doc, packageName, cls).value;
      EntryFits(e) && UpdatedPluginEntry(e, packageName, cls) == Success(e)
  {
    PlainName("name");
    PlainName("url");
    PluginEntryUpdate(doc, packageName, cls);
    var v, u := Some(JStr(cls)), Some(JStr(DevUrl(packageName)));
    var named := Assign(doc, FirstPluginPath, "name", v).value;
    AssignKeepsShape(doc, FirstPluginPath, "name", v);
    AssignKeepsShape(named, FirstPluginPath, "url", u);
    var e := Assign(named, FirstPluginPath, "url", u).value;
    AssignSameValue(e, FirstPluginPath, "name", JStr(cls));
    AssignSameValue(e, FirstPluginPath, "url", JStr(DevUrl(packageName)));
  }

  /**
   * updateJBrowseConfig and updateExampleFixture succeed exactly when
   * plugins[0] exists as an object (or array); then its name is the class
   * name, its url the development bundle, and every other path (other
   * plugins, other fields) reads as before.
   */
  lemma PluginEntryUpdate(doc: Json, packageName: string, cls: string)
    ensures var r := UpdatedPluginEntry(doc, packageName, cls);
      (r.Success? <==> IsContainer(Lookup(doc, FirstPluginPath))) &&
      (r.Success? && Lookup(doc, FirstPluginPath).value.JObj? ==>
        Lookup(r.value, FirstPluginPath + ["name"]) == Some(JStr(cls)) &&
        Lookup(r.value, FirstPluginPath + ["url"]) == Some(JStr(DevUrl(packageName)))) &&
      (r.Success? ==> forall q :: Diverges(FirstPluginPath + ["name"], q) && Diverges(FirstPluginPath + ["url"], q) ==> Lookup(r.value, q) == Lookup(doc, q))
  {
    PlainName("name");
    PlainName("url");
    var name, url := Some(JStr(cls)), Some(JStr(DevUrl(packageName)));
    var first := Assign(doc, FirstPluginPath, "name", name);
    if first.Success? {
      var named := first.value;
      AssignKeepsShape(doc, FirstPluginPath, "name", name);
      var second := Assign(named, FirstPluginPath, "url", url);
      if second.Success? {
        forall q | Diverges(FirstPluginPath + ["name"], q) && Diverges(FirstPluginPath + ["url"], q)
          ensures Lookup(second.value, q) == Lookup(doc, q)
        {
          AssignFrame(named, FirstPluginPath, "url", url, q);
          AssignFrame(doc, FirstPluginPath, "name", name, q);
        }
        if Lookup(doc, FirstPluginPath).value.JObj? {
          AssignSets(doc, FirstPluginPath, "name", JStr(cls));
          assert (FirstPluginPath + ["url"])[2] != (FirstPluginPath + ["name"])[2];
          AssignFrame(named, FirstPluginPath, "url", url, FirstPluginPath + ["name"]);
          AssignSets(named, FirstPluginPath, "url", JStr(DevUrl(packageName)));
        }
      }
    }
  }

  /**
   * src/index.ts as pieces around its placeholders: when no piece holds
   * TemplatePlugin itself, every placeholder is one the scan replaces.
   */
  lemma {:induction false} PlaceholderReplaced(parts: seq<string>, cls: string)
    requires |parts| >= 1
    requires forall i :: 0 <= i < |parts| ==> !Contains(parts[i], Placeholder)
    ensures UpdatedSrcIndex(Join(parts, Placeholder), cls) == Join(parts, cls + "Plugin")
    decreases |parts|
  {
    var replacement := cls + "Plugin";
    if |parts| == 1 {
      ReplaceAllWithoutToken(parts[0], Placeholder, replacement);
    } else {
      var head, tail := parts[0], Join(parts[1..], Placeholder);
      forall i | 0 <= i < |head|
        ensures !StartsWith((head + Placeholder + tail)[i..], Placeholder)
      {
        NoMatchInHead(head, tail, i);
      }
      ReplaceAllAtOccurrence(head, Placeholder, replacement, tail);
      PlaceholderReplaced(parts[1..], cls);
    }
  }

  /** 'T' occurs in the placeholder only as its first character. */
  lemma PlaceholderHasOneT()
    ensures Placeholder[0] == 'T'
    ensures forall k :: 1 <= k < |Placeholder| ==> Placeholder[k] != 'T'
  {
  }

  /**
   * No occurrence starts inside a piece without the placeholder: it would
   * lie inside the piece, or its 'T' would meet the placeholder's own
   * later characters.
   */
  lemma NoMatchInHead(head: string, tail: string, i: nat)
    requires !Contains(head, Placeholder) && i < |head|
    ensures !StartsWith((head + Placeholder + tail)[i..], Placeholder)
  {
    var s := head + Placeholder + tail;
    var k := |head| - i;
    if k >= |Placeholder| {
      if StartsWith(s[i..], Placeholder) {
        assert head[i..][..|Placeholder|] == s[i..][..|Placeholder|];
        ContainsAt(head, Placeholder, i);
      }
    } else {
      PlaceholderHasOneT();
      assert s[|head|] == 'T';
      assert s[i..][k] != Placeholder[k];
    }
  }

  /** Text without the placeholder is left as it is. */
  lemma SrcIndexWithoutPlaceholder(text: string, cls: string)
    requires !Contains(text, Placeholder)
    ensures UpdatedSrcIndex(text, cls) == text
  {
    ReplaceAllWithoutToken(text, Placeholder, cls + "Plugin");
  }

  /**
   * A class name that ends in "Template" brings the placeholder back: the
   * rewritten file still contains TemplatePlugin.
   */
  lemma PlaceholderSurvives(cls: string)
    requires EndsWith(cls, "Template")
    ensures Contains(UpdatedSrcIndex(Placeholder, cls), Placeholder)
  {
    var replacement := cls + "Plugin";
    assert Placeholder == [] + Placeholder + [];
    ReplaceAllAtOccurrence([], Placeholder, replacement, []);
    assert ReplaceAll([], Placeholder, replacement) == [];
    assert [] + replacement + [] == replacement;
    assert UpdatedSrcIndex(Placeholder, cls) == replacement;
    var k := |cls| - 8;
    assert cls[k..] == "Template";
    assert replacement[k..][..|Placeholder|] == cls[k..] + "Plugin";
    assert "Template" + "Plugin" == Placeholder;
    ContainsAt(replacement, Placeholder, k);
  }

  /** The package "jbrowse-plugin-my-template" gives the class "MyTemplate", which ends in "Template". */
  lemma TemplateSuffixExample(name: string)
    requires name == "jbrowse-plugin-my-template"
    ensures PluginClassName(GetSafePackageName(name)) == "MyTemplate"
    ensures Contains(UpdatedSrcIndex(Placeholder, "MyTemplate"), Placeholder)
  {
    var rest := "my-template";
    assert name == Prefix + rest;
    assert forall i :: 0 <= i < |rest| ==> IsSafeChar(rest[i]) && !('A' <= rest[i] <= 'Z');
    PrefixedClassName(rest);
    PascalCaseTemplateExample(rest);
    var cls := "MyTemplate";
    EndsInTemplate(cls);
    PlaceholderSurvives(cls);
  }

  lemma EndsInTemplate(cls: string)
    requires cls == "MyTemplate"
    ensures EndsWith(cls, "Template")
  {
    assert cls == "My" + "Template";
    assert cls[2..] == "Template";
  }

  // ---------------------------------------------------------------------
  // main as a whole
  // ---------------------------------------------------------------------

  /** A manifest `yarn init` has named: a string name other than the template's. */
  predicate Initialised(doc: Json) {
    Child(doc, "name").Some? && Child(doc, "name").value.JStr? && Child(doc, "name").value.s != TemplateName
  }

  /** Past the gate, main is the five updates for the manifest's name. */
  lemma RunAfterGate(files: Files, eol: string)
    requires Initialised(files.packageJson)
    ensures Run(files, eol) == RunUpdates(files, Child(files.packageJson, "name").value.s, eol)
  {
    PlainName("name");
  }

  /**
   * main completes exactly when the manifest has a string name other than
   * the template's and fits updatePackageJSON, both plugin entries fit, and
   * the repository is not null.
   */
  lemma RunCompletes(files: Files, eol: string)
    ensures Run(files, eol).status.Completed? <==>
      Initialised(files.packageJson) && ManifestFits(files.packageJson) &&
      EntryFits(files.jbrowseConfig) && EntryFits(files.fixture) &&
      Child(files.packageJson, "repository") != Some(JNull)
  {
    if Initialised(files.packageJson) {
      RunAfterGate(files, eol);
      if ManifestFits(files.packageJson) {
        RunUpdatesLater(files, Child(files.packageJson, "name").value.s, eol);
      }
    }
  }

  /**
   * A second main after one that completed: the name is still there, so
   * the gate lets it through; it completes again and writes package.json,
   * jbrowse_config.json and the fixture back unchanged.
   */
  lemma RunRerun(files: Files, eol: string)
    requires Run(files, eol).status.Completed?
    ensures var first := Run(files, eol).files;
      var second := Run(first, eol);
      second.status.Completed? && second.files.packageJson == first.packageJson &&
      second.files.jbrowseConfig == first.jbrowseConfig && second.files.fixture == first.fixture
  {
    RunCompletes(files, eol);
    RunAfterGate(files, eol);
    var name := Child(files.packageJson, "name").value.s;
    var packageName := GetSafePackageName(name);
    var cls := PluginClassName(packageName);
    var first := Run(files, eol).files;
    PackageJsonRerun(files.packageJson, cls);
    PluginEntryRerun(files.jbrowseConfig, packageName, cls);
    PluginEntryRerun(files.fixture, packageName, cls);
    ManifestKeepsOtherFields(files.packageJson, cls, "name");
    ManifestKeepsOtherFields(files.packageJson, cls, "repository");
    RunCompletes(first, eol);
    RunAfterGate(first, eol);
  }

  // ---------------------------------------------------------------------
  // The README rewrite
  // ---------------------------------------------------------------------

  predicate NoCrEnd(line: string) {
    line == [] || line[|line| - 1] != '\r'
  }

  /** Lines that a join with `eol` and a split on /\r?\n/ give back unchanged. */
  predicate Rejoinable(lines: seq<string>, eol: string) {
    IsEol(eol) &&
    (forall i :: 0 <= i < |lines| ==> '\n' !in lines[i]) &&
    (eol == "\n" ==> forall i :: 0 <= i < |lines| ==> NoCrEnd(lines[i]))
  }

  lemma TitledLines(readme: string, name: string, eol: string)
    requires Rejoinable([Title(name)] + SplitLines(readme)[1..], eol)
    ensures SplitLines(readme)[0 := Title(name)] == [Title(name)] + SplitLines(readme)[1..]
    ensures SplitLines(Join([Title(name)] + SplitLines(readme)[1..], eol)) == [Title(name)] + SplitLines(readme)[1..]
  {
    SplitJoinLines([Title(name)] + SplitLines(readme)[1..], eol);
  }

  /**
   * Without a badge, the rewritten README splits into the title followed
   * by the old lines after line 0.
   */
  lemma ReadmeWithoutBadge(readme: string, name: string, repo: Option<Json>, eol: string)
    requires GetUrlFromRepo(repo) == Success(None)
    requires !StartsWith(SplitLines(readme)[0], Title(name))
    requires Rejoinable([Title(name)] + SplitLines(readme)[1..], eol)
    ensures var r := ReadmeUpdated(readme, name, repo, eol);
      r.Success? && r.value.Some? && SplitLines(r.value.value) == [Title(name)] + SplitLines(readme)[1..]
  {
    TitledLines(readme, name, eol);
  }

  /** A line that carries its own line ending, joined before `lines`, splits off with an empty line after it. */
  lemma SplitBadgeLines(badge: string, lines: seq<string>, eol: string)
    requires |lines| >= 1 && Rejoinable(lines, eol)
    requires '\n' !in badge && NoCrEnd(badge)
    ensures SplitLines(Join([badge + eol] + lines, eol)) == [badge, ""] + lines
  {
    var rest := Join(lines, eol);
    JoinFirst(badge + eol, lines, eol);
    SplitJoinLines(lines, eol);
    EndedLineSplits(badge, eol, rest);
  }

  /** A line followed by two line endings splits into the line and an empty line. */
  lemma EndedLineSplits(badge: string, eol: string, rest: string)
    requires IsEol(eol) && '\n' !in badge && NoCrEnd(badge)
    ensures SplitLines(badge + eol + (eol + rest)) == [badge, ""] + SplitLines(rest)
  {
    SplitAfterLine(badge, eol, eol + rest);
    SplitAfterEmptyLine(eol, rest);
  }

  /**
   * With a badge, the rewritten README splits into the badge, an empty
   * line (the badge carries its own line ending), the title, and the old
   * lines after line 0.
   */
  lemma ReadmeWithBadge(readme: string, name: string, repo: Option<Json>, url: string, eol: string)
    requires GetUrlFromRepo(repo) == Success(Some(url))
    requires '\n' !in url
    requires !StartsWith(SplitLines(readme)[0], Title(name))
    requires Rejoinable([Title(name)] + SplitLines(readme)[1..], eol)
    ensures var r := ReadmeUpdated(readme, name, repo, eol);
      r.Success? && r.value.Some? && SplitLines(r.value.value) == [Badge(url), "", Title(name)] + SplitLines(readme)[1..]
  {
    BadgeReadmeText(readme, name, repo, url, eol);
    BadgeReadmeSplits(SplitLines(readme), name, url, eol);
  }

  lemma BadgeReadmeText(readme: string, name: string, repo: Option<Json>, url: string, eol: string)
    requires GetUrlFromRepo(repo) == Success(Some(url))
    requires !StartsWith(SplitLines(readme)[0], Title(name))
    requires Rejoinable([Title(name)] + SplitLines(readme)[1..], eol)
    ensures ReadmeUpdated(readme, name, repo, eol) ==
      Success(Some(Join([Badge(url) + eol] + ([Title(name)] + SplitLines(readme)[1..]), eol)))
  {
    RewriteOfLines(readme, name, repo, url, eol, SplitLines(readme));
    TitledLines(readme, name, eol);
  }

  lemma BadgeReadmeSplits(lines: seq<string>, name: string, url: string, eol: string)
    requires |lines| >= 1
    requires '\n' !in url
    requires Rejoinable([Title(name)] + lines[1..], eol)
    ensures SplitLines(Join([Badge(url) + eol] + ([Title(name)] + lines[1..]), eol)) == [Badge(url), "", Title(name)] + lines[1..]
  {
    BadgeIsOneLine(url);
    SplitBadgeLines(Badge(url), [Title(name)] + lines[1..], eol);
    assert [Badge(url), ""] + ([Title(name)] + lines[1..]) == [Badge(url), "", Title(name)] + lines[1..];
  }

  /** Without a badge a second run finds the title on line 0 and writes nothing. */
  lemma ReadmeRerunWithoutBadge(readme: string, name: string, repo: Option<Json>, eol: string)
    requires GetUrlFromRepo(repo) == Success(None)
    requires Rejoinable([Title(name)], eol)
    ensures var first := ReadmeUpdated(readme, name, repo, eol).value.GetOr(readme);
      ReadmeUpdated(first, name, repo, eol) == Success(None)
  {
    var lines := SplitLines(readme);
    if !StartsWith(lines[0], Title(name)) {
      var first := ReadmeUpdated(readme, name, repo, eol).value.value;
      var rest := lines[1..];
      assert first == Join([Title(name)] + rest, eol);
      if rest == [] {
        SplitSingleLine(Title(name));
      } else {
        SplitAfterLine(Title(name), eol, Join(rest, eol));
      }
      assert StartsWith(SplitLines(first)[0], Title(name));
    }
  }

  /**
   * With a badge a second run is not a no-op: line 0 is now the badge, so
   * the guard misses, the badge line is replaced by a second title and a
   * second badge is put on top.
   */
  lemma ReadmeRerunWithBadge(readme: string, name: string, repo: Option<Json>, url: string, eol: string)
    requires GetUrlFromRepo(repo) == Success(Some(url))
    requires '\n' !in url
    requires !StartsWith(SplitLines(readme)[0], Title(name))
    requires Rejoinable([Title(name)] + SplitLines(readme)[1..], eol)
    ensures var first := ReadmeUpdated(readme, name, repo, eol).value.value;
      ReadmeUpdated(first, name, repo, eol) ==
        Success(Some(Join([Badge(url) + eol, Title(name), "", Title(name)] + SplitLines(readme)[1..], eol)))
  {
    ReadmeWithBadge(readme, name, repo, url, eol);
    var first := ReadmeUpdated(readme, name, repo, eol).value.value;
    var lines := [Badge(url), "", Title(name)] + SplitLines(readme)[1..];
    BadgeIsNotTitle(url, name);
    RewriteOfLines(first, name, repo, url, eol, lines);
    RetitledLines(Badge(url) + eol, Badge(url), "", Title(name), SplitLines(readme)[1..]);
  }

  /** Line 0 replaced by the title, and a line put on top. */
  lemma RetitledLines<T>(b: T, x: T, e: T, t: T, rest: seq<T>)
    ensures [b] + ([x, e, t] + rest)[0 := t] == [b, t, e, t] + rest
  {
    assert ([x, e, t] + rest)[0 := t] == [t, e, t] + rest;
  }

  lemma BadgeIsNotTitle(url: string, name: string)
    ensures !StartsWith(Badge(url), Title(name))
  {
    assert Badge(url)[0] == BadgeHead[0] == '!';
    assert Title(name)[0] == '#';
  }

  /** A README whose line 0 lacks the title is rewritten from its lines. */
  lemma RewriteOfLines(text: string, name: string, repo: Option<Json>, url: string, eol: string, lines: seq<string>)
    requires GetUrlFromRepo(repo) == Success(Some(url))
    requires SplitLines(text) == lines
    requires !StartsWith(lines[0], Title(name))
    ensures ReadmeUpdated(text, name, repo, eol) == Success(Some(Join([Badge(url) + eol] + lines[0 := Title(name)], eol)))
  {
  }
}
