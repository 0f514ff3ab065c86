# jbrowse-plugin-template setup scripts, modelled in Dafny

This project models the one-shot setup transform of the JBrowse plugin
template. `yarn setup` runs that transform once, after `yarn init`, to rename
the template plugin after the new package. The model covers three scripts.

- **`scripts/util.ts`**: the three pure name helpers.
  - `toPascalCase` is a chain of five regular-expression replacements.
  - `getSafePackageName` lower-cases the name and applies one global replacement with four alternatives.
  - `getUrlFromRepo` classifies the manifest's `repository` field.

  Each regular expression is modelled as a left-to-right scanner over `string`, with JavaScript's `\w`, `\s` and `.` classes. The duplicate helpers in `scripts/setup.ts:159-198` are the same code, so they are modelled once.
- **`scripts/setup.ts`**:
  - the `main` gate on the manifest name;
  - the derivation of the class name;
  - the five update steps (`package.json`, `src/index.ts`, `jbrowse_config.json`, the Cypress fixture, `README.md`);
  - the text that `writeJSON` produces.
- **`scripts/setup.js`**: the older CommonJS script.
  - its `MyProject` guard;
  - the sloppy-mode field edits of `package.json` and `jbrowse_config.json`;
  - the README line-0 rewrite;
  - the loop that writes every line followed by CRLF.

Modules:

- `Wrappers`: `Option`, `Result` and `Outcome`.
- `Text`: character classes, ASCII case mapping, `includes`, a literal global replace, and `split(/\r?\n/)` / `join`.
- `Json`:
  - documents as `JSON.parse` returns them;
  - strict-mode property reads and assignments on them;
  - `JSON.stringify(v, null, 2)`.
- `Util`: `scripts/util.ts`.
- `Workspace`: the project's files, as a value (`Files`) and as a `Project` object whose fields the scripts overwrite.
- `Setup`: `scripts/setup.ts`.
  - Each step is a function over file contents.
  - Each step is also a method that overwrites one field of a `Project`.
  - `RunSetup` is proved equal to the function `Run`.
- `LegacySetup`: `scripts/setup.js`.
  - It is built on sloppy-mode assignment.
  - A write to a string, number or boolean is silently ignored.
  - A write to undefined or null throws.
  - `RunLegacySetup` is proved equal to the function `LegacyRun`.

Where the written behaviour and the evident intent of the scripts part ways, the model follows the code. The lemmas state the code's actual behaviour:

- When `config` is falsy, `updatePackageJSON` stores `{}` and then reads `config.jbrowse.plugin`, which throws (`Setup.MissingConfigCrashes`). The config block is therefore never "created if absent".
- Once a badge has been added, a second run of `updateReadme` is not a no-op (`Setup.ReadmeRerunWithBadge`):
  - line 0 is now the badge, so the title guard misses;
  - the badge is replaced by a second title;
  - another badge is put on top.

  Without a badge, the second run writes nothing (`Setup.ReadmeRerunWithoutBadge`).
- A class name that ends in `Template` leaves `TemplatePlugin` in `src/index.ts` (`Setup.PlaceholderSurvives`). For example, `jbrowse-plugin-my-template` gives `MyTemplate` (`Setup.TemplateSuffixExample`).
- Any URL that contains `github.com` anywhere counts as a GitHub URL, not only https ones (`Util.GitHubUrlKept`). The `github.com` test comes before the `github:` test (`Util.HostTestFirstExample`).
- `setup.js` drops the last four characters of `repository` whether or not they are `.git` (`LegacySetup.RepositoryWithGitSuffix`). Only a string or an array `repository` has a `slice` (`LegacySetup.RepositorySlice`). An object, number, boolean, null or missing `repository` throws a TypeError after `package.json` and `jbrowse_config.json` have already been written.

## Model

| member | source | states |
|---|---|---|
| Text.LowerString | scripts/util.ts:60 | toLowerCase maps every character through the ASCII lower-case mapping and keeps the length |
| Text.ReplaceAllWithoutToken | scripts/setup.ts:72 | a global replace leaves text without the token unchanged |
| Text.ReplaceAllAtOccurrence | scripts/setup.ts:72 | the first occurrence the scan meets is replaced, and the text before it is kept |
| Text.SplitLines | scripts/setup.ts:107-109 | split(/\r?\n/) gives at least one line and no line holds "\n" |
| Text.SplitJoinLines | scripts/setup.ts:107-119 | splitting text joined with os.EOL gives the lines back, unless a bare "\n" ending would merge with a trailing "\r" |
| Json.Put | scripts/setup.ts:60 | a strict-mode property assignment succeeds exactly on objects and arrays |
| Json.Assign | scripts/setup.ts:58 | a chained assignment succeeds exactly when the path reaches an object or an array |
| Json.AssignFrame | scripts/setup.ts:58-62 | after an assignment, every path that diverges from the assigned one reads as before |
| Json.AssignSets | scripts/setup.ts:58 | after assigning into an object, the path reads the assigned value |
| Json.AssignUndefinedDrops | scripts/setup.js:21 | assigning undefined removes the member from what is written |
| Json.AssignSameValue | scripts/setup.ts:58-62 | re-assigning the value already there, or assigning a plain name on an array, leaves the document unchanged |
| Json.AssignKeepsShape | scripts/setup.ts:58-62 | the object or array assigned into is still there, with the same kind |
| Json.Stringify | scripts/setup.ts:131 | the serialisation is non-empty and does not end in a newline |
| Json.StringifyIndented | scripts/setup.ts:131 | inside the text of a value that starts at some indentation, every line break is followed by at least that indentation (a lower bound; the exact indentation of each line is not stated) |
| Json.StringifyOneLine | scripts/setup.ts:131 | the text is a single line exactly for null, booleans, numbers, strings and empty arrays and objects |
| Util.CollapseSeparators | scripts/util.ts:48 | no '-' or '_' is left, and the text does not grow |
| Util.DropPunctuation | scripts/util.ts:49 | only word characters and whitespace from the input are left |
| Util.CapitalizeStep | scripts/util.ts:50-53 | each match of \s+(.)(\w+) consumes input and emits no more than it consumes |
| Util.DropSpaces | scripts/util.ts:54 | no whitespace is left, and every character comes from the input |
| Util.UpperFirstWordChar | scripts/util.ts:55 | the length is kept, and letters and digits stay letters and digits |
| Util.ToPascalCase | scripts/util.ts:46-56 | the class name holds only ASCII letters and digits, and is no longer than the input |
| Util.CapitalizeWordsKeepsAlnum | scripts/util.ts:50-53 | the capitalisation pass maps letters, digits and spaces to letters, digits and spaces |
| Util.AlnumPascalCase | scripts/util.ts:46-56 | on letters and digits, only the upper-casing of the first character has an effect |
| Util.PascalCaseIdempotent | scripts/util.ts:46-56 | toPascalCase applied twice is toPascalCase applied once |
| Util.PascalCaseKeepsPascalCase | scripts/util.ts:46-56 | a name of letters and digits that does not start lower-case is unchanged |
| Util.PascalCaseOfWords | scripts/util.ts:48-55 | for words joined by separator runs, a run of its own at each joint: the first word gets only its first character upper-cased; each later word of two or more characters becomes upper-first, lower-rest; a one-character later word is kept as it is |
| Util.PascalCaseExample | scripts/util.ts:50-55 | "cool-tool" becomes "CoolTool" |
| Util.PascalCaseTemplateExample | scripts/util.ts:50-55 | "my-template" becomes "MyTemplate" |
| Util.PascalCaseSingleCharacterWord | scripts/util.ts:50-53 | "x-y" becomes "Xy": a one-character word is not capitalised |
| Util.Scrub | scripts/util.ts:61 | see the list below the table |
| Util.ScrubKeepsSafeChars | scripts/util.ts:61 | what the unanchored alternatives leave is exactly the [\w.-] characters of the text, in order, up to its last letter or digit |
| Util.GetSafePackageName | scripts/util.ts:58-62 | see the list below the table |
| Util.SafeNameKeepsSafeChars | scripts/util.ts:58-62 | the result is exactly the [\w.-] characters of the lower-cased name after the stripped prefix (the scope up to its last '/', or else the leading non-letters), in order, up to the last letter or digit |
| Util.ScopedNameDropsScope | scripts/util.ts:61 | "@scope/rest" with no further '/' gives the scrubbed lower-cased rest: ^@.*\/ strips up to the last '/' |
| Util.ScopedNameExample | scripts/util.ts:61 | "@scope/Name" becomes "name" |
| Util.SafeNameKeepsSafeName | scripts/util.ts:58-62 | a name already of the result's shape is unchanged |
| Util.SafeNameIdempotentUnscoped | scripts/util.ts:58-62 | on unscoped names, getSafePackageName applied twice is applied once |
| Util.GetUrlFromRepo | scripts/util.ts:64-86 | a null repository throws; the result is a URL exactly when the string, or the object's url, mentions github.com or starts with github: |
| Util.GitHubUrlKept | scripts/util.ts:77-80 | a url mentioning github.com is returned with at most one trailing ".git" removed |
| Util.ShorthandExpanded | scripts/util.ts:81-83 | "github:" urls become https://github.com/ followed by the text between the first and second colon |
| Util.OtherUrlsGiveNone | scripts/util.ts:67-85 | an undefined repository, a missing or non-string url, or any other url gives undefined |
| Util.GitHubUrlExample | scripts/util.ts:78-79 | "https://github.com/org/repo.git" gives "https://github.com/org/repo" |
| Util.ShorthandExample | scripts/util.ts:81-82 | {url: "github:me/tool"} gives "https://github.com/me/tool" |
| Util.OtherHostExample | scripts/util.ts:85 | "svn://example.com/repo" gives undefined |
| Util.HostTestFirstExample | scripts/util.ts:78-83 | "github:github.com/x" is kept as it is, because the github.com test comes first |
| Util.JsonFileText | scripts/setup.ts:128-137 | the written JSON text is the two-space serialisation followed by exactly one newline, which is its only line break exactly when the document is a scalar or an empty array or object |
| Setup.Run | scripts/setup.ts:17-51 | see the list below the table |
| Setup.RunUpdates | scripts/setup.ts:38-50 | see the list below the table |
| Setup.RunUpdatesLater | scripts/setup.ts:48-50 | see the list below the table |
| Setup.RunSetup | scripts/setup.ts:17-51 | the run on a Project leaves exactly the status and files that Run gives |
| Setup.PerformUpdates | scripts/setup.ts:46-50 | the update steps on a Project give exactly what RunUpdates gives |
| Setup.LaterUpdates | scripts/setup.ts:48-50 | the run ends completed or crashed, and package.json and src/index.ts stay as the earlier steps wrote them |
| Setup.LaterUpdatesFiles | scripts/setup.ts:48-50 | each of the config, fixture and README steps writes its file when it succeeds, whatever the others do; the run completes exactly when both plugin entries are objects or arrays and the repository is not null |
| Setup.PerformLaterUpdates | scripts/setup.ts:48-50 | the config, fixture and README steps on a Project, each run whatever the others do, give exactly what LaterUpdates gives |
| Setup.RunCompletes | scripts/setup.ts:17-50 | main completes exactly when the name is a string other than the template's, jbrowse-plugin and config.jbrowse.plugin are objects or arrays, plugins[0] is one in both plugin files, and the repository is not null |
| Setup.RunRerun | scripts/setup.ts:17-50 | after a completed run, a second run completes too and writes package.json, jbrowse_config.json and the fixture back unchanged |
| Setup.ClassNameExample | scripts/setup.ts:38-44 | "jbrowse-plugin-cool-tool" is already safe, and its class name is "CoolTool" |
| Setup.PrefixedClassName | scripts/setup.ts:38-44 | a safe lower-case name that starts with jbrowse-plugin- is kept by getSafePackageName, and its class name is the PascalCase of the part after the prefix |
| Setup.UpdatedPackageJson | scripts/setup.ts:57-62 | the manifest update succeeds exactly when jbrowse-plugin and config.jbrowse.plugin are objects or arrays |
| Setup.ManifestKeepsOtherFields | scripts/setup.ts:57-62 | every top-level field other than jbrowse-plugin and config reads as before the update |
| Setup.PackageJsonRerun | scripts/setup.ts:57-62 | the updated manifest still fits, and updating it again with the same class name gives it back unchanged |
| Setup.UpdatePackageJson | scripts/setup.ts:53-66 | package.json becomes the updated manifest, or stays as it was when an assignment throws |
| Setup.PackageJsonUpdate | scripts/setup.ts:58-62 | see the list below the table |
| Setup.FalsyConfig | scripts/setup.ts:59-61 | with a falsy config, config.jbrowse.plugin exists neither before nor after `config = {}` |
| Setup.MissingConfigCrashes | scripts/setup.ts:59-62 | a falsy config always ends in a TypeError |
| Setup.UpdateSrcIndex | scripts/setup.ts:69-74 | src/index.ts becomes the text with the placeholder replaced |
| Setup.PlaceholderReplaced | scripts/setup.ts:72 | every TemplatePlugin between pieces that do not themselves contain TemplatePlugin becomes <Class>Plugin, and the pieces are kept |
| Setup.SrcIndexWithoutPlaceholder | scripts/setup.ts:72 | text without TemplatePlugin is unchanged |
| Setup.PlaceholderSurvives | scripts/setup.ts:72 | a class name ending in Template leaves TemplatePlugin in the output |
| Setup.TemplateSuffixExample | scripts/setup.ts:38-72 | "jbrowse-plugin-my-template" gives MyTemplate, and TemplatePlugin survives |
| Setup.UpdatedPluginEntry | scripts/setup.ts:81-82 | the plugin entry update succeeds exactly when plugins[0] is an object or an array |
| Setup.PluginEntryRerun | scripts/setup.ts:81-82 | the updated document still fits, and updating it again with the same names gives it back unchanged |
| Setup.UpdateJBrowseConfig | scripts/setup.ts:77-84 | jbrowse_config.json becomes the updated document, or stays as it was on a TypeError |
| Setup.UpdateExampleFixture | scripts/setup.ts:87-99 | the fixture becomes the updated document, or stays as it was on a TypeError |
| Setup.PluginEntryUpdate | scripts/setup.ts:81-82 | see the list below the table |
| Setup.ReadmeUpdated | scripts/setup.ts:101-120 | a null repository throws; nothing is written exactly when line 0 already starts with "# " + name |
| Setup.UpdateReadme | scripts/setup.ts:101-120 | README.md becomes the rewritten text; it is kept when nothing is written or the read of repository throws |
| Setup.ReadmeWithoutBadge | scripts/setup.ts:113-119 | without a badge, the README reads back as the title followed by the old lines after line 0 |
| Setup.ReadmeWithBadge | scripts/setup.ts:113-119 | with a badge, the README reads back as badge, empty line, title, then the old lines after line 0 |
| Setup.SplitBadgeLines | scripts/setup.ts:115-119 | a line that carries its own os.EOL reads back followed by an empty line |
| Setup.BadgeIsOneLine | scripts/setup.ts:116 | the badge of a one-line url is one line and does not end in '\r' |
| Setup.ReadmeRerunWithoutBadge | scripts/setup.ts:110-119 | without a badge, a second run writes nothing |
| Setup.ReadmeRerunWithBadge | scripts/setup.ts:110-118 | with a badge, a second run replaces the badge by another title and puts a second badge on top |
| LegacySetup.PropertyOf | scripts/setup.js:13 | a sloppy read agrees with the document where it has a child; only objects have plain-named properties |
| LegacySetup.Reach | scripts/setup.js:42 | a chained read agrees with the document along existing paths, and reaches objects and arrays only through them |
| LegacySetup.SloppyAssign | scripts/setup.js:21-42 | a sloppy chained assignment throws exactly when its target is undefined or null; an object stays an object |
| LegacySetup.SloppyPrimitiveNoOp | scripts/setup.js:42 | assigning a property of a string, number or boolean leaves the document unchanged |
| LegacySetup.SloppyIsStrict | scripts/setup.js:21 | along objects and arrays, sloppy and strict assignment agree |
| LegacySetup.SloppyFrame | scripts/setup.js:42 | a sloppy assignment changes nothing off its own path |
| LegacySetup.SloppySets | scripts/setup.js:21 | assigning into an object makes the property read back the value, and undefined drops it |
| LegacySetup.ScriptsNameThePlugin | scripts/setup.js:24-26 | the start and build scripts both contain "--name JBrowsePlugin" + projectName |
| LegacySetup.DropLastFour | scripts/setup.js:52-55 | slice(0, -4) is the prefix four shorter, or empty when there are fewer than four |
| LegacySetup.RepositorySlice | scripts/setup.js:52-55 | only a string or an array repository can be sliced; for a string the result is a prefix |
| LegacySetup.RepositoryWithGitSuffix | scripts/setup.js:52-55 | a url ending in ".git" loses exactly that suffix; any other url loses its last four characters |
| LegacySetup.SplitTerminated | scripts/setup.js:51-57 | the written README reads back as its lines followed by one empty line |
| LegacySetup.WriteLines | scripts/setup.js:56-57 | the stream receives every line followed by "\r\n", the last one included |
| LegacySetup.LegacyRun | scripts/setup.js:9-57 | see the list below the table |
| LegacySetup.LegacyUpdates | scripts/setup.js:20-57 | after the guard, a run finishes or stops at a TypeError, and touches neither src/index.ts nor the fixture |
| LegacySetup.RunLegacySetup | scripts/setup.js:9-57 | the script on a Project leaves exactly the status and files that LegacyRun gives |
| LegacySetup.PerformLegacyUpdates | scripts/setup.js:20-57 | the steps after the guard, on a Project, give exactly what LegacyUpdates gives |
| LegacySetup.LegacyPackageFields | scripts/setup.js:21-29 | after a finished run, jbrowse-plugin.name is the project name and module is "dist/<projectName>.esm.js" |
| LegacySetup.LegacyScriptsFields | scripts/setup.js:24-26 | when scripts is an object, start and build become the two tsdx commands with the project name |
| LegacySetup.LegacyConfigField | scripts/setup.js:41-43 | only plugins[0].name of jbrowse_config.json changes, and it becomes the project name |
| LegacySetup.LegacyReadme | scripts/setup.js:51-57 | the README reads back as the old lines, with line 0 replaced by name + " " + badge, then one empty line |
| LegacySetup.PackageKeepsRepository | scripts/setup.js:20-29 | the package.json edits leave repository as it was |
| LegacySetup.LegacyRerun | scripts/setup.js:12-21 | a second run stops at the guard, unless the project is itself called MyProject |
| LegacySetup.LegacyConfigCrash | scripts/setup.js:31-43 | a TypeError on the config keeps the package.json already written and leaves the config and README |

The rows that point here state more than one fact:

- **Util.Scrub**: the alternatives of the one global replacement leave:
  - only [\w.-] characters, and no new upper-case letters;
  - a subsequence of the input;
  - a result that is empty exactly when the input has no letter or digit;
  - otherwise a result that ends in a letter or digit;
  - which characters are kept is stated exactly by `Util.ScrubKeepsSafeChars`.
- **Util.GetSafePackageName**:
  - the result uses only [a-z0-9_.-] and is a subsequence of the lower-cased name;
  - a non-empty result ends in [a-z0-9];
  - for an unscoped name, it starts with [a-z];
  - which characters are kept is stated exactly by `Util.SafeNameKeepsSafeChars`.
- **Setup.Run**:
  - an undefined name exits with status 1, and so does "jbrowse-plugin-template";
  - both exits leave every file as it was;
  - a completed run had a string name other than the template's.
- **Setup.RunUpdates**: after the gate,
  - a manifest whose jbrowse-plugin or config.jbrowse.plugin is not an object or array makes the synchronous updatePackageJSON throw, and no file is written;
  - otherwise package.json and src/index.ts are rewritten.
- **Setup.RunUpdatesLater**: for a manifest that fits,
  - each of jbrowse_config.json and the fixture is rewritten when its plugins[0] is an object or array, and kept otherwise, whatever the other files hold;
  - README.md is rewritten unless the repository is null or line 0 already has the title;
  - the run completes exactly when both plugin entries fit and the repository is not null.
- **Setup.PackageJsonUpdate**:
  - the update succeeds exactly when jbrowse-plugin and config.jbrowse.plugin are objects or arrays;
  - both names are then set to the class name;
  - every other path reads as before.
- **Setup.PluginEntryUpdate**:
  - the update succeeds exactly when plugins[0] is an object or array;
  - plugins[0].name becomes the class name, and plugins[0].url becomes http://localhost:9000/dist/<safe name>.umd.development.js;
  - every other path reads as before.
- **LegacySetup.LegacyRun**:
  - a missing or null jbrowse-plugin throws before anything is written;
  - a jbrowse-plugin.name other than MyProject exits with status 1 and leaves every file as it was.

## Left out

- Unicode: case mapping and the regular-expression classes are exact on ASCII only. The `toLowerCase`/`toUpperCase` of other characters is the identity in the model. Characters are Unicode scalar values, not UTF-16 code units, which matters for `length`, indexing and `slice` beyond the Basic Multilingual Plane.
- `JSON.parse` and `readJSON`: documents are held as parsed values. A parse error or a read error, which ends the script, is not modelled.
- Numbers are integers: the model has no floating point and no exponent formatting in `JSON.stringify` or in template literals.
- `JSON.parse` puts integer-like keys first in an object. The model keeps every object's members in file order.
- Reading a property that an object inherits from `Object.prototype` is not modelled. None of the property names the scripts read is inherited.
- File I/O, `process.exit`, `console` and `chalk`: files are the fields of `Project`, and the exits are statuses.
  - The `writeJSON` of `setup.js` catches write errors. The model assumes every write succeeds.
  - In `setup.js`, `readFile` returns `false` when README.md cannot be read, and `.split` then throws. The model reads README.md as a string.
- The async steps that `main` of `scripts/setup.ts` does not await are modelled as each running to its end. A TypeError in one of them rejects only its own promise, so the others still write their files. Since Node.js 15 an unhandled rejection ends the process. Which of the other writes happen then depends on the order in which the file reads finish. The model does not capture that timing, nor how the steps interleave.
- `os.EOL` is a parameter (`"\n"` or `"\r\n"`).
- Assignments of `length` or of array indexes are not modelled: the scripts only assign plain names.
- A plain-named property assigned on an array exists in memory but `JSON.stringify` does not write it. The model therefore leaves the array unchanged.
- The relocation of the CI workflow file is not in the scripts and is not modelled.
- `readJSON`/`writeJSON` of `scripts/util.ts` appear only as the text `Util.JsonFileText` gives, because they are I/O wrappers.
- The JSON files are held in `Files` as documents, not as the text written. Neither script's written text is connected to `Files`. `Util.JsonFileText` gives what `scripts/setup.ts` writes. The `writeJSON` of `scripts/setup.js` writes `JSON.stringify(data, null, 2)` with no trailing newline, which is `Json.Stringify(doc, "")`.
- `Util.CapitalizeStep`: its own contract bounds only lengths. What the capitalisation does to words is stated by `Util.PascalCaseOfWords` and the lemmas beside it.
