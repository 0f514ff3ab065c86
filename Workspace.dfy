/**
 * The files of a freshly cloned plugin project that the setup scripts
 * read and rewrite. JSON files are held as the documents JSON.parse
 * yields; the text a script writes back is given by the writer it uses.
 */
module Workspace {
  import opened Json

  /** The contents of the files, as one value. */
  datatype Files = Files(
    packageJson: Json,    // package.json
    jbrowseConfig: Json,  // jbrowse_config.json
    fixture: Json,        // cypress/fixtures/hello_view.json
    srcIndex: string,     // src/index.ts
    readme: string        // README.md
  )

  /** The project directory: each file is a field that a setup step overwrites. */
  class Project {
    var packageJson: Json
    var jbrowseConfig: Json
    var fixture: Json
    var srcIndex: string
    var readme: string

    constructor (files: Files)
      ensures Snapshot() == files
    {
      packageJson := files.packageJson;
      jbrowseConfig := files.jbrowseConfig;
      fixture := files.fixture;
      srcIndex := files.srcIndex;
      readme := files.readme;
    }

    function Snapshot(): Files
      reads this
    {
      Files(packageJson, jbrowseConfig, fixture, srcIndex, readme)
    }
  }
}
