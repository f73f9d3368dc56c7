/**
 * The inputs the importer reads from its host: the editor's constants and the
 * data-table preferences object.
 */
module Config {

  /**
   * Values the editor supplies: the folder names looked for in the scripts location,
   * the namespace used when none is configured, and Environment.NewLine.
   */
  datatype HostConstants = HostConstants(
    scriptsFolderName: string,
    assetsFolderName: string,
    defaultNamespace: string,
    newLine: string)

  /**
   * The fields of the data-table preferences the core reads. A null namespace string
   * behaves as the empty one (both pass string.IsNullOrEmpty) and is modelled as "".
   */
  datatype Preferences = Preferences(
    autoGenerateScriptsNamespace: bool,
    scriptsStorageLocation: string,
    scriptsNamespace: string,
    dataRowsStartRow: int)
}
