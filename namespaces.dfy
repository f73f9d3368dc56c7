/**
 * The namespace of the generated row scripts: derived from the scripts folder when
 * the preferences ask for it, configured otherwise, and a default when that is empty.
 */
module Namespaces {
  import opened Wrappers
  import opened Text
  import opened Config

  /** The storage location with every '/' (Path.AltDirectorySeparatorChar) turned into '.'. */
  function DottedPath(location: string): string {
    ReplaceChar(location, '/', '.')
  }

  /**
   * What follows a folder name found at index i of path, skipping the one separator
   * after it; "" when the path ends before that separator's successor.
   */
  function SuffixAfter(path: string, i: nat, nameLength: nat): (r: string)
    ensures i + nameLength + 1 <= |path| ==> r == path[i + nameLength + 1..]
    ensures i + nameLength + 1 > |path| ==> r == ""
    ensures |r| <= |path| && r == path[|path| - |r|..]
    ensures forall c :: c in r ==> c in path
  {
    if i + nameLength + 1 <= |path| then path[i + nameLength + 1..] else ""
  }

  /**
   * GenerateNamespace: the dotted path after the scripts folder name; failing that, after
   * the assets folder name; failing both, the dotted path with every ':' removed.
   * Without preferences the namespace is "".
   */
  function GenerateNamespace(prefs: Option<Preferences>, scriptsFolderName: string, assetsFolderName: string): (r: string)
    ensures '/' !in r
    ensures prefs.None? ==> r == ""
    ensures prefs.Some? ==> var path := DottedPath(prefs.value.scriptsStorageLocation);
      && (forall i :: IsFirstOccurrence(path, scriptsFolderName, i) ==>
            r == SuffixAfter(path, i, |scriptsFolderName|))
      && (Absent(path, scriptsFolderName) ==>
            forall i :: IsFirstOccurrence(path, assetsFolderName, i) ==>
              r == SuffixAfter(path, i, |assetsFolderName|))
      && (Absent(path, scriptsFolderName) && Absent(path, assetsFolderName) ==>
            r == Replace(path, ":", "") && ':' !in r)
  {
    if prefs.None? then ""
    else
      var path := DottedPath(prefs.value.scriptsStorageLocation);
      var scripts := IndexOf(path, scriptsFolderName);
      if scripts != -1 then
        FirstOccurrenceIsUnique(path, scriptsFolderName, scripts);
        SuffixAfter(path, scripts, |scriptsFolderName|)
      else
        var assets := IndexOf(path, assetsFolderName);
        if assets != -1 then
          FirstOccurrenceIsUnique(path, assetsFolderName, assets);
          SuffixAfter(path, assets, |assetsFolderName|)
        else
          var stripped := Replace(path, ":", "");
          ReplaceRemovesChar(path, ':', "");
          assert '/' !in stripped by {
            if '/' in stripped { ReplaceChars(path, ":", "", '/'); }
          }
          stripped
  }

  /** There is only one first occurrence. */
  lemma FirstOccurrenceIsUnique(s: string, pat: string, i: int)
    requires IsFirstOccurrence(s, pat, i)
    ensures forall j :: IsFirstOccurrence(s, pat, j) ==> j == i
  {
  }

  /** The namespace before the fallback: generated or configured, as the preferences say. */
  function ConfiguredNamespace(prefs: Option<Preferences>, host: HostConstants): string {
    if prefs.None? then ""
    else if prefs.value.autoGenerateScriptsNamespace then
      GenerateNamespace(prefs, host.scriptsFolderName, host.assetsFolderName)
    else prefs.value.scriptsNamespace
  }

  /**
   * GetNamespace: the generated or configured namespace, or the default namespace when
   * that is empty (also when no preferences exist).
   */
  function GetNamespace(prefs: Option<Preferences>, host: HostConstants): (r: string)
    ensures ConfiguredNamespace(prefs, host) == "" ==> r == host.defaultNamespace
    ensures ConfiguredNamespace(prefs, host) != "" ==> r == ConfiguredNamespace(prefs, host)
    ensures host.defaultNamespace != "" ==> r != ""
    ensures prefs.Some? && prefs.value.autoGenerateScriptsNamespace && '/' !in host.defaultNamespace ==> '/' !in r
  {
    var ns := ConfiguredNamespace(prefs, host);
    if ns == "" then host.defaultNamespace else ns
  }
}
