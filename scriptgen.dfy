/**
 * The text of a generated row script: one doc-commented property per schema entry,
 * substituted with the namespace and the script name into a template.
 */
module ScriptGen {
  import opened Text
  import opened Schema
  import opened Placeholders

  const NamespaceSpecifier := "#NAMESPACE#"
  const ScriptNameSpecifier := "#SCRIPTNAME#"
  const PropertiesSpecifier := "#PROPERTIES#"

  /**
   * The declaration generated for one schema entry by the format string of
   * GenerateScriptPropertiesString: a summary comment holding the entry's comments, then
   * an auto-property of the entry's type and name. The format's literal text is split at
   * its three entry-dependent holes.
   */
  function PropertyBlock(info: RowInfo, newLine: string): string {
    SummaryOpening(newLine) + info.comments + SummaryClosing(newLine)
    + info.typeName + " " + info.propertyName + Accessors(newLine)
  }

  /** The format text before the comments. */
  function SummaryOpening(newLine: string): string {
    "\t\t/// <summary>" + newLine + "\t\t/// "
  }

  /** The format text between the comments and the type. */
  function SummaryClosing(newLine: string): string {
    newLine + "\t\t/// </summary>" + newLine + "\t\tpublic "
  }

  /** The format text after the property name: the accessor body. */
  function Accessors(newLine: string): string {
    newLine + "\t\t{" + newLine + "\t\t\tget;" + newLine + "\t\t\tset;" + newLine + "\t\t}"
  }

  /** Where the comments of an entry start in its block. */
  function CommentsOffset(newLine: string): nat {
    21 + |newLine|
  }

  /** Where the type of an entry starts in its block. */
  function TypeOffset(info: RowInfo, newLine: string): nat {
    CommentsOffset(newLine) + |info.comments| + 2 * |newLine| + 25
  }

  /** Where the property name of an entry starts in its block. */
  function NameOffset(info: RowInfo, newLine: string): nat {
    TypeOffset(info, newLine) + |info.typeName| + 1
  }

  /** Where the three holes of a block sit, for any text around them. */
  lemma HoleSlices(block: string, open: string, comments: string, close: string, typeName: string, name: string, tail: string,
                   c: nat, t: nat, n: nat)
    requires block == open + comments + close + typeName + " " + name + tail
    requires c == |open| && t == c + |comments| + |close| && n == t + |typeName| + 1
    requires |close| >= 9 && close[|close| - 9..] == "\t\tpublic "
    ensures c + |comments| < t && t + |typeName| < n && n + |name| <= |block|
    ensures block[c..c + |comments|] == comments
    ensures block[t - 9..t] == "\t\tpublic "
    ensures block[t..t + |typeName|] == typeName
    ensures block[n - 1] == ' '
    ensures block[n..n + |name|] == name
  {
    assert block[t - |close|..t] == close;
    assert block[t - 9..t] == block[t - |close|..t][|close| - 9..];
  }

  /** The closing text ends with "public ", so the type directly follows it. */
  lemma SummaryClosingEnd(newLine: string)
    ensures |SummaryClosing(newLine)| == 2 * |newLine| + 25
    ensures SummaryClosing(newLine)[2 * |newLine| + 16..] == "\t\tpublic "
  {
    var x := newLine + "\t\t/// </summary>" + newLine;
    assert SummaryClosing(newLine) == x + "\t\tpublic ";
    assert |x| == 2 * |newLine| + 16;
  }

  /**
   * A block holds the entry's comments, then its type, then its property name, in that
   * order and without overlap; the type directly follows "public " and a space separates
   * it from the name.
   */
  lemma PropertyBlockFields(info: RowInfo, newLine: string)
    ensures var block := PropertyBlock(info, newLine);
      var c, t, n := CommentsOffset(newLine), TypeOffset(info, newLine), NameOffset(info, newLine);
      && c + |info.comments| < t && t + |info.typeName| < n && n + |info.propertyName| <= |block|
      && block[c..c + |info.comments|] == info.comments
      && block[t - 9..t] == "\t\tpublic "
      && block[t..t + |info.typeName|] == info.typeName
      && block[n - 1] == ' '
      && block[n..n + |info.propertyName|] == info.propertyName
  {
    var open, close := SummaryOpening(newLine), SummaryClosing(newLine);
    assert |open| == CommentsOffset(newLine);
    SummaryClosingEnd(newLine);
    HoleSlices(PropertyBlock(info, newLine), open, info.comments, close, info.typeName, info.propertyName, Accessors(newLine),
               CommentsOffset(newLine), TypeOffset(info, newLine), NameOffset(info, newLine));
  }

  /** The blocks of all entries, in schema order. */
  function PropertyBlocks(infos: seq<RowInfo>, newLine: string): (blocks: seq<string>)
    ensures |blocks| == |infos|
    ensures forall i :: 0 <= i < |infos| ==> blocks[i] == PropertyBlock(infos[i], newLine)
  {
    seq(|infos|, i requires 0 <= i < |infos| => PropertyBlock(infos[i], newLine))
  }

  /** The separator between two property blocks: an empty line. */
  function BlockSeparator(newLine: string): string {
    newLine + newLine
  }

  /** The properties text: the blocks joined by BlockSeparator. */
  function PropertiesText(infos: seq<RowInfo>, newLine: string): string {
    Join(PropertyBlocks(infos, newLine), BlockSeparator(newLine))
  }

  /**
   * An empty schema gives ""; n entries give their n blocks in schema order, each but the
   * last followed by one separator, so the text has exactly n - 1 separators in all.
   */
  lemma PropertiesTextShape(infos: seq<RowInfo>, newLine: string)
    ensures infos == [] ==> PropertiesText(infos, newLine) == ""
    ensures infos != [] ==>
      var blocks := PropertyBlocks(infos, newLine);
      var sep := BlockSeparator(newLine);
      && PropertiesText(infos, newLine) + sep == Concat(seq(|infos|, i requires 0 <= i < |infos| => blocks[i] + sep))
      && |PropertiesText(infos, newLine)| == TotalLength(blocks) + (|infos| - 1) * |sep|
  {
    if infos != [] {
      JoinIsTerminatedConcat(PropertyBlocks(infos, newLine), BlockSeparator(newLine));
      JoinLength(PropertyBlocks(infos, newLine), BlockSeparator(newLine));
    }
  }

  /** GenerateScriptPropertiesString: appends each block and, between blocks, the separator. */
  method GenerateScriptPropertiesString(rowInfos: seq<RowInfo>, newLine: string) returns (propertiesString: string)
    ensures propertiesString == PropertiesText(rowInfos, newLine)
  {
    propertiesString := "";
    ghost var blocks := PropertyBlocks(rowInfos, newLine);
    var sep := BlockSeparator(newLine);
    if |rowInfos| > 0 {
      var length := |rowInfos|;
      for i := 0 to length
        invariant i == 0 ==> propertiesString == ""
        invariant 0 < i < length ==> propertiesString == Join(blocks[..i], sep) + sep
        invariant i == length ==> propertiesString == Join(blocks[..i], sep)
      {
        assert blocks[..i + 1][..i] == blocks[..i];
        propertiesString := propertiesString + PropertyBlock(rowInfos[i], newLine);
        if i < length - 1 {
          propertiesString := propertiesString + sep;
        }
      }
      assert blocks[..length] == blocks;
    }
  }

  /**
   * The Replace chain of GenerateDataTableRowScript: the namespace placeholder first,
   * then the script name, then the properties, each replacing every occurrence.
   */
  function SubstituteTemplate(template: string, namespaceName: string, scriptName: string, properties: string): string {
    var withNamespace := Replace(template, NamespaceSpecifier, namespaceName);
    var withScriptName := Replace(withNamespace, ScriptNameSpecifier, scriptName);
    Replace(withScriptName, PropertiesSpecifier, properties)
  }

  /** GenerateDataTableRowScript without the file writing: the text of the row script. */
  method GenerateDataTableRowScript(template: string, namespaceName: string, scriptName: string, rowInfos: seq<RowInfo>, newLine: string)
    returns (scriptText: string)
    ensures scriptText == SubstituteTemplate(template, namespaceName, scriptName, PropertiesText(rowInfos, newLine))
  {
    var properties := GenerateScriptPropertiesString(rowInfos, newLine);
    scriptText := Replace(template, NamespaceSpecifier, namespaceName);
    scriptText := Replace(scriptText, ScriptNameSpecifier, scriptName);
    scriptText := Replace(scriptText, PropertiesSpecifier, properties);
  }

  /** A template with none of the three placeholders comes back unchanged. */
  lemma TemplateWithoutPlaceholders(template: string, namespaceName: string, scriptName: string, properties: string)
    requires Absent(template, NamespaceSpecifier)
    requires Absent(template, ScriptNameSpecifier)
    requires Absent(template, PropertiesSpecifier)
    ensures SubstituteTemplate(template, namespaceName, scriptName, properties) == template
  {
    ReplaceAbsent(template, NamespaceSpecifier, namespaceName);
    ReplaceAbsent(template, ScriptNameSpecifier, scriptName);
    ReplaceAbsent(template, PropertiesSpecifier, properties);
  }

  /**
   * The substitutions run in a fixed order: a namespace that itself contains the
   * script-name placeholder has that placeholder replaced in turn.
   */
  lemma NamespaceIsSubstitutedFirst(scriptName: string, properties: string)
    requires '#' !in scriptName
    ensures SubstituteTemplate(NamespaceSpecifier, ScriptNameSpecifier, scriptName, properties) == scriptName
  {
    ReplaceAtStart(NamespaceSpecifier, "", ScriptNameSpecifier);
    assert NamespaceSpecifier + "" == NamespaceSpecifier && ScriptNameSpecifier + "" == ScriptNameSpecifier;
    assert Replace(NamespaceSpecifier, NamespaceSpecifier, ScriptNameSpecifier) == ScriptNameSpecifier;
    ReplaceAtStart(ScriptNameSpecifier, "", scriptName);
    assert scriptName + "" == scriptName;
    assert Replace(ScriptNameSpecifier, ScriptNameSpecifier, scriptName) == scriptName;
    assert PropertiesSpecifier[0] == '#';
    HashFreeUnchanged(scriptName, PropertiesSpecifier, properties);
  }

  /**
   * A template of the usual form, with no '#' outside its three placeholders and no '#'
   * in the namespace or the script name, has each placeholder replaced by its value and
   * everything else kept. The one exception is text NAMESPACE right after the script-name
   * placeholder, which would form a namespace placeholder with the '#' signs around it.
   */
  lemma SubstituteTypicalTemplate(a: string, b: string, c: string, d: string, namespaceName: string, scriptName: string, properties: string)
    requires '#' !in a && '#' !in b && '#' !in c && '#' !in d
    requires '#' !in namespaceName && '#' !in scriptName && c != "NAMESPACE"
    ensures SubstituteTemplate(a + NamespaceSpecifier + b + ScriptNameSpecifier + c + PropertiesSpecifier + d, namespaceName, scriptName, properties)
         == a + namespaceName + b + scriptName + c + properties + d
  {
    assert NamespaceSpecifier == Placeholder("NAMESPACE");
    assert ScriptNameSpecifier == Placeholder("SCRIPTNAME");
    assert PropertiesSpecifier == Placeholder("PROPERTIES");
    ThreePlaceholders(a, b, c, d, "NAMESPACE", "SCRIPTNAME", "PROPERTIES", namespaceName, scriptName, properties);
  }
}
