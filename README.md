# QuickUnity data import, modelled in Dafny

QuickUnity's editor tool turns each sheet of an Excel workbook into two things:
- a generated C# row class (a "DataTableRow" script);
- the records of that sheet, parsed cell by cell and stored in an embedded database.

This project models the sequential core of that importer, `DataImport.cs`, and proves what
it does.

- **Schema extraction** (`Schema`). The sheet's first three rows give each column a
  property name, a type keyword and a comment. A column becomes a schema entry
  (DataTableRowInfo) only when its trimmed name and trimmed type are both non-blank.
  Its comment is trimmed and re-flowed: every match of the regular expression `\r*\n`
  becomes a NewLine followed by a tab-indented `///`.
- **Namespace derivation** (`Namespaces`).
  - The configured storage location has every `/` turned into `.`.
  - The namespace is whatever follows the scripts folder name, else whatever follows the
    assets folder name, else the path without its `:` characters.
  - A configured namespace is used instead when automatic generation is off.
  - An empty result falls back to the default namespace.
- **Script text** (`ScriptGen`, with the generic placeholder reasoning in `Placeholders`).
  Each schema entry becomes a doc-commented auto-property. The properties are joined by an
  empty line, and the three template placeholders `#NAMESPACE#`, `#SCRIPTNAME#` and
  `#PROPERTIES#` are replaced in that order.
- **Type-parser cache** (`TypeParsers`). A class holds the dictionary
  `cachedTypeParsersMap`, which maps a canonical parser type to a parser instance and is
  filled lazily from an abstract factory.
- **Row materialisation** (`Rows`). From row `DataRowsStartRow - 1` to the end of the
  sheet, each row becomes one record (a map from property name to parsed value).
  - For schema entry `j`, the non-blank trimmed cell `j` of the row is parsed with that
    entry's parser.
  - The cell index is the schema index, not the index of the column the entry came from.
    Once a column has been skipped, entry `j` reads a different column than the one it
    describes. The model keeps this behaviour, and `Schema.SchemaColumnAlignment` states
    exactly when the two indices agree.

The general-purpose string operations of .NET that the core relies on live in `Text`:
- `String.Trim`, over the `Char.IsWhiteSpace` set;
- ordinal `IndexOf`;
- `Replace`, non-overlapping and left to right;
- string concatenation in a loop.

The editor's constants (`ScriptsFolderName`, `AssetsFolderName`, `DefaultNamespace`,
`Environment.NewLine`) and the loaded preferences are parameters (`Config`).

The model keeps three behaviours of the code that are easy to overlook:
- **Schema alignment.** Row materialisation does not index cells by the schema's source
  columns (see above).
- **Short sheets.** A sheet with fewer than three rows fails schema extraction only when it
  has at least one column, since the header rows are read inside the column loop.
- **Start row.** A start row below 1 does not fail by itself. The loop starts at the
  negative row index `DataRowsStartRow - 1` (-1 for a start row of 0, -6 for -5). Reading a
  cell of that row throws at the first schema entry. With an empty schema no cell is read,
  and every index from the start on, negative ones included, yields an empty record.

The exceptions that reach the importer's per-file handler are modelled as `Failure`
results of the `ImportError` type: a missing header row, and a read of a negative row index.

## Model

| member | source | states |
|---|---|---|
| Text.TrimSpec | Assets/QuickUnity/Editor/Data/DataImport.cs:457-459 | Trim leaves "" exactly when the text is all white space; otherwise the result starts and ends with a non-white-space character |
| Text.TrimIsIdempotent | Assets/QuickUnity/Editor/Data/DataImport.cs:457-459 | trimming a trimmed text changes nothing |
| Text.IndexOf | Assets/QuickUnity/Editor/Data/DataImport.cs:413 | -1 exactly when the pattern occurs nowhere; otherwise the index of its first occurrence |
| Text.ReplaceChar | Assets/QuickUnity/Editor/Data/DataImport.cs:412 | length is kept, no replaced character remains (when it differs from the new one), and only characters of the input or the new character appear |
| Text.ReplaceAbsent | Assets/QuickUnity/Editor/Data/DataImport.cs:502-504 | Replace leaves a text in which the pattern does not occur unchanged |
| Text.ReplaceFirst | Assets/QuickUnity/Editor/Data/DataImport.cs:502-504 | Replace keeps everything before the first occurrence, replaces that occurrence, and continues after it |
| Text.ReplaceRemovesChar | Assets/QuickUnity/Editor/Data/DataImport.cs:435 | replacing a character by text without it leaves no occurrence of that character |
| Text.ReplaceChars | Assets/QuickUnity/Editor/Data/DataImport.cs:435 | every character of a Replace result comes from the input or from the replacement |
| Text.JoinIsTerminatedConcat | Assets/QuickUnity/Editor/Data/DataImport.cs:653-670 | joining with a separator, then appending one more separator, is the concatenation of each part followed by the separator |
| Text.JoinLength | Assets/QuickUnity/Editor/Data/DataImport.cs:653-670 | a join of n parts is as long as the parts plus n - 1 separators |
| Schema.LineBreakMatch | Assets/QuickUnity/Editor/Data/DataImport.cs:685 | a match of \r*\n ends in a line feed and lies within the text; text without a line feed has no match |
| Schema.LineBreakMatchSpec | Assets/QuickUnity/Editor/Data/DataImport.cs:685 | a match is carriage returns only, then its line feed, from the start of the text; and every leading run of carriage returns ending in a line feed is the match |
| Schema.ReplaceLineBreaksWithoutLF | Assets/QuickUnity/Editor/Data/DataImport.cs:685-687 | the regex replacement leaves text without a line feed unchanged |
| Schema.ReplaceLineBreaksFirstLine | Assets/QuickUnity/Editor/Data/DataImport.cs:685-687 | the first line loses its trailing carriage returns, the line break becomes the replacement, and the rest is processed in turn |
| Schema.ReplaceLineBreaksIsReflowByLines | Assets/QuickUnity/Editor/Data/DataImport.cs:685-687 | the left-to-right regex replacement equals the line-by-line reference definition (split at line feeds, strip trailing CRs of each line but the last, join with the replacement) |
| Schema.FormatComments | Assets/QuickUnity/Editor/Data/DataImport.cs:681-691 | the result is the line-by-line re-flow with NewLine + "\t\t/// "; empty text and text without a line feed are returned unchanged |
| Schema.SchemaColumnsAreFilter | Assets/QuickUnity/Editor/Data/DataImport.cs:455-466 | the schema columns are exactly the columns with non-blank trimmed name and type, strictly increasing, at most the column count |
| Schema.SchemaOfNext | Assets/QuickUnity/Editor/Data/DataImport.cs:455-466 | one more column appends its descriptor exactly when it is a schema column, and nothing otherwise |
| Schema.SchemaEntriesAreTrimmed | Assets/QuickUnity/Editor/Data/DataImport.cs:457-463 | every entry's name and type are non-blank and already trimmed |
| Schema.SchemaColumnAlignment | Assets/QuickUnity/Editor/Data/DataImport.cs:461 | the column behind entry k is at or after column k, and it is column k exactly when columns 0 to k are all schema columns |
| Schema.GenerateDataTableRowInfos | Assets/QuickUnity/Editor/Data/DataImport.cs:448-469 | fails exactly when there are columns but fewer than three rows; otherwise returns the schema of all columns, in column order, with trimmed name, type and re-flowed trimmed comment |
| Namespaces.GenerateNamespace | Assets/QuickUnity/Editor/Data/DataImport.cs:405-441 | never contains '/'; "" without preferences; the suffix after the first scripts folder name if present, else after the first assets folder name, else the dotted path without ':' |
| Namespaces.GetNamespace | Assets/QuickUnity/Editor/Data/DataImport.cs:372-398 | the generated or configured namespace, or the default namespace exactly when that is empty; non-empty when the default is; free of '/' when generated and the default has none |
| ScriptGen.PropertyBlockFields | Assets/QuickUnity/Editor/Data/DataImport.cs:656-666 | a block holds the comments, then the type right after "\t\tpublic ", then a space and the property name, in that order and without overlap |
| ScriptGen.PropertiesTextShape | Assets/QuickUnity/Editor/Data/DataImport.cs:649-673 | an empty schema gives ""; otherwise the blocks in order, each but the last followed by NewLine + NewLine, for a length of all blocks plus n - 1 separators |
| ScriptGen.GenerateScriptPropertiesString | Assets/QuickUnity/Editor/Data/DataImport.cs:647-674 | the string built by the loop is the blocks joined by the separator |
| ScriptGen.GenerateDataTableRowScript | Assets/QuickUnity/Editor/Data/DataImport.cs:500-504 | the script text is the template with the namespace, script-name and properties placeholders replaced in that order |
| ScriptGen.TemplateWithoutPlaceholders | Assets/QuickUnity/Editor/Data/DataImport.cs:502-504 | a template with none of the three placeholders is returned unchanged |
| ScriptGen.NamespaceIsSubstitutedFirst | Assets/QuickUnity/Editor/Data/DataImport.cs:502-503 | the order is fixed: a namespace value that is the script-name placeholder is itself replaced by the script name |
| ScriptGen.SubstituteTypicalTemplate | Assets/QuickUnity/Editor/Data/DataImport.cs:502-504 | when the text around the placeholders, the namespace and the script name contain no '#', and the text between the script-name and the properties placeholder is not NAMESPACE, each placeholder is replaced by its value and all other text is kept |
| Placeholders.ThreePlaceholders | Assets/QuickUnity/Editor/Data/DataImport.cs:502-504 | three #NAME# placeholders with distinct first letters, replaced in turn, each become their value and nothing else changes, when the surrounding text and the first two values contain no '#' and the text between the second and third placeholder is not the first one's name |
| TypeParsers.AvailableForSameType | Assets/QuickUnity/Editor/Data/DataImport.cs:712-714 | once one keyword found a parser, any keyword of the same canonical type finds one, and caches nothing new |
| TypeParsers.TypeParserCache.GetTypeParser | Assets/QuickUnity/Editor/Data/DataImport.cs:698-733 | null and cache unchanged for an empty keyword or one without a canonical type; otherwise the cache maps the type to the returned parser, a cached non-null parser is reused, and a missing or null entry is replaced by the factory's new parser (or null); every type stays cached and every cached parser stays the same instance |
| TypeParsers.TypeParserCache.CreateTypeParser | Assets/QuickUnity/Editor/Data/DataImport.cs:718 | the factory yields a fresh parser of the requested type exactly when it can create one for the keyword, and null otherwise |
| TypeParsers.SameTypeSharesParser | Assets/QuickUnity/Editor/Data/DataImport.cs:712-714 | a second lookup with a keyword of the same canonical type returns the very instance the first one found |
| Rows.RowRecords | Assets/QuickUnity/Editor/Data/DataImport.cs:610-636 | one record per row read |
| Rows.RowRecordKeys | Assets/QuickUnity/Editor/Data/DataImport.cs:614-627 | a record only holds names of entries whose cell is non-blank; the cached types only grow, by parser types of entries read |
| Rows.RowRecordField | Assets/QuickUnity/Editor/Data/DataImport.cs:614-632 | with distinct names, entry j is set exactly when trimmed cell j is non-blank and a parser is found, and then holds that parser's reading of the cell; otherwise it keeps its default |
| Rows.RowRecordFieldWithFactory | Assets/QuickUnity/Editor/Data/DataImport.cs:618-627 | when the factory creates every parser it knows, entry j is set exactly when its cell is non-blank and its type keyword is known |
| Rows.RowRecordsAt | Assets/QuickUnity/Editor/Data/DataImport.cs:610-635 | record k comes from row start + k, in row order, given the types cached by the earlier rows |
| Rows.RowRecordsReadyGrows | Assets/QuickUnity/Editor/Data/DataImport.cs:621 | the cached types only grow across rows |
| Rows.RowRecordsEmptySchema | Assets/QuickUnity/Editor/Data/DataImport.cs:612-614 | with no schema entry every record is empty and no parser is looked up |
| Rows.ImportRowsOutcome | Assets/QuickUnity/Editor/Data/DataImport.cs:608-636 | fails exactly when the start row is below 1 and the schema is non-empty; otherwise as many records as rows from DataRowsStartRow - 1 on (0 when that is past the end) |
| Rows.FillRecord | Assets/QuickUnity/Editor/Data/DataImport.cs:614-633 | the inner loop builds the record of one row as the record specification says, with the cached types it says; every type stays cached and every cached parser stays the same instance |
| Rows.GenerateDataTableRowCollection | Assets/QuickUnity/Editor/Data/DataImport.cs:594-640 | no records and no lookups without preferences; otherwise the records and cached types of the row specification, or, for a negative start index with a non-empty schema, the row index failure with the cache untouched; in every case cached parsers stay cached as the same instances |

## Left out

- `ForEachExcelFile`: file enumeration, opening workbooks with the ExcelDataReader library, and the per-file exception logging. The sheet is a parameter, and the exceptions that handler catches are `Failure` results.
- `SaveData`, `GetAddressMapDBAdapter`, `GetDBFilesPath`: thin calls into the BoxDB database. The address-map type they use is not part of this model.
- `DeleteOldDBFiles`, `DeleteDBConfigFiles`, `RenameDBFiles`: file-system changes.
- `GenerateDataTableRowScript`: the directory creation, asset handling and file writing after the text is built are I/O. Only the text is modelled.
- Editor UI and persistence are not modelled: `Import`, `CheckPreferencesData`, `GetTplText`, the progress bars and dialogs, the `EditorPrefs`-backed properties, and recompilation polling. The template text and the preferences are parameters.
- `Assets/QuickUnity/Scripts/IO/Ports/SerialPortEvent.cs` is not part of this model. It only carries fields.
- Reflection is not modelled: `UnityReflectionUtil.CreateInstance` and `ReflectionUtil.SetObjectPropertyValue`.
  - A record is a map from property name to value, and an absent key stands for the property's default.
  - The class name and namespace that `GenerateDataTableRowCollection` passes to `CreateInstance` are left out.
  - So is the behaviour when a property name does not exist on the generated class.
- `TypeParserFactory` and the parsers are not part of this model. They appear as three abstract functions: keyword to optional canonical type, whether a parser can be created, and the parse of a cell by a parser type.
- The warning logged for an unsupported type is output, not state.
- The cache is an object passed in rather than a static field, and starts as an empty map. The source creates its dictionary lazily on first use, which has no observable effect.
- Text.IndexOf: .NET's `String.IndexOf(string)` compares culture-sensitively. The model compares ordinally, which agrees for the folder names and paths of the ASCII range.
- Preferences: a null storage location (which would throw) is not modelled. A null namespace string is treated as "".
- TypeParserFactory.parse: the factory and the parsers are assumed not to throw. A parser can throw on a malformed cell, and so can the factory's type lookup or creation. Such an exception would end the sheet in the per-file handler of the import loop, and the model does not capture it.
- GenerateDataTableRowCollection: `DataRowsStartRow` is an unbounded integer. In C#, `DataRowsStartRow - 1` wraps around for `int.MinValue`, and the loop then does nothing. The model instead starts at that very negative index.
- Text.Trim: the white-space set is that of `Char.IsWhiteSpace` in .NET 4. The .NET 3.5 profile of Unity's older Mono runtime also trims U+200B and U+FEFF. It does not trim U+180E, U+202F or U+205F.
- Rows.RowRecordField: when two schema entries share a property name, the later write wins. The lemma covers the case of distinct names only.
