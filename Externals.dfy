/**
 * The collaborators the engine calls but whose code is not part of this
 * model, as total functions: property expansion, path handling, wildcard
 * enumeration, FilterExtension equality, SHA1 and TSON text.
 */
module Externals {
  import opened Wrappers
  import opened Common
  import opened Tson

  datatype Env = Env(
    /** PropertyCollection.ExpandVariables(text, throwOnMissing); None when it throws. */
    expand: (map<string, string>, string, bool) -> Option<string>,
    /** new ParsedPath(text, PathType.File).MakeFullPath(); None when it throws. */
    fullPath: string -> Option<Path>,
    /** ParsedPath.HasWildcards. */
    hasWildcards: Path -> bool,
    /** ParsedPath.VolumeAndDirectory. */
    directoryOf: Path -> Path,
    /** DirectoryUtility.GetFiles(pattern, SearchScope.DirectoryOnly) on the given files. */
    getFiles: (map<Path, FileEntry>, Path) -> seq<Path>,
    /** ParsedPath.Extension. */
    extensionOf: Path -> string,
    /** ParsedPath.File: the base file name without directory or extension. */
    baseNameOf: Path -> string,
    /** ParsedPath.FileAndExtension. */
    fileAndExtensionOf: Path -> string,
    /** new ParsedPath(directory, PathType.Directory).Append(file, PathType.File). */
    combine: (string, string) -> Path,
    /** FilterExtension.Equals. */
    extensionEquals: (Extension, Extension) -> bool,
    /** The upper-case hex SHA1 of the UTF-8 bytes of a string. */
    sha1: string -> string,
    /** String.GetHashCode. */
    stringHash: string -> int,
    /** TsonStringNode.ToString(). */
    stringText: string -> string,
    /** TsonArrayNode<TsonStringNode>.ToString(). */
    arrayText: seq<string> -> string,
    /** TsonNode.ToString(). */
    nodeText: TsonNode -> string,
    /** Tson.Format(hashes, TsonFormatStyle.Compact). */
    formatHashes: HashRecord -> string,
    /** Tson.ToObjectNode<ContentFileHashesFile>(text); None when it throws. */
    parseHashes: string -> Option<HashesFileNode>)
}
