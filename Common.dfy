/** Vocabulary shared by the whole model: paths, times, extension signatures and the errors the engine raises. */
module Common {

  /** A ParsedPath, represented by its full path text. */
  type Path = string

  /** A DateTime, represented by its tick count. */
  type Time = int

  /** DateTime.MinValue and DateTime.MaxValue in ticks. */
  const MinTime: Time := 0
  const MaxTime: Time := 3155378975999999999

  /**
   * A FilterExtension: the input extensions and the output extensions of a
   * filter pattern or of a target's files. FilterExtension itself is not part
   * of this model; its equality is an explicit collaborator (see Externals.Env).
   */
  datatype Extension = Extension(inputs: seq<string>, outputs: seq<string>)

  /** What the filesystem knows about an existing file: its last write time and its text. */
  datatype FileEntry = FileEntry(mtime: Time, text: string)

  /** A TextLocation: TextLocation.None, or the line and column of a declaration in the content file. */
  datatype Location = NoLocation | At(line: nat, column: nat)

  /** The errors the build engine raises, one constructor per throw site. */
  datatype Error =
    // Target construction (VacuumTarget)
    | NoInputs(target: string)
    | NoOutputs(target: string)
    | ExpansionFailed(spec: string)
    | BadPath(path: string)
    | MissingDirectory(directory: Path)
    | NoWildcardMatches(pattern: Path)
    | NoFilterForExtension(target: string, extension: Extension)
    | FilterNotFound(filter: string)
    // Target ordering
    | CircularDependency(position: nat, target: string)
    // Parameter binding
    | NotANumber
    | NotAString
    | NotBoolean
    | ParameterNotWritable(parameter: string, filter: string)
    | UnsupportedParameterType(parameter: string, filter: string)
    | RequiredParameterNotSet(parameter: string, filter: string)
    | InvalidExtensions(filter: string)
    // Filter class construction
    | PropertyNotReadWrite(property: string, filter: string)
    | DuplicateParameter(property: string, filter: string)
    // Context construction
    | MissingProperty(name: string)
    | AssemblyPathExpansionFailed(assembly: string)
    | AssemblyLoadFailed(assembly: string)
    | ReflectionFailed(assembly: string)
    // The run loop
    | PrepareFailed(target: string, inner: Error)
    | MissingInputFile(path: Path)
    | MissingFilterProperty(filter: string, property: string)
    | FilterFailed(target: string, message: string)
    | OutputNotGenerated(target: string, path: Path)
    // Concrete filters
    | WrongInputCount(expected: nat, location: Location)
    | WrongOutputCount(expected: nat, location: Location)
    | UnreadableInput(path: Path)
}
