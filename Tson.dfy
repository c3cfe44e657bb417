/**
 * The shapes of the parsed content file and of the hashes file. Parsing and
 * formatting TSON text are not part of this model; only the object trees are.
 */
module Tson {
  import opened Wrappers
  import opened Common

  /** A TSON value node. Numbers are kept exactly (no floating-point rounding). */
  datatype TsonNode =
    | NumberNode(number: real)
    | StringNode(text: string)
    | BooleanNode(flag: bool)
    | ArrayNode(items: seq<TsonNode>)
    | ObjectNode(pairs: seq<(string, TsonNode)>)
    | NullNode

  /** The key/value pairs of a TsonObjectNode, in document order. */
  type Parameters = seq<(string, TsonNode)>

  /** ContentFileV4.Target: one raw target declaration. */
  datatype RawTarget = RawTarget(
    name: string,
    inputs: seq<string>,
    outputs: seq<string>,
    filter: Option<string>,
    parameters: Option<Parameters>,
    location: Location)

  /** ContentFileV4.FilterExtension: one extension pattern of a filter setting. */
  datatype ExtensionNode = ExtensionNode(inputs: seq<string>, outputs: seq<string>)

  /** ContentFileV4.FilterSetting: spec-level overrides for the filters whose name ends with `name`. */
  datatype FilterSetting = FilterSetting(
    name: string,
    extensions: seq<ExtensionNode>,
    parameters: Option<Parameters>,
    location: Location)

  /** ContentFileV4.NameAndString: one content-file property. */
  datatype NameAndString = NameAndString(name: string, value: string)

  /** ContentFileV4: the whole parsed content file. */
  datatype ContentFile = ContentFile(
    filterAssemblies: seq<string>,
    filterSettings: seq<FilterSetting>,
    properties: seq<NameAndString>,
    targets: seq<RawTarget>,
    location: Location)

  /** ContentFileHashesFile: the global hash and one hash per target in run order. */
  datatype HashRecord = HashRecord(global: string, targets: seq<string>)

  /**
   * A ContentFileHashesFile as parsed: neither node is required, so the
   * Global node, the Targets node and each element of Targets may be null.
   */
  datatype HashesFileNode = HashesFileNode(global: Option<string>, targets: Option<seq<Option<string>>>)

  /** The tree of a record as written: no node is null. */
  function RecordNode(rec: HashRecord): (n: HashesFileNode)
    ensures n.global == Some(rec.global) && n.targets.Some? && |n.targets.value| == |rec.targets|
    ensures forall i :: 0 <= i < |rec.targets| ==> n.targets.value[i] == Some(rec.targets[i])
  {
    HashesFileNode(Some(rec.global), Some(seq(|rec.targets|, i requires 0 <= i < |rec.targets| => Some(rec.targets[i]))))
  }
}
