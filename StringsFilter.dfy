/**
 * StringsToDataAndCsFilter: turns a `.strings` file (a TSON object of named
 * strings) into a data file holding the strings in order and a C# class with
 * one accessor per string.
 */
module StringsFilter {
  import opened Wrappers
  import opened Common
  import opened Tson
  import opened Strings
  import opened ParameterAttributes
  import opened FilterClasses
  import opened ParameterBinding

  /** The filter's one pattern: a `.strings` input makes a `.data` and a `.cs` output. */
  const StringsExtension := Extension([".strings"], [".data", ".cs"])

  const ClassNameDefault := "XxxStrings"

  /** The ClassName target parameter, which defaults to "XxxStrings". */
  const ClassNameProperty := PropertyInfo("ClassName", StringType, true, true,
    [SetDefault(NewParameterAttribute(TargetScope), StringValue(ClassNameDefault))])

  /** The Namespace target parameter, which has no default. */
  const NamespaceProperty := PropertyInfo("Namespace", StringType, true, true,
    [NewParameterAttribute(TargetScope)])

  /** The filter type's parameter properties, in declaration order. */
  const StringsProperties := [ClassNameProperty, NamespaceProperty]

  /**
   * The filter declares two target parameters and no filter parameter;
   * ClassName is optional and Namespace is the one a target must supply.
   */
  lemma StringsParameterSchema(typeName: string)
    ensures Classify(typeName, StringsProperties).Success?
    ensures var c := Classify(typeName, StringsProperties).value;
      c.filterParameters == [] && Names(c.targetParameters) == ["ClassName", "Namespace"]
      && RequiredNames(c.targetParameters) == {"Namespace"}
  {
    var a := AttributedProperty(ClassNameProperty.attributes[0], ClassNameProperty);
    var b := AttributedProperty(NamespaceProperty.attributes[0], NamespaceProperty);
    var c1 := NoProperties.(targetParameters := [a]);
    assert Classify(typeName, StringsProperties) == Success(c1.(targetParameters := [a, b])) by {
      assert StringsProperties[..1] == [ClassNameProperty];
      ClassNameStep(typeName);
      NamespaceStep(typeName, c1);
      assert [a] + [b] == [a, b];
    }
    StringsTargetParameters(a, b);
  }

  /** The names and the required names of the two target parameters. */
  lemma StringsTargetParameters(a: AttributedProperty, b: AttributedProperty)
    requires a == AttributedProperty(ClassNameProperty.attributes[0], ClassNameProperty)
    requires b == AttributedProperty(NamespaceProperty.attributes[0], NamespaceProperty)
    ensures Names([a, b]) == ["ClassName", "Namespace"]
    ensures RequiredNames([a, b]) == {"Namespace"}
  {
    assert [a, b][..1] == [a] && [a][..0] == [];
    assert !Required(a.attribute) && Required(b.attribute);
    assert RequiredNames([a]) == {};
  }

  /** ClassName becomes the first target parameter. */
  lemma ClassNameStep(typeName: string)
    ensures Classify(typeName, [ClassNameProperty])
         == Success(NoProperties.(targetParameters := [AttributedProperty(ClassNameProperty.attributes[0], ClassNameProperty)]))
  {
    var a := AttributedProperty(ClassNameProperty.attributes[0], ClassNameProperty);
    assert [ClassNameProperty][..0] == [];
    assert !IsSlotName("ClassName") && !ForFilter(ClassNameProperty.attributes[0]);
    assert NoProperties.targetParameters + [a] == [a];
  }

  /** Namespace becomes the second target parameter. */
  lemma NamespaceStep(typeName: string, c1: Classification)
    requires c1 == NoProperties.(targetParameters := [AttributedProperty(ClassNameProperty.attributes[0], ClassNameProperty)])
    ensures ClassifyStep(typeName, c1, NamespaceProperty)
         == Success(c1.(targetParameters := c1.targetParameters + [AttributedProperty(NamespaceProperty.attributes[0], NamespaceProperty)]))
  {
    assert !IsSlotName("Namespace") && !ForFilter(NamespaceProperty.attributes[0]);
    assert Names(c1.targetParameters) == ["ClassName"];
  }

  // ---------------------------------------------------------------------------
  // Counting the format arguments of a string (CreateStringsData)
  // ---------------------------------------------------------------------------

  /** Position i opens a format argument: a '{' that is not followed by a second '{'. */
  predicate OpensArgument(v: string, i: nat)
  {
    i + 1 < |v| && v[i] == '{' && v[i + 1] != '{'
  }

  /** The number of positions below k that open an argument. */
  function ArgumentsBelow(v: string, k: nat): nat
  {
    if k == 0 then 0 else ArgumentsBelow(v, k - 1) + if OpensArgument(v, k - 1) then 1 else 0
  }

  /** String.ArgCount as CreateStringsData computes it. */
  function ArgCount(v: string): nat
  {
    ArgumentsBelow(v, |v|)
  }

  /** The positions of a string that open an argument. */
  function Openings(v: string): set<nat>
  {
    set i: nat | i < |v| && OpensArgument(v, i)
  }

  /** ArgCount is the number of positions that open an argument. */
  lemma ArgCountCountsOpenings(v: string)
    ensures ArgCount(v) == |Openings(v)|
  {
    OpeningsBelow(v, |v|);
    assert Openings(v) == set i: nat | i < |v| && OpensArgument(v, i);
  }

  lemma {:induction false} OpeningsBelow(v: string, k: nat)
    ensures ArgumentsBelow(v, k) == |set i: nat | i < k && OpensArgument(v, i)|
  {
    var all := set i: nat | i < k && OpensArgument(v, i);
    if k == 0 {
      assert all == {};
    } else {
      OpeningsBelow(v, k - 1);
      var below := set i: nat | i < k - 1 && OpensArgument(v, i);
      if OpensArgument(v, k - 1) {
        assert all == below + {k - 1};
      } else {
        assert all == below;
      }
    }
  }

  /** A string shorter than two characters has no argument, and no string has more than one per character but the last. */
  lemma ArgCountBounds(v: string)
    ensures |v| < 2 ==> ArgCount(v) == 0
    ensures |v| >= 1 ==> ArgCount(v) <= |v| - 1
  {
    if |v| >= 1 {
      ArgumentsBelowBound(v, |v| - 1);
    }
  }

  lemma {:induction false} ArgumentsBelowBound(v: string, k: nat)
    ensures ArgumentsBelow(v, k) <= k
  {
    if k > 0 {
      ArgumentsBelowBound(v, k - 1);
    }
  }

  /** A doubled brace is an escaped brace, but the second brace of the pair opens an argument when a digit follows. */
  lemma EscapedBraces()
    ensures ArgCount("{{") == 0
    ensures ArgCount("{{0}") == 1
    ensures ArgCount("{0}{1}") == 2
  {
    var escaped, counted, two := "{{", "{{0}", "{0}{1}";
    assert !OpensArgument(escaped, 0) && !OpensArgument(escaped, 1);
    assert ArgumentsBelow(escaped, 2) == 0;
    assert !OpensArgument(counted, 0) && OpensArgument(counted, 1);
    assert !OpensArgument(counted, 2) && !OpensArgument(counted, 3);
    assert ArgumentsBelow(counted, 2) == 1;
    assert ArgumentsBelow(counted, 4) == 1;
    assert OpensArgument(two, 0) && !OpensArgument(two, 1) && !OpensArgument(two, 2);
    assert OpensArgument(two, 3) && !OpensArgument(two, 4) && !OpensArgument(two, 5);
    assert ArgumentsBelow(two, 3) == 1;
    assert ArgumentsBelow(two, 6) == 2;
  }

  /** The loop of CreateStringsData that counts the arguments of one string. */
  method CountArguments(v: string) returns (n: nat)
    ensures n == ArgCount(v)
  {
    n := 0;
    var i := 0;
    while i < |v| - 1
      invariant i <= |v| && (|v| >= 1 ==> i <= |v| - 1)
      invariant n == ArgumentsBelow(v, i)
    {
      if v[i] == '{' && v[i + 1] != '{' {
        n := n + 1;
      }
      i := i + 1;
    }
  }

  // ---------------------------------------------------------------------------
  // The strings file and the entries built from it
  // ---------------------------------------------------------------------------

  /** StringsContent.String: a name, its text and its number of format arguments. */
  datatype StringEntry = StringEntry(name: string, value: string, argCount: nat)

  /** The keys of the pairs are distinct. */
  predicate DistinctKeys(kvs: Parameters)
  {
    forall i, j :: 0 <= i < j < |kvs| ==> kvs[i].0 != kvs[j].0
  }

  /** Every value of the pairs is a string node. */
  predicate AllStrings(kvs: Parameters)
  {
    forall i :: 0 <= i < |kvs| ==> kvs[i].1.StringNode?
  }

  /**
   * ReadStringsFile: the strings file's object node as a dictionary from
   * names to texts. A value that is not a string fails its cast and a key
   * that occurs twice fails ToDictionary; both are errors on the input.
   */
  function ReadStringsFile(path: Path, kvs: Parameters): (r: Result<seq<(string, string)>, Error>)
    ensures r.Success? <==> AllStrings(kvs) && DistinctKeys(kvs)
    ensures r.Failure? ==> r.error == UnreadableInput(path)
    ensures r.Success? ==> |r.value| == |kvs|
    ensures r.Success? ==> forall i :: 0 <= i < |kvs| ==> r.value[i] == (kvs[i].0, kvs[i].1.text)
  {
    if AllStrings(kvs) && DistinctKeys(kvs) then Success(Texts(kvs)) else Failure(UnreadableInput(path))
  }

  function Texts(kvs: Parameters): (r: seq<(string, string)>)
    requires AllStrings(kvs)
    ensures |r| == |kvs| && forall i :: 0 <= i < |kvs| ==> r[i] == (kvs[i].0, kvs[i].1.text)
  {
    if kvs == [] then []
    else Texts(kvs[..|kvs| - 1]) + [(kvs[|kvs| - 1].0, kvs[|kvs| - 1].1.text)]
  }

  /** CreateStringsData's loop: one entry per pair, in order, with its argument count. */
  method CreateStringsData(pairs: seq<(string, string)>) returns (entries: seq<StringEntry>)
    ensures |entries| == |pairs|
    ensures forall i :: 0 <= i < |pairs| ==>
      entries[i] == StringEntry(pairs[i].0, pairs[i].1, ArgCount(pairs[i].1))
  {
    entries := [];
    var k := 0;
    while k < |pairs|
      invariant 0 <= k <= |pairs| && |entries| == k
      invariant forall i :: 0 <= i < k ==> entries[i] == StringEntry(pairs[i].0, pairs[i].1, ArgCount(pairs[i].1))
    {
      var n := CountArguments(pairs[k].1);
      entries := entries + [StringEntry(pairs[k].0, pairs[k].1, n)];
      k := k + 1;
    }
  }

  /** The entries CreateStringsData builds, as a value. */
  function Entries(pairs: seq<(string, string)>): (r: seq<StringEntry>)
    ensures |r| == |pairs|
    ensures forall i :: 0 <= i < |pairs| ==> r[i] == StringEntry(pairs[i].0, pairs[i].1, ArgCount(pairs[i].1))
  {
    if pairs == [] then []
    else
      var last := pairs[|pairs| - 1];
      Entries(pairs[..|pairs| - 1]) + [StringEntry(last.0, last.1, ArgCount(last.1))]
  }

  /** The data array: the entries' values, in order. */
  function DataStrings(entries: seq<StringEntry>): (r: seq<string>)
    ensures |r| == |entries|
    ensures forall i :: 0 <= i < |entries| ==> r[i] == entries[i].value
  {
    if entries == [] then [] else DataStrings(entries[..|entries| - 1]) + [entries[|entries| - 1].value]
  }

  /** The data file holds the strings file's texts in file order, and the i-th entry is named by the i-th key. */
  lemma DataFollowsFile(path: Path, kvs: Parameters)
    requires ReadStringsFile(path, kvs).Success?
    ensures var entries := Entries(ReadStringsFile(path, kvs).value);
      DataStrings(entries) == seq(|kvs|, i requires 0 <= i < |kvs| => kvs[i].1.text)
      && forall i :: 0 <= i < |kvs| ==> entries[i].name == kvs[i].0
  {
  }

  // ---------------------------------------------------------------------------
  // The generated C# text (WriteCsOutput)
  // ---------------------------------------------------------------------------

  /** The names of the first n arguments with the given prefix: prefix0, prefix1, … */
  function ArgNames(prefix: string, n: nat): (r: seq<string>)
    ensures |r| == n
    ensures forall j :: 0 <= j < n ==> r[j] == prefix + NatToString(j)
  {
    if n == 0 then [] else ArgNames(prefix, n - 1) + [prefix + NatToString(n - 1)]
  }

  /** The parts joined by the separator, which goes between parts only (as the StringBuilder loops build it). */
  function Join(sep: string, parts: seq<string>): string
  {
    if |parts| == 0 then ""
    else if |parts| == 1 then parts[0]
    else Join(sep, parts[..|parts| - 1]) + sep + parts[|parts| - 1]
  }

  /** String.Join, defined from the front: the reference the loop's joining is checked against. */
  function JoinFromFront(sep: string, parts: seq<string>): string
  {
    if |parts| == 0 then ""
    else if |parts| == 1 then parts[0]
    else parts[0] + sep + JoinFromFront(sep, parts[1..])
  }

  /** Joining from the back and from the front give the same text. */
  lemma {:induction false} JoinIsStringJoin(sep: string, parts: seq<string>)
    ensures Join(sep, parts) == JoinFromFront(sep, parts)
    decreases |parts|
  {
    if |parts| >= 2 {
      JoinCons(sep, parts);
      JoinIsStringJoin(sep, parts[1..]);
    }
  }

  lemma {:induction false} JoinCons(sep: string, parts: seq<string>)
    requires |parts| >= 2
    ensures Join(sep, parts) == parts[0] + sep + Join(sep, parts[1..])
    decreases |parts|
  {
    var init := parts[..|parts| - 1];
    if |parts| == 2 {
      assert init == [parts[0]];
      assert parts[1..] == [parts[1]];
    } else {
      JoinCons(sep, init);
      assert init[0] == parts[0];
      assert parts[1..][..|parts[1..]| - 1] == init[1..];
      assert parts[1..][|parts[1..]| - 1] == parts[|parts| - 1];
    }
  }

  /** A non-empty join starts with its first part and ends with its last: no leading or trailing separator. */
  lemma JoinEnds(sep: string, parts: seq<string>)
    requires |parts| >= 1
    ensures StartsWith(Join(sep, parts), parts[0])
    ensures EndsWith(Join(sep, parts), parts[|parts| - 1])
  {
    JoinStarts(sep, parts);
    var last := parts[|parts| - 1];
    if |parts| >= 2 {
      var front := Join(sep, parts[..|parts| - 1]) + sep;
      assert Join(sep, parts) == front + last;
      assert (front + last)[|front|..] == last;
    }
  }

  lemma JoinStarts(sep: string, parts: seq<string>)
    requires |parts| >= 1
    ensures StartsWith(Join(sep, parts), parts[0])
  {
    if |parts| >= 2 {
      JoinCons(sep, parts);
      var rest := sep + Join(sep, parts[1..]);
      assert (parts[0] + rest)[..|parts[0]|] == parts[0];
    }
  }

  /**
   * The list of n > 0 names runs from prefix0 to prefix(n-1), so the
   * argument list is "arg0, …, arg(n-1)" and the parameter list
   * "object arg0, …, object arg(n-1)".
   */
  lemma ArgumentListEnds(prefix: string, n: nat)
    requires n > 0
    ensures StartsWith(Join(", ", ArgNames(prefix, n)), prefix + "0")
    ensures EndsWith(Join(", ", ArgNames(prefix, n)), prefix + NatToString(n - 1))
  {
    var names := ArgNames(prefix, n);
    assert NatToString(0) == "0";
    assert names[0] == prefix + "0";
    JoinEnds(", ", names);
  }

  /** The j-th parameter declares the j-th argument. */
  lemma ParametersDeclareArguments(n: nat, j: nat)
    requires j < n
    ensures ArgNames("object arg", n)[j] == "object " + ArgNames("arg", n)[j]
  {
  }

  /** The two StringBuilder loops of WriteCsOutput for an entry with n arguments. */
  method ArgumentLists(n: nat) returns (args: string, parameters: string)
    ensures args == Join(", ", ArgNames("arg", n))
    ensures parameters == Join(", ", ArgNames("object arg", n))
  {
    args := "";
    parameters := "";
    var j := 0;
    while j < n
      invariant 0 <= j <= n
      invariant args == Join(", ", ArgNames("arg", j)) + if 0 < j < n then ", " else ""
      invariant parameters == Join(", ", ArgNames("object arg", j)) + if 0 < j < n then ", " else ""
    {
      assert ArgNames("arg", j + 1)[..j] == ArgNames("arg", j);
      assert ArgNames("object arg", j + 1)[..j] == ArgNames("object arg", j);
      args := args + ("arg" + NatToString(j));
      parameters := parameters + ("object arg" + NatToString(j));
      if j < n - 1 {
        args := args + ", ";
        parameters := parameters + ", ";
      }
      j := j + 1;
    }
  }

  /** The text `strings[i]` an accessor reads its string with. */
  function IndexText(i: nat): string
  {
    "strings[" + NatToString(i) + "]"
  }

  /** The accessor line for entry i: a property without arguments, a formatting method with them. */
  function AccessorLine(e: StringEntry, i: nat): string
  {
    if e.argCount == 0 then
      "public string " + e.name + " { get { return " + IndexText(i) + "; } }"
    else
      "public string " + e.name + "(" + Join(", ", ArgNames("object arg", e.argCount)) + ") { return String.Format("
        + IndexText(i) + ", " + Join(", ", ArgNames("arg", e.argCount)) + "); }"
  }

  /**
   * The accessor for entry i reads element i of the data array, and the
   * accessors of two different entries read different elements.
   */
  lemma AccessorReadsItsString(e: StringEntry, i: nat, j: nat)
    ensures exists p :: OccursAt(AccessorLine(e, i), IndexText(i), p)
    ensures IndexText(i) == IndexText(j) ==> i == j
  {
    var head := if e.argCount == 0 then "public string " + e.name + " { get { return "
      else "public string " + e.name + "(" + Join(", ", ArgNames("object arg", e.argCount)) + ") { return String.Format(";
    var line := AccessorLine(e, i);
    assert line == head + IndexText(i) + line[|head| + |IndexText(i)|..];
    assert line[|head|..|head| + |IndexText(i)|] == IndexText(i);
    assert OccursAt(line, IndexText(i), |head|);
    if IndexText(i) == IndexText(j) {
      var ti, tj := NatToString(i), NatToString(j);
      assert IndexText(i)[8..|IndexText(i)| - 1] == ti;
      assert IndexText(j)[8..|IndexText(j)| - 1] == tj;
      NatToStringInjective(i, j);
    }
  }

  /** The line WriteCsOutput writes for entry i. */
  method WriteAccessor(e: StringEntry, i: nat) returns (line: string)
    ensures line == AccessorLine(e, i)
  {
    if e.argCount == 0 {
      line := "public string " + e.name + " { get { return " + IndexText(i) + "; } }";
    } else {
      var args, parameters := ArgumentLists(e.argCount);
      line := "public string " + e.name + "(" + parameters + ") { return String.Format("
        + IndexText(i) + ", " + args + "); }";
    }
  }

  /** The lines WriteCsOutput writes before the accessors. */
  function CsHeader(namespace: string, className: string, generatedOn: string): (r: seq<string>)
    ensures |r| == HeaderLength
  {
    ["//", "// This file was generated on " + generatedOn + ".", "//", "",
     "using System;", "",
     "namespace " + namespace, "{",
     "public class " + className, "{",
     "private string[] strings;", "",
     "public " + className + "(string[] strings)", "{", "this.strings = strings;", "}", ""]
  }

  const HeaderLength := 17

  /**
   * WriteCsOutput: the header, one accessor per entry in entry order, and
   * the two closing braces.
   */
  method WriteCsOutput(namespace: string, className: string, generatedOn: string, entries: seq<StringEntry>)
    returns (lines: seq<string>)
    ensures lines == Lines(namespace, className, generatedOn, entries)
  {
    var accessors := [];
    var i := 0;
    while i < |entries|
      invariant 0 <= i <= |entries|
      invariant accessors == AccessorLines(entries[..i])
    {
      assert entries[..i + 1][..i] == entries[..i];
      var line := WriteAccessor(entries[i], i);
      accessors := accessors + [line];
      i := i + 1;
    }
    assert entries[..i] == entries;
    lines := CsHeader(namespace, className, generatedOn) + accessors + ["}", "}"];
  }

  /**
   * The C# file is the header, then the accessor for entry i on line
   * HeaderLength + i for every entry in order, then the two closing braces.
   */
  lemma LinesLayout(namespace: string, className: string, generatedOn: string, entries: seq<StringEntry>)
    ensures var lines := Lines(namespace, className, generatedOn, entries);
      |lines| == HeaderLength + |entries| + 2
      && lines[..HeaderLength] == CsHeader(namespace, className, generatedOn)
      && (forall i :: 0 <= i < |entries| ==> lines[HeaderLength + i] == AccessorLine(entries[i], i))
      && lines[|lines| - 2..] == ["}", "}"]
  {
    var lines := Lines(namespace, className, generatedOn, entries);
    assert lines[..HeaderLength] == CsHeader(namespace, className, generatedOn);
    forall i | 0 <= i < |entries|
      ensures lines[HeaderLength + i] == AccessorLine(entries[i], i)
    {
      MapIndexedAt(AccessorLine, entries, i);
      assert lines[HeaderLength + i] == AccessorLines(entries)[i];
    }
  }

  // ---------------------------------------------------------------------------
  // The class name and the filter
  // ---------------------------------------------------------------------------

  /** The ClassName after the filter's rewrite: a name starting with "Xxx" has every "Xxx" replaced by the base name and "Strings". */
  function RewrittenClassName(className: string, baseName: string): string
  {
    if StartsWith(className, "Xxx") then ReplaceAll(className, "Xxx", baseName + "Strings") else className
  }

  /** A rewritten name starts with the base name and "Strings"; any other name is kept. */
  lemma ClassNameRewrite(className: string, baseName: string)
    ensures StartsWith(className, "Xxx") ==>
      StartsWith(RewrittenClassName(className, baseName), baseName + "Strings")
    ensures !StartsWith(className, "Xxx") ==> RewrittenClassName(className, baseName) == className
  {
    if StartsWith(className, "Xxx") {
      ReplaceAllAtStart(className, "Xxx", baseName + "Strings");
      var r := RewrittenClassName(className, baseName);
      assert r[..|baseName + "Strings"|] == baseName + "Strings";
    }
  }

  /**
   * The default name keeps its own "Strings" after the rewrite, so a file
   * Foo.strings gets the class FooStringsStrings.
   */
  lemma DefaultClassName(baseName: string)
    ensures RewrittenClassName(ClassNameDefault, baseName) == baseName + "Strings" + "Strings"
  {
    assert ClassNameDefault == "Xxx" + "Strings";
    assert 'X' !in "Strings";
    RewriteXxxPrefix("Strings", baseName);
  }

  /** A name made of "Xxx" and a rest without 'X' becomes the base name, "Strings" and the rest. */
  lemma RewriteXxxPrefix(rest: string, baseName: string)
    requires 'X' !in rest
    ensures RewrittenClassName("Xxx" + rest, baseName) == baseName + "Strings" + rest
  {
    var s, rep := "Xxx" + rest, baseName + "Strings";
    assert s[..3] == "Xxx" && s[3..] == rest;
    ReplaceAllAtStart(s, "Xxx", rep);
    ReplaceAllWithoutFirst(rest, "Xxx", rep);
  }

  /** Rewriting a second time changes nothing unless the base name itself starts with "Xxx". */
  lemma RewriteOnce(className: string, baseName: string)
    requires !StartsWith(baseName + "Strings", "Xxx")
    ensures RewrittenClassName(RewrittenClassName(className, baseName), baseName)
         == RewrittenClassName(className, baseName)
  {
    if StartsWith(className, "Xxx") {
      ClassNameRewrite(className, baseName);
      var r, p := RewrittenClassName(className, baseName), baseName + "Strings";
      assert r[..3] == p[..3];
    }
  }

  /** What the filter writes: the C# file's lines and the data file's strings. */
  datatype StringsOutput = StringsOutput(csPath: Path, csLines: seq<string>, dataPath: Path, data: seq<string>)

  /** The filter's outputs for the given class name, namespace and strings file contents. */
  function Outputs(outputPaths: seq<Path>, namespace: string, className: string, generatedOn: string,
                   pairs: seq<(string, string)>): StringsOutput
    requires |outputPaths| == 2
  {
    var entries := Entries(pairs);
    StringsOutput(outputPaths[0], Lines(namespace, className, generatedOn, entries), outputPaths[1], DataStrings(entries))
  }

  /** The C# file as a value. */
  function Lines(namespace: string, className: string, generatedOn: string, entries: seq<StringEntry>): seq<string>
  {
    CsHeader(namespace, className, generatedOn) + AccessorLines(entries) + ["}", "}"]
  }

  /** The accessor lines of the entries, in entry order. */
  function AccessorLines(entries: seq<StringEntry>): (r: seq<string>)
    ensures |r| == |entries|
  {
    MapIndexed(AccessorLine, entries)
  }

  /** The lines f(e, i) for each entry e at position i, in order. */
  function MapIndexed(f: (StringEntry, nat) -> string, entries: seq<StringEntry>): (r: seq<string>)
    ensures |r| == |entries|
  {
    if entries == [] then []
    else MapIndexed(f, entries[..|entries| - 1]) + [f(entries[|entries| - 1], |entries| - 1)]
  }

  /** Line i of the mapped lines is f of entry i and its position. */
  lemma {:induction false} MapIndexedAt(f: (StringEntry, nat) -> string, entries: seq<StringEntry>, i: nat)
    requires i < |entries|
    ensures MapIndexed(f, entries)[i] == f(entries[i], i)
  {
    var init := entries[..|entries| - 1];
    if i < |init| {
      MapIndexedAt(f, init, i);
      assert init[i] == entries[i];
    }
  }

  /** The filter instance: its two parameter properties, which the engine sets before each run. */
  class StringsToDataAndCsFilter {
    var className: string
    var namespace: string

    constructor (className: string, namespace: string)
      ensures this.className == className && this.namespace == namespace
    {
      this.className := className;
      this.namespace := namespace;
    }

    /**
     * Filter for one target. `baseName` is ParsedPath.File, `read` the
     * strings file's object node, `generatedOn` the DateTime.Now text.
     * The arity checks come first; then ClassName is rewritten in place.
     */
    method Filter(inputPaths: seq<Path>, outputPaths: seq<Path>, baseName: Path -> string,
                  read: Path -> Parameters, generatedOn: string) returns (r: Result<StringsOutput, Error>)
      modifies this
      ensures namespace == old(namespace)
      ensures |inputPaths| != 1 ==> r == Failure(WrongInputCount(1, NoLocation)) && className == old(className)
      ensures |inputPaths| == 1 && |outputPaths| != 2 ==> r == Failure(WrongOutputCount(2, NoLocation)) && className == old(className)
      ensures |inputPaths| == 1 && |outputPaths| == 2 ==>
        className == RewrittenClassName(old(className), baseName(inputPaths[0]))
        && r == match ReadStringsFile(inputPaths[0], read(inputPaths[0]))
                case Failure(e) => Failure(e)
                case Success(pairs) => Success(Outputs(outputPaths, namespace, className, generatedOn, pairs))
    {
      if |inputPaths| != 1 {
        return Failure(WrongInputCount(1, NoLocation));
      }
      if |outputPaths| != 2 {
        return Failure(WrongOutputCount(2, NoLocation));
      }
      var stringsFilePath := inputPaths[0];
      var csFilePath := outputPaths[0];
      var dataFilePath := outputPaths[1];
      if StartsWith(className, "Xxx") {
        className := ReplaceAll(className, "Xxx", baseName(stringsFilePath) + "Strings");
      }
      var file := ReadStringsFile(stringsFilePath, read(stringsFilePath));
      if file.Failure? {
        return Failure(file.error);
      }
      var entries := CreateStringsData(file.value);
      assert entries == Entries(file.value);
      var strings := DataStrings(entries);
      var lines := WriteCsOutput(namespace, className, generatedOn, entries);
      return Success(StringsOutput(csFilePath, lines, dataFilePath, strings));
    }
  }
}
