/**
 * The generator's `main`: it builds one `Object` per record of the schema,
 * sorts them by their lower-cased Elm name, and writes one Elm module made
 * of the module line and its exposing list, a doc comment naming the
 * schema and the generation time, the imports the generated code calls
 * for (chosen by looking for marker substrings in that code), the two JSON
 * imports, and the rendered type definitions, encoders and decoders.
 */
module ModuleEmitter {
  import opened Wrappers
  import opened Text
  import opened Sorting
  import opened FieldTypes
  import opened Fields
  import opened Objects

  /** The parsed schema: its `name` and its `objects` in document order. */
  datatype Schema = Schema(name: string, objects: seq<(string, ObjectDecl)>)

  // ----- The records of the schema ------------------------------------------

  /** No later entry has the same name as entry `i`. */
  predicate LastNamed(entries: seq<(string, ObjectDecl)>, i: nat)
    requires i < |entries|
  {
    forall j :: i < j < |entries| ==> entries[j].0 != entries[i].0
  }

  /** The names of the records, as a set. */
  function Names(entries: seq<(string, ObjectDecl)>): set<string>
  {
    set e | e in entries :: e.0
  }

  /**
   * The schema's records as the field types see them: each record name
   * mapped to whether the record carries `anti_recursion`.
   */
  function Catalogue(entries: seq<(string, ObjectDecl)>): (r: map<string, bool>)
    ensures r.Keys == Names(entries)
  {
    if entries == [] then map[]
    else
      var init, last := entries[..|entries| - 1], entries[|entries| - 1];
      assert entries == init + [last];
      assert Names(entries) == Names(init) + {last.0};
      Catalogue(init)[last.0 := last.1.antiRecursion]
  }

  /** A record that no later entry repeats is catalogued with its own `anti_recursion` flag. */
  lemma {:induction false} CatalogueLastWins(entries: seq<(string, ObjectDecl)>, i: nat)
    requires i < |entries| && LastNamed(entries, i)
    ensures entries[i].0 in Catalogue(entries)
    ensures Catalogue(entries)[entries[i].0] == entries[i].1.antiRecursion
  {
    var init, last := entries[..|entries| - 1], entries[|entries| - 1];
    if i < |init| {
      assert init[i] == entries[i];
      assert LastNamed(init, i) by {
        forall j | i < j < |init| ensures init[j].0 != init[i].0 {
          assert init[j] == entries[j];
        }
      }
      assert last.0 != entries[i].0 by {
        assert entries[|entries| - 1] == last;
      }
      CatalogueLastWins(init, i);
    }
  }

  /**
   * One object per record in document order, or the error of the first
   * record that cannot be built.
   */
  function ResolveObjects(entries: seq<(string, ObjectDecl)>, objects: map<string, bool>): (r: Result<seq<Object>, BuildError>)
    ensures r.Ok? ==>
      && |r.value| == |entries|
      && forall i :: 0 <= i < |entries| ==> ObjectOf(entries[i].0, entries[i].1, objects) == Ok(r.value[i])
  {
    if entries == [] then Ok([])
    else
      var init, last := entries[..|entries| - 1], entries[|entries| - 1];
      match ResolveObjects(init, objects)
      case Err(e) => Err(e)
      case Ok(os) =>
        match ObjectOf(last.0, last.1, objects)
        case Err(e) => Err(e)
        case Ok(o) =>
          ObjectsExtend(entries, os, o, objects);
          Ok(os + [o])
  }

  lemma ObjectsExtend(entries: seq<(string, ObjectDecl)>, os: seq<Object>, o: Object, objects: map<string, bool>)
    requires |entries| == |os| + 1
    requires forall i :: 0 <= i < |os| ==> ObjectOf(entries[i].0, entries[i].1, objects) == Ok(os[i])
    requires ObjectOf(entries[|os|].0, entries[|os|].1, objects) == Ok(o)
    ensures forall i :: 0 <= i < |entries| ==> ObjectOf(entries[i].0, entries[i].1, objects) == Ok((os + [o])[i])
  {
  }

  /** Building one more record: the prefix's objects, then the new object or its error. */
  lemma ResolveObjectsStep(entries: seq<(string, ObjectDecl)>, i: nat, os: seq<Object>, objects: map<string, bool>)
    requires i < |entries| && ResolveObjects(entries[..i], objects) == Ok(os)
    ensures var o := ObjectOf(entries[i].0, entries[i].1, objects);
      ResolveObjects(entries[..i + 1], objects) == if o.Ok? then Ok(os + [o.value]) else Err(o.error)
  {
    assert entries[..i + 1][..i] == entries[..i];
  }

  /** Once a prefix of the records fails, building all of them fails with the same error. */
  lemma {:induction false} ResolveObjectsPrefixErr(entries: seq<(string, ObjectDecl)>, k: nat, objects: map<string, bool>)
    requires k <= |entries| && ResolveObjects(entries[..k], objects).Err?
    ensures ResolveObjects(entries, objects) == ResolveObjects(entries[..k], objects)
    decreases |entries| - k
  {
    if k < |entries| {
      assert entries[..k + 1][..k] == entries[..k];
      ResolveObjectsPrefixErr(entries, k + 1, objects);
    } else {
      assert entries[..k] == entries;
    }
  }

  /** Record `i` is the first that cannot be built, and it fails with `e`. */
  predicate FailsFirstAt(entries: seq<(string, ObjectDecl)>, objects: map<string, bool>, i: nat, e: BuildError)
    requires i < |entries|
  {
    && ObjectOf(entries[i].0, entries[i].1, objects) == Err(e)
    && forall j :: 0 <= j < i ==> ObjectOf(entries[j].0, entries[j].1, objects).Ok?
  }

  lemma FailsFirstAtExtends(entries: seq<(string, ObjectDecl)>, objects: map<string, bool>, i: nat, e: BuildError)
    requires 0 < |entries| && i < |entries| - 1 && FailsFirstAt(entries[..|entries| - 1], objects, i, e)
    ensures FailsFirstAt(entries, objects, i, e)
  {
    var init := entries[..|entries| - 1];
    assert init[i] == entries[i];
    assert forall j :: 0 <= j < i ==> init[j] == entries[j];
  }

  /** Building fails exactly with the error of the first record that fails. */
  lemma {:induction false} ResolveObjectsError(entries: seq<(string, ObjectDecl)>, objects: map<string, bool>)
    requires ResolveObjects(entries, objects).Err?
    ensures exists i :: 0 <= i < |entries| && FailsFirstAt(entries, objects, i, ResolveObjects(entries, objects).error)
  {
    var init := entries[..|entries| - 1];
    var n := |entries| - 1;
    var e := ResolveObjects(entries, objects).error;
    if ResolveObjects(init, objects).Err? {
      ResolveObjectsError(init, objects);
      var i :| 0 <= i < |init| && FailsFirstAt(init, objects, i, e);
      FailsFirstAtExtends(entries, objects, i, e);
    } else {
      assert forall j :: 0 <= j < n ==> init[j] == entries[j];
      assert FailsFirstAt(entries, objects, n, e);
    }
  }

  /** The sort key of `object_list.sort`: the Elm name, lower-cased. */
  function SortKey(o: Object): string
  {
    Lower(ElmName(o.name))
  }

  // ----- The module line and its exposing list ------------------------------

  /** Python's `s[n:]`: the string without its first `n` characters, empty when it is shorter. */
  function Drop(s: string, n: nat): (r: string)
    ensures n <= |s| ==> r == s[n..]
    ensures |s| < n ==> r == []
  {
    if |s| < n then [] else s[n..]
  }

  /** `OUT_FILE`: the output path without a trailing `.elm`. */
  function OutFile(outFile: string): (r: string)
    ensures HasSuffix(outFile, ".elm") ==> r + ".elm" == outFile
    ensures !HasSuffix(outFile, ".elm") ==> r == outFile
  {
    if HasSuffix(outFile, ".elm") then outFile[..|outFile| - 4] else outFile
  }

  /**
   * The Elm module name: `OUT_FILE` without its first four characters (the
   * `src/` directory), with `/` and `\` turned into dots.
   */
  function ModuleName(outFile: string): (r: string)
    ensures '/' !in r && '\\' !in r
    ensures |r| == |Drop(OutFile(outFile), 4)|
  {
    ReplaceChar(ReplaceChar(Drop(OutFile(outFile), 4), '/', '.'), '\\', '.')
  }

  /**
   * The module line as the generator writes it: the backslash replacement
   * applies to the whole line, which comes to the same as applying it to
   * the module name alone.
   */
  function ModuleLine(outFile: string): (r: string)
    ensures r == "module " + ModuleName(outFile) + " exposing (\n    "
  {
    var slashed := ReplaceChar(Drop(OutFile(outFile), 4), '/', '.');
    ReplaceAppend("module " + slashed, " exposing (\n    ", '\\', '.');
    ReplaceAppend("module ", slashed, '\\', '.');
    ReplaceAbsent("module ", '\\', '.');
    ReplaceAbsent(" exposing (\n    ", '\\', '.');
    ReplaceChar("module " + slashed + " exposing (\n    ", '\\', '.')
  }

  /**
   * A source file `src/A/B/C.elm`, written with either separator, is the
   * module `A.B.C`.
   */
  lemma ModuleNameOfSourcePath(segs: seq<string>, sep: char)
    requires |segs| >= 1 && (sep == '/' || sep == '\\')
    requires forall w <- segs :: '/' !in w && '\\' !in w
    ensures ModuleName("src" + [sep] + Join(segs, [sep]) + ".elm") == Join(segs, ".")
  {
    DropSourceDirectory(Join(segs, [sep]), sep);
    ReplaceJoin(segs, sep, '.');
    if sep == '/' {
      JoinAvoids(segs, ".", '\\');
      ReplaceAbsent(Join(segs, "."), '\\', '.');
    } else {
      JoinAvoids(segs, [sep], '/');
      ReplaceAbsent(Join(segs, [sep]), '/', '.');
    }
  }

  lemma DropSourceDirectory(rest: string, sep: char)
    ensures Drop(OutFile("src" + [sep] + rest + ".elm"), 4) == rest
  {
    var path := "src" + [sep] + rest;
    assert (path + ".elm")[|path + ".elm"| - 4..] == ".elm";
    assert (path + ".elm")[..|path + ".elm"| - 4] == path;
    assert path[4..] == rest;
  }

  /** A character in no piece and not in the separator is not in the join. */
  lemma {:induction false} JoinAvoids(ws: seq<string>, sep: string, c: char)
    requires c !in sep && forall w <- ws :: c !in w
    ensures c !in Join(ws, sep)
  {
    if |ws| > 1 {
      assert ws[0] in ws;
      JoinAvoids(ws[1..], sep, c);
    } else if |ws| == 1 {
      assert ws[0] in ws;
    }
  }

  /** One object's entry in the exposing list: its type (with constructors when `anti_recursion`), encoder and decoder. */
  function ExposingEntry(o: Object): (r: string)
    requires ElmName(o.name) != []
    ensures HasPrefix(r, ElmName(o.name))
    ensures HasPrefix(r, ElmName(o.name) + "(..)") <==> o.antiRecursion
    ensures HasSuffix(r, "\n    , " + EncoderName(o.name) + "\n    , " + DecoderName(o.name))
  {
    var elm := ElmName(o.name);
    var names := "\n    , " + EncoderName(o.name) + "\n    , " + DecoderName(o.name);
    var r := (if o.antiRecursion then elm + "(..)" else elm) + names;
    assert r[..|elm|] == elm;
    assert !o.antiRecursion ==> r[|elm|] == '\n' && (elm + "(..)")[|elm|] == '(';
    assert o.antiRecursion ==> r == elm + "(..)" + names;
    r
  }

  predicate Named(objs: seq<Object>)
  {
    forall o <- objs :: ElmName(o.name) != []
  }

  function ExposingEntries(objs: seq<Object>): (r: seq<string>)
    requires Named(objs)
    ensures |r| == |objs| && forall i :: 0 <= i < |objs| ==> r[i] == ExposingEntry(objs[i])
  {
    seq(|objs|, i requires 0 <= i < |objs| => ExposingEntry(objs[i]))
  }

  /** The exposing list: every object's entry, one name per line, closed by `)`. */
  function ExposingList(objs: seq<Object>): (r: string)
    requires Named(objs)
    ensures HasSuffix(r, "\n    )\n")
  {
    Join(ExposingEntries(objs), "\n    , ") + "\n    )\n"
  }

  /** Every object's entry occurs in the exposing list. */
  lemma ExposingListHolds(objs: seq<Object>, k: nat)
    requires Named(objs) && k < |objs|
    ensures Contains(ExposingList(objs), ExposingEntry(objs[k]))
  {
    var entries := ExposingEntries(objs);
    ContainsPrefix(entries[k], entries[k]);
    ContainsJoin(entries, "\n    , ", k, entries[k]);
    ContainsInLeft(Join(entries, "\n    , "), "\n    )\n", entries[k]);
  }

  // ----- The generated code ---------------------------------------------------

  /** Every object of the list can be rendered without an `IndexError`. */
  predicate AllRenderable(objs: seq<Object>, objects: map<string, bool>)
  {
    forall o <- objs :: DecoderRenderable(o, objects)
  }

  /** One object's code: its type definition, then its encoder, then its decoder. */
  function ObjectCode(o: Object, objects: map<string, bool>): (r: string)
    requires DecoderRenderable(o, objects)
    ensures HasPrefix(r, ObjectTypeDefinition(o))
    ensures Contains(r, ObjectEncoder(o))
    ensures HasSuffix(r, ObjectDecoder(o, objects))
  {
    var def, enc, dec := ObjectTypeDefinition(o), ObjectEncoder(o), ObjectDecoder(o, objects);
    ThreeParts(def, enc, dec);
    def + enc + dec
  }

  lemma ThreeParts(a: string, b: string, c: string)
    ensures HasPrefix(a + b + c, a) && Contains(a + b + c, b) && HasSuffix(a + b + c, c)
  {
    assert (a + b + c)[..|a|] == a;
    ContainsPrefix(b, b);
    ContainsInMiddle(a, b, c, b);
  }

  function ObjectCodes(objs: seq<Object>, objects: map<string, bool>): (r: seq<string>)
    requires AllRenderable(objs, objects)
    ensures |r| == |objs| && forall i :: 0 <= i < |objs| ==> r[i] == ObjectCode(objs[i], objects)
  {
    seq(|objs|, i requires 0 <= i < |objs| && AllRenderable(objs, objects) => ObjectCode(objs[i], objects))
  }

  /** `content`: the code of every object, in list order. */
  function Content(objs: seq<Object>, objects: map<string, bool>): string
    requires AllRenderable(objs, objects)
  {
    Concat(ObjectCodes(objs, objects))
  }

  /** The code of every object occurs in the content. */
  lemma ContentHolds(objs: seq<Object>, objects: map<string, bool>, k: nat)
    requires AllRenderable(objs, objects) && k < |objs|
    ensures Contains(Content(objs, objects), ObjectCode(objs[k], objects))
  {
    var codes := ObjectCodes(objs, objects);
    ContainsPrefix(codes[k], codes[k]);
    ContainsConcat(codes, k, codes[k]);
  }

  // ----- The imports ----------------------------------------------------------

  /** The imports the generator may write, in the order it writes them. */
  datatype Import = DictImport | DecodeExtraImport | EncodeExtraImport | TimestampImport | EnumsImport

  /** The substrings of the content whose presence calls for each import. */
  predicate Needs(i: Import, content: string)
  {
    match i
    case DictImport => Contains(content, "Dict")
    case DecodeExtraImport => Contains(content, "opField ") || Contains(content, "opFieldWithDefault ")
    case EncodeExtraImport => Contains(content, "maybeObject")
    case TimestampImport => Contains(content, "Timestamp")
    case EnumsImport => Contains(content, "Enums")
  }

  /** The content calls one of the decoders `D.map9` to `D.map11`, which the Elm core library lacks. */
  predicate UsesWideMap(content: string)
  {
    Contains(content, "map9") || Contains(content, "map10") || Contains(content, "map11")
  }

  /** The helpers of `Internal.Tools.DecodeExtra` that the content calls, in the order they are imported. */
  function OpFieldHelpers(content: string): seq<string>
  {
    (if Contains(content, "opField ") then ["opField"] else [])
    + (if Contains(content, "opFieldWithDefault ") then ["opFieldWithDefault"] else [])
  }

  /** The module name in the `Internal.Tools.DecodeExtra` import. */
  function DecodeExtraModule(content: string): string
  {
    if UsesWideMap(content) then "Internal.Tools.DecodeExtra as D" else "Internal.Tools.DecodeExtra"
  }

  /**
   * The `Internal.Tools.DecodeExtra` import as the generator's three
   * branches write it: one statement exposing exactly the helpers the
   * content calls.
   */
  function DecodeExtraLine(content: string): (r: Option<string>)
    ensures r.Some? <==> OpFieldHelpers(content) != []
    ensures r.Some? ==>
      r.value == ImportOf(DecodeExtraModule(content) + " exposing (" + Join(OpFieldHelpers(content), ", ") + ")\n")
  {
    var m := DecodeExtraModule(content);
    HelperLists();
    if Contains(content, "opField ") && Contains(content, "opFieldWithDefault ") then
      Some(ImportOf(m + " exposing (" + "opField, opFieldWithDefault" + ")\n"))
    else if Contains(content, "opFieldWithDefault ") then
      Some(ImportOf(m + " exposing (" + "opFieldWithDefault" + ")\n"))
    else if Contains(content, "opField ") then
      Some(ImportOf(m + " exposing (" + "opField" + ")\n"))
    else
      None
  }

  lemma HelperLists()
    ensures Join(["opField", "opFieldWithDefault"], ", ") == "opField, opFieldWithDefault"
    ensures Join(["opField"], ", ") == "opField"
    ensures Join(["opFieldWithDefault"], ", ") == "opFieldWithDefault"
  {
    assert ["opField", "opFieldWithDefault"][1..] == ["opFieldWithDefault"];
  }

  /** A line that begins with the `import` keyword. */
  function ImportOf(rest: string): (r: string)
    ensures HasPrefix(r, "import ")
  {
    var r := "import " + rest;
    assert r[..7] == "import ";
    r
  }

  /** The line `line`, written only when the content holds `marker`. */
  function WhenUsed(content: string, marker: string, line: string): (r: Option<string>)
    ensures r.Some? <==> Contains(content, marker)
    ensures r.Some? ==> r.value == line
  {
    if Contains(content, marker) then Some(line) else None
  }

  /** The line written for an import, if the content calls for it. */
  function ImportLine(i: Import, content: string): (r: Option<string>)
    ensures r.Some? <==> Needs(i, content)
    ensures r.Some? ==> HasPrefix(r.value, "import ")
  {
    match i
    case DictImport => WhenUsed(content, "Dict", ImportOf("Dict exposing (Dict)\n"))
    case DecodeExtraImport => DecodeExtraLine(content)
    case EncodeExtraImport =>
      WhenUsed(content, "maybeObject", ImportOf("Internal.Tools.EncodeExtra exposing (maybeObject)\n"))
    case TimestampImport =>
      WhenUsed(content, "Timestamp",
        ImportOf("Internal.Tools.Timestamp exposing (Timestamp, encodeTimestamp, timestampDecoder)\n"))
    case EnumsImport => WhenUsed(content, "Enums", ImportOf("Internal.Tools.SpecEnums as Enums\n"))
  }

  function Written(line: Option<string>): string
  {
    if line.Some? then line.value else ""
  }

  /** The import block: the lines of the imports the content needs, in the generator's order. */
  function ImportBlock(content: string): string
  {
    Concat(ImportLines(content))
  }

  function ImportLines(content: string): (r: seq<string>)
    ensures |r| == 5
  {
    [ Written(ImportLine(DictImport, content)),
      Written(ImportLine(DecodeExtraImport, content)),
      Written(ImportLine(EncodeExtraImport, content)),
      Written(ImportLine(TimestampImport, content)),
      Written(ImportLine(EnumsImport, content)) ]
  }

  /** The position of each import in the block. */
  function Rank(i: Import): (k: nat)
    ensures k < 5
  {
    match i
    case DictImport => 0
    case DecodeExtraImport => 1
    case EncodeExtraImport => 2
    case TimestampImport => 3
    case EnumsImport => 4
  }

  /**
   * Every import the content needs is written, each in its own place:
   * the block is the needed lines in the generator's order, and an import
   * that is not needed contributes nothing.
   */
  lemma ImportBlockHolds(content: string, i: Import)
    ensures ImportLines(content)[Rank(i)] == if Needs(i, content) then ImportLine(i, content).value else ""
    ensures Needs(i, content) ==> Contains(ImportBlock(content), ImportLine(i, content).value)
  {
    var lines := ImportLines(content);
    var k := Rank(i);
    assert lines[k] == Written(ImportLine(i, content)) by {
      match i
      case DictImport =>
      case DecodeExtraImport =>
      case EncodeExtraImport =>
      case TimestampImport =>
      case EnumsImport =>
    }
    if Needs(i, content) {
      ContainsPrefix(lines[k], lines[k]);
      ContainsConcat(lines, k, lines[k]);
    }
  }

  // ----- The generated module -------------------------------------------------

  /** The doc comment naming the schema and the Unix time of generation. */
  function Banner(schemaName: string, time: nat): string
  {
    "{-| Automatically generated '" + schemaName + "'\n\nLast generated at Unix time " + NatToString(time) + "\n-}\n\n"
  }

  const JSON_IMPORTS := "\nimport Json.Decode as D\nimport Json.Encode as E\n\n"

  lemma RenderableNamed(objs: seq<Object>, objects: map<string, bool>)
    requires AllRenderable(objs, objects)
    ensures Named(objs)
  {
    forall o <- objs ensures ElmName(o.name) != [] {
      assert DecoderRenderable(o, objects);
    }
  }

  /**
   * The module text from its rendered parts, in the order the generator
   * writes them: the module line, the exposing list, the banner, a blank
   * line, the imports, the JSON imports, and the content.
   */
  function Module(line: string, exposing: string, banner: string, imports: string, content: string): string
  {
    line + exposing + banner + "\n" + imports + JSON_IMPORTS + content
  }

  /** Where each part lies in the module text. */
  lemma ModuleParts(line: string, exposing: string, banner: string, imports: string, content: string)
    ensures HasPrefix(Module(line, exposing, banner, imports, content), line)
    ensures HasSuffix(Module(line, exposing, banner, imports, content), content)
    ensures forall t :: Contains(exposing, t) ==> Contains(Module(line, exposing, banner, imports, content), t)
    ensures forall t :: Contains(imports, t) ==> Contains(Module(line, exposing, banner, imports, content), t)
  {
    var m := Module(line, exposing, banner, imports, content);
    var before := line + exposing + banner + "\n" + imports + JSON_IMPORTS;
    assert m == before + content;
    assert m[|before|..] == content;
    LineFirst(line, exposing + banner + "\n" + imports + JSON_IMPORTS + content);
    assert m == line + (exposing + banner + "\n" + imports + JSON_IMPORTS + content);
    forall t | Contains(exposing, t) ensures Contains(m, t) {
      ExposingInModule(line, exposing, banner, imports, content, t);
    }
    forall t | Contains(imports, t) ensures Contains(m, t) {
      ImportsInModule(line, exposing, banner, imports, content, t);
    }
  }

  lemma LineFirst(line: string, rest: string)
    ensures HasPrefix(line + rest, line)
  {
    assert (line + rest)[..|line|] == line;
  }

  lemma ExposingInModule(line: string, exposing: string, banner: string, imports: string, content: string, t: string)
    requires Contains(exposing, t)
    ensures Contains(Module(line, exposing, banner, imports, content), t)
  {
    var after := banner + "\n" + imports + JSON_IMPORTS + content;
    assert Module(line, exposing, banner, imports, content) == line + exposing + after;
    ContainsInMiddle(line, exposing, after, t);
  }

  lemma ImportsInModule(line: string, exposing: string, banner: string, imports: string, content: string, t: string)
    requires Contains(imports, t)
    ensures Contains(Module(line, exposing, banner, imports, content), t)
  {
    var before := line + exposing + banner + "\n";
    assert Module(line, exposing, banner, imports, content) == before + imports + (JSON_IMPORTS + content);
    ContainsInMiddle(before, imports, JSON_IMPORTS + content, t);
  }

  /**
   * The text of the generated module: the module line, the exposing list,
   * the banner, the imports, the JSON imports, then the content.
   */
  function Output(schemaName: string, outFile: string, time: nat, objs: seq<Object>, objects: map<string, bool>): (r: string)
    requires AllRenderable(objs, objects)
    ensures HasPrefix(r, "module " + ModuleName(outFile) + " exposing (\n    ")
    ensures HasSuffix(r, Content(objs, objects))
  {
    RenderableNamed(objs, objects);
    var content := Content(objs, objects);
    var line, exposing, banner, imports := ModuleLine(outFile), ExposingList(objs), Banner(schemaName, time), ImportBlock(content);
    ModuleParts(line, exposing, banner, imports, content);
    Module(line, exposing, banner, imports, content)
  }

  /** Every object's type, encoder and decoder are exposed by the module. */
  lemma OutputExposes(schemaName: string, outFile: string, time: nat, objs: seq<Object>, objects: map<string, bool>, k: nat)
    requires AllRenderable(objs, objects) && k < |objs|
    ensures Named(objs)
    ensures Contains(Output(schemaName, outFile, time, objs, objects), ExposingEntry(objs[k]))
  {
    RenderableNamed(objs, objects);
    var content := Content(objs, objects);
    ExposingListHolds(objs, k);
    ModuleParts(ModuleLine(outFile), ExposingList(objs), Banner(schemaName, time), ImportBlock(content), content);
  }

  /** Every import the content needs is written into the module. */
  lemma OutputImports(schemaName: string, outFile: string, time: nat, objs: seq<Object>, objects: map<string, bool>, i: Import)
    requires AllRenderable(objs, objects) && Needs(i, Content(objs, objects))
    ensures Contains(Output(schemaName, outFile, time, objs, objects), ImportLine(i, Content(objs, objects)).value)
  {
    RenderableNamed(objs, objects);
    var content := Content(objs, objects);
    ImportBlockHolds(content, i);
    ModuleParts(ModuleLine(outFile), ExposingList(objs), Banner(schemaName, time), ImportBlock(content), content);
  }

  /**
   * `main` as a value: build every object (stopping at the first type token
   * that does not resolve), sort them by lower-cased Elm name, and render
   * the module, unless some object cannot be rendered, which the generator
   * reports as an `IndexError`.
   */
  function GenerateSpec(schema: Schema, outFile: string, time: nat): (r: Result<string, BuildError>)
    ensures var built := ResolveObjects(schema.objects, Catalogue(schema.objects));
      && (built.Err? ==> r == Err(built.error))
      && (built.Ok? ==> (r.Err? <==> exists o <- built.value :: !DecoderRenderable(o, Catalogue(schema.objects))))
      && (built.Ok? && r.Err? ==> r.error == IndexOutOfRange)
    ensures r.Ok? ==> HasPrefix(r.value, "module " + ModuleName(outFile) + " exposing (\n    ")
  {
    var objects := Catalogue(schema.objects);
    match ResolveObjects(schema.objects, objects)
    case Err(e) => Err(e)
    case Ok(built) =>
      var sorted := SortOn(built, SortKey);
      SortOnFacts(built, SortKey);
      SameObjects(built, sorted);
      if !AllRenderable(sorted, objects) then Err(IndexOutOfRange)
      else Ok(Output(schema.name, outFile, time, sorted, objects))
  }

  /**
   * A record whose only field is `"never"` sent and typed `Enums.` (an enum
   * with an empty name, whose decoder cannot be rendered) still yields a
   * module: the field is never decoded.
   */
  lemma NeverFieldOfUnrenderableType(outFile: string, time: nat)
    ensures var entries := [("Event", ObjectDecl("An event.", false, [("x", FieldDecl("Enums.", Never, None))]))];
      var objects := Catalogue(entries);
      && !Renderable(EnumField(""), objects)
      && GenerateSpec(Schema("Events", entries), outFile, time).Ok?
  {
    var entries := [("Event", ObjectDecl("An event.", false, [("x", FieldDecl("Enums.", Never, None))]))];
    var objects := Catalogue(entries);
    var o := NeverFieldSchemaBuilt(entries, objects);
    GeneratesOneRecord(Schema("Events", entries), outFile, time, o);
  }

  /** A schema that builds one renderable record generates a module. */
  lemma GeneratesOneRecord(schema: Schema, outFile: string, time: nat, o: Object)
    requires ResolveObjects(schema.objects, Catalogue(schema.objects)) == Ok([o])
    requires DecoderRenderable(o, Catalogue(schema.objects))
    ensures GenerateSpec(schema, outFile, time).Ok?
  {
    assert forall b <- [o] :: DecoderRenderable(b, Catalogue(schema.objects));
  }

  /** The schema of the example above builds one renderable record. */
  lemma NeverFieldSchemaBuilt(entries: seq<(string, ObjectDecl)>, objects: map<string, bool>) returns (o: Object)
    requires entries == [("Event", ObjectDecl("An event.", false, [("x", FieldDecl("Enums.", Never, None))]))]
    requires "Enums." !in objects
    ensures ResolveObjects(entries, objects) == Ok([o]) && DecoderRenderable(o, objects)
  {
    o := NeverFieldObject(objects);
    assert ResolveObjects(entries[..0], objects) == Ok([]);
    assert [] + [o] == [o];
    assert ElmName("Event") == "Event";
    assert NotSeparator("x"[0]);
  }

  /** The record of the example above, built field by field. */
  lemma NeverFieldObject(objects: map<string, bool>) returns (o: Object)
    requires "Enums." !in objects
    ensures o == Object("Event", "An event.", false, [Field("x", EnumField(""), Never, None)])
    ensures ObjectOf("Event", ObjectDecl("An event.", false, [("x", FieldDecl("Enums.", Never, None))]), objects) == Ok(o)
  {
    var decls := [("x", FieldDecl("Enums.", Never, None))];
    assert HasPrefix("Enums.", "Enums.") && "Enums."[6..] == "";
    var f := Field("x", EnumField(""), Never, None);
    assert NewField("x", FieldDecl("Enums.", Never, None), objects) == Ok(f);
    assert decls[..0] == [];
    assert SortOn(decls, EntryKey) == Insert([], decls[0], EntryKey);
    assert ResolveFields(decls[..0], objects) == Ok([]);
    assert decls[0].0 == "x" && decls[0].1 == FieldDecl("Enums.", Never, None);
    assert [] + [f] == [f];
    assert ResolveFields(decls, objects) == Ok([f]);
    o := Object("Event", "An event.", false, [f]);
  }

  lemma SameObjects(a: seq<Object>, b: seq<Object>)
    requires multiset(a) == multiset(b)
    ensures forall o :: o in a <==> o in b
  {
    forall o ensures o in a <==> o in b {
      assert o in a <==> o in multiset(a);
      assert o in b <==> o in multiset(b);
    }
  }

  /**
   * The module lists the objects in the order of `object_list.sort`: by
   * lower-cased Elm name, ties in document order, each object once.
   */
  lemma GenerateOrder(schema: Schema, outFile: string, time: nat)
    requires GenerateSpec(schema, outFile, time).Ok?
    ensures var objects := Catalogue(schema.objects);
      var built := ResolveObjects(schema.objects, objects).value;
      var sorted := SortOn(built, SortKey);
      && multiset(sorted) == multiset(built)
      && SortedOn(sorted, SortKey)
      && (forall k :: WithKey(sorted, SortKey, k) == WithKey(built, SortKey, k))
      && AllRenderable(sorted, objects)
      && GenerateSpec(schema, outFile, time).value == Output(schema.name, outFile, time, sorted, objects)
  {
    SortOnFacts(ResolveObjects(schema.objects, Catalogue(schema.objects)).value, SortKey);
  }

  /**
   * `main`: builds the objects one by one, sorts them in place, checks
   * that each can be rendered, and writes the module piece by piece.
   */
  method Generate(schema: Schema, outFile: string, time: nat) returns (r: Result<string, BuildError>)
    ensures r == GenerateSpec(schema, outFile, time)
  {
    var objects := Catalogue(schema.objects);
    var built := BuildObjects(schema.objects, objects);
    if built.Err? {
      return Err(built.error);
    }
    var sorted := SortObjects(built.value);
    SortOnFacts(built.value, SortKey);
    SameObjects(built.value, sorted);
    var ok := CheckRenderable(sorted, objects);
    if !ok {
      return Err(IndexOutOfRange);
    }
    var text := WriteModule(schema.name, outFile, time, sorted, objects);
    return Ok(text);
  }

  /** Builds one object per record, in document order, stopping at the first that fails. */
  method BuildObjects(entries: seq<(string, ObjectDecl)>, objects: map<string, bool>) returns (r: Result<seq<Object>, BuildError>)
    ensures r == ResolveObjects(entries, objects)
  {
    var built: seq<Object> := [];
    var i := 0;
    while i < |entries|
      invariant 0 <= i <= |entries|
      invariant ResolveObjects(entries[..i], objects) == Ok(built)
    {
      var o := NewObject(entries[i].0, entries[i].1, objects);
      ResolveObjectsStep(entries, i, built, objects);
      if o.Err? {
        ResolveObjectsPrefixErr(entries, i + 1, objects);
        return Err(o.error);
      }
      built := built + [o.value];
      i := i + 1;
    }
    assert entries[..i] == entries;
    return Ok(built);
  }

  /** Sorts the objects in place by their lower-cased Elm names, on an array, as `SortOn` describes. */
  method SortObjects(built: seq<Object>) returns (sorted: seq<Object>)
    ensures sorted == SortOn(built, SortKey)
  {
    var list := new Object[|built|](k requires 0 <= k < |built| => built[k]);
    assert list[..] == built;
    SortInPlace(list, SortKey);
    sorted := list[..];
  }

  /** Whether every object renders without an `IndexError`. */
  method CheckRenderable(objs: seq<Object>, objects: map<string, bool>) returns (ok: bool)
    ensures ok <==> AllRenderable(objs, objects)
  {
    var j := 0;
    while j < |objs|
      invariant 0 <= j <= |objs|
      invariant forall k :: 0 <= k < j ==> DecoderRenderable(objs[k], objects)
    {
      if !DecoderRenderable(objs[j], objects) {
        assert objs[j] in objs;
        return false;
      }
      j := j + 1;
    }
    return true;
  }

  /** The writes of `main`, in order, into one string. */
  method WriteModule(schemaName: string, outFile: string, time: nat, objs: seq<Object>, objects: map<string, bool>) returns (out: string)
    requires AllRenderable(objs, objects)
    ensures out == Output(schemaName, outFile, time, objs, objects)
  {
    RenderableNamed(objs, objects);
    var content := Content(objs, objects);
    var line, exposing, banner, imports := ModuleLine(outFile), ExposingList(objs), Banner(schemaName, time), ImportBlock(content);
    out := line;
    out := out + exposing;
    out := out + banner;
    out := out + "\n";
    out := out + imports;
    out := out + JSON_IMPORTS;
    out := out + content;
  }

  // ----- What the content calls for -------------------------------------------

  /** A block of one object's code is a block of the content. */
  lemma InContent(objs: seq<Object>, objects: map<string, bool>, k: nat, t: string)
    requires AllRenderable(objs, objects) && k < |objs|
    requires Contains(ObjectCode(objs[k], objects), t)
    ensures Contains(Content(objs, objects), t)
  {
    ContentHolds(objs, objects, k);
    ContainsTrans(Content(objs, objects), ObjectCode(objs[k], objects), t);
  }

  lemma SuffixContains(s: string, t: string)
    requires HasSuffix(s, t)
    ensures Contains(s, t)
  {
    assert s == s[..|s| - |t|] + t;
    ContainsPrefix(t, t);
    ContainsInRight(s[..|s| - |t|], t, t);
  }

  /** Every record is encoded with `maybeObject`, so a module with a record imports it. */
  lemma RecordsNeedMaybeObject(objs: seq<Object>, objects: map<string, bool>)
    requires AllRenderable(objs, objects) && |objs| > 0
    ensures Needs(EncodeExtraImport, Content(objs, objects))
  {
    var o := objs[0];
    assert DecoderRenderable(o, objects);
    MaybeObjectLine();
    EncoderInCode(o, objects, "maybeObject");
    InContent(objs, objects, 0, "maybeObject");
  }

  lemma MaybeObjectLine()
    ensures Contains("    maybeObject [\n", "maybeObject")
  {
    var name := "maybeObject";
    assert "    maybeObject [\n" == "    " + (name + " [\n");
    ContainsPrefix(name + " [\n", name);
    ContainsInRight("    ", name + " [\n", name);
  }

  /** Every record's encoder calls `maybeObject`, which ends up in its code. */
  lemma EncoderInCode(o: Object, objects: map<string, bool>, t: string)
    requires DecoderRenderable(o, objects) && Contains("    maybeObject [\n", t)
    ensures Contains(ObjectCode(o, objects), t)
  {
    ContainsTrans(ObjectEncoder(o), "    maybeObject [\n", t);
    ContainsTrans(ObjectCode(o, objects), ObjectEncoder(o), t);
  }

  /** The doc comment of a record is part of its type definition. */
  lemma DescriptionInCode(o: Object, objects: map<string, bool>, t: string)
    requires DecoderRenderable(o, objects) && Contains(o.description, t)
    ensures Contains(ObjectCode(o, objects), t)
  {
    var head := "{-| " + o.description + "\n-}\ntype ";
    ContainsInMiddle("{-| ", o.description, "\n-}\ntype ", t);
    ContainsPrefix(ObjectTypeDefinition(o), head);
    ContainsTrans(ObjectTypeDefinition(o), head, t);
    ContainsPrefix(ObjectCode(o, objects), ObjectTypeDefinition(o));
    ContainsTrans(ObjectCode(o, objects), ObjectTypeDefinition(o), t);
  }

  /**
   * The markers are plain substrings of the whole content, so a record
   * whose description mentions `Dict` imports `Dict` whether or not any
   * field is a dictionary.
   */
  lemma DescriptionCanNeedDict(objs: seq<Object>, objects: map<string, bool>, k: nat)
    requires AllRenderable(objs, objects) && k < |objs| && Contains(objs[k].description, "Dict")
    ensures Needs(DictImport, Content(objs, objects))
  {
    assert DecoderRenderable(objs[k], objects);
    DescriptionInCode(objs[k], objects, "Dict");
    InContent(objs, objects, k, "Dict");
  }

  /** The type of a field is part of its line in the type definition. */
  lemma TypeNameInFieldLine(f: Field, t: string)
    requires NameableKey(f.key) && Contains(TypeName(f.fieldType), t)
    ensures Contains(FieldLine(f), t)
  {
    var tn := TypeName(f.fieldType);
    if IsMaybe(f) {
      if ' ' in tn {
        ContainsInMiddle("(", tn, ")", t);
      }
      ContainsInRight("Maybe ", Encapsulate(tn), t);
    }
    ContainsInRight("    " + ElmFieldName(f.key) + " : ", FieldTypeDefinition(f), t);
  }

  /** A dictionary field makes the module import `Dict`. */
  lemma DictFieldNeedsDict(objs: seq<Object>, objects: map<string, bool>, k: nat, j: nat)
    requires AllRenderable(objs, objects) && k < |objs| && j < |objs[k].fields|
    requires objs[k].fields[j].fieldType.DictField?
    ensures Needs(DictImport, Content(objs, objects))
  {
    var o := objs[k];
    assert DecoderRenderable(o, objects);
    var f := o.fields[j];
    assert f in o.fields;
    var tn := TypeName(f.fieldType);
    assert tn == "Dict" + (" String " + Encapsulate(TypeName(f.fieldType.child)));
    ContainsPrefix(tn, "Dict");
    TypeNameInFieldLine(f, "Dict");
    ContainsTrans(ObjectTypeDefinition(o), FieldLine(f), "Dict");
    ContainsPrefix(ObjectCode(o, objects), ObjectTypeDefinition(o));
    ContainsTrans(ObjectCode(o, objects), ObjectTypeDefinition(o), "Dict");
    InContent(objs, objects, k, "Dict");
  }

  /** A field's decoder is part of its record's decoder. */
  lemma FieldDecoderInCode(o: Object, objects: map<string, bool>, j: nat, t: string)
    requires DecoderRenderable(o, objects) && j < |o.fields|
    requires Contains(FieldDecoder(o.fields[j], objects), t)
    ensures Contains(ObjectCode(o, objects), t)
  {
    var f := o.fields[j];
    var dec := FieldDecoder(f, objects);
    DecoderBindsPositionally(o, objects, j, j);
    var args := ArgumentLines(o.fields, objects);
    if ' ' in dec {
      ContainsInMiddle("(", dec, ")", t);
    }
    ContainsInMiddle("            ", Encapsulate(dec), "\n", t);
    ContainsConcat(args, j, t);
    ContainsTrans(ObjectDecoder(o, objects), Concat(args), t);
    SuffixContains(ObjectCode(o, objects), ObjectDecoder(o, objects));
    ContainsTrans(ObjectCode(o, objects), ObjectDecoder(o, objects), t);
  }

  /**
   * An optional field without a default is read with `opField`, so the
   * module imports `Internal.Tools.DecodeExtra` exposing `opField`.
   */
  lemma OptionalFieldNeedsOpField(objs: seq<Object>, objects: map<string, bool>, k: nat, j: nat)
    requires AllRenderable(objs, objects) && k < |objs| && j < |objs[k].fields|
    requires objs[k].fields[j].required == NotRequired && objs[k].fields[j].default.None?
    ensures Needs(DecodeExtraImport, Content(objs, objects))
    ensures "opField" in OpFieldHelpers(Content(objs, objects))
  {
    var o := objs[k];
    assert DecoderRenderable(o, objects);
    var dec := FieldDecoder(o.fields[j], objects);
    assert dec[..8] == "opField ";
    ContainsPrefix(dec, "opField ");
    FieldDecoderInCode(o, objects, j, "opField ");
    InContent(objs, objects, k, "opField ");
  }

  /** The arity suffix `D.mapN` carries for 9, 10 and 11 fields. */
  lemma WideArity(n: nat)
    requires 9 <= n <= 11
    ensures Contains(MapLine(n), "map" + NatToString(n))
    ensures NatToString(n) == (if n == 9 then "9" else if n == 10 then "10" else "11")
  {
    var m := "map" + NatToString(n);
    assert MapLine(n) == "    D." + (m + "\n");
    ContainsPrefix(m + "\n", m);
    ContainsInRight("    D.", m + "\n", m);
    if n > 9 {
      assert NatToString(n) == NatToString(1) + [DigitChar(n % 10)];
    }
  }

  /** The arity of a record's `D.mapN` call is part of the content. */
  lemma ArityInContent(objs: seq<Object>, objects: map<string, bool>, k: nat)
    requires AllRenderable(objs, objects) && k < |objs| && 9 <= |objs[k].fields| <= 11
    ensures Contains(Content(objs, objects), "map" + NatToString(|objs[k].fields|))
  {
    var o := objs[k];
    assert DecoderRenderable(o, objects);
    var n := |o.fields|;
    var m := "map" + NatToString(n);
    WideArity(n);
    ContainsTrans(ObjectDecoder(o, objects), MapLine(n), m);
    SuffixContains(ObjectCode(o, objects), ObjectDecoder(o, objects));
    ContainsTrans(ObjectCode(o, objects), ObjectDecoder(o, objects), m);
    InContent(objs, objects, k, m);
  }

  /** A record of 9 to 11 fields makes the `DecodeExtra` import alias `D`. */
  lemma WideRecordAliasesDecode(objs: seq<Object>, objects: map<string, bool>, k: nat)
    requires AllRenderable(objs, objects) && k < |objs| && 9 <= |objs[k].fields| <= 11
    ensures UsesWideMap(Content(objs, objects))
    ensures DecodeExtraModule(Content(objs, objects)) == "Internal.Tools.DecodeExtra as D"
  {
    ArityInContent(objs, objects, k);
    WideMapCalled(Content(objs, objects), |objs[k].fields|);
  }

  lemma WideMapCalled(content: string, n: nat)
    requires 9 <= n <= 11 && Contains(content, "map" + NatToString(n))
    ensures UsesWideMap(content)
  {
    WideArity(n);
    if n == 9 {
      assert "map" + NatToString(n) == "map9";
    } else if n == 10 {
      assert "map" + NatToString(n) == "map10";
    } else {
      assert "map" + NatToString(n) == "map11";
    }
  }

  /**
   * A record with more fields than there are lambda variables makes the
   * generator fail with an `IndexError`, once every record is built.
   */
  lemma TooManyFieldsFail(schema: Schema, outFile: string, time: nat, k: nat)
    requires ResolveObjects(schema.objects, Catalogue(schema.objects)).Ok?
    requires k < |schema.objects| && |schema.objects[k].1.fields| > |LETTERS|
    ensures GenerateSpec(schema, outFile, time) == Err(IndexOutOfRange)
  {
    var objects := Catalogue(schema.objects);
    var built := ResolveObjects(schema.objects, objects).value;
    assert ObjectOf(schema.objects[k].0, schema.objects[k].1, objects) == Ok(built[k]);
    assert !DecoderRenderable(built[k], objects);
    assert built[k] in built;
  }
}
