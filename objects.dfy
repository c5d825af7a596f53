/**
 * The generator's `Object`: one record of the schema, built from its
 * declaration with its fields in key order, its Elm names, and the three
 * pieces of Elm rendered from it — the type definition, the `maybeObject`
 * encoder and the `D.mapN` decoder.
 */
module Objects {
  import opened Wrappers
  import opened Text
  import opened Sorting
  import opened FieldTypes
  import opened Fields

  /**
   * A record of the schema as parsed: its `description`, whether it has an
   * `anti_recursion` key, and its `fields` entries in document order.
   */
  datatype ObjectDecl = ObjectDecl(description: string, antiRecursion: bool, fields: seq<(string, FieldDecl)>)

  datatype Object = Object(name: string, description: string, antiRecursion: bool, fields: seq<Field>)

  function EntryKey(e: (string, FieldDecl)): string
  {
    e.0
  }

  /**
   * The fields built from the entries in order, or the error of the first
   * entry whose type token does not resolve.
   */
  function ResolveFields(entries: seq<(string, FieldDecl)>, objects: map<string, bool>): (r: Result<seq<Field>, BuildError>)
    ensures r.Ok? ==>
      && |r.value| == |entries|
      && forall i :: 0 <= i < |entries| ==> NewField(entries[i].0, entries[i].1, objects) == Ok(r.value[i])
  {
    if entries == [] then Ok([])
    else
      var init, last := entries[..|entries| - 1], entries[|entries| - 1];
      match ResolveFields(init, objects)
      case Err(e) => Err(e)
      case Ok(fs) =>
        match NewField(last.0, last.1, objects)
        case Err(e) => Err(e)
        case Ok(f) =>
          FieldsExtend(entries, fs, f, objects);
          Ok(fs + [f])
  }

  lemma FieldsExtend(entries: seq<(string, FieldDecl)>, fs: seq<Field>, f: Field, objects: map<string, bool>)
    requires |entries| == |fs| + 1
    requires forall i :: 0 <= i < |fs| ==> NewField(entries[i].0, entries[i].1, objects) == Ok(fs[i])
    requires NewField(entries[|fs|].0, entries[|fs|].1, objects) == Ok(f)
    ensures forall i :: 0 <= i < |entries| ==> NewField(entries[i].0, entries[i].1, objects) == Ok((fs + [f])[i])
  {
  }

  /** Resolving one more entry: the prefix's fields, then the new entry's field or error. */
  lemma ResolveFieldsStep(entries: seq<(string, FieldDecl)>, i: nat, fs: seq<Field>, objects: map<string, bool>)
    requires i < |entries| && ResolveFields(entries[..i], objects) == Ok(fs)
    ensures var f := NewField(entries[i].0, entries[i].1, objects);
      ResolveFields(entries[..i + 1], objects) == if f.Ok? then Ok(fs + [f.value]) else Err(f.error)
  {
    assert entries[..i + 1][..i] == entries[..i];
  }

  /** Once a prefix of the entries fails, the whole resolution fails with the same error. */
  lemma {:induction false} ResolveFieldsPrefixErr(entries: seq<(string, FieldDecl)>, k: nat, objects: map<string, bool>)
    requires k <= |entries| && ResolveFields(entries[..k], objects).Err?
    ensures ResolveFields(entries, objects) == ResolveFields(entries[..k], objects)
    decreases |entries| - k
  {
    if k < |entries| {
      assert entries[..k + 1][..k] == entries[..k];
      ResolveFieldsPrefixErr(entries, k + 1, objects);
    } else {
      assert entries[..k] == entries;
    }
  }

  /**
   * Resolution fails exactly when some entry fails, and then with the
   * error of the first entry that does.
   */
  lemma {:induction false} ResolveFieldsError(entries: seq<(string, FieldDecl)>, objects: map<string, bool>)
    requires ResolveFields(entries, objects).Err?
    ensures exists i ::
      && 0 <= i < |entries|
      && NewField(entries[i].0, entries[i].1, objects) == Err(ResolveFields(entries, objects).error)
      && forall j :: 0 <= j < i ==> NewField(entries[j].0, entries[j].1, objects).Ok?
  {
    var init := entries[..|entries| - 1];
    var n := |entries| - 1;
    if ResolveFields(init, objects).Err? {
      ResolveFieldsError(init, objects);
      var i :| 0 <= i < |init| && NewField(init[i].0, init[i].1, objects) == Err(ResolveFields(init, objects).error)
        && forall j :: 0 <= j < i ==> NewField(init[j].0, init[j].1, objects).Ok?;
      assert init[i] == entries[i];
      assert forall j :: 0 <= j < i ==> init[j] == entries[j];
    } else {
      var fs := ResolveFields(init, objects).value;
      assert forall j :: 0 <= j < n ==> init[j] == entries[j];
      assert NewField(entries[n].0, entries[n].1, objects).Err?;
    }
  }

  /**
   * `Object.__init__` as a value: the entries sorted by key, each turned
   * into a field; the name, description and `anti_recursion` flag are kept.
   */
  function ObjectOf(name: string, decl: ObjectDecl, objects: map<string, bool>): (r: Result<Object, BuildError>)
    ensures r.Ok? ==>
      && r.value.name == name
      && r.value.description == decl.description
      && r.value.antiRecursion == decl.antiRecursion
      && |r.value.fields| == |decl.fields|
  {
    match ResolveFields(SortOn(decl.fields, EntryKey), objects)
    case Err(e) => Err(e)
    case Ok(fs) =>
      SortOnFacts(decl.fields, EntryKey);
      assert |SortOn(decl.fields, EntryKey)| == |decl.fields| by {
        assert |multiset(SortOn(decl.fields, EntryKey))| == |multiset(decl.fields)|;
      }
      Ok(Object(name, decl.description, decl.antiRecursion, fs))
  }

  /**
   * The fields are those of the declaration's entries rearranged into key
   * order, each built from its entry, and the object is built exactly when
   * every entry resolves.
   */
  lemma ObjectOfFields(name: string, decl: ObjectDecl, objects: map<string, bool>)
    ensures var es := SortOn(decl.fields, EntryKey);
      && multiset(es) == multiset(decl.fields)
      && SortedOn(es, EntryKey)
      && (ObjectOf(name, decl, objects).Ok? ==> ResolveFields(es, objects) == Ok(ObjectOf(name, decl, objects).value.fields))
      && (ObjectOf(name, decl, objects).Err? ==> ResolveFields(es, objects) == Err(ObjectOf(name, decl, objects).error))
    ensures ObjectOf(name, decl, objects).Ok? ==>
      var fs := ObjectOf(name, decl, objects).value.fields;
      forall i, j :: 0 <= i < j < |fs| ==> LessEq(fs[i].key, fs[j].key)
  {
    var es := SortOn(decl.fields, EntryKey);
    SortOnFacts(decl.fields, EntryKey);
    if ObjectOf(name, decl, objects).Ok? {
      var fs := ObjectOf(name, decl, objects).value.fields;
      assert forall i :: 0 <= i < |fs| ==> fs[i].key == es[i].0;
    }
  }

  /**
   * `Object.__init__`: walks the sorted keys and appends one field per key,
   * stopping at the first type token that does not resolve.
   */
  method NewObject(name: string, decl: ObjectDecl, objects: map<string, bool>) returns (r: Result<Object, BuildError>)
    ensures r == ObjectOf(name, decl, objects)
  {
    var entries := SortOn(decl.fields, EntryKey);
    var fields := BuildFields(entries, objects);
    ObjectOfResolved(name, decl, objects);
    if fields.Err? {
      return Err(fields.error);
    }
    return Ok(Object(name, decl.description, decl.antiRecursion, fields.value));
  }

  /** The loop of `Object.__init__`: one field per entry, in order, up to the first failure. */
  method BuildFields(entries: seq<(string, FieldDecl)>, objects: map<string, bool>) returns (r: Result<seq<Field>, BuildError>)
    ensures r == ResolveFields(entries, objects)
  {
    var fields: seq<Field> := [];
    var i := 0;
    while i < |entries|
      invariant 0 <= i <= |entries|
      invariant ResolveFields(entries[..i], objects) == Ok(fields)
    {
      var f := NewField(entries[i].0, entries[i].1, objects);
      ResolveFieldsStep(entries, i, fields, objects);
      if f.Err? {
        ResolveFieldsPrefixErr(entries, i + 1, objects);
        return Err(f.error);
      }
      fields := fields + [f.value];
      i := i + 1;
    }
    assert entries[..i] == entries;
    return Ok(fields);
  }

  /** `ObjectOf` in terms of the resolution of its sorted fields. */
  lemma ObjectOfResolved(name: string, decl: ObjectDecl, objects: map<string, bool>)
    ensures var fs := ResolveFields(SortOn(decl.fields, EntryKey), objects);
      ObjectOf(name, decl, objects) == if fs.Ok? then Ok(Object(name, decl.description, decl.antiRecursion, fs.value)) else Err(fs.error)
  {
  }

  // ----- Names --------------------------------------------------------------

  /**
   * `Object.elm_name`: a name without dots is used as it is; a dotted name
   * becomes its parts, capitalised and run together.
   */
  function ElmName(name: string): (r: string)
    ensures '.' !in r
    ensures '.' !in name ==> r == name
  {
    if '.' !in name then name
    else
      DottedPartsPlain(name);
      Concat(CapitalizeAll(Split(name, '.')))
  }

  lemma DottedPartsPlain(name: string)
    ensures '.' !in Concat(CapitalizeAll(Split(name, '.')))
  {
    NoDotCapitalized(Split(name, '.'));
  }

  lemma {:induction false} NoDotCapitalized(ws: seq<string>)
    requires forall w <- ws :: '.' !in w
    ensures '.' !in Concat(CapitalizeAll(ws))
  {
    if ws != [] {
      assert ws[0] in ws;
      NoDotCapitalized(ws[1..]);
      assert CapitalizeAll(ws) == [Capitalize(ws[0])] + CapitalizeAll(ws[1..]);
      var c := Capitalize(ws[0]);
      forall k | 0 <= k < |c| ensures c[k] != '.' {
        assert ws[0][k] != '.';
      }
    }
  }

  /** A dotted name made of several parts is its parts capitalised and joined. */
  lemma ElmNameOfDotted(ws: seq<string>)
    requires |ws| >= 2 && forall w <- ws :: '.' !in w
    ensures ElmName(Join(ws, ".")) == Concat(CapitalizeAll(ws))
  {
    var name := Join(ws, ".");
    JoinedHasDot(ws);
    SplitJoin(ws, '.');
    assert Split(name, '.') == ws;
  }

  lemma JoinedHasDot(ws: seq<string>)
    requires |ws| >= 2
    ensures '.' in Join(ws, ".")
  {
    var rest := Join(ws[1..], ".");
    assert Join(ws, ".") == ws[0] + ("." + rest);
    assert Join(ws, ".")[|ws[0]|] == '.';
  }

  /** `Object.encoder_name` */
  function EncoderName(name: string): (r: string)
    ensures HasPrefix(r, "encode") && r[6..] == ElmName(name)
  {
    "encode" + ElmName(name)
  }

  /** `Object.decoder_name`, which indexes the first letter of the Elm name. */
  function DecoderName(name: string): (r: string)
    requires ElmName(name) != []
    ensures HasSuffix(r, "Decoder") && r[..|r| - 7] == LowerFirst(ElmName(name))
  {
    LowerFirst(ElmName(name)) + "Decoder"
  }

  /**
   * A reference to a record whose name has no dot renders the very names
   * the record is defined under: its type, its encoder and its decoder,
   * which is wrapped in `D.lazy` exactly when the record is
   * `anti_recursion`.
   */
  lemma ReferenceMatchesDefinition(name: string, objects: map<string, bool>)
    requires name != [] && name in objects && '.' !in name
    ensures TypeName(SpecObjectField(name)) == ElmName(name)
    ensures Encoder(SpecObjectField(name)) == EncoderName(name)
    ensures !objects[name] ==> Decoder(SpecObjectField(name), objects) == DecoderName(name)
    ensures objects[name] ==> Decoder(SpecObjectField(name), objects) == "D.lazy (\\_ -> " + DecoderName(name) + ")"
  {
  }

  /** A reference to a dotted record name renders the raw name, not the Elm name of the record. */
  lemma DottedReferenceDiffers(name: string)
    requires '.' in name
    ensures TypeName(SpecObjectField(name)) != ElmName(name)
  {
  }

  // ----- Renderings -----------------------------------------------------------

  predicate KeysNameable(fields: seq<Field>)
  {
    forall f <- fields :: NameableKey(f.key)
  }

  /** The record field line `    name : type` of one field. */
  function FieldLine(f: Field): string
    requires NameableKey(f.key)
  {
    "    " + ElmFieldName(f.key) + " : " + FieldTypeDefinition(f)
  }

  function FieldLines(fields: seq<Field>): (r: seq<string>)
    requires KeysNameable(fields)
    ensures |r| == |fields| && forall i :: 0 <= i < |fields| ==> r[i] == FieldLine(fields[i])
  {
    seq(|fields|, i requires 0 <= i < |fields| => FieldLine(fields[i]))
  }

  /**
   * `Object.type_definition`: the description as a doc comment, then a type
   * alias of a record, or, for an `anti_recursion` record, a custom type
   * whose single constructor wraps the record; one line per field.
   */
  function ObjectTypeDefinition(o: Object): (r: string)
    requires KeysNameable(o.fields)
    ensures HasPrefix(r, "{-| " + o.description + "\n-}\ntype ")
    ensures HasPrefix(r, "{-| " + o.description + "\n-}\ntype alias ") <==> !o.antiRecursion
    ensures o.antiRecursion ==> Contains(r, " = " + ElmName(o.name) + " {\n")
    ensures forall i :: 0 <= i < |o.fields| ==> Contains(r, FieldLine(o.fields[i]))
  {
    var elm := ElmName(o.name);
    var pieces := [
      "{-| " + o.description + "\n-}\ntype " + (if o.antiRecursion then "" else "alias") + " ",
      elm + " = " + (if o.antiRecursion then elm else "") + " {\n",
      Join(FieldLines(o.fields), ",\n"),
      "\n" + "    }\n\n"];
    TypeDefinitionKind(o, pieces);
    TypeDefinitionConstructor(o, pieces);
    TypeDefinitionLines(o, pieces);
    Concat(pieces)
  }

  lemma TypeDefinitionKind(o: Object, pieces: seq<string>)
    requires |pieces| == 4
    requires pieces[0] == "{-| " + o.description + "\n-}\ntype " + (if o.antiRecursion then "" else "alias") + " "
    ensures HasPrefix(Concat(pieces), "{-| " + o.description + "\n-}\ntype ")
    ensures HasPrefix(Concat(pieces), "{-| " + o.description + "\n-}\ntype alias ") <==> !o.antiRecursion
  {
    PiecesOccur(pieces);
    var head := "{-| " + o.description + "\n-}\ntype ";
    var kind := if o.antiRecursion then "" else "alias";
    assert pieces[0] == head + kind + " ";
    KindPrefix(Concat(pieces), head, kind);
    assert Concat(pieces)[..|head|] == pieces[0][..|head|] == head;
    assert kind == "alias" <==> !o.antiRecursion by {
      if o.antiRecursion {
        assert |kind| == 0;
      }
    }
  }

  lemma TypeDefinitionConstructor(o: Object, pieces: seq<string>)
    requires |pieces| == 4
    requires pieces[1] == ElmName(o.name) + " = " + (if o.antiRecursion then ElmName(o.name) else "") + " {\n"
    ensures o.antiRecursion ==> Contains(Concat(pieces), " = " + ElmName(o.name) + " {\n")
  {
    if o.antiRecursion {
      assert pieces[1] == ElmName(o.name) + " = " + ElmName(o.name) + " {\n";
      PiecesOccur(pieces);
      ConstructorOccurs(ElmName(o.name));
      ContainsTrans(Concat(pieces), pieces[1], " = " + ElmName(o.name) + " {\n");
    }
  }

  lemma TypeDefinitionLines(o: Object, pieces: seq<string>)
    requires KeysNameable(o.fields)
    requires |pieces| == 4 && pieces[2] == Join(FieldLines(o.fields), ",\n")
    ensures forall i :: 0 <= i < |o.fields| ==> Contains(Concat(pieces), FieldLine(o.fields[i]))
  {
    forall i | 0 <= i < |o.fields| ensures Contains(Concat(pieces), FieldLine(o.fields[i])) {
      JoinedLineOccurs(FieldLines(o.fields), ",\n", i, pieces, 2);
    }
  }

  /** A definition headed `type alias ` is exactly one whose keyword is `alias`. */
  lemma KindPrefix(r: string, head: string, kind: string)
    requires kind == "" || kind == "alias"
    requires HasPrefix(r, head + kind + " ")
    ensures HasPrefix(r, head + "alias ") <==> kind == "alias"
  {
    if kind == "" {
      assert r[|head|] == (head + kind + " ")[|head|] == ' ';
      assert (head + "alias ")[|head|] == 'a';
    } else {
      assert head + kind + " " == head + "alias ";
    }
  }

  lemma ConstructorOccurs(elm: string)
    ensures Contains(elm + " = " + elm + " {\n", " = " + elm + " {\n")
  {
    var middle := " = " + elm + " {\n";
    assert elm + " = " + elm + " {\n" == elm + middle;
    ContainsPrefix(middle, middle);
    ContainsInRight(elm, middle, middle);
  }

  /** A line of a join that is itself a piece of a concatenation occurs in the concatenation. */
  lemma JoinedLineOccurs(lines: seq<string>, sep: string, i: nat, pieces: seq<string>, k: nat)
    requires i < |lines| && k < |pieces| && pieces[k] == Join(lines, sep)
    ensures Contains(Concat(pieces), lines[i])
  {
    ContainsPrefix(lines[i], lines[i]);
    ContainsJoin(lines, sep, i, lines[i]);
    ContainsConcat(pieces, k, lines[i]);
  }

  /** The `maybeObject` entry `("key", encoder)` of one field. */
  function EncoderEntry(f: Field): string
    requires NameableKey(f.key)
  {
    "        (" + Quoted(f.key) + ", " + FieldEncoder(f) + ")"
  }

  function EncoderEntries(fields: seq<Field>): (r: seq<string>)
    requires KeysNameable(fields)
    ensures |r| == |fields| && forall i :: 0 <= i < |fields| ==> r[i] == EncoderEntry(fields[i])
  {
    seq(|fields|, i requires 0 <= i < |fields| => EncoderEntry(fields[i]))
  }

  /**
   * `Object.encoder`: a signature, then a function that hands one
   * `("key", encoder)` entry per field to `maybeObject`, which drops the
   * entries that are `Nothing`. An `anti_recursion` record is unwrapped
   * from its constructor in the argument pattern.
   */
  function ObjectEncoder(o: Object): (r: string)
    requires KeysNameable(o.fields)
    ensures HasPrefix(r, EncoderName(o.name) + " : " + ElmName(o.name) + " -> E.Value\n")
    ensures o.antiRecursion ==> Contains(r, "(" + ElmName(o.name) + " data)")
    ensures Contains(r, "    maybeObject [\n")
    ensures forall i :: 0 <= i < |o.fields| ==> Contains(r, EncoderEntry(o.fields[i]))
  {
    var elm := ElmName(o.name);
    var pieces := [
      EncoderName(o.name) + " : " + elm + " -> E.Value\n",
      EncoderName(o.name) + " ", if o.antiRecursion then "(" + elm + " data)" else "data", " =\n",
      "    maybeObject [\n", Join(EncoderEntries(o.fields), ",\n"), "\n            ]\n", "\n\n"];
    EncoderFacts(pieces, EncoderEntries(o.fields));
    Concat(pieces)
  }

  /** What the encoder's eight pieces contribute to their concatenation. */
  lemma EncoderFacts(pieces: seq<string>, entries: seq<string>)
    requires |pieces| == 8 && pieces[5] == Join(entries, ",\n")
    ensures HasPrefix(Concat(pieces), pieces[0])
    ensures Contains(Concat(pieces), pieces[2])
    ensures Contains(Concat(pieces), pieces[4])
    ensures forall i :: 0 <= i < |entries| ==> Contains(Concat(pieces), entries[i])
  {
    ContainsPrefix(pieces[2], pieces[2]);
    ContainsConcat(pieces, 2, pieces[2]);
    ContainsPrefix(pieces[4], pieces[4]);
    ContainsConcat(pieces, 4, pieces[4]);
    forall i | 0 <= i < |entries| ensures Contains(Concat(pieces), entries[i]) {
      ContainsPrefix(entries[i], entries[i]);
      ContainsJoin(entries, ",\n", i, entries[i]);
      ContainsConcat(pieces, 5, entries[i]);
    }
  }

  /** The lambda variables, one letter each, in order. */
  const LETTERS := "abcdefghijklmnop"

  lemma LettersDistinct()
    ensures |LETTERS| == 16
    ensures forall i, j :: 0 <= i < j < 16 ==> LETTERS[i] != LETTERS[j]
  {
    assert forall i :: 0 <= i < 16 ==> LETTERS[i] as int == 'a' as int + i;
  }

  /**
   * The decoder can be rendered without an exception: the record has an
   * Elm name, at most sixteen fields (one lambda variable each), and every
   * field has an Elm name; a `"never"` field decodes to `D.succeed Nothing`
   * without looking at its type, so only the other fields need a type whose
   * decoder renders.
   */
  predicate DecoderRenderable(o: Object, objects: map<string, bool>)
  {
    && ElmName(o.name) != []
    && |o.fields| <= |LETTERS|
    && forall f <- o.fields :: NameableKey(f.key) && (f.required != Never ==> Renderable(f.fieldType, objects))
  }

  /**
   * A `"never"` field's type plays no part in the decoder: the field reads
   * as `D.succeed Nothing`, and giving it any other type, even one whose
   * decoder cannot be rendered, leaves the record renderable.
   */
  lemma NeverFieldAnyType(o: Object, objects: map<string, bool>, j: nat, t: FieldType)
    requires DecoderRenderable(o, objects) && j < |o.fields| && o.fields[j].required == Never
    ensures FieldDecoder(o.fields[j], objects) == "D.succeed Nothing"
    ensures DecoderRenderable(o.(fields := o.fields[j := o.fields[j].(fieldType := t)]), objects)
  {
    var fs := o.fields[j := o.fields[j].(fieldType := t)];
    forall f <- fs ensures NameableKey(f.key) && (f.required != Never ==> Renderable(f.fieldType, objects)) {
      var i :| 0 <= i < |fs| && fs[i] == f;
      assert o.fields[i] in o.fields;
    }
  }

  /** `    D.map<n>`; the generator's replace turns `D.map1` into `D.map`, and matches only when n is 1. */
  function MapLine(n: nat): string
  {
    if n == 1 then "    D.map\n" else "    D.map" + NatToString(n) + "\n"
  }

  function Params(n: nat): (r: seq<string>)
    requires n <= |LETTERS|
    ensures |r| == n && forall i :: 0 <= i < n ==> r[i] == [LETTERS[i]]
  {
    seq(n, i requires 0 <= i < n => [LETTERS[i]])
  }

  /** `name=x`: the record field of the i-th field set from the i-th lambda variable. */
  function Bindings(fields: seq<Field>): (r: seq<string>)
    requires |fields| <= |LETTERS| && KeysNameable(fields)
    ensures |r| == |fields|
  {
    seq(|fields|, i requires 0 <= i < |fields| => ElmFieldName(fields[i].key) + "=" + [LETTERS[i]])
  }

  function ArgumentLines(fields: seq<Field>, objects: map<string, bool>): (r: seq<string>)
    requires forall f <- fields :: f.required != Never ==> Renderable(f.fieldType, objects)
    ensures |r| == |fields|
  {
    seq(|fields|, i requires 0 <= i < |fields| => "            " + Encapsulate(FieldDecoder(fields[i], objects)) + "\n")
  }

  /** What wraps the record: its constructor for an `anti_recursion` record, nothing otherwise. */
  function ConstructorName(o: Object): string
  {
    if o.antiRecursion then ElmName(o.name) else ""
  }

  /**
   * `Object.decoder`: a `D.mapN` over a lambda with one variable per field,
   * which builds the record (wrapped in its constructor when
   * `anti_recursion`), applied to one decoder argument per field.
   */
  function ObjectDecoder(o: Object, objects: map<string, bool>): (r: string)
    requires DecoderRenderable(o, objects)
    ensures HasPrefix(r, DecoderName(o.name) + " : D.Decoder " + ElmName(o.name) + "\n")
    ensures Contains(r, MapLine(|o.fields|))
    ensures Contains(r, "        (\\" + Join(Params(|o.fields|), " ") + " ->\n")
    ensures Contains(r, " { " + Join(Bindings(o.fields), ", ") + "})\n")
    ensures Contains(r, "            " + ConstructorName(o) + " { ")
    ensures Contains(r, Concat(ArgumentLines(o.fields, objects)))
  {
    DecoderText(
      DecoderName(o.name) + " : D.Decoder " + ElmName(o.name) + "\n",
      DecoderName(o.name) + " =\n",
      MapLine(|o.fields|),
      "        (\\" + Join(Params(|o.fields|), " ") + " ->\n",
      "            " + ConstructorName(o),
      Join(Bindings(o.fields), ", "),
      Concat(ArgumentLines(o.fields, objects)))
  }

  /**
   * The decoder's lines put together: signature, definition, `D.mapN`, the
   * lambda, the record (after its constructor, if any), and the arguments.
   */
  function DecoderText(signature: string, definition: string, mapLine: string, lambda: string,
                       ctor: string, bindings: string, arguments: string): (r: string)
    ensures HasPrefix(r, signature)
    ensures Contains(r, mapLine) && Contains(r, lambda) && Contains(r, arguments)
    ensures Contains(r, " { " + bindings + "})\n") && Contains(r, ctor + " { ")
  {
    var pieces := [signature, definition, mapLine, lambda, ctor, " { " + bindings + "})\n", arguments, "\n\n"];
    PiecesOccur(pieces);
    assert pieces[2] == mapLine && pieces[3] == lambda && pieces[5] == " { " + bindings + "})\n" && pieces[6] == arguments;
    PieceThenStart(pieces, 4, " { ");
    Concat(pieces)
  }

  /** Each piece of a concatenation occurs in it, and the first begins it. */
  lemma PiecesOccur(pieces: seq<string>)
    requires |pieces| >= 1
    ensures HasPrefix(Concat(pieces), pieces[0])
    ensures forall i :: 0 <= i < |pieces| ==> Contains(Concat(pieces), pieces[i])
  {
    forall i | 0 <= i < |pieces| ensures Contains(Concat(pieces), pieces[i]) {
      ContainsPrefix(pieces[i], pieces[i]);
      ContainsConcat(pieces, i, pieces[i]);
    }
  }

  /** A piece followed by the start of the next one occurs in the concatenation. */
  lemma PieceThenStart(pieces: seq<string>, i: nat, u: string)
    requires i + 1 < |pieces| && HasPrefix(pieces[i + 1], u)
    ensures Contains(Concat(pieces), pieces[i] + u)
  {
    var t := pieces[i] + u;
    assert HasPrefix(pieces[i] + pieces[i + 1], t) by {
      assert (pieces[i] + pieces[i + 1])[..|t|] == t;
    }
    ContainsPrefix(pieces[i] + pieces[i + 1], t);
    ContainsAdjacent(pieces, i, t);
  }

  /**
   * `D.mapN` applies its arguments to the lambda's variables in order: the
   * arity is the field count, the i-th variable is the only one the i-th
   * field is set from, and the i-th argument decodes the i-th field.
   */
  lemma DecoderBindsPositionally(o: Object, objects: map<string, bool>, i: nat, k: nat)
    requires DecoderRenderable(o, objects) && i < |o.fields| && k < |o.fields|
    ensures |Params(|o.fields|)| == |Bindings(o.fields)| == |ArgumentLines(o.fields, objects)| == |o.fields|
    ensures Bindings(o.fields)[i] == ElmFieldName(o.fields[i].key) + "=" + Params(|o.fields|)[i]
    ensures HasSuffix(Bindings(o.fields)[i], Params(|o.fields|)[k]) <==> i == k
    ensures ArgumentLines(o.fields, objects)[i] == "            " + Encapsulate(FieldDecoder(o.fields[i], objects)) + "\n"
  {
    LettersDistinct();
    var b := Bindings(o.fields)[i];
    assert b[|b| - 1] == LETTERS[i];
  }
}
