/**
 * The generator's `Field`: one entry of a record, with its schema key, its
 * resolved field type, its requiredness and its optional default, and what
 * is rendered from it — the Elm field name, the encoder expression that
 * reads the field out of `data`, the decoder expression that reads it out
 * of the JSON object, and its Elm type.
 */
module Fields {
  import opened Wrappers
  import opened Text
  import opened FieldTypes

  /** A field's `required` entry: absent or `false`, `true`, `"now"` or `"never"`. */
  datatype Requiredness = NotRequired | Required | Now | Never

  /**
   * A field entry of the schema as parsed: its `type` token, its `required`
   * entry and its `default` entry, which is Elm source text when present.
   */
  datatype FieldDecl = FieldDecl(typeToken: string, required: Requiredness, default: Option<string>)

  datatype Field = Field(key: string, fieldType: FieldType, required: Requiredness, default: Option<string>)

  /**
   * `Field.__init__`: resolves the type token, and keeps the default only
   * for a field that is not required (a required field never reads it).
   */
  function NewField(key: string, decl: FieldDecl, objects: map<string, bool>): (r: Result<Field, BuildError>)
    ensures r.Ok? <==> StrToField(decl.typeToken, objects).Ok?
    ensures r.Ok? ==>
      && r.value.key == key
      && r.value.required == decl.required
      && Token(r.value.fieldType) == decl.typeToken
      && (r.value.default.Some? <==> decl.required == NotRequired && decl.default.Some?)
      && (r.value.default.Some? ==> r.value.default == decl.default)
    ensures r.Err? ==> r.error == StrToField(decl.typeToken, objects).error
  {
    match StrToField(decl.typeToken, objects)
    case Err(e) => Err(e)
    case Ok(t) =>
      Ok(Field(key, t, decl.required, if decl.required == NotRequired then decl.default else None))
  }

  /**
   * The Elm record holds a `Maybe` for this field: it is `"now"` or
   * `"never"`, or it is optional and has no default to fall back on.
   */
  predicate IsMaybe(f: Field)
  {
    f.required == Now || f.required == Never || (f.required == NotRequired && f.default.None?)
  }

  // ----- Elm field name ---------------------------------------------------

  /** The characters at which a key is cut into words. */
  predicate IsSeparator(c: char) { c == ' ' || c == '_' || c == '.' }

  predicate NotSeparator(c: char) { !IsSeparator(c) }

  /**
   * `elm_name` indexes the first character of the joined words, so a key
   * other than `type` needs a character that is not a separator.
   */
  predicate NameableKey(key: string)
  {
    key == "type" || exists i :: 0 <= i < |key| && NotSeparator(key[i])
  }

  /** The lower-cased key cut at `_`, `.` and spaces. */
  function Words(key: string): seq<string>
  {
    Split(Spaced(key), ' ')
  }

  /**
   * `Field.elm_name`: `type`, a reserved word in Elm, becomes `eventType`;
   * any other key is lower-cased and cut into words, every word is
   * capitalised, and the first letter of the result is lowered again.
   */
  function ElmFieldName(key: string): (r: string)
    requires NameableKey(key)
    ensures key == "type" ==> r == "eventType"
    ensures r != [] && All(r, NotSeparator)
  {
    if key == "type" then
      assert All("eventType", NotSeparator);
      "eventType"
    else
      WordsJoinNotEmpty(key);
      WordsJoinPlain(key);
      LowerFirst(Concat(CapitalizeAll(Words(key))))
  }

  lemma WordsJoinNotEmpty(key: string)
    requires key != "type" && NameableKey(key)
    ensures Concat(CapitalizeAll(Words(key))) != []
  {
    var i :| 0 <= i < |key| && NotSeparator(key[i]);
    var s := ReplaceChar(ReplaceChar(Lower(key), '_', ' '), '.', ' ');
    assert s[i] == LowerChar(key[i]) && s[i] != ' ';
    WithoutKeepsOthers(s, ' ', i);
    ConcatSplit(s, ' ');
    ConcatLength(Words(key));
  }

  predicate NotDotOrUnderscore(c: char) { c != '_' && c != '.' }

  lemma WordsJoinPlain(key: string)
    ensures All(Concat(CapitalizeAll(Words(key))), NotSeparator)
  {
    var s := ReplaceChar(ReplaceChar(Lower(key), '_', ' '), '.', ' ');
    AllSplit(s, ' ', NotDotOrUnderscore);
    var ws := Words(key);
    forall w <- CapitalizeAll(ws) ensures All(w, NotSeparator) {
      var k :| 0 <= k < |ws| && w == Capitalize(ws[k]);
      assert ws[k] in ws;
      CapitalizePlain(ws[k]);
    }
    AllConcat(CapitalizeAll(ws), NotSeparator);
  }

  lemma CapitalizePlain(w: string)
    requires ' ' !in w && All(w, NotDotOrUnderscore)
    ensures All(Capitalize(w), NotSeparator)
  {
  }

  /** A key that is one lower-case word is its own Elm name. */
  lemma ElmFieldNamePlain(key: string)
    requires key != "type" && key != [] && All(key, NotSeparator) && All(key, NotUpper)
    ensures NameableKey(key) && ElmFieldName(key) == key
  {
    assert NotSeparator(key[0]);
    LowerNoUpper(key);
    assert '_' !in key && '.' !in key && ' ' !in key by {
      forall i | 0 <= i < |key| ensures key[i] != '_' && key[i] != '.' && key[i] != ' ' {
        assert NotSeparator(key[i]);
      }
    }
    ReplaceAbsent(key, '_', ' ');
    ReplaceAbsent(key, '.', ' ');
    SplitNoSep(key, ' ');
    assert Words(key) == [key];
    assert CapitalizeAll([key]) == [Capitalize(key)];
    assert Concat([Capitalize(key)]) == Capitalize(key);
    LowerFirstCapitalize(key);
  }

  /** Words with one separator (`_`, `.` or a space) between each two. */
  function Interleave(ws: seq<string>, seps: seq<char>): string
    requires |ws| >= 1 && |seps| == |ws| - 1
    decreases |ws|
  {
    if |ws| == 1 then ws[0] else ws[0] + [seps[0]] + Interleave(ws[1..], seps[1..])
  }

  /**
   * A key made of lower-case words separated by any mix of `_`, `.` and
   * spaces becomes camel case: the first word is kept and every later word
   * is capitalised (`room_id` and `m.relates_to` give `roomId` and
   * `mRelatesTo`).
   */
  lemma ElmFieldNameCamelCase(ws: seq<string>, seps: seq<char>)
    requires |ws| >= 1 && ws[0] != [] && |seps| == |ws| - 1
    requires forall w <- ws :: All(w, NotSeparator) && All(w, NotUpper)
    requires forall c <- seps :: IsSeparator(c)
    requires Interleave(ws, seps) != "type"
    ensures NameableKey(Interleave(ws, seps))
    ensures ElmFieldName(Interleave(ws, seps)) == ws[0] + Concat(CapitalizeAll(ws[1..]))
  {
    assert ws[0] in ws;
    InterleaveNameable(ws, seps);
    WordsOfInterleave(ws, seps);
    CapitalizedHeadLowered(ws);
  }

  lemma InterleaveNameable(ws: seq<string>, seps: seq<char>)
    requires |ws| >= 1 && ws[0] != [] && |seps| == |ws| - 1 && All(ws[0], NotSeparator)
    ensures NameableKey(Interleave(ws, seps))
  {
    var key := Interleave(ws, seps);
    assert key[0] == ws[0][0] by {
      if |ws| > 1 {
        assert key == ws[0] + ([seps[0]] + Interleave(ws[1..], seps[1..]));
      }
    }
    assert NotSeparator(key[0]);
  }

  /** Lower-case words joined by separators are cut back into the same words. */
  lemma WordsOfInterleave(ws: seq<string>, seps: seq<char>)
    requires |ws| >= 1 && |seps| == |ws| - 1
    requires forall w <- ws :: All(w, NotSeparator) && All(w, NotUpper)
    requires forall c <- seps :: IsSeparator(c)
    ensures Words(Interleave(ws, seps)) == ws
  {
    SpacedInterleave(ws, seps);
    forall w <- ws ensures ' ' !in w {
      forall i | 0 <= i < |w| ensures w[i] != ' ' {
        assert NotSeparator(w[i]);
      }
    }
    SplitJoin(ws, ' ');
  }

  /** Lower-case words joined by separators are lower-cased and cut into spaced words. */
  lemma {:induction false} SpacedInterleave(ws: seq<string>, seps: seq<char>)
    requires |ws| >= 1 && |seps| == |ws| - 1
    requires forall w <- ws :: All(w, NotSeparator) && All(w, NotUpper)
    requires forall c <- seps :: IsSeparator(c)
    ensures Spaced(Interleave(ws, seps)) == Join(ws, " ")
    decreases |ws|
  {
    assert ws[0] in ws;
    SpacedPlain(ws[0]);
    if |ws| > 1 {
      assert seps[0] in seps;
      forall w <- ws[1..] ensures All(w, NotSeparator) && All(w, NotUpper) {
        assert w in ws;
      }
      forall c <- seps[1..] ensures IsSeparator(c) {
        assert c in seps;
      }
      SpacedInterleave(ws[1..], seps[1..]);
      var rest := Interleave(ws[1..], seps[1..]);
      SpacedAppend(ws[0], [seps[0]]);
      SpacedAppend(ws[0] + [seps[0]], rest);
      assert Spaced([seps[0]]) == " ";
    }
  }

  /** A key lower-cased, with `_` and `.` turned into spaces: the text `elm_name` splits. */
  function Spaced(key: string): string
  {
    ReplaceChar(ReplaceChar(Lower(key), '_', ' '), '.', ' ')
  }

  lemma SpacedAppend(a: string, b: string)
    ensures Spaced(a + b) == Spaced(a) + Spaced(b)
  {
    assert Lower(a + b) == Lower(a) + Lower(b);
    ReplaceAppend(Lower(a), Lower(b), '_', ' ');
    ReplaceAppend(ReplaceChar(Lower(a), '_', ' '), ReplaceChar(Lower(b), '_', ' '), '.', ' ');
  }

  lemma SpacedPlain(w: string)
    requires All(w, NotSeparator) && All(w, NotUpper)
    ensures Spaced(w) == w
  {
    LowerNoUpper(w);
    forall i | 0 <= i < |w| ensures w[i] != '_' && w[i] != '.' {
      assert NotSeparator(w[i]);
    }
    ReplaceAbsent(w, '_', ' ');
    ReplaceAbsent(w, '.', ' ');
  }

  lemma CapitalizedHeadLowered(ws: seq<string>)
    requires |ws| >= 1 && ws[0] != [] && All(ws[0], NotUpper)
    ensures LowerFirst(Concat(CapitalizeAll(ws))) == ws[0] + Concat(CapitalizeAll(ws[1..]))
  {
    assert CapitalizeAll(ws) == [Capitalize(ws[0])] + CapitalizeAll(ws[1..]);
    LowerFirstCapitalize(ws[0]);
    LowerFirstAppend(Capitalize(ws[0]), Concat(CapitalizeAll(ws[1..])));
  }

  /**
   * Case does not matter to the Elm name of a key other than `type`: a key
   * and its lower-cased form have the same name (`roomId` gives `roomid`,
   * not `roomId`).
   */
  lemma ElmFieldNameIgnoresCase(key: string)
    requires NameableKey(key) && key != "type" && Lower(key) != "type"
    ensures NameableKey(Lower(key)) && ElmFieldName(Lower(key)) == ElmFieldName(key)
  {
    var i :| 0 <= i < |key| && NotSeparator(key[i]);
    assert NotSeparator(Lower(key)[i]);
    assert Lower(Lower(key)) == Lower(key);
    assert Words(Lower(key)) == Words(key);
  }

  /** `roomId` is cut as the single word `roomid`. */
  lemma ElmFieldNameOfCamelCaseKey()
    ensures NameableKey("roomId") && ElmFieldName("roomId") == "roomid"
  {
    var key, lowered := "roomId", "roomid";
    assert NotSeparator(key[0]);
    LowerOfRoomId(key, lowered);
    ElmFieldNameIgnoresCase(key);
    ElmFieldNamePlain(lowered);
  }

  lemma LowerOfRoomId(key: string, lowered: string)
    requires key == "roomId" && lowered == "roomid"
    ensures Lower(key) == lowered && lowered != "type"
    ensures All(lowered, NotSeparator) && All(lowered, NotUpper)
  {
    assert |Lower(key)| == 6;
    assert Lower(key)[4] == LowerChar('I') == 'i';
    assert forall i :: 0 <= i < 6 && i != 4 ==> Lower(key)[i] == key[i] == lowered[i];
    assert lowered[0] != 't';
  }

  // ----- Renderings -------------------------------------------------------

  /**
   * `Field.type_definition`: the field's Elm type, wrapped in `Maybe`
   * exactly when the record may lack the field.
   */
  function FieldTypeDefinition(f: Field): (r: string)
    ensures IsMaybe(f) ==> r == "Maybe " + Encapsulate(TypeName(f.fieldType))
    ensures !IsMaybe(f) ==> r == TypeName(f.fieldType)
  {
    if f.required == Now || f.required == Never then "Maybe " + Encapsulate(TypeName(f.fieldType))
    else if f.required == Required || f.default.Some? then TypeName(f.fieldType)
    else "Maybe " + Encapsulate(TypeName(f.fieldType))
  }

  /**
   * `Field.encoder`: the `Maybe E.Value` that `maybeObject` receives for
   * the field. A `"never"` field is always left out; a field the record
   * holds outright is wrapped in `Just`; a `Maybe` field is mapped, except a
   * raw JSON value, which already is one.
   */
  function FieldEncoder(f: Field): (r: string)
    requires NameableKey(f.key)
    ensures r == "Nothing" <==> f.required == Never
    ensures HasPrefix(r, "Just <| ") <==> !IsMaybe(f)
    ensures f.required != Never ==> HasSuffix(r, "data." + ElmFieldName(f.key))
    ensures f.required == Now ==>
      r == "Maybe.map " + Encapsulate(Encoder(f.fieldType)) + " data." + ElmFieldName(f.key)
    ensures (f.required == Required || (f.required == NotRequired && f.default.Some?)) ==>
      r == "Just <| " + Encoder(f.fieldType) + " data." + ElmFieldName(f.key)
    ensures f.required == NotRequired && f.default.None? && f.fieldType == ValueField ==>
      r == "data." + ElmFieldName(f.key)
    ensures f.required == NotRequired && f.default.None? && f.fieldType != ValueField ==>
      r == "Maybe.map " + Encapsulate(Encoder(f.fieldType)) + " data." + ElmFieldName(f.key)
  {
    var name := ElmFieldName(f.key);
    var enc := Encoder(f.fieldType);
    if f.required == Never then "Nothing"
    else if f.required == Now then MaybeMap(enc, name)
    else if f.required == Required || f.default.Some? then JustOf(enc, name)
    else if f.fieldType == ValueField then DataOf(name)
    else MaybeMap(enc, name)
  }

  /** `Maybe.map (enc) data.name` */
  function MaybeMap(enc: string, name: string): (r: string)
    ensures r != "Nothing" && !HasPrefix(r, "Just <| ") && HasSuffix(r, "data." + name)
    ensures r == "Maybe.map " + Encapsulate(enc) + " data." + name
  {
    var r := "Maybe.map " + Encapsulate(enc) + " " + ("data." + name);
    assert r == "Maybe.map " + Encapsulate(enc) + " data." + name;
    assert r[0] == 'M';
    r
  }

  /** `Just <| enc data.name` */
  function JustOf(enc: string, name: string): (r: string)
    ensures r != "Nothing" && HasPrefix(r, "Just <| ") && HasSuffix(r, "data." + name)
    ensures r == "Just <| " + enc + " data." + name
  {
    assert "Just <| " + enc + " data." + name == "Just <| " + enc + " " + ("data." + name);
    var r := "Just <| " + enc + " " + ("data." + name);
    assert r == "Just <| " + (enc + " " + ("data." + name));
    assert r[0] == 'J';
    r
  }

  /** `data.name` */
  function DataOf(name: string): (r: string)
    ensures r != "Nothing" && !HasPrefix(r, "Just <| ") && HasSuffix(r, "data." + name)
  {
    var r := "data." + name;
    assert r[0] == 'd';
    r
  }

  /** The decoder reads a `Maybe`: always `Nothing`, a `Just`, or an optional lookup. */
  predicate DecodesMaybe(r: string)
  {
    r == "D.succeed Nothing" || HasPrefix(r, "D.map Just <| ") || HasPrefix(r, "opField \"")
  }

  /** The key as a JSON string literal. */
  function Quoted(key: string): (r: string)
    ensures |r| >= 2 && r[0] == '"'
  {
    "\"" + key + "\""
  }

  /**
   * `Field.decoder`: how the field is read out of a JSON object. A
   * `"never"` field is not read at all; any other field applies the lookup
   * its requiredness calls for, by the quoted key, to the decoder of its
   * type as a single argument.
   */
  function FieldDecoder(f: Field, objects: map<string, bool>): (r: string)
    requires f.required != Never ==> Renderable(f.fieldType, objects)
    ensures r == "D.succeed Nothing" <==> f.required == Never
    ensures DecodesMaybe(r) <==> IsMaybe(f)
    ensures HasPrefix(r, "opField \"") <==> f.required == NotRequired && f.default.None?
    ensures f.required != Never ==>
      HasSuffix(r, " " + Encapsulate(Decoder(f.fieldType, objects))) && Contains(r, Quoted(f.key))
    ensures f.required == Now ==>
      r == "D.map Just <| D.field " + Quoted(f.key) + " " + Encapsulate(Decoder(f.fieldType, objects))
    ensures f.required == Required ==>
      r == "D.field " + Quoted(f.key) + " " + Encapsulate(Decoder(f.fieldType, objects))
    ensures f.required == NotRequired && f.default.None? ==>
      r == "opField " + Quoted(f.key) + " " + Encapsulate(Decoder(f.fieldType, objects))
    ensures f.required == NotRequired && f.default.Some? ==>
      r == "opFieldWithDefault " + Quoted(f.key) + " " + f.default.value + " "
        + Encapsulate(Decoder(f.fieldType, objects))
  {
    var q := Quoted(f.key);
    match f.required
    case Never =>
      var r := "D.succeed Nothing";
      assert r[0] == 'D';
      r
    case Now => NowRead(q, Encapsulate(Decoder(f.fieldType, objects)))
    case Required => RequiredRead(q, Encapsulate(Decoder(f.fieldType, objects)))
    case NotRequired =>
      var dec := Encapsulate(Decoder(f.fieldType, objects));
      if f.default.None? then OptionalRead(q, dec) else DefaultRead(q, f.default.value, dec)
  }

  /** `D.map Just <| D.field q dec` */
  function NowRead(q: string, dec: string): (r: string)
    ensures r != "D.succeed Nothing" && HasPrefix(r, "D.map Just <| ") && !HasPrefix(r, "opField \"")
    ensures HasSuffix(r, " " + dec) && Contains(r, q)
    ensures r == "D.map Just <| D.field " + q + " " + dec
  {
    var r := "D.map Just <| D.field " + q + (" " + dec);
    assert r == "D.map Just <| D.field " + q + " " + dec;
    assert r[..14] == "D.map Just <| " && r[2] == 'm';
    ContainsPrefix(q, q);
    ContainsInMiddle("D.map Just <| D.field ", q, " " + dec, q);
    r
  }

  /** `D.field q dec` */
  function RequiredRead(q: string, dec: string): (r: string)
    ensures r != "D.succeed Nothing" && !HasPrefix(r, "D.map Just <| ") && !HasPrefix(r, "opField \"")
    ensures HasSuffix(r, " " + dec) && Contains(r, q)
    ensures r == "D.field " + q + " " + dec
  {
    var r := "D.field " + q + (" " + dec);
    assert r == "D.field " + q + " " + dec;
    assert r[0] == 'D' && r[2] == 'f';
    ContainsPrefix(q, q);
    ContainsInMiddle("D.field ", q, " " + dec, q);
    r
  }

  /** `opField q dec` */
  function OptionalRead(q: string, dec: string): (r: string)
    requires |q| > 0 && q[0] == '"'
    ensures r != "D.succeed Nothing" && !HasPrefix(r, "D.map Just <| ") && HasPrefix(r, "opField \"")
    ensures HasSuffix(r, " " + dec) && Contains(r, q)
    ensures r == "opField " + q + " " + dec
  {
    var r := "opField " + q + (" " + dec);
    assert r == "opField " + q + " " + dec;
    assert r[0] == 'o' && r[..9] == "opField " + [q[0]];
    ContainsPrefix(q, q);
    ContainsInMiddle("opField ", q, " " + dec, q);
    r
  }

  /** `opFieldWithDefault q d dec` */
  function DefaultRead(q: string, d: string, dec: string): (r: string)
    ensures r != "D.succeed Nothing" && !HasPrefix(r, "D.map Just <| ") && !HasPrefix(r, "opField \"")
    ensures HasSuffix(r, " " + dec) && Contains(r, q)
    ensures r == "opFieldWithDefault " + q + " " + d + " " + dec
  {
    var r := "opFieldWithDefault " + q + (" " + d + " " + dec);
    assert r == "opFieldWithDefault " + q + " " + d + " " + dec;
    assert r[..3] == "opF" && r[7] == 'W';
    ContainsPrefix(q, q);
    ContainsInMiddle("opFieldWithDefault ", q, " " + d + " " + dec, q);
    assert HasSuffix(r, " " + dec) by {
      assert r == ("opFieldWithDefault " + q + " " + d) + (" " + dec);
    }
    r
  }

  /**
   * The three renderings agree on whether the record holds a `Maybe`: the
   * type is wrapped, the encoder does not wrap in `Just`, and the decoder
   * produces a `Maybe`, all together or not at all.
   */
  lemma RenderingsAgree(f: Field, objects: map<string, bool>)
    requires NameableKey(f.key) && (f.required != Never ==> Renderable(f.fieldType, objects))
    ensures FieldTypeDefinition(f) != TypeName(f.fieldType) <==> DecodesMaybe(FieldDecoder(f, objects))
    ensures HasPrefix(FieldEncoder(f), "Just <| ") <==> !DecodesMaybe(FieldDecoder(f, objects))
  {
    if IsMaybe(f) {
      assert |FieldTypeDefinition(f)| > |TypeName(f.fieldType)|;
    }
  }
}
