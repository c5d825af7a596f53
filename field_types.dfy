/**
 * The field-type classes of the generator (`BoolField` ... `DictField`),
 * their three renderings (Elm type name, encoder, decoder), the
 * `encapsulate` helper that parenthesises a rendering with a space in it,
 * and `str_to_field`, which turns a type token from the schema into a
 * field type.
 */
module FieldTypes {
  import opened Wrappers
  import opened Text

  /** One variant per field-type class of the generator. */
  datatype FieldType =
    | BoolField
    | IntField
    | StringField
    | FloatField
    | TimestampField
    | ValueField
    | EnumField(name: string)
    | SpecObjectField(name: string)
    | ListField(child: FieldType)
    | DictField(child: FieldType)

  /**
   * The exceptions generation can stop with: `ValueError("Unknown value ...")`
   * from `str_to_field`, and the `IndexError` raised when a rendering indexes
   * an empty name or runs past the sixteen lambda variables.
   */
  datatype BuildError = UnknownValue(token: string) | IndexOutOfRange

  /** `encapsulate`: wraps a rendering in parentheses exactly when it holds a space. */
  function Encapsulate(s: string): (r: string)
    ensures r == s <==> ' ' !in s
    ensures r != s ==> r == "(" + s + ")"
  {
    if ' ' !in s then s else "(" + s + ")"
  }

  /** Names appearing in a field type are all keys of the schema's objects. */
  predicate RefersOnlyTo(t: FieldType, objects: map<string, bool>)
  {
    match t
    case SpecObjectField(name) => name in objects
    case ListField(c) => RefersOnlyTo(c, objects)
    case DictField(c) => RefersOnlyTo(c, objects)
    case _ => true
  }

  /**
   * The decoder can be rendered without an exception: every enum and object
   * name is non-empty (its first character is indexed) and every object name
   * can be looked up in the schema.
   */
  predicate Renderable(t: FieldType, objects: map<string, bool>)
  {
    match t
    case EnumField(name) => name != []
    case SpecObjectField(name) => name != [] && name in objects
    case ListField(c) => Renderable(c, objects)
    case DictField(c) => Renderable(c, objects)
    case _ => true
  }

  /** `type_name` */
  function TypeName(t: FieldType): (r: string)
    ensures t.ListField? || t.DictField? ==> ' ' in r
  {
    match t
    case BoolField => "Bool"
    case IntField => "Int"
    case StringField => "String"
    case FloatField => "Float"
    case TimestampField => "Timestamp"
    case ValueField => "E.Value"
    case EnumField(name) => "Enums." + name
    case SpecObjectField(name) => name
    case ListField(c) => "List " + Encapsulate(TypeName(c))
    case DictField(c) => "Dict String " + Encapsulate(TypeName(c))
  }

  /** `encoder`; a raw JSON value needs no encoder, so its rendering is empty. */
  function Encoder(t: FieldType): (r: string)
    ensures r == [] <==> t == ValueField
    ensures t.ListField? || t.DictField? ==> ' ' in r
  {
    match t
    case BoolField => "E.bool"
    case IntField => "E.int"
    case StringField => "E.string"
    case FloatField => "E.float"
    case TimestampField => "encodeTimestamp"
    case ValueField => ""
    case EnumField(name) => "Enums.encode" + name
    case SpecObjectField(name) => "encode" + name
    case ListField(c) => "E.list " + Encapsulate(Encoder(c))
    case DictField(c) => "E.dict identity " + Encapsulate(Encoder(c))
  }

  /**
   * `decoder`. A reference to an object marked `anti_recursion` is decoded
   * lazily, so that a recursive decoder is not built eagerly.
   */
  function Decoder(t: FieldType, objects: map<string, bool>): (r: string)
    requires Renderable(t, objects)
    ensures r != []
    ensures t.ListField? || t.DictField? ==> ' ' in r
    ensures t.SpecObjectField? ==> (HasPrefix(r, "D.lazy ") <==> objects[t.name])
  {
    match t
    case BoolField => "D.bool"
    case IntField => "D.int"
    case StringField => "D.string"
    case FloatField => "D.float"
    case TimestampField => "timestampDecoder"
    case ValueField => "D.value"
    case EnumField(name) => "Enums." + LowerFirst(name) + "Decoder"
    case SpecObjectField(name) =>
      var decoderName := LowerFirst(name) + "Decoder";
      assert decoderName[0] != 'D';
      if objects[name] then "D.lazy (\\_ -> " + decoderName + ")" else decoderName
    case ListField(c) => "D.list " + Encapsulate(Decoder(c, objects))
    case DictField(c) => "D.dict " + Encapsulate(Decoder(c, objects))
  }

  /** The token starts with `open` and ends with `close` (single distinct characters). */
  predicate Bracketed(s: string, open: char, close: char)
  {
    |s| >= 2 && s[0] == open && s[|s| - 1] == close
  }

  const PRIMITIVE_NAMES: set<string> := {"value", "bool", "int", "string", "float", "timestamp"}

  /** A token no rule of `str_to_field` accepts. */
  predicate MatchesNoRule(token: string, objects: map<string, bool>)
  {
    && !Bracketed(token, '[', ']')
    && !Bracketed(token, '{', '}')
    && token !in objects
    && !HasPrefix(token, "Enums.")
    && token !in PRIMITIVE_NAMES
  }

  /**
   * The token left once the bracket rules are done: `[inner]` and `{inner}`
   * are peeled off until neither applies.
   */
  function Innermost(value: string): (r: string)
    ensures !Bracketed(r, '[', ']') && !Bracketed(r, '{', '}')
    ensures |r| <= |value|
    decreases |value|
  {
    if Bracketed(value, '[', ']') || Bracketed(value, '{', '}') then Innermost(value[1..|value| - 1])
    else value
  }

  /** The innermost token occurs in the token. */
  lemma {:induction false} InnermostOccurs(value: string)
    ensures Contains(value, Innermost(value))
    decreases |value|
  {
    if Bracketed(value, '[', ']') || Bracketed(value, '{', '}') {
      var inner := value[1..|value| - 1];
      InnermostOccurs(inner);
      assert value == [value[0]] + inner + [value[|value| - 1]];
      ContainsInMiddle([value[0]], inner, [value[|value| - 1]], Innermost(inner));
    } else {
      ContainsPrefix(value, value);
    }
  }

  /**
   * `str_to_field`. The rules are tried in order: `[inner]` is a list,
   * `{inner}` a dict, an object name a reference, an `Enums.` prefix an enum,
   * then the primitive names; any other token is an error naming it. The
   * token that fails is the one inside all the brackets, and it fails
   * exactly when no rule accepts it.
   */
  function StrToField(value: string, objects: map<string, bool>): (r: Result<FieldType, BuildError>)
    ensures r.Ok? ==> Token(r.value) == value && RefersOnlyTo(r.value, objects)
    ensures r.Err? <==> MatchesNoRule(Innermost(value), objects)
    ensures r.Err? ==> r.error == UnknownValue(Innermost(value))
    decreases |value|
  {
    if Bracketed(value, '[', ']') then
      var inner := value[1..|value| - 1];
      assert value == "[" + inner + "]";
      match StrToField(inner, objects)
      case Ok(child) => Ok(ListField(child))
      case Err(e) => Err(e)
    else if Bracketed(value, '{', '}') then
      var inner := value[1..|value| - 1];
      assert value == "{" + inner + "}";
      match StrToField(inner, objects)
      case Ok(child) => Ok(DictField(child))
      case Err(e) => Err(e)
    else UnbracketedField(value, objects)
  }

  /** The rules of `str_to_field` after the two bracket rules. */
  function UnbracketedField(value: string, objects: map<string, bool>): (r: Result<FieldType, BuildError>)
    requires !Bracketed(value, '[', ']') && !Bracketed(value, '{', '}')
    ensures r.Ok? ==> Token(r.value) == value && RefersOnlyTo(r.value, objects)
    ensures r.Err? <==> MatchesNoRule(value, objects)
    ensures r.Err? ==> r.error == UnknownValue(value)
  {
    if value in objects then Ok(SpecObjectField(value))
    else if HasPrefix(value, "Enums.") then
      assert value == "Enums." + value[6..];
      Ok(EnumField(value[6..]))
    else if value == "value" then Ok(ValueField)
    else if value == "bool" then Ok(BoolField)
    else if value == "int" then Ok(IntField)
    else if value == "string" then Ok(StringField)
    else if value == "float" then Ok(FloatField)
    else if value == "timestamp" then Ok(TimestampField)
    else Err(UnknownValue(value))
  }

  /**
   * A record name wins over the enum and primitive rules: a record called
   * `bool`, or one whose name starts with `Enums.`, is a reference to it.
   */
  lemma RecordNameWins(name: string, objects: map<string, bool>)
    requires name in objects && !Bracketed(name, '[', ']') && !Bracketed(name, '{', '}')
    ensures StrToField(name, objects) == Ok(SpecObjectField(name))
  {
  }

  /**
   * The bracket rules win over every other: `[inner]` is a list of what
   * `inner` resolves to, or fails as `inner` does, even when `[inner]` is
   * itself a record name; likewise `{inner}` for a dict.
   */
  lemma BracketsWin(value: string, objects: map<string, bool>)
    requires Bracketed(value, '[', ']') || Bracketed(value, '{', '}')
    ensures var inner := StrToField(value[1..|value| - 1], objects);
      && (StrToField(value, objects).Ok? <==> inner.Ok?)
      && (inner.Err? ==> StrToField(value, objects) == inner)
      && (inner.Ok? && value[0] == '[' ==> StrToField(value, objects) == Ok(ListField(inner.value)))
      && (inner.Ok? && value[0] == '{' ==> StrToField(value, objects) == Ok(DictField(inner.value)))
  {
  }

  /** The enum rule wins over the primitive names: `Enums.bool` is an enum called `bool`. */
  lemma EnumPrefixWins(value: string, objects: map<string, bool>)
    requires value !in objects && HasPrefix(value, "Enums.")
    ensures StrToField(value, objects) == Ok(EnumField(value[6..]))
  {
    assert value[0] == 'E';
  }

  /** The schema token that denotes a field type: the inverse of `StrToField`. */
  function Token(t: FieldType): string
  {
    match t
    case BoolField => "bool"
    case IntField => "int"
    case StringField => "string"
    case FloatField => "float"
    case TimestampField => "timestamp"
    case ValueField => "value"
    case EnumField(name) => "Enums." + name
    case SpecObjectField(name) => name
    case ListField(c) => "[" + Token(c) + "]"
    case DictField(c) => "{" + Token(c) + "}"
  }

  /**
   * The token of `t` is read back as `t`: no earlier rule captures it. An
   * object name must be known and not look like a bracketed token, and an
   * enum or primitive token must not also be an object name.
   */
  predicate Unambiguous(t: FieldType, objects: map<string, bool>)
  {
    match t
    case SpecObjectField(name) =>
      name in objects && !Bracketed(name, '[', ']') && !Bracketed(name, '{', '}')
    case EnumField(name) => "Enums." + name !in objects
    case ListField(c) => Unambiguous(c, objects)
    case DictField(c) => Unambiguous(c, objects)
    case _ => Token(t) !in objects
  }

  // ----- Lemmas -----------------------------------------------------------

  lemma BracketedIsStartsAndEndsWith(s: string, open: char, close: char)
    requires open != close
    ensures Bracketed(s, open, close) <==> HasPrefix(s, [open]) && HasSuffix(s, [close])
  {
    if HasPrefix(s, [open]) && HasSuffix(s, [close]) {
      assert s[0] == open && s[|s| - 1] == close;
    }
  }

  /** Printing a field type as a token and resolving it gives the field type back. */
  lemma {:induction false} TokenRoundTrip(t: FieldType, objects: map<string, bool>)
    requires Unambiguous(t, objects)
    ensures StrToField(Token(t), objects) == Ok(t)
  {
    match t
    case ListField(c) =>
      var s := Token(t);
      assert s[1..|s| - 1] == Token(c);
      TokenRoundTrip(c, objects);
    case DictField(c) =>
      var s := Token(t);
      assert s[1..|s| - 1] == Token(c);
      TokenRoundTrip(c, objects);
    case EnumField(name) =>
      var s := Token(t);
      assert HasPrefix(s, "Enums.") && s[6..] == name;
    case SpecObjectField(name) =>
    case BoolField =>
      assert !HasPrefix("bool", "Enums.");
    case IntField =>
      assert !HasPrefix("int", "Enums.");
    case StringField =>
      assert "string"[0] != 'E';
    case FloatField =>
      assert "float"[0] != 'E';
    case TimestampField =>
      assert "timestamp"[0] != 'E';
    case ValueField =>
      assert "value"[0] != 'E';
  }

  /**
   * Resolution is one-to-one: two tokens that resolve to the same field type
   * are the same token.
   */
  lemma StrToFieldInjective(a: string, b: string, objects: map<string, bool>)
    requires StrToField(a, objects).Ok? && StrToField(b, objects).Ok?
    requires StrToField(a, objects) == StrToField(b, objects)
    ensures a == b
  {
  }

  /** `[[string]]` is a list of lists of strings. */
  lemma NestedListResolves(objects: map<string, bool>)
    requires "string" !in objects
    ensures StrToField("[[string]]", objects) == Ok(ListField(ListField(StringField)))
  {
    var t := ListField(ListField(StringField));
    assert Unambiguous(StringField, objects);
    assert Token(t) == "[" + ("[" + "string" + "]") + "]" == "[[string]]";
    TokenRoundTrip(t, objects);
  }

  /** A list of lists of strings is rendered with the inner level parenthesised. */
  lemma NestedListTypeName()
    ensures TypeName(ListField(ListField(StringField))) == "List (List String)"
  {
    var inner := TypeName(ListField(StringField));
    assert inner == "List String";
    assert inner[4] == ' ';
    assert Encapsulate(inner) == "(List String)";
    assert "List " + "(List String)" == "List (List String)";
  }

  lemma NestedListEncoder()
    ensures Encoder(ListField(ListField(StringField))) == "E.list (E.list E.string)"
  {
    var inner := Encoder(ListField(StringField));
    StringListEncoder();
    assert inner[6] == ' ';
    assert Encapsulate(inner) == "(E.list E.string)";
    assert "E.list " + "(E.list E.string)" == "E.list (E.list E.string)";
  }

  lemma StringListEncoder()
    ensures Encoder(ListField(StringField)) == "E.list E.string"
  {
    assert Encoder(StringField) == "E.string";
    assert ' ' !in "E.string";
    assert "E.list " + "E.string" == "E.list E.string";
  }

  lemma NestedListDecoder(objects: map<string, bool>)
    ensures Decoder(ListField(ListField(StringField)), objects) == "D.list (D.list D.string)"
  {
    var inner := Decoder(ListField(StringField), objects);
    StringListDecoder(objects);
    assert inner[6] == ' ';
    assert Encapsulate(inner) == "(D.list D.string)";
    assert "D.list " + "(D.list D.string)" == "D.list (D.list D.string)";
  }

  lemma StringListDecoder(objects: map<string, bool>)
    ensures Decoder(ListField(StringField), objects) == "D.list D.string"
  {
    assert Decoder(StringField, objects) == "D.string";
    assert ' ' !in "D.string";
    assert "D.list " + "D.string" == "D.list D.string";
  }

  // ----- Parenthesis structure of the renderings -------------------------

  function Depth(c: char): int
  {
    if c == '(' then 1 else if c == ')' then -1 else 0
  }

  /** Opening minus closing parentheses. */
  function Excess(s: string): int
  {
    if s == [] then 0 else Depth(s[0]) + Excess(s[1..])
  }

  /** Reading `s` from nesting depth `d`, the depth never drops below `lo`. */
  predicate StaysAbove(s: string, d: int, lo: int)
  {
    s == [] || (d + Depth(s[0]) >= lo && StaysAbove(s[1..], d + Depth(s[0]), lo))
  }

  /** Reading `s` from nesting depth `d`, every space is met inside parentheses. */
  predicate Shielded(s: string, d: int)
  {
    s == [] || ((s[0] == ' ' ==> d > 0) && Shielded(s[1..], d + Depth(s[0])))
  }

  /** Parentheses match: no prefix closes more than it opens, and the whole closes all. */
  predicate Balanced(s: string)
  {
    StaysAbove(s, 0, 0) && Excess(s) == 0
  }

  /**
   * A single Elm argument: balanced, and every space sits inside
   * parentheses, so the text cannot be read as several arguments.
   */
  predicate Atom(s: string)
  {
    Balanced(s) && Shielded(s, 0)
  }

  predicate NoParens(s: string)
  {
    '(' !in s && ')' !in s
  }

  /** Every enum and object name in the type is free of parentheses. */
  predicate PlainNames(t: FieldType)
  {
    match t
    case EnumField(name) => NoParens(name)
    case SpecObjectField(name) => NoParens(name)
    case ListField(c) => PlainNames(c)
    case DictField(c) => PlainNames(c)
    case _ => true
  }

  lemma {:induction false} AppendFacts(a: string, b: string, d: int, lo: int)
    ensures Excess(a + b) == Excess(a) + Excess(b)
    ensures StaysAbove(a, d, lo) && StaysAbove(b, d + Excess(a), lo) ==> StaysAbove(a + b, d, lo)
    ensures Shielded(a, d) && Shielded(b, d + Excess(a)) ==> Shielded(a + b, d)
  {
    if a == [] {
      assert a + b == b;
    } else {
      assert (a + b)[1..] == a[1..] + b;
      AppendFacts(a[1..], b, d + Depth(a[0]), lo);
    }
  }

  lemma {:induction false} NoParensFacts(s: string, d: int)
    requires NoParens(s)
    ensures Excess(s) == 0 && StaysAbove(s, d, d)
  {
    if s != [] {
      NoParensFacts(s[1..], d);
    }
  }

  /** Starting one level deeper keeps every depth one level higher. */
  lemma {:induction false} StaysAboveShift(s: string, d: int, lo: int)
    requires StaysAbove(s, d, lo)
    ensures StaysAbove(s, d + 1, lo + 1) && StaysAbove(s, d + 1, lo)
  {
    if s != [] {
      StaysAboveShift(s[1..], d + Depth(s[0]), lo);
    }
  }

  lemma {:induction false} DeepIsShielded(s: string, d: int)
    requires d >= 1 && StaysAbove(s, d, 1)
    ensures Shielded(s, d)
  {
    if s != [] {
      DeepIsShielded(s[1..], d + Depth(s[0]));
    }
  }

  lemma NoParensBalanced(s: string)
    requires NoParens(s)
    ensures Balanced(s)
  {
    NoParensFacts(s, 0);
  }

  lemma BalancedAppend(a: string, b: string)
    requires Balanced(a) && Balanced(b)
    ensures Balanced(a + b)
  {
    AppendFacts(a, b, 0, 0);
  }

  /** `(s)` for balanced `s` is a single argument. */
  lemma ParenthesizedAtom(s: string)
    requires Balanced(s)
    ensures Atom("(" + s + ")")
  {
    StaysAboveShift(s, 0, 0);
    DeepIsShielded(s, 1);
    AppendFacts(s, ")", 1, 0);
    assert "(" + s + ")" == "(" + (s + ")");
    AppendFacts("(", s + ")", 0, 0);
  }

  /** `encapsulate` turns a balanced rendering into a single argument. */
  lemma EncapsulateAtom(s: string)
    requires Balanced(s)
    ensures Atom(Encapsulate(s))
  {
    if ' ' in s {
      ParenthesizedAtom(s);
    } else {
      NoSpaceShielded(s, 0);
    }
  }

  lemma {:induction false} NoSpaceShielded(s: string, d: int)
    requires ' ' !in s
    ensures Shielded(s, d)
  {
    if s != [] {
      NoSpaceShielded(s[1..], d + Depth(s[0]));
    }
  }

  /** Every rendering of a field type has matching parentheses. */
  lemma RenderingsBalanced(t: FieldType, objects: map<string, bool>)
    requires Renderable(t, objects) && PlainNames(t)
    ensures Balanced(TypeName(t)) && Balanced(Encoder(t)) && Balanced(Decoder(t, objects))
  {
    TypeNameBalanced(t);
    EncoderBalanced(t);
    DecoderBalanced(t, objects);
  }

  lemma {:induction false} TypeNameBalanced(t: FieldType)
    requires PlainNames(t)
    ensures Balanced(TypeName(t))
  {
    match t
    case ListField(c) =>
      TypeNameBalanced(c);
      CombinatorApplied("List ", TypeName(c));
    case DictField(c) =>
      TypeNameBalanced(c);
      CombinatorApplied("Dict String ", TypeName(c));
    case SpecObjectField(name) =>
      NoParensBalanced(name);
    case _ =>
      LeafTypeNamePlain(t);
      NoParensBalanced(TypeName(t));
  }

  lemma {:induction false} EncoderBalanced(t: FieldType)
    requires PlainNames(t)
    ensures Balanced(Encoder(t))
  {
    match t
    case ListField(c) =>
      EncoderBalanced(c);
      CombinatorApplied("E.list ", Encoder(c));
    case DictField(c) =>
      EncoderBalanced(c);
      CombinatorApplied("E.dict identity ", Encoder(c));
    case SpecObjectField(name) =>
      assert NoParens("encode" + name);
      NoParensBalanced("encode" + name);
    case _ =>
      LeafEncoderPlain(t);
      NoParensBalanced(Encoder(t));
  }

  lemma {:induction false} DecoderBalanced(t: FieldType, objects: map<string, bool>)
    requires Renderable(t, objects) && PlainNames(t)
    ensures Balanced(Decoder(t, objects))
  {
    match t
    case ListField(c) =>
      DecoderBalanced(c, objects);
      CombinatorApplied("D.list ", Decoder(c, objects));
    case DictField(c) =>
      DecoderBalanced(c, objects);
      CombinatorApplied("D.dict ", Decoder(c, objects));
    case SpecObjectField(name) =>
      ReferenceDecoderBalanced(name, objects);
    case _ =>
      LeafDecoderPlain(t, objects);
      NoParensBalanced(Decoder(t, objects));
  }

  lemma LeafTypeNamePlain(t: FieldType)
    requires !t.ListField? && !t.DictField? && !t.SpecObjectField? && PlainNames(t)
    ensures NoParens(TypeName(t))
  {
  }

  lemma LeafEncoderPlain(t: FieldType)
    requires !t.ListField? && !t.DictField? && !t.SpecObjectField? && PlainNames(t)
    ensures NoParens(Encoder(t))
  {
  }

  lemma LeafDecoderPlain(t: FieldType, objects: map<string, bool>)
    requires !t.ListField? && !t.DictField? && !t.SpecObjectField?
    requires Renderable(t, objects) && PlainNames(t)
    ensures NoParens(Decoder(t, objects))
  {
    if t.EnumField? {
      assert NoParens("Enums." + LowerFirst(t.name) + "Decoder");
    }
  }

  lemma ReferenceDecoderBalanced(name: string, objects: map<string, bool>)
    requires name != [] && name in objects && NoParens(name)
    ensures Balanced(Decoder(SpecObjectField(name), objects))
  {
    var decoderName := LowerFirst(name) + "Decoder";
    assert NoParens(decoderName);
    if objects[name] {
      var inner := "\\_ -> " + decoderName;
      LazyBalanced("D.lazy ", inner);
      assert Decoder(SpecObjectField(name), objects) == "D.lazy " + ("(" + inner + ")");
    } else {
      NoParensBalanced(decoderName);
    }
  }

  /** A parenthesis-free prefix applied to a parenthesis-free argument in parentheses. */
  lemma LazyBalanced(p: string, inner: string)
    requires NoParens(p) && NoParens(inner)
    ensures Balanced(p + ("(" + inner + ")"))
  {
    NoParensBalanced(p);
    NoParensBalanced(inner);
    ParenthesizedAtom(inner);
    BalancedAppend(p, "(" + inner + ")");
  }

  /** A parenthesis-free combinator applied to an encapsulated balanced argument. */
  lemma CombinatorApplied(p: string, arg: string)
    requires NoParens(p) && Balanced(arg)
    ensures Balanced(p + Encapsulate(arg))
  {
    EncapsulateAtom(arg);
    NoParensBalanced(p);
    BalancedAppend(p, Encapsulate(arg));
  }

  /** The type, encoder and decoder combinators a container applies to its child. */
  function Combinators(t: FieldType): (string, string, string)
    requires t.ListField? || t.DictField?
  {
    if t.ListField? then ("List ", "E.list ", "D.list ")
    else ("Dict String ", "E.dict identity ", "D.dict ")
  }

  /**
   * A container renders as its combinator applied to exactly one argument:
   * the child's rendering, parenthesised when it has a space in it, and
   * nothing else.
   */
  lemma ContainerArgumentIsAtom(t: FieldType, objects: map<string, bool>)
    requires t.ListField? || t.DictField?
    requires Renderable(t, objects) && PlainNames(t)
    ensures var (tp, ep, dp) := Combinators(t);
      && HasPrefix(TypeName(t), tp) && Atom(TypeName(t)[|tp|..])
      && HasPrefix(Encoder(t), ep) && Atom(Encoder(t)[|ep|..])
      && HasPrefix(Decoder(t, objects), dp) && Atom(Decoder(t, objects)[|dp|..])
      && TypeName(t)[|tp|..] == Encapsulate(TypeName(t.child))
      && Encoder(t)[|ep|..] == Encapsulate(Encoder(t.child))
      && Decoder(t, objects)[|dp|..] == Encapsulate(Decoder(t.child, objects))
  {
    var c := t.child;
    RenderingsBalanced(c, objects);
    EncapsulateAtom(TypeName(c));
    EncapsulateAtom(Encoder(c));
    EncapsulateAtom(Decoder(c, objects));
    var (tp, ep, dp) := Combinators(t);
    assert TypeName(t)[|tp|..] == Encapsulate(TypeName(c));
    assert Encoder(t)[|ep|..] == Encapsulate(Encoder(c));
    assert Decoder(t, objects)[|dp|..] == Encapsulate(Decoder(c, objects));
  }
}
