# Elm object generator, modelled in Dafny

`development/build_objects.py` turns one YAML schema into one Elm module.
A schema names a set of records (`objects`), and each record has typed fields.
The module holds, for each record:

- a type definition;
- a JSON encoder built on `maybeObject`;
- a JSON decoder built on `D.mapN`.

The records are sorted by their lower-cased Elm name. Before the code come:

- the module line and its exposing list;
- a doc comment naming the schema and the generation time;
- the imports the generated code calls for, found by searching that code for marker substrings;
- the two JSON imports.

The model follows the generator's own pieces:

- `FieldTypes`: the ten field-type classes (`BoolField` … `DictField`) as one datatype, with their type name, encoder and decoder renderings. It also holds `encapsulate` and `str_to_field`, the token grammar of field types.
- `Fields`: `Field`, which covers building a field from its schema entry and its Elm name. It also covers the encoder and decoder expressions and the Elm type of the field, for each kind of `required` entry.
- `Objects`: `Object`. It covers building a record with its fields in key order (a loop, modelled as a method proved against a function). It also covers the record's Elm names and its type definition, encoder and decoder.
- `ModuleEmitter`: `main`. It covers the module name taken from the output path, the sort, the exposing list and the content. It also covers the marker-driven imports and the assembled module text. The whole run is a method (build, sort an array in place, check, write) proved equal to a function, `GenerateSpec`.
- `Text` and `Sorting`: the Python string operations and the stable sort these rely on.

Exceptions become values:

- An unknown type token is `UnknownValue(token)`. This is Python's `ValueError`.
- Every rendering that would index past the end of a string is `IndexOutOfRange`. This is Python's `IndexError`. It arises from an empty Elm name of a record, a field key made only of `_`, `.` and spaces, more than sixteen fields, or an empty enum or record name in the type of a field that is not `"never"`. A `"never"` field decodes as `D.succeed Nothing` without rendering its type, so its type cannot fail (`NeverFieldAnyType`, `NeverFieldOfUnrenderableType`).

Notable behaviours of the generator, which the model keeps:

- **The `D` alias.** The `DecodeExtra` import is aliased `D` only when the content mentions `map9`, `map10` or `map11`, not for every arity above 8. A record of 12 to 16 fields therefore does not get the alias.
- **Field names.** They are lower-cased before they are cut into words. So a camel-case key such as `roomId` becomes `roomid`, not `roomId` (`ElmFieldNameOfCamelCaseKey`). Only `_`, `.` and spaces separate words.
- **The version.** It is read from the schema but never written into the module.
- **References to dotted records.** Such a reference renders the raw dotted name, while the record itself is defined under its capitalised Elm name (`DottedReferenceDiffers`).
- **`"now"` fields holding a raw JSON value.** These encode as `Maybe.map  data.x`, with two spaces, because a raw value's encoder is empty.
- **The `Dict` import.** It is triggered by the substring `Dict` anywhere in the content, so a description mentioning `Dict` triggers it too (`DescriptionCanNeedDict`).

## Model

| member | source | states |
|---|---|---|
| FieldTypes.Encapsulate | development/build_objects.py:16 | the rendering is returned unchanged exactly when it has no space; otherwise it is wrapped in parentheses |
| FieldTypes.EncapsulateAtom | development/build_objects.py:16 | a rendering with balanced parentheses becomes a single argument once encapsulated |
| FieldTypes.TypeName | development/build_objects.py:19-173 | a list or dict type name always holds a space, so it is parenthesised wherever it is an argument |
| FieldTypes.Encoder | development/build_objects.py:19-173 | the encoder is empty exactly for a raw JSON value; list and dict encoders hold a space |
| FieldTypes.Decoder | development/build_objects.py:19-173 | the decoder is never empty; list and dict decoders hold a space; a record reference starts with `D.lazy ` exactly when the record is `anti_recursion` |
| FieldTypes.ReferenceDecoderBalanced | development/build_objects.py:132-139 | the lazy and the plain record-reference decoders have balanced parentheses |
| FieldTypes.RenderingsBalanced | development/build_objects.py:142-173 | the type name, encoder and decoder of every field type have balanced parentheses |
| FieldTypes.ContainerArgumentIsAtom | development/build_objects.py:142-173 | a list or dict renders as its combinator followed by exactly the encapsulated rendering of its child, which is a single argument |
| FieldTypes.StrToField | development/build_objects.py:175-199 | on success, the result's token is the input and names only known records; it fails exactly when the token left inside all the brackets matches no rule, and the error names that token |
| FieldTypes.RecordNameWins | development/build_objects.py:180-181 | a record name that is not bracketed is a reference to the record, even when it is also a primitive name or starts with `Enums.` |
| FieldTypes.BracketsWin | development/build_objects.py:176-179 | a bracketed token is a list or dict of what its inside resolves to, or fails as its inside does, even when it is a record name |
| FieldTypes.EnumPrefixWins | development/build_objects.py:182-183 | a token that is not a record name and starts with `Enums.` is an enum named by the rest, before any primitive name is tried |
| FieldTypes.BracketedIsStartsAndEndsWith | development/build_objects.py:176-179 | the bracket test is `startswith` of the opening bracket plus `endswith` of the closing one |
| FieldTypes.TokenRoundTrip | development/build_objects.py:175-199 | resolving the token of a field type that no earlier rule captures gives that field type back |
| FieldTypes.StrToFieldInjective | development/build_objects.py:175-199 | two tokens that resolve to the same field type are the same token |
| FieldTypes.NestedListResolves | development/build_objects.py:176-177 | `[[string]]` resolves to a list of lists of strings |
| FieldTypes.NestedListTypeName | development/build_objects.py:146-148 | a list of lists of strings has type `List (List String)` |
| FieldTypes.NestedListEncoder | development/build_objects.py:150-152 | a list of lists of strings encodes with `E.list (E.list E.string)` |
| FieldTypes.NestedListDecoder | development/build_objects.py:154-156 | a list of lists of strings decodes with `D.list (D.list D.string)` |
| Fields.NewField | development/build_objects.py:202-210 | a field is built exactly when its type token resolves, with the error of the resolution otherwise; it keeps the key, the requiredness and the token; it keeps the default only when the field is not required |
| Fields.ElmFieldName | development/build_objects.py:212-220 | the key `type` becomes `eventType`; every other name is non-empty and holds no `_`, `.` or space |
| Fields.ElmFieldNamePlain | development/build_objects.py:216-220 | a key that is one lower-case word is its own Elm name |
| Fields.ElmFieldNameCamelCase | development/build_objects.py:216-220 | lower-case words joined by any mix of `_`, `.` and spaces become camel case: the first word as it is, then every later word capitalised |
| Fields.ElmFieldNameIgnoresCase | development/build_objects.py:217 | a key other than `type` has the same Elm name as its lower-cased form |
| Fields.ElmFieldNameOfCamelCaseKey | development/build_objects.py:216-220 | the key `roomId` becomes `roomid` |
| Fields.FieldTypeDefinition | development/build_objects.py:256-263 | the type is wrapped in `Maybe` (with the inner type encapsulated) exactly when the field is `"now"`, `"never"` or optional without default |
| Fields.FieldEncoder | development/build_objects.py:222-239 | `Nothing` exactly for a `"never"` field; `Just <| ` exactly when the record holds the field outright; the exact text for each kind of `required`: `Maybe.map` of the encapsulated encoder for `"now"` and for an optional field without default, `Just <| ` and the bare encoder for a required field or one with a default, and `data.<elm name>` alone for an optional raw value |
| Fields.FieldDecoder | development/build_objects.py:241-254 | `D.succeed Nothing` exactly for `"never"`, whatever its type; yields a `Maybe` exactly when the type is wrapped; `opField` exactly for optional without default; the exact text for each other kind: `D.map Just <| D.field`, `D.field`, `opField` or `opFieldWithDefault` with the default, then the quoted key and the encapsulated decoder of the type |
| Fields.RenderingsAgree | development/build_objects.py:222-263 | the type, the encoder and the decoder agree on whether the record holds a `Maybe` |
| Objects.ResolveFields | development/build_objects.py:272-274 | one field per entry, each the field its entry builds |
| Objects.ResolveFieldsError | development/build_objects.py:272-274 | a failed build carries the error of an entry that fails, every earlier entry having been built |
| Objects.ResolveFieldsPrefixErr | development/build_objects.py:272-274 | once a prefix of the entries fails, building all of them fails with the same error |
| Objects.ObjectOf | development/build_objects.py:266-274 | a built record keeps its name, description and `anti_recursion` flag, and has one field per entry |
| Objects.ObjectOfFields | development/build_objects.py:266-274 | the fields are built from the entries sorted by key (a permutation, in Python string order); the record is built exactly when those entries all resolve |
| Objects.NewObject | development/build_objects.py:266-274 | the loop over the sorted keys builds the record `ObjectOf` describes, or stops with its error |
| Objects.BuildFields | development/build_objects.py:272-274 | the loop over the entries builds the fields `ResolveFields` describes, or stops with the error of the first entry that fails |
| Objects.ElmName | development/build_objects.py:276-281 | the Elm name holds no dot, and a name without a dot is kept as it is |
| Objects.ElmNameOfDotted | development/build_objects.py:280-281 | a dotted name is its parts capitalised and run together |
| Objects.EncoderName | development/build_objects.py:288-290 | `encode` followed by the Elm name |
| Objects.DecoderName | development/build_objects.py:283-294 | the Elm name with its first letter lowered, followed by `Decoder` |
| Objects.ReferenceMatchesDefinition | development/build_objects.py:120-139 | a reference to an undotted record renders its type name, encoder name and decoder name, the decoder lazily exactly for `anti_recursion` |
| Objects.DottedReferenceDiffers | development/build_objects.py:124-126 | a reference to a dotted record name renders a type name other than the record's Elm name |
| Objects.ObjectTypeDefinition | development/build_objects.py:319-326 | a doc comment of the description, then `type alias` exactly when the record is not `anti_recursion`; a constructor named after the record when it is; the line of every field |
| Objects.ObjectEncoder | development/build_objects.py:296-305 | the signature, the constructor pattern when `anti_recursion`, the `maybeObject` list, and the `("key", encoder)` entry of every field |
| Objects.ObjectDecoder | development/build_objects.py:307-317 | the signature, the `D.mapN` line for the field count, the lambda over one letter per field, the constructor (for `anti_recursion`) right before the record of bindings, and every field's decoder argument |
| Objects.NeverFieldAnyType | development/build_objects.py:243-244 | a `"never"` field decodes as `D.succeed Nothing`, and giving it any type keeps its record renderable |
| Objects.DecoderBindsPositionally | development/build_objects.py:312-315 | the field, its lambda variable and its decoder argument share the field's position: the i-th field is set from the i-th letter only, and is read by the i-th argument |
| ModuleEmitter.Catalogue | development/build_objects.py:8 | the record names the field types look up are exactly the names of the schema's records |
| ModuleEmitter.CatalogueLastWins | development/build_objects.py:136 | a record name is looked up with the `anti_recursion` flag of its last entry |
| ModuleEmitter.ResolveObjects | development/build_objects.py:328 | one object per record, in document order, each the object its record builds |
| ModuleEmitter.ResolveObjectsError | development/build_objects.py:328 | a failed build carries the error of a record that fails, every earlier record having been built |
| ModuleEmitter.BuildObjects | development/build_objects.py:328 | the comprehension's loop gives `ResolveObjects` |
| ModuleEmitter.SortObjects | development/build_objects.py:329 | sorting the list in place gives the stable sort by lower-cased Elm name |
| Sorting.SortInPlace | development/build_objects.py:329 | the array ends holding the stable insertion sort of its old contents |
| Sorting.SortOnFacts | development/build_objects.py:329 | the sort is a permutation, is ordered by key, and keeps elements with equal keys in their original order |
| ModuleEmitter.Drop | development/build_objects.py:334 | `s[n:]`: the suffix after n characters, or empty when the string is shorter |
| ModuleEmitter.OutFile | development/build_objects.py:12-14 | a trailing `.elm` is removed, and nothing else changes |
| ModuleEmitter.ModuleName | development/build_objects.py:334 | the module name holds no `/` or `\` and is as long as the path without its first four characters |
| ModuleEmitter.ModuleLine | development/build_objects.py:334 | replacing backslashes in the whole line is replacing them in the module name alone |
| ModuleEmitter.ModuleNameOfSourcePath | development/build_objects.py:334 | the file `src/A/B/C.elm`, with either separator, is the module `A.B.C` |
| ModuleEmitter.ExposingEntry | development/build_objects.py:335 | the type first, with `(..)` exactly when `anti_recursion`, then the encoder and decoder names |
| ModuleEmitter.ExposingList | development/build_objects.py:336 | the list is closed by `)` on its own line |
| ModuleEmitter.ExposingListHolds | development/build_objects.py:335-336 | every record's entry is in the exposing list |
| ModuleEmitter.ObjectCode | development/build_objects.py:341 | one record's code is its type definition, then its encoder, then its decoder |
| ModuleEmitter.ContentHolds | development/build_objects.py:341 | every record's code is in the content |
| ModuleEmitter.DecodeExtraLine | development/build_objects.py:347-356 | one `DecodeExtra` import exposing exactly the helpers the content calls, written only when it calls one, aliased `D` exactly when it mentions `map9`, `map10` or `map11` |
| ModuleEmitter.ImportLine | development/build_objects.py:343-365 | each import is written exactly when its marker is in the content, as an `import` line |
| ModuleEmitter.ImportBlockHolds | development/build_objects.py:343-365 | each import has its own place in the generator's order, holding its line when needed and nothing otherwise |
| ModuleEmitter.RecordsNeedMaybeObject | development/build_objects.py:358-359 | a module with any record imports `maybeObject`, since every encoder calls it |
| ModuleEmitter.DictFieldNeedsDict | development/build_objects.py:344-345 | a dictionary field makes the module import `Dict` |
| ModuleEmitter.DescriptionCanNeedDict | development/build_objects.py:344-345 | a description that mentions `Dict` also makes the module import `Dict` |
| ModuleEmitter.OptionalFieldNeedsOpField | development/build_objects.py:351-356 | an optional field without a default makes the module import `DecodeExtra` exposing `opField` |
| ModuleEmitter.WideRecordAliasesDecode | development/build_objects.py:348-349 | a record of 9 to 11 fields makes the `DecodeExtra` import alias `D` |
| ModuleEmitter.NeverFieldOfUnrenderableType | development/build_objects.py:241-254 | a schema whose only field is `"never"` and typed `Enums.` still generates a module |
| ModuleEmitter.TooManyFieldsFail | development/build_objects.py:313-314 | a record with more than sixteen fields makes generation fail with an `IndexError` once every record is built |
| ModuleEmitter.Output | development/build_objects.py:331-373 | the module text starts with the module line and ends with the content |
| ModuleEmitter.OutputExposes | development/build_objects.py:334-336 | the module exposes every record's type, encoder and decoder |
| ModuleEmitter.OutputImports | development/build_objects.py:343-365 | every import the content needs is written into the module |
| ModuleEmitter.WriteModule | development/build_objects.py:331-373 | the writes, in order, give the module text `Output` describes |
| ModuleEmitter.CheckRenderable | development/build_objects.py:283-294 | true exactly when every record renders without an `IndexError` |
| ModuleEmitter.GenerateSpec | development/build_objects.py:328-373 | a build error is returned as it is; otherwise generation fails, always with `IndexError`, exactly when some built record cannot be rendered; a module starts with its module line |
| ModuleEmitter.GenerateOrder | development/build_objects.py:328-329 | a generated module holds the built records sorted by lower-cased Elm name, ties in document order, each once |
| ModuleEmitter.Generate | development/build_objects.py:328-373 | building, sorting, checking and writing step by step gives `GenerateSpec` |
| Text.NatToStringRoundTrip | development/build_objects.py:338 | the decimal text of the generation time reads back as the same number |

## Left out

- Reading the YAML file and writing the Elm file are left out. The module text is returned as a string. When a rendering fails, the generator has already truncated the output file and written its first lines; that partial file is not modelled.
- The generation time is a parameter, because the clock is outside the model.
- The closing `print` message is left out, because it is console output only.
- `VERSION` (line 10) is left out, because it is computed but not used in the output. So is the `KeyError` for a missing `version`.
- A schema missing `objects`, `name`, a record's `description` or `fields`, or a field's `type` raises `KeyError`. This is not modelled: the schema datatype always has these entries.
- A record is `anti_recursion` when the key is present; its value is ignored, as in the generator.
- `required` is one of absent/`false`, `true`, `"now"` and `"never"`. Other YAML values, which Python treats by truthiness, are not modelled.
- `default` is the text the generator writes into the decoder; Python's formatting of non-string YAML values is not modelled.
- Schema and field entries are sequences, so repeated names are possible in the model. A YAML mapping keeps only the last entry of a repeated name. The lookups of record names model this (`CatalogueLastWins`), but `ResolveObjects` builds one object per entry.
- Case mapping (`lower`, `capitalize`) covers ASCII letters only.
- `run_all.py`, which runs the generator over every schema, is not part of this model. Compiling the generated Elm is not modelled either.
- ModuleEmitter.GenerateSpec: reports every rendering failure as the single error `IndexOutOfRange`. It does not name the record or rendering where Python raises it, and it does not model the order in which the renderings run.
- Objects.ObjectTypeDefinition: states the pieces the definition holds, not the exact text between them.
- Objects.ObjectEncoder: states the pieces the encoder holds, not the exact text between them.
- Objects.ObjectDecoder: states the pieces the decoder holds and how they line up by position, not the exact text between them.
- ModuleEmitter.Output: states where the parts of the module lie (`ModuleParts`, `OutputExposes`, `OutputImports`), not every byte of the banner and JSON imports.
