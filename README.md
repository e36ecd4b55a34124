# TypeScript guest bindings, modelled in Dafny

This project models the TypeScript guest-binding generator of the
`gen-guest-ts` crate (`crates/gen-guest-ts/src/lib.rs`). The generator takes
a resolved interface, made of type definitions and functions. It emits one
TypeScript file. That file holds a type declaration for every type
definition and an async call stub for every function. Each stub encodes its
parameters, POSTs them to an `ipc://localhost/...` address and decodes the
response.

The generator is pure code, so the model is pure too: datatypes for the
interface, and functions that build the output text from the same pieces
in the same order as the Rust `format!`/`write!` calls. The lemmas state
what that text promises: what occurs in it, and in which order; the values
written into it (flag bits, variant tags); and the exact text where the
source fixes it.

Modules, one per file:

- `Wrappers`: `Option`.
- `Wit`: the interface model, with its well-formedness predicates.
- `Text`: string building. Folds into a `String` become `Concat`, `join`
  becomes `Join`, `{}` on an integer becomes `Decimal`, and `str::lines`
  becomes `Lines` (as current Rust releases split lines). It also defines `AppearInOrder(s, items)`: each item
  occurs in `s`, in order, without overlap.
- `Generator`: the generator value, meaning the interface, the usage flags
  and the collaborators from other crates.
- `Docs`: `print_docs`.
- `TypeMapper`: `print_type` and `array_ty`.
- `Stubs`: `print_function`, `print_function_params`,
  `print_function_result` and the per-method part of `print_resource`.
- `Declarations`: `print_typedef` and the printer for each kind.
- `Assembler`: `to_file`.

Three observations, all modelled as written:

- A resource method awaits the request and applies the decoder, but has no
  `return`, so the decoded value never reaches the caller.
- An option prints as `T | null`, and a list appends `[]` with no
  parentheses, so `list<option<u32>>` prints `number | null[]`.
- `2 << i` at position 63 is shifted out to `0`.

## Model

| member | source | states |
|---|---|---|
| TypeMapper.ScalarTable | crates/gen-guest-ts/src/lib.rs:152-163 | bool prints `boolean`; 8/16/32-bit integers and both floats print `number`; 64/128-bit integers print `bigint`; char and string print `string` |
| TypeMapper.CompositeShapes | crates/gen-guest-ts/src/lib.rs:164-192 | an option is its type followed by `\| null`; a result is `Result<ok, err>` with `null` for a missing side; a tuple is its element types in brackets, all present in order; a reference is the upper-camel name of the definition it names |
| TypeMapper.ListShape | crates/gen-guest-ts/src/lib.rs:173-176 | a list of an element that is a fixed-width number once aliases are looked through prints as that number's typed-array class plus `[]`, exactly like a list of the resolved number; any other list prints as its element type plus `[]` |
| TypeMapper.PrintType | crates/gen-guest-ts/src/lib.rs:151-194 | no ensures; ScalarTable, CompositeShapes, ListShape and ListOfOptionExample state what it prints for each kind of type |
| Wit.ForwardAliasAcyclic | crates/gen-guest-ts/src/lib.rs:389-390 | an alias that names a later definition is accepted when no cycle results |
| Wit.SelfAliasCyclic | crates/gen-guest-ts/src/lib.rs:389-390 | an alias of itself is a cycle and is outside the well-formed interfaces |
| TypeMapper.Resolve | crates/gen-guest-ts/src/lib.rs:390-393 | looking through aliases ends at a type that is not a reference to an alias, keeps references in range, and leaves non-references alone |
| TypeMapper.ArrayTy | crates/gen-guest-ts/src/lib.rs:377-403 | there is a typed-array class exactly when the type, looked through aliases, is one of the ten fixed-width numbers, and it is that number's class |
| TypeMapper.ArrayTyOfReference | crates/gen-guest-ts/src/lib.rs:390-393 | through a reference to an alias, the lookup is the aliased type's; a reference to any other kind has none |
| TypeMapper.ByteListExamples | crates/gen-guest-ts/src/lib.rs:173-176 | `list<u8>` and a list of an alias of `u8` both print `Uint8Array[]` |
| TypeMapper.ListOfOptionExample | crates/gen-guest-ts/src/lib.rs:173-181 | `list<option<u32>>` prints `number \| null[]`, with no parentheses around the option |
| Docs.PrintDocs | crates/gen-guest-ts/src/lib.rs:406-417 | the comment is empty exactly when the docs are; otherwise it opens with `/**` and a line feed and closes with `*/` |
| Text.Lines | crates/gen-guest-ts/src/lib.rs:411 | no line it yields holds a line feed; LinesRoundTrip, LinesCrLf and LinesKeepFinalCr state what it keeps and drops |
| Text.LinesCrLf | crates/gen-guest-ts/src/lib.rs:411 | a line ended by a carriage return and a line feed is yielded without either, and the lines after it follow |
| Text.LinesKeepFinalCr | crates/gen-guest-ts/src/lib.rs:411 | a carriage return that ends the text, with no line feed after it, stays part of the last line |
| Docs.PrintDocsRoundTrip | crates/gen-guest-ts/src/lib.rs:406-417 | stripping the markers and each line's ` * ` gives back every line of the docs, in order, with nothing added or lost; empty docs print no comment and read back as empty |
| Text.LinesRoundTrip | crates/gen-guest-ts/src/lib.rs:411-414 | the lines `str::lines` yields, each ended by a line feed again, rebuild the text, so no line is lost |
| Stubs.PrintFunction | crates/gen-guest-ts/src/lib.rs:73-118 | no ensures; FunctionStub states its order of signature, encoders and POST, and its endings with and without a result |
| Stubs.PrintFunctionResult | crates/gen-guest-ts/src/lib.rs:133-149 | no ensures; ResultArity states the promise type for zero, one and several result types |
| Stubs.PrintResourceMethod | crates/gen-guest-ts/src/lib.rs:325-366 | no ensures; ResourceMethodStub states its order of signature, handle encoder, parameter encoders and request, and its ending without `return` |
| Stubs.PrintFunctionParams | crates/gen-guest-ts/src/lib.rs:120-131 | every parameter appears as `name: type`, in declaration order |
| Stubs.ResultArity | crates/gen-guest-ts/src/lib.rs:133-149 | no result type gives `Promise<void>`; one gives a promise of that type; several give a promise of their tuple, with the types in declared order |
| Stubs.SerializeParams | crates/gen-guest-ts/src/lib.rs:94-99 | every parameter's encoder call appears, in declaration order |
| Stubs.FunctionStub | crates/gen-guest-ts/src/lib.rs:73-118 | the stub has, in order, its signature, every parameter's encoder and one POST to `ipc://localhost/<interface>/<snake name>`; with no result it is typed `Promise<void>` and ends with neither `return` nor a cast; with a result it returns the decoded response cast to its declared promise type |
| Stubs.ResourceMethodStub | crates/gen-guest-ts/src/lib.rs:325-366 | the method has its signature, then the handle's encoder `serializeU32(out, this.#id)`, then every parameter's encoder in order, then one awaited binary POST to `ipc://localhost/<interface>::resource::<resource>/<method>`; with no result it is typed `void` |
| Declarations.PrintTypedef | crates/gen-guest-ts/src/lib.rs:196-212 | no ensures; TypedefDeclaration states the head each kind gets after the doc comment |
| Declarations.PrintAlias | crates/gen-guest-ts/src/lib.rs:214-218 | no ensures; AliasDeclaration states its order and ending |
| Declarations.PrintRecord | crates/gen-guest-ts/src/lib.rs:220-232 | no ensures; RecordDeclaration and RecordExample state its members and their order |
| Declarations.PrintFlags | crates/gen-guest-ts/src/lib.rs:234-249 | no ensures; FlagsDeclaration, FlagMemberValue and FlagsExample state its members, values and order |
| Declarations.PrintVariant | crates/gen-guest-ts/src/lib.rs:251-288 | no ensures; VariantDeclaration, VariantTags and VariantExample state its shapes, tags and sum |
| Declarations.PrintEnum | crates/gen-guest-ts/src/lib.rs:290-301 | no ensures; EnumDeclaration states its members and their order |
| Declarations.PrintUnion | crates/gen-guest-ts/src/lib.rs:303-316 | no ensures; UnionDeclaration states its case types and their order |
| Declarations.PrintResource | crates/gen-guest-ts/src/lib.rs:318-375 | no ensures; ResourceDeclaration and MethodSignatureThenFetch state its class head and methods in order |
| Declarations.TypedefDeclaration | crates/gen-guest-ts/src/lib.rs:196-212 | every type definition is declared after its doc comment and exported under its upper-camel name, with the construct its kind calls for (`type`, `interface`, `enum`, or `class` holding the handle) |
| Declarations.AliasDeclaration | crates/gen-guest-ts/src/lib.rs:214-218 | an alias exports its name as a synonym of the target's type expression, ending with that expression and `;` |
| Declarations.RecordDeclaration | crates/gen-guest-ts/src/lib.rs:220-232 | a record exports an interface with every field as `lowerCamel: type,`, in declaration order, each after its doc comment |
| Declarations.RecordExample | crates/gen-guest-ts/src/lib.rs:220-232 | a `u32` field whose name converts to `fooBar` is written `fooBar: number,` |
| Declarations.FlagValue | crates/gen-guest-ts/src/lib.rs:241 | a flag value fits in 64 bits |
| Declarations.FlagValueExact | crates/gen-guest-ts/src/lib.rs:241 | below position 63, the flag at position `i` has value 2^(i+1) |
| Declarations.FlagValuesIncrease | crates/gen-guest-ts/src/lib.rs:241 | below position 63, flag values strictly increase with position, so no two are equal |
| Declarations.FlagValueEven | crates/gen-guest-ts/src/lib.rs:241 | every flag value is even, so bit 0 is never assigned and no value is 1 |
| Declarations.FlagValueWraps | crates/gen-guest-ts/src/lib.rs:241 | the 64-bit shift gives value 0 at position 63, and from position 64 the values repeat those 64 places earlier |
| Declarations.FlagMemberValue | crates/gen-guest-ts/src/lib.rs:243 | the decimal written for the flag at position `i < 63` reads back as 2^(i+1) |
| Declarations.FlagsDeclaration | crates/gen-guest-ts/src/lib.rs:234-249 | flags export an enum with every flag as `UpperCamel = value,`, in declaration order, each after its doc comment |
| Declarations.FlagsExample | crates/gen-guest-ts/src/lib.rs:234-249 | three flags are written with values 2, 4 and 8, in declaration order |
| Declarations.ValueMember | crates/gen-guest-ts/src/lib.rs:259-266 | a shape has a `, value: type` member exactly when its case carries a payload, and then it is typed as the payload |
| Declarations.VariantDeclaration | crates/gen-guest-ts/src/lib.rs:251-288 | a variant declares one interface `<Type><Case> { tag: i ... }` per case, in declaration order, each after its doc comment; then, after the type's own doc comment, it exports the type as the names of those interfaces, in the same order, each after its case's doc comment, with ` \| ` between every two |
| Text.Decimal | crates/gen-guest-ts/src/lib.rs:243 | a flag value or (at line 270) a variant tag is written as text that is non-empty, all digits and without a leading zero unless the number is 0; DecimalRoundTrip and DecimalInjective state that it reads back and tells numbers apart |
| Declarations.VariantTags | crates/gen-guest-ts/src/lib.rs:270 | a tag reads back as its case's position, and different positions give different tags |
| Declarations.VariantExample | crates/gen-guest-ts/src/lib.rs:251-275 | cases `a` (no payload) and `b` (a string) give the shapes tagged 0 and 1, and only the second has `value: string` |
| Declarations.EnumDeclaration | crates/gen-guest-ts/src/lib.rs:290-301 | an enum exports every case as `UpperCamel,` with no explicit value, in declaration order, each after its doc comment |
| Declarations.UnionDeclaration | crates/gen-guest-ts/src/lib.rs:303-316 | a union exports its name as its case types, in declaration order, each after its doc comment, with ` \| ` between every two and no tag |
| Text.JoinPairsInOrder | crates/gen-guest-ts/src/lib.rs:276-285 | joining pieces that each hold a doc comment and a name gives every pair in order, with the separator between consecutive pairs |
| Declarations.MethodSignatureThenFetch | crates/gen-guest-ts/src/lib.rs:325-366 | a resource method's signature comes before its request to its own address |
| Declarations.ResourceDeclaration | crates/gen-guest-ts/src/lib.rs:318-375 | a resource exports a class whose one field is the `#id` handle, with one method per declared method, in declaration order, each sending its request to that method's address under this resource |
| Assembler.AnyThrows | crates/gen-guest-ts/src/lib.rs:433 | true exactly when some function of the interface can fail |
| Assembler.IdsWith | crates/gen-guest-ts/src/lib.rs:441-469 | the selected definitions are exactly those whose usage includes the flag, and they come in table order |
| Assembler.Contents | crates/gen-guest-ts/src/lib.rs:430-487 | no ensures; Preamble, Sections and NoResultTypeWithoutFailure state what the assembled text holds and in which order |
| Assembler.Preamble | crates/gen-guest-ts/src/lib.rs:430-439 | the text opens with `// @ts-nocheck`; then comes the `Result<T, E>` declaration when some function can fail, or nothing when none can; then the shared helpers |
| Assembler.NoResultTypeWithoutFailure | crates/gen-guest-ts/src/lib.rs:433-437 | when no function can fail, the text has no result-type declaration |
| Assembler.Sections | crates/gen-guest-ts/src/lib.rs:441-487 | the opening (marker, optional result type, shared helpers) comes first; after it come the decoders of the result-flagged definitions, then the encoders of the parameter-flagged ones, then every type declaration, then every function stub, each group in table order |
| Assembler.ToFile | crates/gen-guest-ts/src/lib.rs:430-505 | the output path is the kebab-case interface name with its extension set to `ts` |
| Assembler.TsExtension | crates/gen-guest-ts/src/lib.rs:501-502 | a file name ends in `.ts` after the extension is set, and keeps its non-empty stem |
| Assembler.TsExtensionAppends | crates/gen-guest-ts/src/lib.rs:501-502 | a name with no dot just gets `.ts` appended |
| Assembler.TsExtensionIdempotent | crates/gen-guest-ts/src/lib.rs:501-502 | setting the extension a second time changes nothing |

## Left out

- The formatter pass at crates/gen-guest-ts/src/lib.rs:489-499 is not modelled. It runs `prettier` or `rome` as a subprocess. The model's text is the one assembled before that pass.
- `Builder::build` (crates/gen-guest-ts/src/lib.rs:33-62) is not modelled. Its usage analysis (`TypeInfos::collect_from_functions`) and helper selection (`SerdeUtils::collect_from_functions`) live in another crate. The usage flags and the helper text are inputs of the generator value.
- The encoder and decoder text (`print_serialize_ty`, `print_deserialize_function_result`, `print_serialize_typedef`, `print_deserialize_typedef`, `SerdeUtils`) comes from the JavaScript generator crate. It is modelled as fields of the `Codec` value: a string for the shared helpers, functions for the rest. No property depends on what that text says.
- The case conversions of the `heck` crate are modelled as fields of function type. Properties are stated in terms of their results, never about how they convert.
- `Function::throws` of the interface parser is modelled as a field of function type.
- `src/main.rs` is not part of this model: it covers command-line handling, file I/O and the interface parser call. `src/logger.rs` is not part of this model either; it only sets up logging.
- Declarations.FlagValue: models the release build, where `2 << i` masks the shift amount and truncates to 64 bits. A debug build panics for positions 64 and above; that panic is not modelled.
- TypeMapper.Resolve: alias chains are assumed to be acyclic, as a resolved interface guarantees. The precondition `AliasesAcyclic` asks for some ranking under which every alias outranks the definition it names; aliases may name later definitions. The source would recurse forever on a cycle, so cyclic interfaces are outside the model.
- Assembler.ToFile: `PathBuf::set_extension` is modelled for a path of a single component. A kebab-case identifier has no separator, so the result is the same.
- Docs.PrintDocsRoundTrip: stated for docs without a carriage return, because `str::lines` drops a carriage return before each line feed.
- Text.LinesRoundTrip: stated for text without a carriage return, since a `\r\n` ending comes back as `\n`; Text.LinesCrLf states that case separately. `Text.Lines` follows current Rust `str::lines`, which strips a carriage return only in front of a line feed; older releases also stripped one that ends the text.
- The layout lemmas (Stubs.FunctionStub, Declarations.*Declaration, Assembler.Sections) state what occurs in the output and in which order. They do not say that nothing else occurs between those pieces, and apart from the ` | ` of a variant or union sum they do not restate the whitespace and punctuation between them; the printing functions give the exact text.
- The generated TypeScript's runtime behaviour is outside the generator: transport, failures and the lifetime of resource handles.
