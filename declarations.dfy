/**
  Type declarations: `print_typedef` and one printer per kind of type
  definition. Every declaration is the doc comment, a newline, a head that
  exports the name, a body and a closing tail; every member inside a body is
  its own doc comment, a newline and the member text.
*/
module Declarations {
  import opened Wrappers
  import opened Wit
  import opened Text
  import opened Generator
  import opened Docs
  import opened TypeMapper
  import opened Stubs

  /** A declaration: the doc comment, the exporting head, the body and the tail. */
  function Declaration(docs: string, head: string, body: string, tail: string): string {
    docs + "\n" + head + body + tail
  }

  /** A text after its doc comment. */
  function Documented(docs: string, text: string): string {
    docs + "\n" + text
  }

  /** The members of a body, each after its doc comment and ending its own line. */
  function Entries(ds: seq<string>, ms: seq<string>): (r: seq<string>)
    requires |ds| == |ms|
    ensures |r| == |ds|
  {
    seq(|ds|, i requires 0 <= i < |ds| => Documented(ds[i], ms[i]) + "\n")
  }

  /** The doc comment of each of `xs`, whose documentation `docs` selects. */
  function DocsOf<T>(xs: seq<T>, docs: T -> string): (r: seq<string>)
    ensures |r| == |xs|
  {
    seq(|xs|, i requires 0 <= i < |xs| => PrintDocs(docs(xs[i])))
  }

  lemma DeclarationInOrder(docs: string, head: string, body: string, items: seq<string>, tail: string)
    requires AppearInOrder(body, items)
    ensures AppearInOrder(Declaration(docs, head, body, tail), [docs, head] + items + [tail])
  {
    InOrderSelf(head);
    InOrderCons(docs, "\n", head, [head]);
    InOrderAppend(docs + "\n" + head, [docs, head], body, items);
    InOrderSelf(tail);
    InOrderAppend(docs + "\n" + head + body, [docs, head] + items, tail, [tail]);
  }

  lemma DocumentedInOrder(docs: string, text: string)
    ensures AppearInOrder(Documented(docs, text), [docs, text])
  {
    InOrderSelf(text);
    InOrderCons(docs, "\n", text, [text]);
  }

  /** Every doc comment and member of a body, in order. */
  lemma EntriesInOrder(ds: seq<string>, ms: seq<string>)
    requires |ds| == |ms|
    ensures AppearInOrder(Concat(Entries(ds, ms)), Interleave(ds, ms))
  {
    var es := Entries(ds, ms);
    forall i | 0 <= i < |es|
      ensures AppearInOrder(es[i], [ds[i], ms[i]])
    {
      DocumentedInOrder(ds[i], ms[i]);
      InOrderExtendRight(Documented(ds[i], ms[i]), "\n", [ds[i], ms[i]]);
    }
    ConcatPairsInOrder(es, ds, ms);
  }

  // ---------------------------------------------------------------------------
  // Alias

  /** `print_alias`: a type synonym. */
  function PrintAlias(g: TypeScript, docs: string, ident: string, ty: Type): string
    requires g.Valid() && TypeOk(ty, |g.intf.typedefs|)
  {
    Declaration(docs, "export type " + ident + " = ", PrintType(g, ty), ";\n")
  }

  /** An alias exports its name as a synonym of the target's type expression. */
  lemma AliasDeclaration(g: TypeScript, docs: string, ident: string, ty: Type)
    requires g.Valid() && TypeOk(ty, |g.intf.typedefs|)
    ensures AppearInOrder(PrintAlias(g, docs, ident, ty), [docs, "export type " + ident + " = ", PrintType(g, ty), ";\n"])
    ensures EndsWith(PrintAlias(g, docs, ident, ty), PrintType(g, ty) + ";\n")
  {
    InOrderSelf(PrintType(g, ty));
    DeclarationInOrder(docs, "export type " + ident + " = ", PrintType(g, ty), [PrintType(g, ty)], ";\n");
    assert [docs, "export type " + ident + " = "] + [PrintType(g, ty)] + [";\n"]
        == [docs, "export type " + ident + " = ", PrintType(g, ty), ";\n"];
    EndsWithSuffix(docs + "\n" + ("export type " + ident + " = "), PrintType(g, ty) + ";\n");
    assert docs + "\n" + ("export type " + ident + " = ") + (PrintType(g, ty) + ";\n")
        == PrintAlias(g, docs, ident, ty);
  }

  // ---------------------------------------------------------------------------
  // Record

  predicate FieldsOk(g: TypeScript, fields: seq<RecordField>) {
    forall i :: 0 <= i < |fields| ==> TypeOk(fields[i].ty, |g.intf.typedefs|)
  }


  /** `name: type,` for each field: the name in lower camel case, the type mapped. */
  function RecordMembers(g: TypeScript, fields: seq<RecordField>): (r: seq<string>)
    requires g.Valid() && FieldsOk(g, fields)
    ensures |r| == |fields|
  {
    seq(|fields|, i requires 0 <= i < |fields| =>
      g.names.lowerCamel(fields[i].id) + ": " + PrintType(g, fields[i].ty) + ",")
  }

  /** `print_record`: an interface with one member per field. */
  function PrintRecord(g: TypeScript, docs: string, ident: string, fields: seq<RecordField>): string
    requires g.Valid() && FieldsOk(g, fields)
  {
    Declaration(docs, "export interface " + ident + " { ",
      Concat(Entries(DocsOf(fields, (f: RecordField) => f.docs), RecordMembers(g, fields))), " }\n")
  }

  /**
    A record exports an interface holding every field, in declaration
    order, each after its own doc comment.
  */
  lemma RecordDeclaration(g: TypeScript, docs: string, ident: string, fields: seq<RecordField>)
    requires g.Valid() && FieldsOk(g, fields)
    ensures AppearInOrder(PrintRecord(g, docs, ident, fields),
              [docs, "export interface " + ident + " { "]
              + Interleave(DocsOf(fields, (f: RecordField) => f.docs), RecordMembers(g, fields))
              + [" }\n"])
  {
    EntriesInOrder(DocsOf(fields, (f: RecordField) => f.docs), RecordMembers(g, fields));
    DeclarationInOrder(docs, "export interface " + ident + " { ",
      Concat(Entries(DocsOf(fields, (f: RecordField) => f.docs), RecordMembers(g, fields))),
      Interleave(DocsOf(fields, (f: RecordField) => f.docs), RecordMembers(g, fields)), " }\n");
  }

  /** A field whose name converts to `fooBar` and whose type is `u32` becomes `fooBar: number,`. */
  lemma RecordExample(g: TypeScript, docs: string, ident: string, id: string)
    requires g.Valid() && g.names.lowerCamel(id) == "fooBar"
    ensures AppearInOrder(PrintRecord(g, docs, ident, [RecordField("", id, U32)]),
              [docs, "export interface " + ident + " { ", "", "fooBar: number,", " }\n"])
  {
    var fields := [RecordField("", id, U32)];
    RecordDeclaration(g, docs, ident, fields);
    assert DocsOf(fields, (f: RecordField) => f.docs)[0] == PrintDocs("") == "";
    assert DocsOf(fields, (f: RecordField) => f.docs) == [""];
    assert PrintType(g, U32) == "number";
    assert "fooBar" + ": " + "number" + "," == "fooBar: number,";
    assert RecordMembers(g, fields)[0] == "fooBar: number,";
    assert RecordMembers(g, fields) == ["fooBar: number,"];
    assert Interleave([""], ["fooBar: number,"]) == ["", "fooBar: number,"] by {
      assert [""][..0] == [] && ["fooBar: number,"][..0] == [];
    }
    assert [docs, "export interface " + ident + " { "] + ["", "fooBar: number,"] + [" }\n"]
        == [docs, "export interface " + ident + " { ", "", "fooBar: number,", " }\n"];
  }

  // ---------------------------------------------------------------------------
  // Flags

  function Pow2(n: nat): (r: nat)
    ensures r >= 1
  {
    if n == 0 then 1 else 2 * Pow2(n - 1)
  }

  lemma {:induction false} Pow2Add(a: nat, b: nat)
    ensures Pow2(a + b) == Pow2(a) * Pow2(b)
    decreases b
  {
    if b > 0 {
      Pow2Add(a, b - 1);
    }
  }

  lemma {:induction false} Pow2Increasing(a: nat, b: nat)
    requires a < b
    ensures Pow2(a) < Pow2(b)
    decreases b
  {
    if a < b - 1 {
      Pow2Increasing(a, b - 1);
    }
  }

  lemma Pow2Of64()
    ensures Pow2(64) == 0x1_0000_0000_0000_0000
  {
    Pow2Add(1, 1);
    Pow2Add(2, 2);
    Pow2Add(4, 4);
    Pow2Add(8, 8);
    Pow2Add(16, 16);
    Pow2Add(32, 32);
  }

  const U64_MODULUS: nat := 0x1_0000_0000_0000_0000

  /**
    The value of the flag at position `i`: the unsigned 64-bit `2 << i`, whose
    shift amount is taken modulo 64 and whose result is truncated to 64 bits.
  */
  function FlagValue(i: nat): (v: nat)
    ensures v < U64_MODULUS
  {
    (2 * Pow2(i % 64)) % U64_MODULUS
  }

  /** Below position 63 the flag at position `i` is bit `i + 1`. */
  lemma FlagValueExact(i: nat)
    requires i < 63
    ensures FlagValue(i) == Pow2(i + 1)
  {
    Pow2Increasing(i + 1, 64);
    Pow2Of64();
  }

  /** Flag values grow with the position, so no two flags share a value. */
  lemma FlagValuesIncrease(i: nat, j: nat)
    requires i < j < 63
    ensures FlagValue(i) < FlagValue(j)
  {
    FlagValueExact(i);
    FlagValueExact(j);
    Pow2Increasing(i + 1, j + 1);
  }

  /** Bit 0 is never assigned: every flag value is even, so none is 1. */
  lemma FlagValueEven(i: nat)
    ensures FlagValue(i) % 2 == 0 && FlagValue(i) != 1
  {
    var x := 2 * Pow2(i % 64);
    var q := x / U64_MODULUS;
    assert x == q * U64_MODULUS + FlagValue(i);
    assert FlagValue(i) == 2 * (Pow2(i % 64) - q * (U64_MODULUS / 2));
  }

  /** The flag at position 63 is shifted out to 0, and from position 64 the values repeat. */
  lemma FlagValueWraps(i: nat)
    ensures FlagValue(63) == 0
    ensures FlagValue(i + 64) == FlagValue(i)
  {
    Pow2Of64();
    assert (i + 64) % 64 == i % 64;
  }

  /** `Name = value,` for each flag: the name in upper camel case, the value in decimal. */
  function FlagMembers(g: TypeScript, flags: seq<FlagsField>): (r: seq<string>)
    ensures |r| == |flags|
  {
    seq(|flags|, i requires 0 <= i < |flags| =>
      g.names.upperCamel(flags[i].id) + " = " + Decimal(FlagValue(i)) + ",")
  }

  /** `print_flags`: an enum with one member per flag. */
  function PrintFlags(g: TypeScript, docs: string, ident: string, flags: seq<FlagsField>): string {
    Declaration(docs, "export enum " + ident + " { ",
      Concat(Entries(DocsOf(flags, (f: FlagsField) => f.docs), FlagMembers(g, flags))), " }\n")
  }

  /**
    Flags export an enum with one member per flag, in declaration order,
    each after its doc comment and carrying the flag's value.
  */
  lemma FlagsDeclaration(g: TypeScript, docs: string, ident: string, flags: seq<FlagsField>)
    ensures AppearInOrder(PrintFlags(g, docs, ident, flags),
              [docs, "export enum " + ident + " { "]
              + Interleave(DocsOf(flags, (f: FlagsField) => f.docs), FlagMembers(g, flags))
              + [" }\n"])
  {
    EntriesInOrder(DocsOf(flags, (f: FlagsField) => f.docs), FlagMembers(g, flags));
    DeclarationInOrder(docs, "export enum " + ident + " { ",
      Concat(Entries(DocsOf(flags, (f: FlagsField) => f.docs), FlagMembers(g, flags))),
      Interleave(DocsOf(flags, (f: FlagsField) => f.docs), FlagMembers(g, flags)), " }\n");
  }

  /** The written value of the flag at position `i < 63` reads back as `2^(i+1)`. */
  lemma FlagMemberValue(i: nat)
    requires i < 63
    ensures ParseDecimal(Decimal(FlagValue(i))) == Pow2(i + 1)
  {
    DecimalRoundTrip(FlagValue(i));
    FlagValueExact(i);
  }

  /** Three flags are written with the values 2, 4 and 8, in declaration order. */
  lemma FlagsExample(g: TypeScript, a: FlagsField, b: FlagsField, c: FlagsField)
    ensures FlagMembers(g, [a, b, c]) == [
              g.names.upperCamel(a.id) + " = 2,",
              g.names.upperCamel(b.id) + " = 4,",
              g.names.upperCamel(c.id) + " = 8,"]
  {
    var ms := FlagMembers(g, [a, b, c]);
    FlagValueExact(0);
    FlagValueExact(1);
    FlagValueExact(2);
    assert Pow2(1) == 2 && Pow2(2) == 4 && Pow2(3) == 8;
    assert Decimal(2) == "2" && Decimal(4) == "4" && Decimal(8) == "8";
    assert ms[0] == g.names.upperCamel(a.id) + " = 2,";
    assert ms[1] == g.names.upperCamel(b.id) + " = 4,";
    assert ms[2] == g.names.upperCamel(c.id) + " = 8,";
  }

  // ---------------------------------------------------------------------------
  // Variant

  predicate CasesOk(g: TypeScript, cases: seq<VariantCase>) {
    forall i :: 0 <= i < |cases| && cases[i].ty.Some? ==> TypeOk(cases[i].ty.value, |g.intf.typedefs|)
  }

  /** The payload member of a case's shape: present exactly when the case carries a payload. */
  function ValueMember(g: TypeScript, c: VariantCase): (r: string)
    requires g.Valid() && (c.ty.Some? ==> TypeOk(c.ty.value, |g.intf.typedefs|))
    ensures r != "" <==> c.ty.Some?
    ensures c.ty.Some? ==> r == ", value: " + PrintType(g, c.ty.value)
  {
    if c.ty.Some? then ", value: " + PrintType(g, c.ty.value) else ""
  }

  /** The shape of case `i`: named after the type and the case, tagged with `i`. */
  function Shape(ident: string, caseIdent: string, i: nat, value: string): string {
    "export interface " + ident + caseIdent + " { tag: " + Decimal(i) + value + " }"
  }

  function Shapes(g: TypeScript, ident: string, cases: seq<VariantCase>): (r: seq<string>)
    requires g.Valid() && CasesOk(g, cases)
    ensures |r| == |cases|
  {
    seq(|cases|, i requires 0 <= i < |cases| =>
      Shape(ident, g.names.upperCamel(cases[i].id), i, ValueMember(g, cases[i])))
  }

  /** The name of each case's shape. */
  function ShapeNames(g: TypeScript, ident: string, cases: seq<VariantCase>): (r: seq<string>)
    ensures |r| == |cases|
  {
    seq(|cases|, i requires 0 <= i < |cases| => ident + g.names.upperCamel(cases[i].id))
  }

  /** The name of each case's shape after the case's doc comment. */
  function DocumentedShapeNames(g: TypeScript, ident: string, cases: seq<VariantCase>): (r: seq<string>)
    ensures |r| == |cases|
  {
    seq(|cases|, i requires 0 <= i < |cases| => Documented(DocsOf(cases, (c: VariantCase) => c.docs)[i], ShapeNames(g, ident, cases)[i]))
  }

  /** The exported sum of the shapes. */
  function VariantSum(g: TypeScript, docs: string, ident: string, cases: seq<VariantCase>): string {
    Declaration(docs, "export type " + ident + " = ", Join(DocumentedShapeNames(g, ident, cases), " | "), "\n")
  }

  /** `print_variant`: one tagged shape per case, then the type as the sum of the shapes. */
  function PrintVariant(g: TypeScript, docs: string, ident: string, cases: seq<VariantCase>): string
    requires g.Valid() && CasesOk(g, cases)
  {
    Concat(Entries(DocsOf(cases, (c: VariantCase) => c.docs), Shapes(g, ident, cases))) + "\n" + VariantSum(g, docs, ident, cases)
  }

  lemma VariantSumInOrder(g: TypeScript, docs: string, ident: string, cases: seq<VariantCase>)
    ensures AppearInOrder(VariantSum(g, docs, ident, cases),
              [docs, "export type " + ident + " = "] + SepPairs(DocsOf(cases, (c: VariantCase) => c.docs), ShapeNames(g, ident, cases), " | ") + ["\n"])
  {
    var ds := DocsOf(cases, (c: VariantCase) => c.docs);
    var refs := ShapeNames(g, ident, cases);
    var names := DocumentedShapeNames(g, ident, cases);
    forall i | 0 <= i < |names|
      ensures AppearInOrder(names[i], [ds[i], refs[i]])
    {
      DocumentedInOrder(ds[i], refs[i]);
    }
    JoinPairsInOrder(names, " | ", ds, refs);
    DeclarationInOrder(docs, "export type " + ident + " = ", Join(names, " | "), SepPairs(ds, refs, " | "), "\n");
  }

  /** Two texts with a line feed between them keep the order of what each holds. */
  lemma InOrderLineAfterLine(a: string, xs: seq<string>, b: string, ys: seq<string>)
    requires AppearInOrder(a, xs) && AppearInOrder(b, ys)
    ensures AppearInOrder(a + "\n" + b, xs + ys)
  {
    InOrderExtendRight(a, "\n", xs);
    InOrderAppend(a + "\n", xs, b, ys);
  }

  /**
    A variant declares one shape per case, in declaration order, each
    tagged with its position, and then exports the type as the names of
    those shapes, in the same order, with ` | ` between every two.
  */
  lemma VariantDeclaration(g: TypeScript, docs: string, ident: string, cases: seq<VariantCase>)
    requires g.Valid() && CasesOk(g, cases)
    ensures AppearInOrder(PrintVariant(g, docs, ident, cases),
              Interleave(DocsOf(cases, (c: VariantCase) => c.docs), Shapes(g, ident, cases))
              + ([docs, "export type " + ident + " = "]
                 + SepPairs(DocsOf(cases, (c: VariantCase) => c.docs), ShapeNames(g, ident, cases), " | ")
                 + ["\n"]))
  {
    EntriesInOrder(DocsOf(cases, (c: VariantCase) => c.docs), Shapes(g, ident, cases));
    VariantSumInOrder(g, docs, ident, cases);
    InOrderLineAfterLine(Concat(Entries(DocsOf(cases, (c: VariantCase) => c.docs), Shapes(g, ident, cases))),
      Interleave(DocsOf(cases, (c: VariantCase) => c.docs), Shapes(g, ident, cases)),
      VariantSum(g, docs, ident, cases),
      [docs, "export type " + ident + " = "] + SepPairs(DocsOf(cases, (c: VariantCase) => c.docs), ShapeNames(g, ident, cases), " | ") + ["\n"]);
  }

  /** Tags are positions: each reads back as its case's index, so no two shapes share a tag. */
  lemma VariantTags(i: nat, j: nat)
    ensures ParseDecimal(Decimal(i)) == i
    ensures i != j ==> Decimal(i) != Decimal(j)
  {
    DecimalRoundTrip(i);
    if i != j {
      DecimalInjective(i, j);
    }
  }

  /**
    A variant whose first case has no payload and whose second carries a
    string: two shapes tagged 0 and 1, and only the second has a value.
  */
  lemma VariantExample(g: TypeScript, ident: string, a: string, b: string)
    requires g.Valid()
    ensures Shapes(g, ident, [VariantCase("", a, None), VariantCase("", b, Some(String))]) == [
              Shape(ident, g.names.upperCamel(a), 0, ""),
              Shape(ident, g.names.upperCamel(b), 1, ", value: string")]
  {
    var cases := [VariantCase("", a, None), VariantCase("", b, Some(String))];
    assert ValueMember(g, cases[1]) == ", value: " + "string";
    assert ", value: " + "string" == ", value: string";
  }

  // ---------------------------------------------------------------------------
  // Enum

  /** `Name,` for each case: no explicit value, so the position is the ordinal. */
  function EnumMembers(g: TypeScript, cases: seq<EnumCase>): (r: seq<string>)
    ensures |r| == |cases|
  {
    seq(|cases|, i requires 0 <= i < |cases| => g.names.upperCamel(cases[i].id) + ",")
  }

  /** `print_enum`: an enum with one member per case. */
  function PrintEnum(g: TypeScript, docs: string, ident: string, cases: seq<EnumCase>): string {
    Declaration(docs, "export enum " + ident + " { ",
      Concat(Entries(DocsOf(cases, (c: EnumCase) => c.docs), EnumMembers(g, cases))), " }\n")
  }

  /** An enum exports every case, in declaration order, each after its doc comment. */
  lemma EnumDeclaration(g: TypeScript, docs: string, ident: string, cases: seq<EnumCase>)
    ensures AppearInOrder(PrintEnum(g, docs, ident, cases),
              [docs, "export enum " + ident + " { "]
              + Interleave(DocsOf(cases, (c: EnumCase) => c.docs), EnumMembers(g, cases))
              + [" }\n"])
  {
    EntriesInOrder(DocsOf(cases, (c: EnumCase) => c.docs), EnumMembers(g, cases));
    DeclarationInOrder(docs, "export enum " + ident + " { ",
      Concat(Entries(DocsOf(cases, (c: EnumCase) => c.docs), EnumMembers(g, cases))),
      Interleave(DocsOf(cases, (c: EnumCase) => c.docs), EnumMembers(g, cases)), " }\n");
  }

  // ---------------------------------------------------------------------------
  // Union

  function UnionTypes(cases: seq<UnionCase>): (r: seq<Type>)
    ensures |r| == |cases|
  {
    seq(|cases|, i requires 0 <= i < |cases| => cases[i].ty)
  }

  /** `print_union`: the plain sum of the case types. */
  function PrintUnion(g: TypeScript, docs: string, ident: string, cases: seq<UnionCase>): string
    requires g.Valid() && forall i :: 0 <= i < |cases| ==> TypeOk(cases[i].ty, |g.intf.typedefs|)
  {
    Declaration(docs, "export type " + ident + " = ",
      Join(Entries(DocsOf(cases, (c: UnionCase) => c.docs), PrintTypes(g, UnionTypes(cases))), " | "), ";\n")
  }

  /**
    A union exports its name as the case types, in declaration order, each
    after its doc comment, with ` | ` between every two and no tag of its own.
  */
  lemma UnionDeclaration(g: TypeScript, docs: string, ident: string, cases: seq<UnionCase>)
    requires g.Valid() && forall i :: 0 <= i < |cases| ==> TypeOk(cases[i].ty, |g.intf.typedefs|)
    ensures AppearInOrder(PrintUnion(g, docs, ident, cases),
              [docs, "export type " + ident + " = "]
              + SepPairs(DocsOf(cases, (c: UnionCase) => c.docs), PrintTypes(g, UnionTypes(cases)), " | ")
              + [";\n"])
  {
    var ds := DocsOf(cases, (c: UnionCase) => c.docs);
    var ts := PrintTypes(g, UnionTypes(cases));
    var es := Entries(ds, ts);
    forall i | 0 <= i < |es|
      ensures AppearInOrder(es[i], [ds[i], ts[i]])
    {
      DocumentedInOrder(ds[i], ts[i]);
      InOrderExtendRight(Documented(ds[i], ts[i]), "\n", [ds[i], ts[i]]);
    }
    JoinPairsInOrder(es, " | ", ds, ts);
    DeclarationInOrder(docs, "export type " + ident + " = ", Join(es, " | "), SepPairs(ds, ts, " | "), ";\n");
  }

  // ---------------------------------------------------------------------------
  // Resource

  predicate MethodsOk(g: TypeScript, methods: seq<Function>) {
    forall i :: 0 <= i < |methods| ==> FunctionOk(methods[i], |g.intf.typedefs|)
  }

  /** The head of a resource's class: the handle is its one field. */
  function ClassHead(ident: string): string {
    "export class " + ident + " {\n    #id: number;\n\n    "
  }

  /** `print_resource`: a class with one method per resource method. */
  function PrintResource(g: TypeScript, modIdent: string, docs: string, ident: string, methods: seq<Function>): string
    requires g.Valid() && MethodsOk(g, methods)
  {
    Declaration(docs, ClassHead(ident),
      Concat(seq(|methods|, i requires 0 <= i < |methods| => PrintResourceMethod(g, modIdent, ident, methods[i]))),
      "\n}")
  }

  function MethodSignatures(g: TypeScript, methods: seq<Function>): (r: seq<string>)
    requires g.Valid() && MethodsOk(g, methods)
    ensures |r| == |methods|
  {
    seq(|methods|, i requires 0 <= i < |methods| =>
      MethodSignature(g.names.lowerCamel(methods[i].id), PrintFunctionParams(g, methods[i].params),
        MethodResultType(g, methods[i])))
  }

  /** The request each method sends, to its own address under the resource. */
  function MethodFetches(g: TypeScript, modIdent: string, ident: string, methods: seq<Function>): (r: seq<string>)
    ensures |r| == |methods|
  {
    seq(|methods|, i requires 0 <= i < |methods| =>
      MethodFetch(MethodUrl(g.names.snake(modIdent), g.names.snake(ident), g.names.lowerCamel(methods[i].id))))
  }

  lemma MethodSignatureThenFetch(g: TypeScript, modIdent: string, ident: string, f: Function)
    requires g.Valid() && FunctionOk(f, |g.intf.typedefs|)
    ensures AppearInOrder(PrintResourceMethod(g, modIdent, ident, f),
              [MethodSignature(g.names.lowerCamel(f.id), PrintFunctionParams(g, f.params), MethodResultType(g, f)),
               MethodFetch(MethodUrl(g.names.snake(modIdent), g.names.snake(ident), g.names.lowerCamel(f.id)))])
  {
    var sig := MethodSignature(g.names.lowerCamel(f.id), PrintFunctionParams(g, f.params), MethodResultType(g, f));
    var fetch := MethodFetch(MethodUrl(g.names.snake(modIdent), g.names.snake(ident), g.names.lowerCamel(f.id)));
    ResourceMethodStub(g, modIdent, ident, f);
    InOrderEnds(PrintResourceMethod(g, modIdent, ident, f), sig, SerializeHandle, SerializedParams(g, f.params), fetch);
  }

  /**
    A resource exports a class whose one field is the handle, with one
    method per declared method, in declaration order, each sending its
    request to the address of that method of this resource.
  */
  lemma ResourceDeclaration(g: TypeScript, modIdent: string, docs: string, ident: string, methods: seq<Function>)
    requires g.Valid() && MethodsOk(g, methods)
    ensures AppearInOrder(PrintResource(g, modIdent, docs, ident, methods),
              [docs, ClassHead(ident)]
              + Interleave(MethodSignatures(g, methods), MethodFetches(g, modIdent, ident, methods))
              + ["\n}"])
  {
    var ss := seq(|methods|, i requires 0 <= i < |methods| => PrintResourceMethod(g, modIdent, ident, methods[i]));
    var sigs := MethodSignatures(g, methods);
    var fetches := MethodFetches(g, modIdent, ident, methods);
    forall i | 0 <= i < |ss|
      ensures AppearInOrder(ss[i], [sigs[i], fetches[i]])
    {
      MethodSignatureThenFetch(g, modIdent, ident, methods[i]);
    }
    ConcatPairsInOrder(ss, sigs, fetches);
    DeclarationInOrder(docs, ClassHead(ident), Concat(ss), Interleave(sigs, fetches), "\n}");
  }

  // ---------------------------------------------------------------------------
  // Dispatch

  /** The text that exports a type definition of kind `kind` under the name `ident`. */
  function DeclarationHead(kind: TypeDefKind, ident: string): string {
    match kind
    case Alias(_) => "export type " + ident + " = "
    case Record(_) => "export interface " + ident + " { "
    case Flags(_) => "export enum " + ident + " { "
    case Variant(_) => "export type " + ident + " = "
    case Enum(_) => "export enum " + ident + " { "
    case Union(_) => "export type " + ident + " = "
    case Resource(_) => ClassHead(ident)
  }

  /** `print_typedef`: the declaration of type definition `id`, by its kind. */
  function PrintTypedef(g: TypeScript, id: nat): string
    requires g.Valid() && id < |g.intf.typedefs|
  {
    var td := g.intf.typedefs[id];
    assert KindOk(td.kind, |g.intf.typedefs|);
    var ident := g.names.upperCamel(td.ident);
    var docs := PrintDocs(td.docs);
    match td.kind
    case Alias(ty) => PrintAlias(g, docs, ident, ty)
    case Record(fields) => PrintRecord(g, docs, ident, fields)
    case Flags(flags) => PrintFlags(g, docs, ident, flags)
    case Variant(cases) => PrintVariant(g, docs, ident, cases)
    case Enum(cases) => PrintEnum(g, docs, ident, cases)
    case Union(cases) => PrintUnion(g, docs, ident, cases)
    case Resource(methods) => PrintResource(g, g.intf.ident, docs, ident, methods)
  }

  /**
    Every type definition is declared after its doc comment and exported
    under its name in upper camel case, with the construct its kind calls
    for.
  */
  lemma TypedefDeclaration(g: TypeScript, id: nat)
    requires g.Valid() && id < |g.intf.typedefs|
    ensures AppearInOrder(PrintTypedef(g, id),
              [PrintDocs(g.intf.typedefs[id].docs),
               DeclarationHead(g.intf.typedefs[id].kind, g.names.upperCamel(g.intf.typedefs[id].ident))])
  {
    var td := g.intf.typedefs[id];
    assert KindOk(td.kind, |g.intf.typedefs|);
    var ident := g.names.upperCamel(td.ident);
    var docs := PrintDocs(td.docs);
    var head := DeclarationHead(td.kind, ident);
    var r := PrintTypedef(g, id);
    match td.kind {
      case Alias(ty) =>
        AliasDeclaration(g, docs, ident, ty);
        assert [docs, head, PrintType(g, ty), ";\n"] == [docs, head] + [PrintType(g, ty), ";\n"];
        InOrderPrefix(r, [docs, head], [PrintType(g, ty), ";\n"]);
      case Record(fields) =>
        RecordDeclaration(g, docs, ident, fields);
        var items := Interleave(DocsOf(fields, (f: RecordField) => f.docs), RecordMembers(g, fields));
        InOrderPrefix(r, [docs, head] + items, [" }\n"]);
        InOrderPrefix(r, [docs, head], items);
      case Flags(flags) =>
        FlagsDeclaration(g, docs, ident, flags);
        var items := Interleave(DocsOf(flags, (f: FlagsField) => f.docs), FlagMembers(g, flags));
        InOrderPrefix(r, [docs, head] + items, [" }\n"]);
        InOrderPrefix(r, [docs, head], items);
      case Variant(cases) =>
        VariantDeclaration(g, docs, ident, cases);
        var before := Interleave(DocsOf(cases, (c: VariantCase) => c.docs), Shapes(g, ident, cases));
        var items := SepPairs(DocsOf(cases, (c: VariantCase) => c.docs), ShapeNames(g, ident, cases), " | ");
        InOrderSuffix(r, before, [docs, head] + items + ["\n"]);
        InOrderPrefix(r, [docs, head] + items, ["\n"]);
        InOrderPrefix(r, [docs, head], items);
      case Enum(cases) =>
        EnumDeclaration(g, docs, ident, cases);
        var items := Interleave(DocsOf(cases, (c: EnumCase) => c.docs), EnumMembers(g, cases));
        InOrderPrefix(r, [docs, head] + items, [" }\n"]);
        InOrderPrefix(r, [docs, head], items);
      case Union(cases) =>
        UnionDeclaration(g, docs, ident, cases);
        var items := SepPairs(DocsOf(cases, (c: UnionCase) => c.docs), PrintTypes(g, UnionTypes(cases)), " | ");
        InOrderPrefix(r, [docs, head] + items, [";\n"]);
        InOrderPrefix(r, [docs, head], items);
      case Resource(methods) =>
        ResourceDeclaration(g, g.intf.ident, docs, ident, methods);
        var items := Interleave(MethodSignatures(g, methods), MethodFetches(g, g.intf.ident, ident, methods));
        InOrderPrefix(r, [docs, head] + items, ["\n}"]);
        InOrderPrefix(r, [docs, head], items);
    }
  }
}
