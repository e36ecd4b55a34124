/**
  The resolved interface the emitter reads: types, type definitions, functions
  and the interface itself, as the interface parser hands them over. Type
  definitions live in one table and are referred to by their index in it.
*/
module Wit {
  import opened Wrappers

  /** A type expression of the interface language. */
  datatype Type =
    | Bool
    | U8 | U16 | U32 | U64 | U128
    | S8 | S16 | S32 | S64 | S128
    | Float32 | Float64
    | Char | String
    | Tuple(types: seq<Type>)
    | List(elem: Type)
    | Option(inner: Type)
    | Result(ok: Option<Type>, err: Option<Type>)
    | Id(id: nat)

  datatype RecordField = RecordField(docs: string, id: string, ty: Type)
  datatype FlagsField = FlagsField(docs: string, id: string)
  datatype VariantCase = VariantCase(docs: string, id: string, ty: Option<Type>)
  datatype EnumCase = EnumCase(docs: string, id: string)
  datatype UnionCase = UnionCase(docs: string, ty: Type)

  /** The result of a function: one anonymous type or a list of named ones. */
  datatype FunctionResult =
    | Anon(ty: Type)
    | Named(named: seq<(string, Type)>)
  {
    /** The result types, in declaration order. */
    function Types(): (tys: seq<Type>)
      ensures Anon? ==> tys == [ty]
      ensures Named? ==> |tys| == |named| && forall i :: 0 <= i < |named| ==> tys[i] == named[i].1
    {
      match this
      case Anon(t) => [t]
      case Named(ps) => seq(|ps|, i requires 0 <= i < |ps| => ps[i].1)
    }
  }

  datatype Function = Function(
    docs: string,
    id: string,
    params: seq<(string, Type)>,
    result: Option<FunctionResult>)

  datatype TypeDefKind =
    | Alias(target: Type)
    | Record(fields: seq<RecordField>)
    | Flags(flags: seq<FlagsField>)
    | Variant(cases: seq<VariantCase>)
    | Enum(enumCases: seq<EnumCase>)
    | Union(unionCases: seq<UnionCase>)
    | Resource(methods: seq<Function>)

  datatype TypeDef = TypeDef(ident: string, docs: string, kind: TypeDefKind)

  datatype Interface = Interface(
    ident: string,
    typedefs: seq<TypeDef>,
    functions: seq<Function>)

  /** Every type definition `ty` refers to is in a table of `n` entries. */
  predicate TypeOk(ty: Type, n: nat) {
    match ty
    case Tuple(ts) => forall i :: 0 <= i < |ts| ==> TypeOk(ts[i], n)
    case List(t) => TypeOk(t, n)
    case Option(t) => TypeOk(t, n)
    case Result(ok, err) =>
      (ok.Some? ==> TypeOk(ok.value, n)) && (err.Some? ==> TypeOk(err.value, n))
    case Id(a) => a < n
    case _ => true
  }

  predicate ParamsOk(params: seq<(string, Type)>, n: nat) {
    forall i :: 0 <= i < |params| ==> TypeOk(params[i].1, n)
  }

  predicate FunctionOk(f: Function, n: nat) {
    && ParamsOk(f.params, n)
    && (f.result.Some? ==> forall i :: 0 <= i < |f.result.value.Types()| ==> TypeOk(f.result.value.Types()[i], n))
  }

  predicate KindOk(k: TypeDefKind, n: nat) {
    match k
    case Alias(t) => TypeOk(t, n)
    case Record(fs) => forall i :: 0 <= i < |fs| ==> TypeOk(fs[i].ty, n)
    case Flags(_) => true
    case Variant(cs) => forall i :: 0 <= i < |cs| && cs[i].ty.Some? ==> TypeOk(cs[i].ty.value, n)
    case Enum(_) => true
    case Union(cs) => forall i :: 0 <= i < |cs| ==> TypeOk(cs[i].ty, n)
    case Resource(fs) => forall i :: 0 <= i < |fs| ==> FunctionOk(fs[i], n)
  }

  /**
    `rank` puts every alias whose target is a reference above the type
    definition that reference names.
  */
  predicate RanksAliases(tds: seq<TypeDef>, rank: seq<nat>) {
    && |rank| == |tds|
    && forall a :: 0 <= a < |tds| && tds[a].kind.Alias? && tds[a].kind.target.Id? && tds[a].kind.target.id < |tds|
         ==> rank[tds[a].kind.target.id] < rank[a]
  }

  /**
    No chain of aliases comes back to where it started: some ranking puts
    each alias above the definition it names. The typed-array lookup would
    follow a cycle forever.
  */
  ghost predicate AliasesAcyclic(tds: seq<TypeDef>) {
    exists rank :: RanksAliases(tds, rank)
  }

  /** An alias may name a later definition, as long as no cycle results. */
  lemma ForwardAliasAcyclic()
    ensures AliasesAcyclic([TypeDef("a", "", Alias(Id(1))), TypeDef("b", "", Alias(U8))])
  {
    assert RanksAliases([TypeDef("a", "", Alias(Id(1))), TypeDef("b", "", Alias(U8))], [1, 0]);
  }

  /** An alias of itself is a cycle. */
  lemma SelfAliasCyclic()
    ensures !AliasesAcyclic([TypeDef("a", "", Alias(Id(0)))])
  {
    var tds := [TypeDef("a", "", Alias(Id(0)))];
    forall rank | |rank| == |tds|
      ensures !RanksAliases(tds, rank)
    {
      assert tds[0].kind.target.id == 0;
    }
  }

  /** A resolved interface: no dangling reference and no alias cycle. */
  ghost predicate WellFormed(intf: Interface) {
    && (forall a :: 0 <= a < |intf.typedefs| ==> KindOk(intf.typedefs[a].kind, |intf.typedefs|))
    && AliasesAcyclic(intf.typedefs)
    && (forall i :: 0 <= i < |intf.functions| ==> FunctionOk(intf.functions[i], |intf.typedefs|))
  }
}
