/**
  The type mapper: the TypeScript type expression for an interface type
  (`print_type`) and the typed-array name used for lists of fixed-width
  numbers (`array_ty`), which looks through aliases.
*/
module TypeMapper {
  import opened Wrappers
  import opened Wit
  import opened Text
  import opened Generator

  /** The element types that have a dedicated typed-array class. */
  predicate IsFixedWidthNumeric(ty: Type) {
    ty.U8? || ty.S8? || ty.U16? || ty.S16? || ty.U32? || ty.S32? ||
    ty.U64? || ty.S64? || ty.Float32? || ty.Float64?
  }

  /** The typed-array class for each fixed-width numeric element type. */
  function TypedArrayName(ty: Type): string
    requires IsFixedWidthNumeric(ty)
  {
    match ty
    case U8 => "Uint8Array"
    case S8 => "Int8Array"
    case U16 => "Uint16Array"
    case S16 => "Int16Array"
    case U32 => "Uint32Array"
    case S32 => "Int32Array"
    case U64 => "BigUint64Array"
    case S64 => "BigInt64Array"
    case Float32 => "Float32Array"
    case Float64 => "Float64Array"
  }

  /** A ranking of the type definitions under which every alias outranks its target. */
  ghost function Ranking(g: TypeScript): (rank: seq<nat>)
    requires g.Valid()
    ensures RanksAliases(g.intf.typedefs, rank)
  {
    var rank :| RanksAliases(g.intf.typedefs, rank); rank
  }

  /** A reference ranks above the definitions it may alias; other types rank lowest. */
  ghost function AliasRank(g: TypeScript, ty: Type): nat
    requires g.Valid() && TypeOk(ty, |g.intf.typedefs|)
  {
    if ty.Id? then Ranking(g)[ty.id] + 1 else 0
  }

  /** The type definition a reference names. */
  function Lookup(g: TypeScript, id: nat): TypeDef
    requires id < |g.intf.typedefs|
  {
    g.intf.typedefs[id]
  }

  /**
    `ty` with aliases looked through: a reference to an alias is replaced by
    the aliased type until the type is no longer a reference to an alias.
  */
  function Resolve(g: TypeScript, ty: Type): (r: Type)
    requires g.Valid() && TypeOk(ty, |g.intf.typedefs|)
    ensures TypeOk(r, |g.intf.typedefs|)
    ensures !(r.Id? && Lookup(g, r.id).kind.Alias?)
    ensures !ty.Id? ==> r == ty
    decreases AliasRank(g, ty)
  {
    if ty.Id? && Lookup(g, ty.id).kind.Alias? then Resolve(g, Lookup(g, ty.id).kind.target)
    else ty
  }

  /**
    The typed-array class for a list of `ty`: there is one exactly when `ty`,
    with aliases looked through, is a fixed-width number, and it is that
    number's class.
  */
  function ArrayTy(g: TypeScript, ty: Type): (r: Option<string>)
    requires g.Valid() && TypeOk(ty, |g.intf.typedefs|)
    ensures r.Some? <==> IsFixedWidthNumeric(Resolve(g, ty))
    ensures r.Some? ==> r.value == TypedArrayName(Resolve(g, ty))
    decreases AliasRank(g, ty)
  {
    match ty
    case U8 => Some("Uint8Array")
    case S8 => Some("Int8Array")
    case U16 => Some("Uint16Array")
    case S16 => Some("Int16Array")
    case U32 => Some("Uint32Array")
    case S32 => Some("Int32Array")
    case U64 => Some("BigUint64Array")
    case S64 => Some("BigInt64Array")
    case Float32 => Some("Float32Array")
    case Float64 => Some("Float64Array")
    case Id(id) =>
      (match Lookup(g, id).kind
       case Alias(t) => ArrayTy(g, t)
       case _ => None)
    case U128 | S128 | Bool | Tuple(_) | List(_) | Option(_) | Result(_, _) | Char | String => None
  }

  /** The TypeScript type expression for `ty`. */
  function PrintType(g: TypeScript, ty: Type): string
    requires g.Valid() && TypeOk(ty, |g.intf.typedefs|)
    decreases ty
  {
    match ty
    case Bool => "boolean"
    case U8 | U16 | U32 | S8 | S16 | S32 | Float32 | Float64 => "number"
    case U64 | S64 | U128 | S128 => "bigint"
    case Char | String => "string"
    case Tuple(types) =>
      "[" + Join(seq(|types|, i requires 0 <= i < |types| => PrintType(g, types[i])), ", ") + "]"
    case List(t) => ArrayTy(g, t).UnwrapOr(PrintType(g, t)) + "[]"
    case Option(t) => PrintType(g, t) + " | null"
    case Result(ok, err) =>
      var okTy := if ok.Some? then PrintType(g, ok.value) else "null";
      var errTy := if err.Some? then PrintType(g, err.value) else "null";
      "Result<" + okTy + ", " + errTy + ">"
    case Id(id) => g.names.upperCamel(Lookup(g, id).ident)
  }

  /** Each of `tys` printed, in order. */
  function PrintTypes(g: TypeScript, tys: seq<Type>): (r: seq<string>)
    requires g.Valid() && forall i :: 0 <= i < |tys| ==> TypeOk(tys[i], |g.intf.typedefs|)
    ensures |r| == |tys| && forall i :: 0 <= i < |tys| ==> r[i] == PrintType(g, tys[i])
  {
    seq(|tys|, i requires 0 <= i < |tys| => PrintType(g, tys[i]))
  }

  predicate IsNumberType(ty: Type) {
    ty.U8? || ty.U16? || ty.U32? || ty.S8? || ty.S16? || ty.S32? || ty.Float32? || ty.Float64?
  }

  predicate IsBigIntType(ty: Type) {
    ty.U64? || ty.S64? || ty.U128? || ty.S128?
  }

  /**
    The scalar table: booleans print as `boolean`; integers of up to 32 bits
    and both float widths as `number`; 64- and 128-bit integers as `bigint`;
    characters and strings as `string`.
  */
  lemma ScalarTable(g: TypeScript, ty: Type)
    requires g.Valid() && TypeOk(ty, |g.intf.typedefs|)
    ensures ty.Bool? ==> PrintType(g, ty) == "boolean"
    ensures IsNumberType(ty) ==> PrintType(g, ty) == "number"
    ensures IsBigIntType(ty) ==> PrintType(g, ty) == "bigint"
    ensures ty.Char? || ty.String? ==> PrintType(g, ty) == "string"
  {
  }

  /** One side of a result type: its type, or `null` when it carries nothing. */
  function ResultSide(g: TypeScript, side: Option<Type>): string
    requires g.Valid() && (side.Some? ==> TypeOk(side.value, |g.intf.typedefs|))
  {
    if side.Some? then PrintType(g, side.value) else "null"
  }

  /**
    An option prints as its type or `null`; a result as `Result<ok, err>`
    with `null` for a side that carries nothing; a tuple as its element
    types in brackets, in order.
  */
  lemma CompositeShapes(g: TypeScript, ty: Type)
    requires g.Valid() && TypeOk(ty, |g.intf.typedefs|)
    ensures ty.Option? ==> PrintType(g, ty) == PrintType(g, ty.inner) + " | null"
    ensures ty.Result? ==>
              PrintType(g, ty) == "Result<" + ResultSide(g, ty.ok) + ", " + ResultSide(g, ty.err) + ">"
    ensures ty.Tuple? ==>
      && PrintType(g, ty) == "[" + Join(PrintTypes(g, ty.types), ", ") + "]"
      && AppearInOrder(PrintType(g, ty), PrintTypes(g, ty.types))
    ensures ty.Id? ==> PrintType(g, ty) == g.names.upperCamel(Lookup(g, ty.id).ident)
  {
    if ty.Tuple? {
      var parts := PrintTypes(g, ty.types);
      assert PrintType(g, ty) == "[" + Join(parts, ", ") + "]";
      JoinInOrder(parts, ", ");
      InOrderInContext("[", Join(parts, ", "), "]", parts);
    }
  }

  /**
    A list prints as its element's typed-array class followed by `[]` when
    the element, looked through aliases, is a fixed-width number, and as the
    element's own type followed by `[]` otherwise. A list of an alias of a
    number therefore prints exactly like a list of that number.
  */
  lemma ListShape(g: TypeScript, t: Type)
    requires g.Valid() && TypeOk(t, |g.intf.typedefs|)
    ensures IsFixedWidthNumeric(Resolve(g, t)) ==>
      && PrintType(g, List(t)) == TypedArrayName(Resolve(g, t)) + "[]"
      && PrintType(g, List(t)) == PrintType(g, List(Resolve(g, t)))
    ensures !IsFixedWidthNumeric(Resolve(g, t)) ==> PrintType(g, List(t)) == PrintType(g, t) + "[]"
  {
    var r := Resolve(g, t);
    if IsFixedWidthNumeric(r) {
      assert Resolve(g, r) == r;
    }
  }

  /**
    Looking up the typed array of a reference: through an alias it is the
    aliased type's, and any other kind of definition has none.
  */
  lemma ArrayTyOfReference(g: TypeScript, a: nat)
    requires g.Valid() && a < |g.intf.typedefs|
    ensures Lookup(g, a).kind.Alias? ==> ArrayTy(g, Id(a)) == ArrayTy(g, Lookup(g, a).kind.target)
    ensures !Lookup(g, a).kind.Alias? ==> ArrayTy(g, Id(a)) == None
  {
  }

  /** The examples `list<u8>` and `list<x>` with `type x = u8` both print `Uint8Array[]`. */
  lemma ByteListExamples(g: TypeScript, a: nat)
    requires g.Valid() && a < |g.intf.typedefs| && Lookup(g, a).kind == Alias(U8)
    ensures PrintType(g, List(U8)) == "Uint8Array[]"
    ensures PrintType(g, List(Id(a))) == "Uint8Array[]"
  {
    ListShape(g, Id(a));
  }

  /** A list of options is written without parentheses: `list<option<u32>>` prints `number | null[]`. */
  lemma ListOfOptionExample(g: TypeScript)
    requires g.Valid()
    ensures PrintType(g, List(Option(U32))) == "number | null[]"
  {
    assert PrintType(g, Option(U32)) == "number" + " | null";
    assert "number" + " | null" + "[]" == "number | null[]";
  }
}
