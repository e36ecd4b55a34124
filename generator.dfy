/**
  The generator value: the resolved interface together with what other
  crates supply to it. Case conversion (the `heck` crate), `Function::throws`
  (the interface parser) and the encoder/decoder text of the shared wire
  format (the JavaScript generator crate) are not part of this model; they
  are fields of function type, so nothing below depends on how they work.
*/
module Generator {
  import opened Wit

  /** The case conversions of identifiers. */
  datatype Names = Names(
    upperCamel: string -> string,
    lowerCamel: string -> string,
    snake: string -> string,
    kebab: string -> string)

  /** Where a type definition is used: as (part of) a parameter, a result, or both. */
  datatype TypeInfo = TypeInfo(param: bool, result: bool)

  datatype UsageFlag = PARAM | RESULT

  /** `TypeInfo::contains` for a single flag. */
  function Contains(info: TypeInfo, flag: UsageFlag): (b: bool)
    ensures b <==> (flag == PARAM && info.param) || (flag == RESULT && info.result)
  {
    match flag
    case PARAM => info.param
    case RESULT => info.result
  }

  /** Source text produced by the JavaScript generator crate. */
  datatype Codec = Codec(
    serdeUtils: string,
    serializeTy: (string, Type) -> string,
    deserializeFunctionResult: FunctionResult -> string,
    serializeTypedef: nat -> string,
    deserializeTypedef: nat -> string)

  /**
    The TypeScript generator: the interface, the usage flag of every type
    definition (indexed like the table), and the collaborators above.
  */
  datatype TypeScript = TypeScript(
    intf: Interface,
    infos: seq<TypeInfo>,
    names: Names,
    codec: Codec,
    throws: Function -> bool)
  {
    /** A resolved interface with a usage entry for every type definition. */
    ghost predicate Valid() {
      WellFormed(intf) && |infos| == |intf.typedefs|
    }
  }
}
