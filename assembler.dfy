/**
  File assembly (`to_file`): the output text in its fixed order, and the
  output file name. The optional formatter pass is not part of this model.
*/
module Assembler {
  import opened Wrappers
  import opened Wit
  import opened Text
  import opened Generator
  import opened Stubs
  import opened Declarations

  const Header := "// @ts-nocheck\n"

  /** The generic result type, declared when some function can fail. */
  const ResultDecl := "export type Result<T, E> = { tag: 'ok', val: T } | { tag: 'err', val: E };\n"

  /** Whether any of `fs` can fail. */
  function AnyThrows(throws: Function -> bool, fs: seq<Function>): (b: bool)
    ensures b <==> exists i :: 0 <= i < |fs| && throws(fs[i])
  {
    if fs == [] then false
    else if throws(fs[0]) then true
    else
      var rest := AnyThrows(throws, fs[1..]);
      assert forall i :: 1 <= i < |fs| ==> fs[i] == fs[1..][i - 1];
      rest
  }

  /** The result type declaration, or nothing. */
  function ResultType(g: TypeScript): string {
    if AnyThrows(g.throws, g.intf.functions) then ResultDecl else ""
  }

  /** The identifiers of the type definitions whose usage includes `flag`, in table order. */
  function IdsWith(infos: seq<TypeInfo>, flag: UsageFlag): (ids: seq<nat>)
    ensures forall k: nat :: k in ids <==> k < |infos| && Contains(infos[k], flag)
    ensures forall i :: 0 <= i < |ids| ==> ids[i] < |infos|
    ensures forall i, j :: 0 <= i < j < |ids| ==> ids[i] < ids[j]
  {
    if infos == [] then []
    else
      var n := |infos| - 1;
      var before := IdsWith(infos[..n], flag);
      assert forall k: nat :: k < n ==> infos[..n][k] == infos[k];
      before + (if Contains(infos[n], flag) then [n] else [])
  }

  /** The decoder of every type definition used in a result, in table order. */
  function DeserializerTexts(g: TypeScript): (r: seq<string>)
    ensures |r| == |IdsWith(g.infos, RESULT)|
  {
    var ids := IdsWith(g.infos, RESULT);
    seq(|ids|, j requires 0 <= j < |ids| => g.codec.deserializeTypedef(ids[j]))
  }

  /** The encoder of every type definition used in a parameter, in table order. */
  function SerializerTexts(g: TypeScript): (r: seq<string>)
    ensures |r| == |IdsWith(g.infos, PARAM)|
  {
    var ids := IdsWith(g.infos, PARAM);
    seq(|ids|, j requires 0 <= j < |ids| => g.codec.serializeTypedef(ids[j]))
  }

  /** Every type declaration, in table order. */
  function TypedefTexts(g: TypeScript): (r: seq<string>)
    requires g.Valid()
    ensures |r| == |g.intf.typedefs|
  {
    seq(|g.intf.typedefs|, id requires 0 <= id < |g.intf.typedefs| => PrintTypedef(g, id))
  }

  /** Every function stub, in declaration order, under the interface's snake-case name. */
  function FunctionTexts(g: TypeScript): (r: seq<string>)
    requires g.Valid()
    ensures |r| == |g.intf.functions|
  {
    var fs := g.intf.functions;
    seq(|fs|, i requires 0 <= i < |fs| => PrintFunction(g, g.names.snake(g.intf.ident), fs[i]))
  }

  /** The output sections in their fixed order. */
  function Assemble(resultType: string, serdeUtils: string, deserializers: string, serializers: string,
                    typedefs: string, functions: string): string
  {
    Header + resultType + serdeUtils + deserializers + serializers + "\n" + typedefs + "\n" + functions
  }

  /** The assembled text, before any formatter. */
  function Contents(g: TypeScript): string
    requires g.Valid()
  {
    Assemble(ResultType(g), g.codec.serdeUtils,
      Concat(DeserializerTexts(g)), Concat(SerializerTexts(g)),
      Concat(TypedefTexts(g)), Concat(FunctionTexts(g)))
  }

  lemma AssembleStart(resultType: string, serdeUtils: string, deserializers: string, serializers: string,
                      typedefs: string, functions: string)
    ensures var pre := Header + resultType + serdeUtils;
            var text := Assemble(resultType, serdeUtils, deserializers, serializers, typedefs, functions);
            |pre| <= |text| && text[..|pre|] == pre
  {
    var pre := Header + resultType + serdeUtils;
    var rest := deserializers + serializers + "\n" + typedefs + "\n" + functions;
    assert Assemble(resultType, serdeUtils, deserializers, serializers, typedefs, functions) == pre + rest;
    assert (pre + rest)[..|pre|] == pre;
  }

  // ---------------------------------------------------------------------------
  // File name

  /** The position of the last `.` in `s`, if any. */
  function LastDot(s: string): (k: Option<nat>)
    ensures k.None? <==> '.' !in s
    ensures k.Some? ==> k.value < |s| && s[k.value] == '.' && '.' !in s[k.value + 1..]
  {
    if s == [] then None
    else if s[|s| - 1] == '.' then Some(|s| - 1)
    else
      var k := LastDot(s[..|s| - 1]);
      assert s == s[..|s| - 1] + [s[|s| - 1]];
      if k.Some? then
        assert s[k.value + 1..] == s[..|s| - 1][k.value + 1..] + [s[|s| - 1]];
        k
      else k
  }

  /**
    The stem of a file name: the text before its last dot, unless there is
    no dot or the only dot that could split it opens the name.
  */
  function FileStem(name: string): string {
    match LastDot(name)
    case Some(k) => if k > 0 then name[..k] else name
    case None => name
  }

  /** A name that is not a file name: empty, or a reference to a directory. */
  predicate NoFileName(name: string) {
    name == "" || name == "." || name == ".."
  }

  /** `PathBuf::set_extension("ts")` on a path of one component. */
  function WithTsExtension(name: string): string {
    if NoFileName(name) then name else FileStem(name) + ".ts"
  }

  /** A file name gets the `ts` extension, replacing the one it had; the stem is kept. */
  lemma TsExtension(name: string)
    requires !NoFileName(name)
    ensures EndsWith(WithTsExtension(name), ".ts")
    ensures |FileStem(name)| > 0 && WithTsExtension(name)[..|FileStem(name)|] == name[..|FileStem(name)|]
  {
    EndsWithSuffix(FileStem(name), ".ts");
    var stem := FileStem(name);
    assert (stem + ".ts")[..|stem|] == stem;
    if LastDot(name).Some? && LastDot(name).value > 0 {
      assert name[..|stem|] == stem;
    } else {
      assert name[..|name|] == name;
    }
  }

  /** A name without a dot just gets `.ts` appended. */
  lemma TsExtensionAppends(name: string)
    requires name != "" && '.' !in name
    ensures WithTsExtension(name) == name + ".ts"
  {
  }

  /** Setting the extension again changes nothing. */
  lemma TsExtensionIdempotent(name: string)
    requires !NoFileName(name)
    ensures WithTsExtension(WithTsExtension(name)) == WithTsExtension(name)
  {
    var stem := FileStem(name);
    var out := stem + ".ts";
    TsExtension(name);
    assert out[|stem|] == '.' && out[|stem| + 1..] == "ts";
    assert '.' !in out[|stem| + 1..];
    var k := LastDot(out);
    assert forall j :: k.value < j < |out| ==> out[j] == out[k.value + 1..][j - k.value - 1];
    assert forall j :: |stem| < j < |out| ==> out[j] == out[|stem| + 1..][j - |stem| - 1];
    assert k.value == |stem|;
    assert out[..|stem|] == stem;
  }

  /** `to_file`: the output path and the assembled text. */
  function ToFile(g: TypeScript): (r: (string, string))
    requires g.Valid()
    ensures r.0 == WithTsExtension(g.names.kebab(g.intf.ident))
  {
    (WithTsExtension(g.names.kebab(g.intf.ident)), Contents(g))
  }

  // ---------------------------------------------------------------------------
  // Properties of the assembled text

  /**
    The text opens with the marker that turns off type checking, followed by
    the result type exactly when some function can fail, followed by the
    shared encoder and decoder helpers.
  */
  lemma Preamble(g: TypeScript)
    requires g.Valid()
    ensures (exists i :: 0 <= i < |g.intf.functions| && g.throws(g.intf.functions[i])) ==>
              |Header + ResultDecl + g.codec.serdeUtils| <= |Contents(g)|
              && Contents(g)[..|Header + ResultDecl + g.codec.serdeUtils|] == Header + ResultDecl + g.codec.serdeUtils
    ensures (forall i :: 0 <= i < |g.intf.functions| ==> !g.throws(g.intf.functions[i])) ==>
              |Header + g.codec.serdeUtils| <= |Contents(g)|
              && Contents(g)[..|Header + g.codec.serdeUtils|] == Header + g.codec.serdeUtils
  {
    AssembleStart(ResultType(g), g.codec.serdeUtils,
      Concat(DeserializerTexts(g)), Concat(SerializerTexts(g)),
      Concat(TypedefTexts(g)), Concat(FunctionTexts(g)));
    if !AnyThrows(g.throws, g.intf.functions) {
      assert Header + "" == Header;
    }
  }

  /**
    After the helpers come the decoders, then the encoders, then every type
    declaration, then every function stub, each group in table order. By
    `IdsWith`, the decoders are those of exactly the type definitions used
    in a result and the encoders those of exactly the ones used in a
    parameter.
  */
  lemma Sections(g: TypeScript)
    requires g.Valid()
    ensures AppearInOrder(Contents(g),
              [Header + ResultType(g) + g.codec.serdeUtils]
              + DeserializerTexts(g) + SerializerTexts(g) + TypedefTexts(g) + FunctionTexts(g))
  {
    var d := DeserializerTexts(g);
    var s := SerializerTexts(g);
    var t := TypedefTexts(g);
    var f := FunctionTexts(g);
    var pre := Header + ResultType(g) + g.codec.serdeUtils;
    ConcatInOrder(d);
    ConcatInOrder(s);
    ConcatInOrder(t);
    ConcatInOrder(f);
    InOrderSelf(pre);
    InOrderAppend(pre, [pre], Concat(d), d);
    InOrderAppend(pre + Concat(d), [pre] + d, Concat(s), s);
    InOrderExtendRight(pre + Concat(d) + Concat(s), "\n", [pre] + d + s);
    InOrderAppend(pre + Concat(d) + Concat(s) + "\n", [pre] + d + s, Concat(t), t);
    InOrderExtendRight(pre + Concat(d) + Concat(s) + "\n" + Concat(t), "\n", [pre] + d + s + t);
    InOrderAppend(pre + Concat(d) + Concat(s) + "\n" + Concat(t) + "\n", [pre] + d + s + t, Concat(f), f);
  }

  /** With no function that can fail, the result type is not declared at all. */
  lemma NoResultTypeWithoutFailure(g: TypeScript)
    requires g.Valid()
    requires forall i :: 0 <= i < |g.intf.functions| ==> !g.throws(g.intf.functions[i])
    ensures Contents(g) == Assemble("", g.codec.serdeUtils,
              Concat(DeserializerTexts(g)), Concat(SerializerTexts(g)),
              Concat(TypedefTexts(g)), Concat(FunctionTexts(g)))
  {
  }
}
