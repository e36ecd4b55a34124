/**
  Call stubs: the async TypeScript function for a free function of the
  interface (`print_function`), the async method for a resource method (the
  per-method part of `print_resource`), and the parameter list and result
  type they share (`print_function_params`, `print_function_result`).
*/
module Stubs {
  import opened Wrappers
  import opened Wit
  import opened Text
  import opened Generator
  import opened Docs
  import opened TypeMapper

  predicate ResultOk(g: TypeScript, result: FunctionResult) {
    forall i :: 0 <= i < |result.Types()| ==> TypeOk(result.Types()[i], |g.intf.typedefs|)
  }

  /** `name: type` for each parameter, in order. */
  function ParamDecls(g: TypeScript, params: seq<(string, Type)>): (r: seq<string>)
    requires g.Valid() && ParamsOk(params, |g.intf.typedefs|)
    ensures |r| == |params|
  {
    seq(|params|, i requires 0 <= i < |params| =>
      g.names.lowerCamel(params[i].0) + ": " + PrintType(g, params[i].1))
  }

  /** The parameter list of a stub: the declarations separated by commas. */
  function PrintFunctionParams(g: TypeScript, params: seq<(string, Type)>): (r: string)
    requires g.Valid() && ParamsOk(params, |g.intf.typedefs|)
    ensures AppearInOrder(r, ParamDecls(g, params))
  {
    JoinInOrder(ParamDecls(g, params), ", ");
    Join(ParamDecls(g, params), ", ")
  }

  /** The promise type of a stub, by the number of result types. */
  function PrintFunctionResult(g: TypeScript, result: FunctionResult): string
    requires g.Valid() && ResultOk(g, result)
  {
    var tys := result.Types();
    if |tys| == 0 then "Promise<void>"
    else if |tys| == 1 then "Promise<" + PrintType(g, tys[0]) + ">"
    else "Promise<[" + Join(PrintTypes(g, tys), ", ") + "]>"
  }

  /**
    Result arity: no result type gives `Promise<void>`, one gives a promise
    of that type, and several give a promise of the tuple of them, their
    types in declaration order.
  */
  lemma ResultArity(g: TypeScript, result: FunctionResult)
    requires g.Valid() && ResultOk(g, result)
    ensures |result.Types()| == 0 ==> PrintFunctionResult(g, result) == "Promise<void>"
    ensures |result.Types()| == 1 ==>
              PrintFunctionResult(g, result) == "Promise<" + PrintType(g, result.Types()[0]) + ">"
    ensures |result.Types()| >= 2 ==>
              && PrintFunctionResult(g, result) == "Promise<" + PrintType(g, Tuple(result.Types())) + ">"
              && AppearInOrder(PrintFunctionResult(g, result), PrintTypes(g, result.Types()))
  {
    var tys := result.Types();
    if |tys| >= 2 {
      CompositeShapes(g, Tuple(tys));
      PromiseOfTuple(Join(PrintTypes(g, tys), ", "));
      InOrderInContext("Promise<", PrintType(g, Tuple(tys)), ">", PrintTypes(g, tys));
    }
  }

  lemma PromiseOfTuple(types: string)
    ensures "Promise<[" + types + "]>" == "Promise<" + ("[" + types + "]") + ">"
  {
  }

  /** The encoder call for each parameter, in order. */
  function SerializedParams(g: TypeScript, params: seq<(string, Type)>): (r: seq<string>)
    ensures |r| == |params|
  {
    seq(|params|, i requires 0 <= i < |params| =>
      g.codec.serializeTy(g.names.lowerCamel(params[i].0), params[i].1))
  }

  /** The encoder calls joined into statements. */
  function SerializeParams(g: TypeScript, params: seq<(string, Type)>): (r: string)
    ensures AppearInOrder(r, SerializedParams(g, params))
  {
    JoinInOrder(SerializedParams(g, params), ";\n");
    Join(SerializedParams(g, params), ";\n")
  }

  /** The address a free function is called at. */
  function FunctionUrl(intfName: string, name: string): string {
    "ipc://localhost/" + intfName + "/" + name
  }

  /** The request a free function's stub sends: a POST of the encoded bytes. */
  function FunctionFetch(url: string): string {
    "fetch('" + url + "', { method: \"POST\", body: Uint8Array.from(out) })"
  }

  /** The signature line of a free function's stub. */
  function FunctionSignature(ident: string, params: string, result: string): string {
    "export async function " + ident + " (" + params + ") : " + result + " {"
  }

  /** The promise type of a free function: `Promise<void>` when it has no result. */
  function FunctionResultType(g: TypeScript, f: Function): string
    requires g.Valid() && FunctionOk(f, |g.intf.typedefs|)
  {
    if f.result.Some? then PrintFunctionResult(g, f.result.value) else "Promise<void>"
  }

  /** The decoder applied to the response, if the function has a result. */
  function DeserializeResult(g: TypeScript, f: Function): string {
    if f.result.Some? then g.codec.deserializeFunctionResult(f.result.value) else ""
  }

  /** A free function's stub up to its parameter encoders. */
  function FunctionHead(docs: string, signature: string): string {
    "\n" + docs + "\n" + signature + "\n    const out = []\n    "
  }

  /** A free function's stub from the request on: `ret` and `asRet` are empty or `return` and a cast. */
  function FunctionTail(ret: string, fetch: string, deserialize: string, asRet: string): string {
    "\n\n    " + ret + " " + fetch + deserialize + " " + asRet + "\n}\n        "
  }

  /** The stub of free function `f` of the interface called `intfName`. */
  function PrintFunction(g: TypeScript, intfName: string, f: Function): string
    requires g.Valid() && FunctionOk(f, |g.intf.typedefs|)
  {
    var docs := PrintDocs(f.docs);
    var ident := g.names.lowerCamel(f.id);
    var name := g.names.snake(f.id);
    var params := PrintFunctionParams(g, f.params);
    var result := FunctionResultType(g, f);
    var deserializeResult := DeserializeResult(g, f);
    var serializeParams := SerializeParams(g, f.params);
    var ret := if f.result.Some? then "return" else "";
    var asRet := if f.result.Some? then "as " + result else "";
    FunctionHead(docs, FunctionSignature(ident, params, result))
    + serializeParams
    + FunctionTail(ret, FunctionFetch(FunctionUrl(intfName, name)), deserializeResult, asRet)
  }

  lemma FunctionHeadHasSignature(docs: string, signature: string)
    ensures AppearInOrder(FunctionHead(docs, signature), [signature])
  {
    InOrderSelf(signature);
    InOrderExtendLeft("\n" + docs + "\n", signature, [signature]);
    InOrderExtendRight("\n" + docs + "\n" + signature, "\n    const out = []\n    ", [signature]);
  }

  lemma FunctionTailHasFetch(ret: string, fetch: string, deserialize: string, asRet: string)
    ensures AppearInOrder(FunctionTail(ret, fetch, deserialize, asRet), [fetch])
  {
    InOrderSelf(fetch);
    var t := "\n\n    " + ret + " ";
    InOrderExtendLeft(t, fetch, [fetch]);
    InOrderExtendRight(t + fetch, deserialize, [fetch]);
    InOrderExtendRight(t + fetch + deserialize, " ", [fetch]);
    InOrderExtendRight(t + fetch + deserialize + " ", asRet, [fetch]);
    InOrderExtendRight(t + fetch + deserialize + " " + asRet, "\n}\n        ", [fetch]);
  }

  /** A head, encoders and a tail keep the order of what each holds. */
  lemma InOrderThree(a: string, xs: seq<string>, b: string, ys: seq<string>, c: string, zs: seq<string>)
    requires AppearInOrder(a, xs) && AppearInOrder(b, ys) && AppearInOrder(c, zs)
    ensures AppearInOrder(a + b + c, xs + ys + zs)
  {
    InOrderAppend(a, xs, b, ys);
    InOrderAppend(a + b, xs + ys, c, zs);
  }

  /**
    A free function's stub declares the function, encodes every parameter in
    declaration order, and then sends one POST to
    `ipc://localhost/<interface>/<snake-case name>`. Without a result it is
    typed `Promise<void>` and neither returns nor casts the response; with
    one it returns the decoded response cast to the very type it declares.
  */
  lemma FunctionStub(g: TypeScript, intfName: string, f: Function)
    requires g.Valid() && FunctionOk(f, |g.intf.typedefs|)
    ensures AppearInOrder(PrintFunction(g, intfName, f),
              [FunctionSignature(g.names.lowerCamel(f.id), PrintFunctionParams(g, f.params), FunctionResultType(g, f))]
              + SerializedParams(g, f.params)
              + [FunctionFetch(FunctionUrl(intfName, g.names.snake(f.id)))])
    ensures f.result.None? ==>
              && FunctionResultType(g, f) == "Promise<void>"
              && EndsWith(PrintFunction(g, intfName, f),
                   FunctionTail("", FunctionFetch(FunctionUrl(intfName, g.names.snake(f.id))), "", ""))
    ensures f.result.Some? ==>
              EndsWith(PrintFunction(g, intfName, f),
                FunctionTail("return", FunctionFetch(FunctionUrl(intfName, g.names.snake(f.id))),
                  g.codec.deserializeFunctionResult(f.result.value), "as " + FunctionResultType(g, f)))
  {
    var sig := FunctionSignature(g.names.lowerCamel(f.id), PrintFunctionParams(g, f.params), FunctionResultType(g, f));
    var head := FunctionHead(PrintDocs(f.docs), sig);
    var fetch := FunctionFetch(FunctionUrl(intfName, g.names.snake(f.id)));
    var ret := if f.result.Some? then "return" else "";
    var asRet := if f.result.Some? then "as " + FunctionResultType(g, f) else "";
    var tail := FunctionTail(ret, fetch, DeserializeResult(g, f), asRet);
    FunctionHeadHasSignature(PrintDocs(f.docs), sig);
    FunctionTailHasFetch(ret, fetch, DeserializeResult(g, f), asRet);
    InOrderThree(head, [sig], SerializeParams(g, f.params), SerializedParams(g, f.params), tail, [fetch]);
    EndsWithSuffix(head + SerializeParams(g, f.params), tail);
  }

  /** The address a resource method is called at. */
  function MethodUrl(intfName: string, resourceName: string, methodName: string): string {
    "ipc://localhost/" + intfName + "::resource::" + resourceName + "/" + methodName
  }

  /** The request a resource method sends: a POST of the encoded bytes as binary data. */
  function MethodFetch(url: string): string {
    "fetch('" + url + "', { method: \"POST\", body: Uint8Array.from(out), headers: { 'Content-Type': 'application/octet-stream' } })"
  }

  /** The statement that encodes the instance's handle. */
  const SerializeHandle := "serializeU32(out, this.#id);"

  /** The signature line of a resource method. */
  function MethodSignature(ident: string, params: string, result: string): string {
    "async " + ident + " (" + params + ") : " + result + " {"
  }

  /** The result type of a resource method: `void` when it has no result. */
  function MethodResultType(g: TypeScript, f: Function): string
    requires g.Valid() && FunctionOk(f, |g.intf.typedefs|)
  {
    if f.result.Some? then PrintFunctionResult(g, f.result.value) else "void"
  }

  /** A resource method up to its parameter encoders: the signature, then the handle's encoder. */
  function MethodHead(docs: string, signature: string): string {
    docs + "\n" + signature + "\n    const out = []\n    " + SerializeHandle + "\n    "
  }

  /** A resource method from the request on. */
  function MethodTail(fetch: string, deserialize: string): string {
    "\n\n    await " + fetch + deserialize + "\n}\n"
  }

  /**
    The method for `f` of the resource declared as `resource` (already in
    upper camel case) in the interface called `modIdent`.
  */
  function PrintResourceMethod(g: TypeScript, modIdent: string, resource: string, f: Function): string
    requires g.Valid() && FunctionOk(f, |g.intf.typedefs|)
  {
    var docs := PrintDocs(f.docs);
    var modIdent := g.names.snake(modIdent);
    var resourceIdent := g.names.snake(resource);
    var ident := g.names.lowerCamel(f.id);
    var params := PrintFunctionParams(g, f.params);
    var result := MethodResultType(g, f);
    var deserializeResult := DeserializeResult(g, f);
    var serializeParams := SerializeParams(g, f.params);
    MethodHead(docs, MethodSignature(ident, params, result))
    + serializeParams
    + MethodTail(MethodFetch(MethodUrl(modIdent, resourceIdent, ident)), deserializeResult)
  }

  lemma MethodHeadHasSignatureThenHandle(docs: string, signature: string)
    ensures AppearInOrder(MethodHead(docs, signature), [signature, SerializeHandle])
  {
    InOrderSelf(SerializeHandle);
    InOrderCons(signature, "\n    const out = []\n    ", SerializeHandle, [SerializeHandle]);
    var t := signature + "\n    const out = []\n    " + SerializeHandle;
    assert [signature] + [SerializeHandle] == [signature, SerializeHandle];
    InOrderExtendLeft(docs + "\n", t, [signature, SerializeHandle]);
    assert docs + "\n" + t == docs + "\n" + signature + "\n    const out = []\n    " + SerializeHandle;
    InOrderExtendRight(docs + "\n" + signature + "\n    const out = []\n    " + SerializeHandle, "\n    ",
      [signature, SerializeHandle]);
  }

  lemma MethodTailHasFetch(fetch: string, deserialize: string)
    ensures AppearInOrder(MethodTail(fetch, deserialize), [fetch])
  {
    InOrderSelf(fetch);
    InOrderExtendLeft("\n\n    await ", fetch, [fetch]);
    InOrderExtendRight("\n\n    await " + fetch, deserialize, [fetch]);
    InOrderExtendRight("\n\n    await " + fetch + deserialize, "\n}\n", [fetch]);
  }

  /**
    A resource method encodes the instance's handle before any parameter,
    then every parameter in declaration order, then awaits one binary POST to
    `ipc://localhost/<interface>::resource::<resource>/<method>`, and ends
    with that request and its decoder. Without a result it is typed `void`.
  */
  lemma ResourceMethodStub(g: TypeScript, modIdent: string, resource: string, f: Function)
    requires g.Valid() && FunctionOk(f, |g.intf.typedefs|)
    ensures AppearInOrder(PrintResourceMethod(g, modIdent, resource, f),
              [MethodSignature(g.names.lowerCamel(f.id), PrintFunctionParams(g, f.params), MethodResultType(g, f)),
               SerializeHandle]
              + SerializedParams(g, f.params)
              + [MethodFetch(MethodUrl(g.names.snake(modIdent), g.names.snake(resource), g.names.lowerCamel(f.id)))])
    ensures f.result.None? ==> MethodResultType(g, f) == "void"
    ensures EndsWith(PrintResourceMethod(g, modIdent, resource, f),
              MethodTail(MethodFetch(MethodUrl(g.names.snake(modIdent), g.names.snake(resource), g.names.lowerCamel(f.id))),
                DeserializeResult(g, f)))
  {
    var sig := MethodSignature(g.names.lowerCamel(f.id), PrintFunctionParams(g, f.params), MethodResultType(g, f));
    var head := MethodHead(PrintDocs(f.docs), sig);
    var fetch := MethodFetch(MethodUrl(g.names.snake(modIdent), g.names.snake(resource), g.names.lowerCamel(f.id)));
    var tail := MethodTail(fetch, DeserializeResult(g, f));
    MethodHeadHasSignatureThenHandle(PrintDocs(f.docs), sig);
    MethodTailHasFetch(fetch, DeserializeResult(g, f));
    InOrderThree(head, [sig, SerializeHandle], SerializeParams(g, f.params), SerializedParams(g, f.params), tail, [fetch]);
    EndsWithSuffix(head + SerializeParams(g, f.params), tail);
  }
}
