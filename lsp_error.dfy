/** The language server's JSON-RPC response error: its JSON form and the
    error-code table of JSON-RPC 2.0 (section 5.1, "Error object") and of the
    Language Server Protocol 3.17 ("Response Message"). */
module LspError {
  import opened Common

  /** A JSON value; objects are finite maps from keys to values. */
  datatype Json =
    | JNull
    | JBool(b: bool)
    | JNumber(n: int)
    | JString(s: string)
    | JArray(items: seq<Json>)
    | JObject(fields: map<string, Json>)

  /** The `Box<dyn Jsonable>` payload; only what its `to_json` yields is modelled. */
  datatype Payload = Payload(json: Json)

  datatype ResponseError = ResponseError(code: i32, message: string, data: Option<Payload>)

  /** `j` is the object form of `e`: exactly `code`, `message`, and `data`
      when there is a payload, holding those values. */
  predicate IsErrorObject(j: Json, e: ResponseError) {
    && j.JObject?
    && j.fields.Keys == {"code", "message"} + (if e.data.Some? then {"data"} else {})
    && j.fields["code"] == JNumber(e.code as int)
    && j.fields["message"] == JString(e.message)
    && (e.data.Some? ==> j.fields["data"] == e.data.value.json)
  }

  /** `ResponseError::to_json`: starts from an empty object and inserts
      `code`, `message` and, if present, `data`. */
  method ToJson(e: ResponseError) returns (j: Json)
    ensures IsErrorObject(j, e)
    ensures j.JObject? && ("data" in j.fields <==> e.data.Some?)
  {
    var output: map<string, Json> := map[];
    output := output["code" := JNumber(e.code as int)];
    output := output["message" := JString(e.message)];
    if e.data.Some? {
      output := output["data" := e.data.value.json];
    }
    j := JObject(output);
  }

  /** The object form of an error is unique. */
  lemma ErrorObjectIsUnique(j1: Json, j2: Json, e: ResponseError)
    requires IsErrorObject(j1, e) && IsErrorObject(j2, e)
    ensures j1 == j2
  {
    assert j1.fields == j2.fields;
  }

  /** Reading a response error back from JSON, as a client does. */
  function FromJson(j: Json): (r: Option<ResponseError>)
    ensures r.Some? ==> j.JObject? && j.fields.Keys <= {"code", "message", "data"}
  {
    if j.JObject? && j.fields.Keys <= {"code", "message", "data"}
       && "code" in j.fields && j.fields["code"].JNumber?
       && -0x8000_0000 <= j.fields["code"].n < 0x8000_0000
       && "message" in j.fields && j.fields["message"].JString?
    then
      Some(ResponseError(j.fields["code"].n as i32, j.fields["message"].s,
                         if "data" in j.fields then Some(Payload(j.fields["data"])) else None))
    else None
  }

  /** The JSON form of an error reads back as that same error. */
  lemma ErrorObjectRoundTrip(j: Json, e: ResponseError)
    requires IsErrorObject(j, e)
    ensures FromJson(j) == Some(e)
  {
    assert "code" in j.fields && "message" in j.fields;
  }

  // ---------------------------------------------------------------------
  // Error codes.

  // Defined by JSON-RPC.
  const PARSE_ERROR: i32 := -32700
  const INVALID_REQUEST: i32 := -32600
  const METHOD_NOT_FOUND: i32 := -32601
  const INVALID_PARAMS: i32 := -32602
  const INTERNAL_ERROR: i32 := -32603

  const JSONRPC_RESERVED_ERROR_RANGE_START: i32 := -32099
  /** Deprecated alias of JSONRPC_RESERVED_ERROR_RANGE_START. */
  const SERVER_ERROR_START: i32 := JSONRPC_RESERVED_ERROR_RANGE_START
  const SERVER_NOT_INITIALIZED: i32 := -32002
  const UNKNOWN_ERROR_CODE: i32 := -32001
  const JSONRPC_RESERVED_ERROR_RANGE_END: i32 := -32000
  /** Deprecated alias of JSONRPC_RESERVED_ERROR_RANGE_END. */
  const SERVER_ERROR_END: i32 := JSONRPC_RESERVED_ERROR_RANGE_END

  const LSP_RESERVED_ERROR_RANGE_START: i32 := -32899
  const REQUEST_FAILED: i32 := -32803
  const SERVER_CANCELLED: i32 := -32802
  const CONTENT_MODIFIED: i32 := -32801
  const REQUEST_CANCELLED: i32 := -32800
  const LSP_RESERVED_ERROR_RANGE_END: i32 := -32800

  predicate InJsonRpcReservedRange(code: int) {
    JSONRPC_RESERVED_ERROR_RANGE_START as int <= code <= JSONRPC_RESERVED_ERROR_RANGE_END as int
  }

  predicate InLspReservedRange(code: int) {
    LSP_RESERVED_ERROR_RANGE_START as int <= code <= LSP_RESERVED_ERROR_RANGE_END as int
  }

  /** Section 5.1 of JSON-RPC 2.0 reserves -32768 to -32000 for pre-defined errors. */
  predicate InJsonRpcPredefinedRange(code: int) {
    -32768 <= code <= -32000
  }

  /** The two reserved ranges share no code. */
  lemma ReservedRangesAreDisjoint(code: int)
    ensures !(InJsonRpcReservedRange(code) && InLspReservedRange(code))
  {
  }

  /** The five JSON-RPC codes are pre-defined codes of section 5.1 and lie in
      neither reserved range. */
  lemma JsonRpcCodesOutsideReservedRanges()
    ensures forall c :: c in [PARSE_ERROR, INVALID_REQUEST, METHOD_NOT_FOUND, INVALID_PARAMS, INTERNAL_ERROR] ==>
      InJsonRpcPredefinedRange(c as int) && !InJsonRpcReservedRange(c as int) && !InLspReservedRange(c as int)
  {
  }

  /** SERVER_NOT_INITIALIZED and UNKNOWN_ERROR_CODE are kept inside the JSON-RPC reserved range. */
  lemma LegacyCodesInJsonRpcRange()
    ensures InJsonRpcReservedRange(SERVER_NOT_INITIALIZED as int)
    ensures InJsonRpcReservedRange(UNKNOWN_ERROR_CODE as int)
  {
  }

  /** The LSP 3.17 codes lie in the LSP reserved range, hence outside the JSON-RPC one. */
  lemma LspCodesInLspRange()
    ensures forall c :: c in [REQUEST_FAILED, SERVER_CANCELLED, CONTENT_MODIFIED, REQUEST_CANCELLED] ==>
      InLspReservedRange(c as int) && !InJsonRpcReservedRange(c as int)
  {
  }

  /** The deprecated aliases equal their replacements. */
  lemma DeprecatedAliases()
    ensures SERVER_ERROR_START == JSONRPC_RESERVED_ERROR_RANGE_START
    ensures SERVER_ERROR_END == JSONRPC_RESERVED_ERROR_RANGE_END
  {
  }
}
