/**
 * Every exception the modelled code throws, one constructor per distinct message.
 * Payloads hold the parts of the message that vary (a token, a call name, a vector name).
 */
module Errors {

  datatype Error =
    // raised by the JavaScript runtime itself (property of undefined, symbol to string, BigInt in JSON)
    | TypeError(what: string)
    // src/stable_stringify.js
    | NonFiniteNumber
    | BigIntNotAllowed
    | IllegalType(typeName: string)
    // dist/lib/canonical_json.js
    | CanonicalNonFinite
    | CanonicalUnsupported
    // src/lower_painless_v1.js: parser
    | ExpectedColon
    | ExpectedRParen
    | ExpectedLParen
    | UnexpectedToken(token: string)
    | UnexpectedTokensAtEnd
    // src/lower_painless_v1.js: emitter
    | CallArity(name: string, min: nat, max: nat, count: nat)
    | UnsupportedCall(name: string)
    // src/policy_v1.js
    | TooDeep
    | IllegalCall(name: string)
    | FieldNotAllowed(name: string)
    | ParamNotAllowed(name: string)
    // src/abi.js
    | PolicyVersion
    | MaxDepthOutOfBounds
    | ProgramFormat
    | MissingProgram
    | BlocksNotArray
    | BlockNotObject
    | BlockOpInvalid
    | BlockArgsInvalid
    // src/verify.js
    | AbiMismatch(expected: string, actual: string)
    | PolicyDeny(op: string)
    | ConformanceFormat
    | VectorsRequired
    | MissingReply(vector: string)
    | ReplyMismatch(vector: string)
    | EmitsMismatch(vector: string)
    | WritesMismatch(vector: string)
    | MissingAbiCompute(vector: string)
    // src/vm.js
    | IdbDisabled
    | ReplyMissingEvent
    | UnsupportedOp(op: string)
    // src/abi_verify_v1.js
    | OutNotObject
    | MissingAst
    | MissingAbi
    | AbiHashMismatch(expected: string)
    | AbiEnvelopeMismatch(expected: string)
    | PolicyHashMismatch(expected: string)
    | SymbolsHashMismatch(expected: string)
    | GoldenNotObject
    | GoldenWrongFormat
    | GoldenMissingVectors
    | GoldenSymbolsMismatch(actual: string)
    | VectorPainlessMismatch(vector: string)
    | VectorHashMismatch(vector: string)
    | VectorEnvelopeMismatch(vector: string)
    // src/kuhul_adapter.js
    | InputNotStringOrObject
    | SourceNotFound
    | UnknownTarget(target: string)
}
