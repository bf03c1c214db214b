/** The shared records, defaults and error codes of `types/index.ts`. */
module Types {
  import opened Wrappers
  import opened JsonValue

  /** The closed set of validation error codes. */
  datatype ErrorCode =
    | SyntaxError
    | UnexpectedToken
    | UnterminatedString
    | InvalidNumber
    | MissingComma
    | MissingColon
    | UnexpectedCharacter
    | InvalidEscape
    | Json5CommentNotSupported
    | FileTooLarge
    | InvalidFileType

  /** The string value callers switch on. */
  function CodeName(c: ErrorCode): string {
    match c
    case SyntaxError => "SYNTAX_ERROR"
    case UnexpectedToken => "UNEXPECTED_TOKEN"
    case UnterminatedString => "UNTERMINATED_STRING"
    case InvalidNumber => "INVALID_NUMBER"
    case MissingComma => "MISSING_COMMA"
    case MissingColon => "MISSING_COLON"
    case UnexpectedCharacter => "UNEXPECTED_CHARACTER"
    case InvalidEscape => "INVALID_ESCAPE"
    case Json5CommentNotSupported => "JSON5_COMMENT_NOT_SUPPORTED"
    case FileTooLarge => "FILE_TOO_LARGE"
    case InvalidFileType => "INVALID_FILE_TYPE"
  }

  const AllErrorCodes: seq<ErrorCode> := [
    SyntaxError, UnexpectedToken, UnterminatedString, InvalidNumber, MissingComma,
    MissingColon, UnexpectedCharacter, InvalidEscape, Json5CommentNotSupported,
    FileTooLarge, InvalidFileType
  ]

  /** The table has eleven codes, lists every code, and no two codes share a
      string value, so a switch on the string tells them apart. */
  lemma ErrorCodesDistinct()
    ensures |AllErrorCodes| == 11
    ensures forall c :: c in AllErrorCodes
    ensures forall a, b :: CodeName(a) == CodeName(b) ==> a == b
  {
    forall c: ErrorCode
      ensures c in AllErrorCodes
    {
      match c
      case SyntaxError => assert AllErrorCodes[0] == c;
      case UnexpectedToken => assert AllErrorCodes[1] == c;
      case UnterminatedString => assert AllErrorCodes[2] == c;
      case InvalidNumber => assert AllErrorCodes[3] == c;
      case MissingComma => assert AllErrorCodes[4] == c;
      case MissingColon => assert AllErrorCodes[5] == c;
      case UnexpectedCharacter => assert AllErrorCodes[6] == c;
      case InvalidEscape => assert AllErrorCodes[7] == c;
      case Json5CommentNotSupported => assert AllErrorCodes[8] == c;
      case FileTooLarge => assert AllErrorCodes[9] == c;
      case InvalidFileType => assert AllErrorCodes[10] == c;
    }
  }

  datatype ValidationError = ValidationError(
    line: int,
    column: int,
    message: string,
    code: ErrorCode,
    suggestion: Option<string>,
    position: int)

  /** The outcome of a validation; the elapsed-time field is not modelled. */
  datatype ValidationResult = ValidationResult(
    isValid: bool,
    errors: seq<ValidationError>,
    data: Option<Json>)

  type IndentSize = n: int | n == 2 || n == 4 || n == 8 witness 2

  datatype FormattingOptions = FormattingOptions(
    indentSize: IndentSize,
    useTabs: bool,
    json5Mode: bool,
    lineWidth: int)

  const DefaultFormattingOptions := FormattingOptions(2, false, false, 80)

  datatype Statistics = Statistics(
    inputSize: int,
    outputSize: int,
    lineCount: int,
    keyCount: int,
    depthLevel: int,
    processingTime: real,
    compressionRatio: real)

  const DefaultStatistics := Statistics(0, 0, 0, 0, 0, 0.0, 0.0)

  datatype ProcessingState = ProcessingState(
    isProcessing: bool,
    progress: int,
    message: string,
    startTime: Option<real>)

  /** `TreeNode.type`: six tags. */
  datatype NodeType = ObjectNode | ArrayNode | StringNode | NumberNode | BooleanNode | NullNode

  function NodeTypeName(t: NodeType): string {
    match t
    case ObjectNode => "object"
    case ArrayNode => "array"
    case StringNode => "string"
    case NumberNode => "number"
    case BooleanNode => "boolean"
    case NullNode => "null"
  }

  /** `SyntaxToken.type`: eight tags (the scanner never produces `KeyToken`). */
  datatype TokenType =
    | KeyToken | StringToken | NumberToken | BooleanToken
    | NullToken | BracketToken | OperatorToken | WhitespaceToken

  datatype Position = Position(start: int, end: int, line: int, column: int)

  datatype SyntaxToken = SyntaxToken(kind: TokenType, value: string, position: Position)

  datatype Modifier = Ctrl | Alt | Shift | Meta

  datatype KeyboardShortcut = KeyboardShortcut(
    id: string,
    key: string,
    modifiers: seq<Modifier>,
    action: string,
    description: string,
    enabled: bool)

  datatype FileInfo = FileInfo(name: string, size: int, mimeType: string, lastModified: int)
}
