/**
 * The application's fixed error table (ErrorCode.java) and the result types that
 * every service operation of the model returns instead of throwing AppException.
 */
module ErrorCodes {

  /** One constructor per enum constant, in declaration order. */
  datatype ErrorCode =
    // Common
    | USER_INPUT_EXCEPTION
    | USER_ROLE_EXCEPTION
    | AUTHENTICATION_EXCEPTION
    | JWT_AUTH_EXCEPTION
    | TOKEN_BLACKLISTED_EXCEPTION
    | REFRESH_TOKEN_NOT_FOUND_EXCEPTION
    | REFRESH_TOKEN_MISMATCH_EXCEPTION
    | USER_NOT_AUTHENTICATED_EXCEPTION
    | INVALID_PRINCIPAL_TYPE_EXCEPTION
    | INVALID_USER_TYPE_EXCEPTION
    | INVALID_TOKEN_TYPE
    | MALFORMED_TOKEN_EXCEPTION
    // Server
    | INTERNAL_SERVER_ERROR
    | S3_SERVER_ERROR
    // User
    | USER_EMAIL_DUPLICATED_EXCEPTION
    | USER_NOT_FOUND_EXCEPTION
    | USER_PASSWORD_MISMATCH_EXCEPTION
    // Resources
    | NOT_FOUND_EXCEPTION
    | BAD_REQUEST_EXCEPTION

  /** The HTTP status codes the table uses (Spring's HttpStatus values). */
  const BAD_REQUEST: nat := 400
  const UNAUTHORIZED: nat := 401
  const FORBIDDEN: nat := 403
  const NOT_FOUND: nat := 404
  const CONFLICT: nat := 409
  const INTERNAL: nat := 500

  /** The HTTP status an error is answered with. */
  function Status(e: ErrorCode): (s: nat)
    ensures 400 <= s <= 500
    ensures s == 500 <==> e == INTERNAL_SERVER_ERROR || e == S3_SERVER_ERROR
  {
    match e
    case USER_INPUT_EXCEPTION => BAD_REQUEST
    case USER_ROLE_EXCEPTION => FORBIDDEN
    case AUTHENTICATION_EXCEPTION => UNAUTHORIZED
    case JWT_AUTH_EXCEPTION => UNAUTHORIZED
    case TOKEN_BLACKLISTED_EXCEPTION => BAD_REQUEST
    case REFRESH_TOKEN_NOT_FOUND_EXCEPTION => NOT_FOUND
    case REFRESH_TOKEN_MISMATCH_EXCEPTION => UNAUTHORIZED
    case USER_NOT_AUTHENTICATED_EXCEPTION => UNAUTHORIZED
    case INVALID_PRINCIPAL_TYPE_EXCEPTION => UNAUTHORIZED
    case INVALID_USER_TYPE_EXCEPTION => UNAUTHORIZED
    case INVALID_TOKEN_TYPE => UNAUTHORIZED
    case MALFORMED_TOKEN_EXCEPTION => UNAUTHORIZED
    case INTERNAL_SERVER_ERROR => INTERNAL
    case S3_SERVER_ERROR => INTERNAL
    case USER_EMAIL_DUPLICATED_EXCEPTION => CONFLICT
    case USER_NOT_FOUND_EXCEPTION => NOT_FOUND
    case USER_PASSWORD_MISMATCH_EXCEPTION => UNAUTHORIZED
    case NOT_FOUND_EXCEPTION => NOT_FOUND
    case BAD_REQUEST_EXCEPTION => BAD_REQUEST
  }

  /** The stable machine-readable code sent to clients. */
  function Code(e: ErrorCode): (c: string)
    ensures |c| == 5 && c[1] == '-'
  {
    match e
    case USER_INPUT_EXCEPTION => "C-001"
    case USER_ROLE_EXCEPTION => "C-002"
    case AUTHENTICATION_EXCEPTION => "C-003"
    case JWT_AUTH_EXCEPTION => "C-004"
    case TOKEN_BLACKLISTED_EXCEPTION => "C-005"
    case REFRESH_TOKEN_NOT_FOUND_EXCEPTION => "C-006"
    case REFRESH_TOKEN_MISMATCH_EXCEPTION => "C-007"
    case USER_NOT_AUTHENTICATED_EXCEPTION => "C-008"
    case INVALID_PRINCIPAL_TYPE_EXCEPTION => "C-009"
    case INVALID_USER_TYPE_EXCEPTION => "C-010"
    case INVALID_TOKEN_TYPE => "C-011"
    case MALFORMED_TOKEN_EXCEPTION => "C-012"
    case INTERNAL_SERVER_ERROR => "S-001"
    case S3_SERVER_ERROR => "S-002"
    case USER_EMAIL_DUPLICATED_EXCEPTION => "U-001"
    case USER_NOT_FOUND_EXCEPTION => "U-002"
    case USER_PASSWORD_MISMATCH_EXCEPTION => "U-003"
    case NOT_FOUND_EXCEPTION => "N-000"
    case BAD_REQUEST_EXCEPTION => "N-001"
  }

  /** The human-readable message. */
  function Message(e: ErrorCode): string
  {
    match e
    case USER_INPUT_EXCEPTION => "User input error"
    case USER_ROLE_EXCEPTION => "User permission error"
    case AUTHENTICATION_EXCEPTION => "Common authentication error (filter)"
    case JWT_AUTH_EXCEPTION => "JWT authentication error"
    case TOKEN_BLACKLISTED_EXCEPTION => "Token is blacklisted."
    case REFRESH_TOKEN_NOT_FOUND_EXCEPTION => "No refresh token found for this user."
    case REFRESH_TOKEN_MISMATCH_EXCEPTION => "Refresh token does not match."
    case USER_NOT_AUTHENTICATED_EXCEPTION => "User is not authenticated."
    case INVALID_PRINCIPAL_TYPE_EXCEPTION => "Invalid principal type."
    case INVALID_USER_TYPE_EXCEPTION => "Invalid user type."
    case INVALID_TOKEN_TYPE => "Invalid token type."
    case MALFORMED_TOKEN_EXCEPTION => "Malformed token format."
    case INTERNAL_SERVER_ERROR => "Internal server error occurred."
    case S3_SERVER_ERROR => "S3 server error occurred."
    case USER_EMAIL_DUPLICATED_EXCEPTION => "이미 사용중인 이메일입니다."
    case USER_NOT_FOUND_EXCEPTION => "해당 유저를 찾을 수 없습니다."
    case USER_PASSWORD_MISMATCH_EXCEPTION => "비밀번호가 일치하지 않습니다."
    case NOT_FOUND_EXCEPTION => "해당 리소스를 찾을 수 없습니다."
    case BAD_REQUEST_EXCEPTION => "잘못된 요청입니다."
  }

  /** Reads an error back from its code; the inverse of Code. */
  function FromCode(c: string): (r: Option<ErrorCode>)
    ensures r.Some? ==> Code(r.value) == c
  {
    if |c| != 5 || c[1] != '-' || c[2] != '0' then None
    else
      var n := [c[3], c[4]];
      match c[0]
      case 'C' =>
        if n == "01" then Some(USER_INPUT_EXCEPTION)
        else if n == "02" then Some(USER_ROLE_EXCEPTION)
        else if n == "03" then Some(AUTHENTICATION_EXCEPTION)
        else if n == "04" then Some(JWT_AUTH_EXCEPTION)
        else if n == "05" then Some(TOKEN_BLACKLISTED_EXCEPTION)
        else if n == "06" then Some(REFRESH_TOKEN_NOT_FOUND_EXCEPTION)
        else if n == "07" then Some(REFRESH_TOKEN_MISMATCH_EXCEPTION)
        else if n == "08" then Some(USER_NOT_AUTHENTICATED_EXCEPTION)
        else if n == "09" then Some(INVALID_PRINCIPAL_TYPE_EXCEPTION)
        else if n == "10" then Some(INVALID_USER_TYPE_EXCEPTION)
        else if n == "11" then Some(INVALID_TOKEN_TYPE)
        else if n == "12" then Some(MALFORMED_TOKEN_EXCEPTION)
        else None
      case 'S' =>
        if n == "01" then Some(INTERNAL_SERVER_ERROR)
        else if n == "02" then Some(S3_SERVER_ERROR)
        else None
      case 'U' =>
        if n == "01" then Some(USER_EMAIL_DUPLICATED_EXCEPTION)
        else if n == "02" then Some(USER_NOT_FOUND_EXCEPTION)
        else if n == "03" then Some(USER_PASSWORD_MISMATCH_EXCEPTION)
        else None
      case 'N' =>
        if n == "00" then Some(NOT_FOUND_EXCEPTION)
        else if n == "01" then Some(BAD_REQUEST_EXCEPTION)
        else None
      case _ => None
  }

  /** Reading a code back gives the error it came from. */
  lemma CodeRoundTrip(e: ErrorCode)
    ensures FromCode(Code(e)) == Some(e)
  {
  }

  /** No two constants share a code string. */
  lemma CodesDistinct(a: ErrorCode, b: ErrorCode)
    ensures Code(a) == Code(b) ==> a == b
  {
    CodeRoundTrip(a);
    CodeRoundTrip(b);
  }

  /** The resource errors the quiz service raises. */
  lemma ResourceErrors()
    ensures Status(NOT_FOUND_EXCEPTION) == 404 && Code(NOT_FOUND_EXCEPTION) == "N-000"
    ensures Status(BAD_REQUEST_EXCEPTION) == 400 && Code(BAD_REQUEST_EXCEPTION) == "N-001"
  {
  }

  /** Every token failure the filter raises is answered with 401. */
  lemma TokenErrorsAreUnauthorized()
    ensures Status(JWT_AUTH_EXCEPTION) == 401
    ensures Status(INVALID_TOKEN_TYPE) == 401
    ensures Status(MALFORMED_TOKEN_EXCEPTION) == 401
  {
  }

  /** The account errors. */
  lemma UserErrors()
    ensures Status(USER_EMAIL_DUPLICATED_EXCEPTION) == 409 && Code(USER_EMAIL_DUPLICATED_EXCEPTION) == "U-001"
    ensures Status(USER_NOT_FOUND_EXCEPTION) == 404 && Code(USER_NOT_FOUND_EXCEPTION) == "U-002"
    ensures Status(USER_PASSWORD_MISMATCH_EXCEPTION) == 401 && Code(USER_PASSWORD_MISMATCH_EXCEPTION) == "U-003"
  {
  }

  datatype Option<+T> = None | Some(value: T)

  /** What a service method that returns a value yields: the value, or the AppException's code. */
  datatype Result<+T> = Ok(value: T) | Err(error: ErrorCode)

  /** What a void service method yields: normal completion, or the AppException's code. */
  datatype Outcome = Pass | Fail(error: ErrorCode)
}
