/**
 * The errors the profile-setup screens receive and the user-facing texts they turn them into.
 *
 * Both profile-setup reactors declare the same eight user-facing cases (under the names
 * `ProfileSetupFacingError` and `ProfileSetupFacingMessage`) with the same texts, map data
 * and server errors to them in the same way, and differ only in which of the two facing
 * types they let through unchanged.
 */
module Errors {
  import opened Options

  /** `ServerError`: an HTTP failure status, or an error response that may carry its own message. */
  datatype ServerError = HttpRespon(statusCode: int) | ErrRespon(message: Option<string>)

  /** The error wrapped by `resolvedNetworkFailure`: a `ServerError`, or any other error. */
  datatype ResolvedCause = FromServer(error: ServerError) | OtherCause

  /** `DataTransferError` (the payloads of `parsing` and `networkFailure` are never looked at). */
  datatype DataTransferError = Parsing | NoResponse | NetworkFailure | ResolvedNetworkFailure(cause: ResolvedCause)

  /** The user-facing cases; `ServerFault` is the Swift case `serverError`, `Unknown` is `unknownError(err:)`. */
  datatype FacingError =
    | NoTokenError
    | CompletedError
    | NetworkError
    | ServerFault
    | FacingErrRespon(message: Option<string>)
    | ParsingError
    | Unknown
    | RetryEnter

  /** Which reactor handles the error, and therefore which facing type it passes through. */
  datatype Screen = LoginScreen | FormScreen

  /**
   * Any error a use case can fail with, as `handleError` tells them apart: a data-transfer
   * error, a `TokenError`, one of the two facing types, or anything else.
   */
  datatype AppError =
    | DataTransfer(dataError: DataTransferError)
    | Token
    | LoginFacing(loginFacing: FacingError)
    | FormFacing(formFacing: FacingError)
    | Other

  const NoTokenText: string := "Apple ID 정보를 확인하고\n다시 시도해 주세요"
  const CompletedText: string := "중복 확인에 실패했습니다.\n잠시 후 다시 시도해 주세요."
  const UnknownText: string := "알 수 없는 오류가 발생했습니다.\n잠시 후 다시 시도해 주세요."
  const NetworkText: string := "네트워크 연결을 확인해주세요."
  const ServerText: string := "서버에 문제가 발생했습니다.\n잠시 후 다시 시도해 주세요."
  const ParsingText: string := "데이터에 문제가 발생했습니다.\n앱을 최신 버전으로 업데이트해 주세요."
  const RetryEnterText: string := "입력 정보를 확인해주세요."
  const RequestFailedText: string := "요청에 실패했습니다.\n잠시 후 다시 시도해 주세요."

  /** The texts the app itself supplies. */
  const FixedTexts: set<string> :=
    {NoTokenText, CompletedText, UnknownText, NetworkText, ServerText, ParsingText, RetryEnterText, RequestFailedText}

  /** `info`: the text shown for a facing error; an error response shows its own message when it has one. */
  function Info(f: FacingError): (text: string)
    ensures f.FacingErrRespon? && f.message.Some? ==> text == f.message.value
    ensures !(f.FacingErrRespon? && f.message.Some?) ==> text in FixedTexts
  {
    match f
    case NoTokenError => NoTokenText
    case CompletedError => CompletedText
    case Unknown => UnknownText
    case NetworkError => NetworkText
    case ServerFault => ServerText
    case ParsingError => ParsingText
    case RetryEnter => RetryEnterText
    case FacingErrRespon(message) => message.GetOr(RequestFailedText)
  }

  /** `mapServerErrorToFacingError`. */
  function MapServerError(e: ServerError): (f: FacingError)
    ensures f == ServerFault <==> e.HttpRespon?
    ensures e.ErrRespon? <==> f.FacingErrRespon?
    ensures e.ErrRespon? ==> f.message == e.message
  {
    match e
    case HttpRespon(_) => ServerFault
    case ErrRespon(message) => FacingErrRespon(message)
  }

  /** `mapDataErrorToFacingError`. */
  function MapDataError(e: DataTransferError): (f: FacingError)
    ensures e == Parsing <==> f == ParsingError
    ensures e == NoResponse <==> f == CompletedError
    ensures e == NetworkFailure <==> f == NetworkError
    ensures e == ResolvedNetworkFailure(OtherCause) <==> f == Unknown
    ensures e.ResolvedNetworkFailure? && e.cause.FromServer? <==> f == ServerFault || f.FacingErrRespon?
    ensures f != NoTokenError && f != RetryEnter
  {
    match e
    case Parsing => ParsingError
    case NoResponse => CompletedError
    case NetworkFailure => NetworkError
    case ResolvedNetworkFailure(cause) =>
      match cause
      case FromServer(error) => MapServerError(error)
      case OtherCause => Unknown
  }

  /** `handleError`'s message: the mapped text for data and token errors, the own facing type's text, else the unknown text. */
  function ErrorMessage(err: AppError, screen: Screen): (text: string)
    ensures err.DataTransfer? ==> text == Info(MapDataError(err.dataError))
    ensures err.Token? ==> text == NoTokenText
    ensures err.LoginFacing? ==> text == if screen == LoginScreen then Info(err.loginFacing) else UnknownText
    ensures err.FormFacing? ==> text == if screen == FormScreen then Info(err.formFacing) else UnknownText
    ensures err.Other? ==> text == UnknownText
  {
    match err
    case DataTransfer(e) => Info(MapDataError(e))
    case Token => Info(NoTokenError)
    case LoginFacing(f) => if screen == LoginScreen then Info(f) else Info(Unknown)
    case FormFacing(f) => if screen == FormScreen then Info(f) else Info(Unknown)
    case Other => Info(Unknown)
  }

  /** An error response from the server that carries a message, wrapped as the data layer delivers it. */
  predicate CarriesServerMessage(err: AppError, m: string) {
    err == DataTransfer(ResolvedNetworkFailure(FromServer(ErrRespon(Some(m)))))
  }

  /**
   * Every failure reaching the data layer is shown with one of the app's own texts, except an
   * error response that carries a message, which is shown verbatim; and the two reactors show
   * the same text for every data error.
   */
  lemma {:induction false} DataErrorsShowAppTextOrServerMessage(e: DataTransferError, screen: Screen)
    ensures var text := ErrorMessage(DataTransfer(e), screen);
      && (text in FixedTexts || CarriesServerMessage(DataTransfer(e), text))
      && (forall m :: CarriesServerMessage(DataTransfer(e), m) ==> text == m)
      && text == ErrorMessage(DataTransfer(e), if screen == LoginScreen then FormScreen else LoginScreen)
  {
    var f := MapDataError(e);
    if f.FacingErrRespon? && f.message.Some? {
      assert e == ResolvedNetworkFailure(FromServer(ErrRespon(f.message)));
    }
  }
}
