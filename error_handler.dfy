/** The user-facing error messages: a constant table of templates keyed by
    exception type, looked up by the exact type of the error with the
    `Exception` entry as fallback, and an `isinstance(error, ValueError)`
    test that decides whether the raw message is shown. */
module ErrorHandler {
  import opened Text
  import opened Errors

  /** The keys of the template table. */
  datatype ErrorType = ValueErrorType | ConnectionErrorType | ExceptionType

  datatype LogLevel = LevelWarning | LevelError

  datatype Template = Template(prefix: string, userMessage: seq<FormatPiece>, logLevel: LogLevel)

  const WarningSign := "\U{26A0}\U{FE0F}"
  const CrossMark := "\U{274C}"
  const ValidationLead := "Validation error: "
  const ConnectionText := "Connection error. Please check if the services are running and try again."
  const UnexpectedText := "An unexpected error occurred. Please try again or contact support if the issue persists."

  /** `ErrorHandler.ERROR_MESSAGES` */
  const ErrorMessages: map<ErrorType, Template> := map[
    ValueErrorType := Template(WarningSign, [Literal(ValidationLead), ErrorField], LevelWarning),
    ConnectionErrorType := Template(CrossMark, [Literal(ConnectionText)], LevelError),
    ExceptionType := Template(CrossMark, [Literal(UnexpectedText)], LevelError)
  ]

  /** `type(error)` as a key of the table, or `None` where the lookup takes
      the `Exception` entry. A subclass of ValueError or ConnectionError is a
      different type and is not a key. `Exception` itself is a key, but its
      entry is also the fallback entry, so `Other`, which stands for
      Exception itself or an unrelated class, need not tell the two apart. */
  function ExactType(e: Error): Option<ErrorType> {
    match e
    case ValueErr(_) => Some(ValueErrorType)
    case ConnErr(_) => Some(ConnectionErrorType)
    case ValueErrSubclass(_) => None
    case ConnErrSubclass(_) => None
    case Other(_) => None
  }

  /** `ERROR_MESSAGES.get(type(error), ERROR_MESSAGES[Exception])` */
  function TemplateFor(e: Error): Template {
    var t := ExactType(e);
    if t.Some? && t.value in ErrorMessages then ErrorMessages[t.value] else ErrorMessages[ExceptionType]
  }

  /** `ErrorHandler.get_error_message` */
  function GetErrorMessage(e: Error, showDetails: bool): string {
    var config := TemplateFor(e);
    if showDetails && e.IsValueError() then config.prefix + " " + e.msg
    else config.prefix + " " + FormatError(config.userMessage, e.msg)
  }

  /** What `ErrorHandler.handle_error` does, as values: the level and text
      of the log record it writes and the message it sends to the user. */
  datatype Handled = Handled(logLevel: LogLevel, logMessage: string, userMessage: string)

  /** `ErrorHandler.handle_error`; the logging and chat calls themselves are
      not modelled, only what they are given. */
  function HandleError(e: Error, context: string, showDetails: bool): Handled {
    var config := TemplateFor(e);
    var logMessage := "Error during " + context + ": " + e.msg;
    var userMessage :=
      if showDetails && e.IsValueError() then config.prefix + " " + e.msg
      else config.prefix + " " + FormatError(config.userMessage, e.msg);
    Handled(config.logLevel, logMessage, userMessage)
  }

  /** Template selection is by exact type: only a ValueError proper gets the
      validation template and only a ConnectionError proper the connection
      template; their subclasses and everything else get the generic one. */
  lemma TemplateByExactType(e: Error)
    ensures TemplateFor(e) == ErrorMessages[ValueErrorType] <==> e.ValueErr?
    ensures TemplateFor(e) == ErrorMessages[ConnectionErrorType] <==> e.ConnErr?
    ensures TemplateFor(e) == ErrorMessages[ExceptionType] <==> !e.ValueErr? && !e.ConnErr?
  {
    assert ErrorMessages[ValueErrorType] != ErrorMessages[ExceptionType];
    assert ErrorMessages[ConnectionErrorType] != ErrorMessages[ExceptionType];
  }

  /** What each template's `user_message` formats to: only the validation
      template has an `{error}` field, so only it carries the error's text. */
  lemma UserMessageText(e: Error, v: string)
    ensures FormatError(TemplateFor(e).userMessage, v) ==
      if e.ValueErr? then ValidationLead + v else if e.ConnErr? then ConnectionText else UnexpectedText
  {
    var lead, conn, other := [Literal(ValidationLead)], [Literal(ConnectionText)], [Literal(UnexpectedText)];
    assert (lead + [ErrorField])[..1] == lead;
    assert lead[..0] == conn[..0] == other[..0] == [];
    assert FormatError(lead, v) == ValidationLead;
    assert FormatError(conn, v) == ConnectionText;
    assert FormatError(other, v) == UnexpectedText;
  }

  /** A plain ValueError always yields the warning prefix followed by its
      message, with the validation label unless details are requested. */
  lemma PlainValueErrorShowsMessage(msg: string, showDetails: bool)
    ensures GetErrorMessage(ValueErr(msg), showDetails) ==
      if showDetails then WarningSign + " " + msg else WarningSign + " " + ValidationLead + msg
  {
    UserMessageText(ValueErr(msg), msg);
    AppendAssoc(WarningSign + " ", ValidationLead, msg);
  }

  /** A ValueError subclass takes the generic prefix but, with details
      requested, still shows its own message. */
  lemma ValueErrorSubclassShowsDetail(msg: string)
    ensures GetErrorMessage(ValueErrSubclass(msg), true) == CrossMark + " " + msg
    ensures GetErrorMessage(ValueErrSubclass(msg), false) == CrossMark + " " + UnexpectedText
  {
    UserMessageText(ValueErrSubclass(msg), msg);
  }

  /** Apart from the ValueError cases, the message is one of two fixed texts
      with the cross-mark prefix, and the error's own text never enters it:
      any other message gives the same result. */
  lemma OtherErrorsGetFixedText(e: Error, showDetails: bool, otherMsg: string)
    requires !e.ValueErr? && !(showDetails && e.ValueErrSubclass?)
    ensures GetErrorMessage(e, showDetails) ==
      CrossMark + " " + (if e.ConnErr? then ConnectionText else UnexpectedText)
    ensures GetErrorMessage(e, showDetails) == GetErrorMessage(e.(msg := otherMsg), showDetails)
  {
    var fixed := if e.ConnErr? then ConnectionText else UnexpectedText;
    assert GetErrorMessage(e, showDetails) == CrossMark + " " + fixed by {
      UserMessageText(e, e.msg);
    }
    assert GetErrorMessage(e.(msg := otherMsg), showDetails) == CrossMark + " " + fixed by {
      UserMessageText(e.(msg := otherMsg), otherMsg);
    }
  }

  /** `handle_error` shows the user the same text `get_error_message`
      returns for the same error and flag, logs the context with the raw
      error text, and logs at warning level exactly for a ValueError proper. */
  lemma HandleErrorAgrees(e: Error, context: string, showDetails: bool)
    ensures HandleError(e, context, showDetails).userMessage == GetErrorMessage(e, showDetails)
    ensures HandleError(e, context, showDetails).logMessage == "Error during " + context + ": " + e.msg
    ensures HandleError(e, context, showDetails).logLevel == LevelWarning <==> e.ValueErr?
  {
    TemplateByExactType(e);
  }
}
