/**
  Audit issues (audit/issues.py): a severity level, a code, a message and
  the keyword arguments given as context.
 */
module Issues {

  datatype Level = WARNING | ERROR

  /** `_IssueLevel.value`. */
  function LevelValue(l: Level): string {
    match l
    case WARNING => "WARNING"
    case ERROR => "ERROR"
  }

  /** The context values the modelled code supplies: a string or a list of strings. */
  datatype ContextValue = Text(text: string) | TextList(items: seq<string>)

  /** The keyword arguments, in the order given (a Python dict keeps insertion order). */
  type Context = seq<(string, ContextValue)>

  datatype AuditIssue = AuditIssue(level: Level, code: string, message: string, context: Context)

  /** `AuditIssue.error(code, message, **context)`. */
  function Error(code: string, message: string, context: Context): (r: AuditIssue)
    ensures r.level == ERROR && LevelValue(r.level) == "ERROR"
    ensures r.code == code && r.message == message && r.context == context
  {
    AuditIssue(ERROR, code, message, context)
  }

  /** `AuditIssue.warning(code, message, **context)`. */
  function Warning(code: string, message: string, context: Context): (r: AuditIssue)
    ensures r.level == WARNING && LevelValue(r.level) == "WARNING"
    ensures r.code == code && r.message == message && r.context == context
  {
    AuditIssue(WARNING, code, message, context)
  }

  /** The two builders differ in the level alone, and each is injective in its arguments. */
  lemma ErrorAndWarningDifferInLevelOnly(code: string, message: string, context: Context)
    ensures Error(code, message, context) != Warning(code, message, context)
    ensures Error(code, message, context).(level := WARNING) == Warning(code, message, context)
    ensures forall c, m, x :: Error(c, m, x) == Error(code, message, context) ==>
      c == code && m == message && x == context
  {
  }
}
