/**
 * `mapBookmarkActionError` (src/features/bookmarks/mappers.ts): turns any
 * thrown or returned value into the message shown to the user. It is total:
 * every JavaScript value has a message, and none makes it throw.
 */
module Mappers {
  import opened Wrappers

  /** The value of an object property as far as the classifier looks at it. */
  datatype Prop = PString(s: string) | PNonString

  /**
   * A JavaScript value of static type `unknown`. Numbers are integers here,
   * with `NaN` apart; `Opaque` stands for symbols, functions and big integers.
   * For objects, `None` means the property is absent.
   */
  datatype JsValue =
    | Undefined
    | Null
    | Bool(b: bool)
    | Number(n: int)
    | NaN
    | Opaque
    | Str(s: string)
    | ErrorInstance(errorMessage: string, errorCode: Option<Prop>)
    | Object(message: Option<Prop>, code: Option<Prop>)

  const Fallback := "Unexpected error. Please try again."
  const NotAuthorized := "Not authorized for this action."
  const AlreadyExists := "Bookmark already exists."

  /** PostgreSQL SQLSTATE insufficient_privilege. */
  const InsufficientPrivilege := "42501"
  /** PostgreSQL SQLSTATE unique_violation. */
  const UniqueViolation := "23505"

  /** The values `!value` holds for. */
  predicate IsFalsy(v: JsValue) {
    v.Undefined? || v.Null? || v == Bool(false) || v == Number(0) || v.NaN? || v == Str("")
  }

  /** `isPostgrestError`: a non-null object whose `message` property is a string. */
  predicate IsPostgrestError(v: JsValue) {
    match v
    case ErrorInstance(_, _) => true
    case Object(message, _) => message.Some? && message.value.PString?
    case _ => false
  }

  /** The message a value carries, where it carries one. */
  function CarriedMessage(v: JsValue): Option<string> {
    match v
    case Str(s) => Some(s)
    case ErrorInstance(m, _) => Some(m)
    case Object(Some(PString(m)), _) => Some(m)
    case _ => None
  }

  function MapBookmarkActionError(v: JsValue): (r: string)
    ensures IsFalsy(v) ==> r == Fallback
    ensures v.Str? && v.s != "" ==> r == v.s
    // an Error is reported by its message before any code is looked at
    ensures v.ErrorInstance? ==> r == v.errorMessage
    ensures v.Object? && IsPostgrestError(v) && v.code == Some(PString(InsufficientPrivilege)) ==> r == NotAuthorized
    ensures v.Object? && IsPostgrestError(v) && v.code == Some(PString(UniqueViolation)) ==> r == AlreadyExists
    ensures (&& v.Object? && IsPostgrestError(v)
             && v.code != Some(PString(InsufficientPrivilege)) && v.code != Some(PString(UniqueViolation)))
            ==> r == v.message.value.s
    // everything else gets the generic message
    ensures !IsFalsy(v) && !v.Str? && !IsPostgrestError(v) ==> r == Fallback
  {
    if IsFalsy(v) then Fallback
    else match v
      case Str(s) => s
      case ErrorInstance(message, _) => message
      case Object(Some(PString(message)), code) =>
        if code == Some(PString(InsufficientPrivilege)) then NotAuthorized
        else if code == Some(PString(UniqueViolation)) then AlreadyExists
        else message
      case _ => Fallback
  }

  /**
   * Every message is either one of the three fixed texts or the message the
   * value itself carries: the classifier never invents text of its own.
   */
  lemma MessageIsFixedOrCarried(v: JsValue)
    ensures var r := MapBookmarkActionError(v);
      r == Fallback || r == NotAuthorized || r == AlreadyExists || CarriedMessage(v) == Some(r)
  {
  }

  /** A fixed text is chosen instead of the carried message only for the two known codes. */
  lemma CodeMappingOnlyForKnownCodes(v: JsValue)
    requires v.Object? && IsPostgrestError(v)
    ensures MapBookmarkActionError(v) != v.message.value.s ==>
              v.code == Some(PString(InsufficientPrivilege)) || v.code == Some(PString(UniqueViolation))
  {
  }

  /** tests/unit/bookmark-mappers.test.ts: a row-level-security failure. */
  lemma RowLevelSecurityIsNotAuthorized()
    ensures MapBookmarkActionError(Object(Some(PString("new row violates row-level security policy")),
                                          Some(PString("42501")))) == "Not authorized for this action."
  {
  }

  /** tests/unit/bookmark-mappers.test.ts: an Error reports its message, even with a known code. */
  lemma ErrorReportsItsMessage()
    ensures MapBookmarkActionError(ErrorInstance("boom", None)) == "boom"
    ensures MapBookmarkActionError(ErrorInstance("boom", Some(PString("23505")))) == "boom"
  {
  }

  /** tests/unit/bookmark-mappers.test.ts: an empty object gets the generic message. */
  lemma EmptyObjectGetsFallback()
    ensures MapBookmarkActionError(Object(None, None)) == "Unexpected error. Please try again."
  {
  }
}
