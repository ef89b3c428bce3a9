/**
 * components/ErrorHandler.php: the `code` field of an error response. An
 * exception's own non-zero code is kept; otherwise the code follows from the
 * exception's class (and, for a bad request, from its message).
 */
module ErrorHandler {
  import opened Text
  import opened Decisions

  const Unknown: int := 0
  const NotFound: int := 1
  const InvalidCsrf: int := 2
  const InvalidParams: int := 3
  const InvalidLogin: int := 4
  const ForbiddenCode: int := 5

  /** The framework's message for a failed CSRF check, in the application's language. */
  const CsrfFailure: string := "Не удалось проверить переданные данные"

  /** The exception classes the handler tells apart; the three HTTP ones are unrelated siblings. */
  datatype ExceptionClass = NotFoundHttp | BadRequestHttp | ForbiddenHttp | Other

  datatype Exception = Exception(cls: ExceptionClass, code: int, message: string)

  /** `getCodeByException`. */
  function CodeByException(e: Exception): int
  {
    if e.code != 0 then e.code
    else if e.cls == NotFoundHttp then NotFound
    else if e.cls == BadRequestHttp then (if Contains(e.message, CsrfFailure) then InvalidCsrf else InvalidParams)
    else if e.cls == ForbiddenHttp then ForbiddenCode
    else Unknown
  }

  /** An exception that carries a non-zero code keeps it. */
  lemma NonZeroCodeKept(e: Exception)
    requires e.code != 0
    ensures CodeByException(e) == e.code
  {
  }

  /** The code of an exception without its own code, class by class. */
  lemma CodeByClass(e: Exception)
    requires e.code == 0
    ensures e.cls == NotFoundHttp ==> CodeByException(e) == NotFound
    ensures e.cls == BadRequestHttp ==>
      (CodeByException(e) == InvalidCsrf <==> Contains(e.message, CsrfFailure))
    ensures e.cls == BadRequestHttp ==> CodeByException(e) in {InvalidCsrf, InvalidParams}
    ensures e.cls == ForbiddenHttp ==> CodeByException(e) == ForbiddenCode
    ensures e.cls == Other ==> CodeByException(e) == Unknown
  {
  }

  /** Without its own code an exception is given one of 0, 1, 2, 3 and 5, never the login code 4. */
  lemma ZeroCodeRange(e: Exception)
    requires e.code == 0
    ensures CodeByException(e) in {Unknown, NotFound, InvalidCsrf, InvalidParams, ForbiddenCode}
    ensures CodeByException(e) != InvalidLogin
  {
  }

  /** `sub` occurs in `s` at position `i`: the contiguous-piece test finds it. */
  lemma {:induction false} ContainsAt(s: string, sub: string, i: nat)
    requires i + |sub| <= |s| && s[i..i + |sub|] == sub
    ensures Contains(s, sub)
  {
    if i > 0 {
      assert s[1..][i - 1..i - 1 + |sub|] == s[i..i + |sub|];
      ContainsAt(s[1..], sub, i - 1);
    } else {
      assert s[..|sub|] == sub;
    }
  }

  /** A bad request whose message includes the CSRF failure text, anywhere, gets code 2. */
  lemma CsrfMessageDetected(prefix: string, suffix: string)
    ensures CodeByException(Exception(BadRequestHttp, 0, prefix + CsrfFailure + suffix)) == InvalidCsrf
  {
    var s := prefix + CsrfFailure + suffix;
    assert s[|prefix|..|prefix| + |CsrfFailure|] == CsrfFailure;
    ContainsAt(s, CsrfFailure, |prefix|);
  }

  /** `InvalidParamException`: a bad request carrying code 3. */
  function InvalidParamException(message: string): Exception
  {
    Exception(BadRequestHttp, InvalidParams, message)
  }

  /** `NotFoundException`: a not-found exception carrying code 1. */
  function NotFoundException(message: string): Exception
  {
    Exception(NotFoundHttp, NotFound, message)
  }

  /** The exception a refusing decision is thrown as; a server error has no fixed exception. */
  function ExceptionOf(d: Decision): Exception
    requires d.Forbidden? || d.InvalidParam?
  {
    if d.Forbidden? then Exception(ForbiddenHttp, 0, "")
    else InvalidParamException(d.message)
  }

  /**
   * Refusals get code 5, parameter errors code 3 (even when their message
   * would read as a CSRF failure, because the code is already set), and a
   * missing object code 1.
   */
  lemma DecisionCodes(d: Decision, message: string)
    requires d.Forbidden? || d.InvalidParam?
    ensures d.Forbidden? ==> CodeByException(ExceptionOf(d)) == ForbiddenCode
    ensures d.InvalidParam? ==> CodeByException(ExceptionOf(d)) == InvalidParams
    ensures CodeByException(NotFoundException(message)) == NotFound
  {
  }
}
