/**
 * Shared vocabulary of the model: identifiers, optional values, the error
 * taxonomy the controllers answer with, and the string checks that Laravel's
 * validation rules perform.
 */
module Common {

  /** Primary keys are auto-incremented and start at 1, so no real id is 0. */
  type Id = i: int | i >= 1 witness 1

  datatype Option<+T> = None | Some(value: T)

  /**
   * The responses a controller gives instead of doing its work:
   * 404, 403, a validation redirect, 422, and a server error (an exception
   * the code does not catch).
   */
  datatype Error = NotFound | Forbidden | ValidationFailed | Unprocessable | ServerError

  datatype Outcome = Ok | Fail(error: Error)

  datatype Result<+T> = Success(value: T) | Failure(error: Error)

  /** PHP's `(int)` cast of a nullable integer column: NULL becomes 0. */
  function IntOrZero(o: Option<Id>): (r: int)
    ensures r == 0 <==> o.None?
    ensures o.Some? ==> r == o.value
  {
    match o
    case None => 0
    case Some(v) => v
  }

  /** The characters PHP's `trim` removes. */
  predicate IsTrimmed(c: char)
  {
    c == ' ' || c == '\t' || c == '\n' || c == '\r' || c == '\0' || c == '\U{000B}'
  }

  /** Laravel's `required` on a string: something other than trimmable characters. */
  predicate Required(s: string)
  {
    exists i :: 0 <= i < |s| && !IsTrimmed(s[i])
  }

  /** Laravel's `max:n` on a string counts characters. */
  predicate AtMost(s: string, n: nat)
  {
    |s| <= n
  }

  /** `nullable|string|max:n`. */
  predicate OptionalAtMost(o: Option<string>, n: nat)
  {
    o.None? || AtMost(o.value, n)
  }

  /** `required|string|max:n`. */
  predicate RequiredAtMost(s: string, n: nat)
  {
    Required(s) && AtMost(s, n)
  }

  /** `required|string|max:n` on an optional request field. */
  predicate FilledAtMost(o: Option<string>, n: nat)
  {
    o.Some? && RequiredAtMost(o.value, n)
  }

  /**
   * The `email` rule, approximated: a non-empty local part, an `@`, and a
   * non-empty domain without a second `@`.
   */
  predicate IsEmail(s: string)
  {
    exists k :: 0 < k < |s| - 1 && s[k] == '@' && '@' !in s[..k] && '@' !in s[k + 1..]
  }

  /** `needle` occurs in `hay` as a contiguous piece (SQL `LIKE '%needle%'`). */
  predicate ContainsSub(hay: string, needle: string)
  {
    needle <= hay || (hay != [] && ContainsSub(hay[1..], needle))
  }

  /** Lexicographic order on strings by code point, as a database sorts text. */
  predicate StrLe(a: string, b: string)
  {
    if a == [] then true
    else if b == [] then false
    else if a[0] != b[0] then a[0] < b[0]
    else StrLe(a[1..], b[1..])
  }

  lemma {:induction false} StrLeTotal(a: string, b: string)
    ensures StrLe(a, b) || StrLe(b, a)
  {
    if a != [] && b != [] && a[0] == b[0] {
      StrLeTotal(a[1..], b[1..]);
    }
  }

  lemma {:induction false} StrLeTransitive(a: string, b: string, c: string)
    requires StrLe(a, b) && StrLe(b, c)
    ensures StrLe(a, c)
  {
    if a != [] && b != [] && c != [] && a[0] == b[0] && b[0] == c[0] {
      StrLeTransitive(a[1..], b[1..], c[1..]);
    }
  }

  lemma {:induction false} StrLeAntisymmetric(a: string, b: string)
    requires StrLe(a, b) && StrLe(b, a)
    ensures a == b
  {
    if a != [] && b != [] {
      StrLeAntisymmetric(a[1..], b[1..]);
      assert a == [a[0]] + a[1..];
      assert b == [b[0]] + b[1..];
    }
  }
}
