/**
 * Request-field validators (shared/validation.py). Each returns the pair
 * (is_valid, error_message) and runs its checks in the source's order:
 * None, then type, then content.
 */
module Validation {
  import opened Wrappers
  import opened PyStr

  /** A request field as the validators see it: Python `None`, a `str`, or a value of another type. */
  datatype PyValue = PyNone | PyStr(s: string) | PyOther

  /** The `(is_valid, error_message)` tuple. */
  datatype Check = Check(isValid: bool, errorMessage: Option<string>)

  const MaxTitleLength := 500
  const Wishlist := "wishlist"
  const Downloaded := "downloaded"

  /** The titles a movie may be created with: a string whose stripped form has 1 to 500 characters. */
  predicate AcceptableTitle(v: PyValue) {
    v.PyStr? && 1 <= |Strip(v.s)| <= MaxTitleLength
  }

  function ValidateMovieTitle(title: PyValue): (r: Check)
    ensures r.isValid <==> AcceptableTitle(title)
    ensures r.isValid <==> r.errorMessage == None
    ensures title.PyNone? ==> r.errorMessage == Some("Title is required")
    ensures title.PyOther? ==> r.errorMessage == Some("Title must be a string")
    ensures title.PyStr? && AllSpace(title.s) ==> r.errorMessage == Some("Title cannot be empty or whitespace only")
    ensures title.PyStr? && |Strip(title.s)| > MaxTitleLength ==> r.errorMessage == Some("Title cannot exceed 500 characters")
  {
    match title
    case PyNone => Check(false, Some("Title is required"))
    case PyOther => Check(false, Some("Title must be a string"))
    case PyStr(s) =>
      if Strip(s) == [] then Check(false, Some("Title cannot be empty or whitespace only"))
      else if |Strip(s)| > MaxTitleLength then Check(false, Some("Title cannot exceed 500 characters"))
      else Check(true, None)
  }

  /** The length boundary: a title of n non-blank characters is accepted exactly when 1 <= n <= 500. */
  lemma TitleBoundary(n: nat)
    ensures ValidateMovieTitle(PyStr(seq(n, _ => 'x'))).isValid <==> 1 <= n <= MaxTitleLength
  {
    var s := seq(n, _ => 'x');
    if n > 0 {
      StripOfTrimmed(s);
    } else {
      assert AllSpace(s);
    }
  }

  const StatusChoicesMessage := "Status must be one of: wishlist, downloaded"

  function ValidateMovieStatus(status: PyValue): (r: Check)
    ensures r.isValid <==> status == PyStr(Wishlist) || status == PyStr(Downloaded)
    ensures r.isValid <==> r.errorMessage == None
    ensures status.PyNone? ==> r.errorMessage == Some("Status is required")
    ensures status.PyOther? ==> r.errorMessage == Some("Status must be a string")
    ensures status.PyStr? && !r.isValid ==> r.errorMessage == Some(StatusChoicesMessage)
  {
    match status
    case PyNone => Check(false, Some("Status is required"))
    case PyOther => Check(false, Some("Status must be a string"))
    case PyStr(s) =>
      if s != Wishlist && s != Downloaded then Check(false, Some(StatusChoicesMessage))
      else Check(true, None)
  }

  /** The basic UUID shape: not blank, 36 characters, four hyphens. */
  predicate UuidShaped(s: string) {
    !AllSpace(s) && |s| == 36 && Count(s, '-') == 4
  }

  function ValidateUuid(uuid: PyValue, fieldName: string): (r: Check)
    ensures r.isValid <==> uuid.PyStr? && UuidShaped(uuid.s)
    ensures r.isValid <==> r.errorMessage == None
    ensures uuid.PyNone? ==> r.errorMessage == Some(fieldName + " is required")
    ensures uuid.PyOther? ==> r.errorMessage == Some(fieldName + " must be a string")
    ensures uuid.PyStr? && AllSpace(uuid.s) ==> r.errorMessage == Some(fieldName + " cannot be empty")
    ensures uuid.PyStr? && !AllSpace(uuid.s) && !r.isValid ==> r.errorMessage == Some(fieldName + " must be a valid UUID")
  {
    match uuid
    case PyNone => Check(false, Some(fieldName + " is required"))
    case PyOther => Check(false, Some(fieldName + " must be a string"))
    case PyStr(s) =>
      if Strip(s) == [] then Check(false, Some(fieldName + " cannot be empty"))
      else if |s| != 36 || Count(s, '-') != 4 then Check(false, Some(fieldName + " must be a valid UUID"))
      else Check(true, None)
  }
}
