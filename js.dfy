/** Values and operators of the JavaScript runtime that the search endpoints lean on. */
module Js {

  datatype Option<T> = None | Some(value: T) {
    /** The value, or `default` when there is none (`v ?? d`; unlike `||`, "" is kept). */
    function GetOr(default: T): T {
      match this
      case Some(v) => v
      case None => default
    }
  }

  /** Truthiness of an optional string (`undefined` and "" are falsy). */
  predicate Truthy(v: Option<string>) {
    v.Some? && v.value != ""
  }

  /** `v || d` for an optional string `v`. */
  function OrElse(v: Option<string>, d: string): (r: string)
    ensures Truthy(v) ==> r == v.value
    ensures !Truthy(v) ==> r == d
  {
    if Truthy(v) then v.value else d
  }

  /** Map lookup for a JSON object of string values; `None` is a missing key. */
  function Lookup(m: map<string, string>, k: string): Option<string> {
    if k in m then Some(m[k]) else None
  }

  predicate StartsWith(s: string, prefix: string) {
    |prefix| <= |s| && s[..|prefix|] == prefix
  }

  predicate EndsWith(s: string, suffix: string) {
    |suffix| <= |s| && s[|s| - |suffix|..] == suffix
  }

  lemma EndsWithTrans(a: string, b: string, c: string)
    requires EndsWith(a, b) && EndsWith(b, c)
    ensures EndsWith(a, c)
  {
    assert a[|a| - |c|..] == a[|a| - |b|..][|b| - |c|..];
  }

  /** `host.replace(/^www\./, "")`: removes one leading "www.". */
  function StripWww(host: string): (r: string)
    ensures StartsWith(host, "www.") ==> host == "www." + r
    ensures !StartsWith(host, "www.") ==> r == host
  {
    if StartsWith(host, "www.") then host[4..] else host
  }

  /** The characters matched by the regular expression class `\s` and removed by
      `String.prototype.trim`: white space and line terminators. */
  predicate IsSpace(c: char) {
    c == '\t' || c == '\n' || c == '\U{000B}' || c == '\U{000C}' || c == '\r' || c == ' '
    || c == '\U{00A0}' || c == '\U{1680}' || ('\U{2000}' <= c <= '\U{200A}')
    || c == '\U{2028}' || c == '\U{2029}' || c == '\U{202F}' || c == '\U{205F}'
    || c == '\U{3000}' || c == '\U{FEFF}'
  }

  /** The parts of the runtime taken as given: `new URL(s).hostname` (None when the
      constructor throws) and `new Date(s).getTime()` (None when it is NaN). */
  datatype Runtime = Runtime(hostname: string -> Option<string>, parseDate: string -> Option<int>)

  /** What an awaited `fetch` produced: a rejected promise (network failure or an
      abort by the timeout), or a response whose body parsed as JSON or did not. */
  datatype Reply<D> = Rejected | Answered(status: int, data: Option<D>)

  /** `Response.ok`. */
  predicate IsOk(status: int) {
    200 <= status <= 299
  }
}
