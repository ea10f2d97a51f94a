/** Option, and the few functions of Go's strings package that the agent relies on. */
module Text {

  datatype Option<+T> = None | Some(value: T)

  /** unicode.IsSpace of Go. */
  predicate IsSpace(c: char) {
    || '\t' <= c <= '\r' || c == ' ' || c == '\U{0085}' || c == '\U{00A0}' || c == '\U{1680}'
    || '\U{2000}' <= c <= '\U{200A}' || c == '\U{2028}' || c == '\U{2029}' || c == '\U{202F}'
    || c == '\U{205F}' || c == '\U{3000}'
  }

  function TrimLeft(s: string): string {
    if s != "" && IsSpace(s[0]) then TrimLeft(s[1..]) else s
  }

  function TrimRight(s: string): string {
    if s != "" && IsSpace(s[|s| - 1]) then TrimRight(s[..|s| - 1]) else s
  }

  /** strings.TrimSpace. */
  function TrimSpace(s: string): string {
    TrimRight(TrimLeft(s))
  }

  predicate HasPrefix(s: string, p: string) {
    p <= s
  }

  /** strings.Split on a one-character separator. */
  function Split(s: string, sep: char): (r: seq<string>)
    ensures |r| >= 1
  {
    if s == "" then [""]
    else if s[0] == sep then [""] + Split(s[1..], sep)
    else
      var r := Split(s[1..], sep);
      [[s[0]] + r[0]] + r[1..]
  }

  /** The non-blank, trimmed items of a comma-separated field. */
  function Fields(s: string): seq<string> {
    Trimmed(Split(s, ','))
  }

  function Trimmed(parts: seq<string>): seq<string> {
    if parts == [] then []
    else
      var n := |parts| - 1;
      var f := TrimSpace(parts[n]);
      Trimmed(parts[..n]) + (if |f| == 0 then [] else [f])
  }

  /** The two sides of the first '=', as strings.SplitN(s, "=", 2) gives them. */
  function SplitEq(s: string): Option<(string, string)> {
    if s == "" then None
    else if s[0] == '=' then Some(("", s[1..]))
    else
      var r := SplitEq(s[1..]);
      if r.None? then None else Some(([s[0]] + r.value.0, r.value.1))
  }

  function Digit(n: nat): char
    requires n < 10
  {
    "0123456789"[n]
  }

  /** %d of a natural number. */
  function Decimal(n: nat): string {
    if n < 10 then [Digit(n)] else Decimal(n / 10) + [Digit(n % 10)]
  }
}
