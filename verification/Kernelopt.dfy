/** Tokens of the `kernelopt` line: path-like values are lower-cased, `cdromBoot`
    is dropped and `runweasel` is imposed. */
module Kernelopt {
  import opened Text
  import opened Url

  // ---- URL paths --------------------------------------------------------

  function HexValue(c: char): (r: int)
    ensures -1 <= r < 16
  {
    if '0' <= c <= '9' then c as int - '0' as int
    else if 'a' <= c <= 'f' then c as int - 'a' as int + 10
    else if 'A' <= c <= 'F' then c as int - 'A' as int + 10
    else -1
  }

  /** Percent escapes of ASCII characters are decoded; everything else is kept. */
  function Unquote(s: string): string {
    if s == "" then ""
    else if s[0] == '%' && |s| >= 3 && 0 <= HexValue(s[1]) < 8 && 0 <= HexValue(s[2]) then
      [(16 * HexValue(s[1]) + HexValue(s[2])) as char] + Unquote(s[3..])
    else [s[0]] + Unquote(s[1..])
  }

  /** `urlparse` raises on a network location with one bracket but not the other. */
  predicate BadNetloc(netloc: string) { ('[' in netloc) != (']' in netloc) }

  /** The URL with its path unquoted and lower-cased. */
  function LowerUrlPath(url: string): string
    requires IsHttp(url)
  {
    var c := ParseUrl(url);
    var path := Unquote(c.path);
    if BadNetloc(c.netloc) || '/' !in path then url else Unparse(c.(path := Lower(path)))
  }

  /** A relative path with forward slashes, none at either end, all in lower case. */
  function LowerRel(rel: string): string {
    Lower(Trim(IsSlash, Slashed(Strip(rel))))
  }

  function LowerIfPathLike(val: string): string {
    var t := Strip(val);
    if IsHttp(t) then LowerUrlPath(t)
    else if '/' in Slashed(t) && All(NotSpace, Slashed(t)) then LowerRel(Slashed(t))
    else t
  }

  function LowerToken(tok: string): string {
    var t := Strip(tok);
    if IsHttp(t) then LowerIfPathLike(t)
    else if '=' in t then Before(NotEquals, t) + "=" + LowerIfPathLike(After(NotEquals, t))
    else LowerIfPathLike(t)
  }

  // ---- The word cdromBoot ----------------------------------------------

  predicate IsWord(c: char) {
    'a' <= c <= 'z' || 'A' <= c <= 'Z' || '0' <= c <= '9' || c == '_'
  }

  /** `re.sub(r"\bcdromBoot\b", "", s, flags=re.I)`: whole words only. */
  function WithoutCdrom(s: string): string {
    if s == "" then ""
    else if IsWord(s[0]) then
      var n := Span(IsWord, s);
      (if Lower(s[..n]) == "cdromboot" then "" else s[..n]) + WithoutCdrom(s[n..])
    else [s[0]] + WithoutCdrom(s[1..])
  }

  /** Some whole word of s is `cdromBoot`, in any case. */
  predicate MentionsCdrom(s: string) {
    s != "" &&
    if IsWord(s[0]) then
      var n := Span(IsWord, s);
      Lower(s[..n]) == "cdromboot" || MentionsCdrom(s[n..])
    else MentionsCdrom(s[1..])
  }

  // ---- The whole line ---------------------------------------------------

  predicate IsRunweasel(t: string) { Lower(t) == "runweasel" }

  function WithRunweasel(ts: seq<string>): (r: seq<string>)
    ensures AreTokens(ts) ==> AreTokens(r)
  {
    if exists i :: 0 <= i < |ts| && IsRunweasel(ts[i]) then ts else ["runweasel"] + ts
  }

  function LowerTokens(ts: seq<string>): (r: seq<string>)
    ensures |r| == |ts| && forall i :: 0 <= i < |ts| ==> r[i] == LowerToken(ts[i])
  {
    seq(|ts|, i requires 0 <= i < |ts| => LowerToken(ts[i]))
  }

  /** The tokens the network boot line ends up with. */
  function NetworkTokens(kopt: string): (ts: seq<string>)
    ensures AreTokens(ts)
  {
    WithRunweasel(Tokens(Join(" ", LowerTokens(Tokens(WithoutCdrom(kopt))))))
  }

  function Normalize(kopt: string): string { Join(" ", NetworkTokens(kopt)) }
}
