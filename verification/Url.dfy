/** `urlparse`, `unquote` and `urlunparse` as the ESXi rewriters use them: on
    whitespace-free `http` and `https` URLs whose path is lower-cased. */
module Url {
  import opened Text

  predicate StartsWith(s: string, head: string) { |head| <= |s| && s[..|head|] == head }

  predicate IsHttp(t: string) {
    StartsWith(Lower(t), "http://") || StartsWith(Lower(t), "https://")
  }

  predicate NotNetEnd(c: char) { c != '/' && c != '?' && c != '#' }

  predicate NotSlash(c: char) { c != '/' }

  predicate NotHash(c: char) { c != '#' }

  predicate NotQuestion(c: char) { c != '?' }

  predicate NotSemicolon(c: char) { c != ';' }

  predicate NotPercent(c: char) { c != '%' }

  /** The six components `urlparse` returns. */
  datatype Parts = Parts(
    scheme: string, netloc: string, path: string, params: string, query: string, fragment: string)

  /** What follows the first character that fails p, or nothing. */
  function After(p: char -> bool, s: string): string {
    if Span(p, s) < |s| then s[Span(p, s) + 1..] else ""
  }

  function Before(p: char -> bool, s: string): string { s[..Span(p, s)] }

  function SchemeOf(u: string): string
    requires IsHttp(u)
  {
    if StartsWith(Lower(u), "http://") then "http" else "https"
  }

  /** Where the last path segment starts. */
  function LastSegment(s: string): nat { Kept(NotSlash, s) }

  /** The target up to the first semicolon of its last segment. */
  function PathOf(target: string): string {
    target[..LastSegment(target)] + Before(NotSemicolon, target[LastSegment(target)..])
  }

  function ParamsOf(target: string): string {
    After(NotSemicolon, target[LastSegment(target)..])
  }

  /** Everything after the network location. */
  function TailOf(rest: string): string { rest[Span(NotNetEnd, rest)..] }

  function ParseTail(scheme: string, netloc: string, tail: string): Parts {
    var body := Before(NotHash, tail);
    var target := Before(NotQuestion, body);
    Parts(scheme, netloc, PathOf(target), ParamsOf(target),
          After(NotQuestion, body), After(NotHash, tail))
  }

  function ParseUrl(u: string): Parts
    requires IsHttp(u)
  {
    var rest := u[|SchemeOf(u)| + 3..];
    ParseTail(SchemeOf(u), Before(NotNetEnd, rest), TailOf(rest))
  }

  function Tagged(mark: string, s: string): string { if s == "" then "" else mark + s }

  function UnparseTail(c: Parts): string {
    c.path + Tagged(";", c.params) + Tagged("?", c.query) + Tagged("#", c.fragment)
  }

  function Unparse(c: Parts): string { c.scheme + "://" + (c.netloc + UnparseTail(c)) }

  /** Components that can have come out of `urlparse`. */
  predicate WellFormed(c: Parts) {
    && (c.scheme == "http" || c.scheme == "https")
    && All(NotNetEnd, c.netloc)
    && (c.path != "" ==> c.path[0] == '/')
    && (c.path == "" ==> c.params == "")
    && All(NotHash, c.path) && All(NotQuestion, c.path)
    && All(NotSemicolon, c.path[LastSegment(c.path)..])
    && All(NotNetEnd, c.params)
    && All(NotHash, c.query)
  }

  lemma CutAt(p: char -> bool, a: string, b: string)
    requires All(p, a) && (b != "" ==> !p(b[0]))
    ensures Before(p, a + b) == a
    ensures After(p, a + b) == if b == "" then "" else b[1..]
    ensures (a + b)[Span(p, a + b)..] == b
  {
    hide All;
    SpanOf(p, a, b);
    assert (a + b)[..|a|] == a && (a + b)[|a|..] == b;
    if b != "" { assert (a + b)[|a| + 1..] == b[1..]; }
  }

  lemma SchemeHead(scheme: string, rest: string)
    requires scheme == "http" || scheme == "https"
    ensures IsHttp(scheme + "://" + rest) && SchemeOf(scheme + "://" + rest) == scheme
  {
    var u := scheme + "://" + rest;
    assert Lower(u)[..|scheme| + 3] == scheme + "://";
    assert scheme == "https" ==> Lower(u)[4] == 's';
  }

  /** Appending slash-free text does not move the start of the last segment. */
  lemma LastSegmentOf(path: string, more: string)
    requires All(NotSlash, more)
    ensures LastSegment(path + more) == LastSegment(path)
  {
    hide All;
    var n := LastSegment(path);
    assert path + more == path[..n] + (path[n..] + more);
    AllConcat(NotSlash, path[n..], more);
    KeptOf(NotSlash, path[..n], path[n..] + more);
  }

  lemma TaggedNoSlash(params: string)
    requires All(NotNetEnd, params)
    ensures All(NotSlash, Tagged(";", params))
  {
    assert forall i :: 0 <= i < |params| ==> NotNetEnd(params[i]);
  }

  lemma TargetRoundTrip(path: string, params: string)
    requires All(NotSemicolon, path[LastSegment(path)..]) && All(NotNetEnd, params)
    ensures PathOf(path + Tagged(";", params)) == path
    ensures ParamsOf(path + Tagged(";", params)) == params
  {
    var last := LastSegment(path);
    hide All, Kept, Before, After;
    var more := Tagged(";", params);
    TaggedNoSlash(params);
    LastSegmentOf(path, more);
    AppendAt(path, more, last);
    CutAt(NotSemicolon, path[last..], more);
    Parted(path, last);
  }

  lemma AppendAt(path: string, more: string, n: nat)
    requires n <= |path|
    ensures (path + more)[n..] == path[n..] + more && (path + more)[..n] == path[..n]
  {
  }

  lemma TailRoundTrip(c: Parts)
    requires WellFormed(c)
    ensures ParseTail(c.scheme, c.netloc, UnparseTail(c)) == c
  {
    var target := c.path + Tagged(";", c.params);
    assert All(NotHash, target) && All(NotQuestion, target) by {
      assert forall i :: 0 <= i < |c.params| ==> NotNetEnd(c.params[i]);
    }
    hide All, PathOf, ParamsOf;
    CutAt(NotHash, target + Tagged("?", c.query), Tagged("#", c.fragment));
    CutAt(NotQuestion, target, Tagged("?", c.query));
    TargetRoundTrip(c.path, c.params);
  }

  lemma ParseUnparse(c: Parts)
    requires WellFormed(c)
    ensures IsHttp(Unparse(c)) && ParseUrl(Unparse(c)) == c
  {
    hide All, IsHttp;
    var tail := UnparseTail(c);
    SchemeHead(c.scheme, c.netloc + tail);
    assert Unparse(c)[|c.scheme| + 3..] == c.netloc + tail;
    assert tail != "" ==> !NotNetEnd(tail[0]);
    CutAt(NotNetEnd, c.netloc, tail);
    TailRoundTrip(c);
  }

  /** Where the path of a target ends. */
  function PathEnd(target: string): (n: nat)
    ensures LastSegment(target) <= n <= |target|
    ensures PathOf(target) == target[..n]
  {
    LastSegment(target) + Span(NotSemicolon, target[LastSegment(target)..])
  }

  lemma LastSegmentOfPath(target: string)
    ensures LastSegment(PathOf(target)) == LastSegment(target)
  {
    var last := LastSegment(target);
    var segment := target[last..];
    var n := Span(NotSemicolon, segment);
    assert segment == segment[..n] + segment[n..];
    AllConcat(NotSlash, segment[..n], segment[n..]);
    hide All;
    KeptOf(NotSlash, target[..last], segment[..n]);
  }

  lemma ParamsNoDelimiter(target: string)
    requires All(NotHash, target) && All(NotQuestion, target)
    ensures All(NotNetEnd, ParamsOf(target))
  {
    var last := LastSegment(target);
    var params := ParamsOf(target);
    forall i | 0 <= i < |params| ensures NotNetEnd(params[i]) {
      var j := last + Span(NotSemicolon, target[last..]) + 1 + i;
      assert params[i] == target[last..][j - last] == target[j];
      assert NotHash(target[j]) && NotQuestion(target[j]);
    }
  }

  lemma TargetWellFormed(target: string)
    requires All(NotHash, target) && All(NotQuestion, target)
    requires target != "" ==> target[0] == '/'
    ensures
      var path, params := PathOf(target), ParamsOf(target);
      && (path != "" ==> path[0] == '/')
      && (path == "" ==> params == "")
      && All(NotHash, path) && All(NotQuestion, path)
      && All(NotSemicolon, path[LastSegment(path)..])
      && All(NotNetEnd, params)
  {
    var last := LastSegment(target);
    if target != "" {
      assert !All(NotSlash, target) by { assert !NotSlash(target[0]); }
      assert target[0..] == target;
    }
    var n := PathEnd(target);
    assert All(NotHash, target[..n]) && All(NotQuestion, target[..n]) by {
      AllConcat(NotHash, target[..n], target[n..]);
      AllConcat(NotQuestion, target[..n], target[n..]);
      assert target[..n] + target[n..] == target;
    }
    ParamsNoDelimiter(target);
    LastSegmentOfPath(target);
    assert target[..n][last..] == Before(NotSemicolon, target[last..]);
  }

  lemma ParseWellFormed(u: string)
    requires IsHttp(u)
    ensures WellFormed(ParseUrl(u))
  {
    var rest := u[|SchemeOf(u)| + 3..];
    var tail := TailOf(rest);
    var body := Before(NotHash, tail);
    var target := Before(NotQuestion, body);
    assert All(NotHash, target) by {
      forall i | 0 <= i < |target| ensures NotHash(target[i]) { assert target[i] == body[i]; }
    }
    if target != "" {
      assert NotHash(target[0]) && NotQuestion(target[0]);
      assert target[0] == tail[0];
    }
    TargetWellFormed(target);
    var q := Span(NotQuestion, body);
    if q < |body| {
      forall i | 0 <= i < |After(NotQuestion, body)|
        ensures NotHash(After(NotQuestion, body)[i])
      {
        assert NotHash(body[q + 1 + i]);
      }
    }
  }
}
