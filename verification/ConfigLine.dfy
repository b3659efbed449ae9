/** One `key=value` line, recognised the two ways the source does it: by cutting at the
    first equals sign, and by an anchored pattern for a known key. */
module ConfigLine {
  import opened Text
  import opened Url

  /** What `line.partition("=")` calls the key, stripped and lower-cased. */
  function KeyOf(line: string): string { Lower(Strip(Before(NotEquals, line))) }

  function ValueOf(line: string): string { Strip(After(NotEquals, line)) }

  predicate IsComment(line: string) { line != "" && line[0] == '#' }

  /** The pattern `^name\s*=`, ignoring case. */
  predicate Matches(name: string, line: string) {
    && StartsWith(Lower(line), name)
    && var rest := TrimLeft(IsSpace, line[|name|..]);
       rest != "" && rest[0] == '='
  }

  /** The pattern `^\s*name\s*=`, ignoring case. */
  predicate MatchesIndented(name: string, line: string) {
    Matches(name, TrimLeft(IsSpace, line))
  }

  /** A key the source looks for: lower case, no space and no equals sign. */
  predicate IsName(name: string) {
    name != "" && forall i :: 0 <= i < |name| ==>
      name[i] != '=' && !IsSpace(name[i]) && !('A' <= name[i] <= 'Z')
  }

  predicate LeftTrimmed(line: string) { line != "" ==> !IsSpace(line[0]) }

  lemma LowerPrefix(s: string, n: nat)
    requires n <= |s|
    ensures Lower(s[..n]) == Lower(s)[..n]
  {
  }

  /** The parts of a line the pattern matches. */
  lemma MatchesParts(name: string, line: string) returns (word: string, gap: string, rest: string)
    requires IsName(name) && Matches(name, line)
    ensures line == word + gap + "=" + rest && Lower(word) == name && All(IsSpace, gap)
  {
    hide Lower, IsName, IsSpace, All, Span;
    LowerPrefix(line, |name|);
    word := line[..|name|];
    gap, rest := GapParts(line[|name|..]);
    Parted(line, |name|);
    FourParts(word, gap, rest);
  }

  lemma GapParts(tail: string) returns (gap: string, rest: string)
    requires TrimLeft(IsSpace, tail) != "" && TrimLeft(IsSpace, tail)[0] == '='
    ensures tail == gap + ("=" + rest) && All(IsSpace, gap)
  {
    var n := Span(IsSpace, tail);
    hide All, IsSpace;
    gap, rest := tail[..n], tail[n + 1..];
    assert tail[n] == '=';
    Parted(tail, n);
    assert tail[n..] == "=" + rest;
  }

  lemma FourParts(word: string, gap: string, rest: string)
    ensures word + (gap + ("=" + rest)) == word + gap + "=" + rest
  {
  }

  lemma NameChars(word: string, name: string)
    requires IsName(name) && Lower(word) == name
    ensures All(NotEquals, word) && All(NotSpace, word) && Trimmed(word)
  {
    assert forall i :: 0 <= i < |word| ==> Lower(word)[i] == name[i];
  }

  lemma SpacesNotEquals(gap: string)
    requires All(IsSpace, gap)
    ensures All(NotEquals, gap)
  {
    assert forall i :: 0 <= i < |gap| ==> IsSpace(gap[i]);
  }

  lemma EqualsIn(head: string, rest: string)
    ensures '=' in head + ("=" + rest)
  {
    assert (head + ("=" + rest))[|head|] == '=';
  }

  /** Reading a line cut at its first equals sign. */
  lemma ReadCut(head: string, rest: string)
    requires All(NotEquals, head)
    ensures KeyOf(head + ("=" + rest)) == Lower(Strip(head))
    ensures ValueOf(head + ("=" + rest)) == Strip(rest)
  {
    hide All, Strip, Lower;
    CutAt(NotEquals, head, "=" + rest);
    assert ("=" + rest)[1..] == rest;
  }

  lemma KeyFromParts(name: string, word: string, gap: string, rest: string)
    requires IsName(name) && Lower(word) == name && All(IsSpace, gap)
    ensures KeyOf(word + gap + "=" + rest) == name
    ensures ValueOf(word + gap + "=" + rest) == Strip(rest)
    ensures '=' in word + gap + "=" + rest
  {
    hide All, Strip, Lower, IsName, KeyOf, ValueOf, Trimmed, IsSpace;
    NameChars(word, name);
    SpacesNotEquals(gap);
    WordPadded(word, gap);
    AllConcat(NotEquals, word, gap);
    ReadCut(word + gap, rest);
    EqualsIn(word + gap, rest);
    Assoc(word + gap, "=", rest);
  }

  lemma WordPadded(word: string, gap: string)
    requires Trimmed(word) && All(IsSpace, gap)
    ensures Strip(word + gap) == word
  {
    EmptyAll(IsSpace);
    hide All, Trim, IsSpace;
    assert "" + word + gap == word + gap;
    TrimPadded(IsSpace, "", word, gap);
  }

  lemma EmptyAll(p: char -> bool)
    ensures All(p, "")
  {
  }

  lemma PartsMatch(name: string, word: string, gap: string, rest: string)
    requires IsName(name) && Lower(word) == name && All(IsSpace, gap)
    ensures Matches(name, word + gap + "=" + rest)
  {
    var line := word + gap + "=" + rest;
    assert Lower(line)[..|name|] == Lower(word);
    assert line[|name|..] == gap + ("=" + rest);
    hide All;
    SpanOf(IsSpace, gap, "=" + rest);
    assert TrimLeft(IsSpace, line[|name|..]) == "=" + rest;
  }

  /** Partition and pattern agree on every line without leading space. */
  lemma KeyAgrees(name: string, line: string)
    requires IsName(name) && LeftTrimmed(line)
    ensures Matches(name, line) <==> '=' in line && KeyOf(line) == name
  {
    hide All, Lower, IsName, Matches, Strip;
    if Matches(name, line) {
      var word, gap, rest := MatchesParts(name, line);
      KeyFromParts(name, word, gap, rest);
    }
    if '=' in line && KeyOf(line) == name {
      HasEquals(line);
      var n := Span(NotEquals, line);
      var word, gap := KeyHead(line[..n]);
      assert line[n] == '=';
      assert line == (word + gap) + "=" + line[n + 1..];
      PartsMatch(name, word, gap, line[n + 1..]);
    }
  }

  lemma KeyHead(head: string) returns (word: string, gap: string)
    requires LeftTrimmed(head)
    ensures head == word + gap && word == Strip(head) && All(IsSpace, gap)
  {
    var k := Kept(IsSpace, head);
    word, gap := head[..k], head[k..];
    assert Span(IsSpace, head) == 0 && head[0..] == head;
  }

  /** A line can match at most one of the known keys. */
  lemma MatchesOne(name: string, other: string, line: string)
    requires IsName(name) && IsName(other) && LeftTrimmed(line)
    requires Matches(name, line) && Matches(other, line)
    ensures name == other
  {
    KeyAgrees(name, line);
    KeyAgrees(other, line);
  }

  /** A line as the rewriters write it. */
  lemma WrittenLine(name: string, x: string)
    requires IsName(name)
    ensures Matches(name, name + "=" + x) && MatchesIndented(name, name + "=" + x)
    ensures KeyOf(name + "=" + x) == name && ValueOf(name + "=" + x) == Strip(x)
    ensures '=' in name + "=" + x
  {
    assert Lower(name) == name;
    EmptyAll(IsSpace);
    assert name + "" + "=" + x == name + "=" + x;
    KeyFromParts(name, name, "", x);
    PartsMatch(name, name, "", x);
    var line := name + "=" + x;
    assert !IsSpace(line[0]);
    assert TrimLeft(IsSpace, line) == line;
  }

  lemma ReadPaddedCut(a: string, head: string, rest: string, b: string)
    requires All(IsSpace, a) && All(IsSpace, b) && All(NotEquals, head)
    ensures
      var line, padded := head + ("=" + rest), (a + head) + ("=" + (rest + b));
      KeyOf(padded) == KeyOf(line) && ValueOf(padded) == ValueOf(line)
  {
    SpacesNotEquals(a);
    hide IsSpace, All, Strip, KeyOf, ValueOf, Lower;
    StripLeft(a, head);
    StripRight(rest, b);
    AllConcat(NotEquals, a, head);
    ReadCut(head, rest);
    ReadCut(a + head, rest + b);
  }

  /** Padding a line with white space changes neither its key nor its value. */
  lemma ReadPadded(a: string, line: string, b: string)
    requires All(IsSpace, a) && All(IsSpace, b) && '=' in line
    ensures '=' in a + line + b
    ensures KeyOf(a + line + b) == KeyOf(line) && ValueOf(a + line + b) == ValueOf(line)
  {
    HasEquals(line);
    hide IsSpace, All, KeyOf, ValueOf;
    var n := Span(NotEquals, line);
    var head, rest := line[..n], line[n + 1..];
    assert line == head + ("=" + rest);
    assert a + line + b == (a + head) + ("=" + (rest + b));
    ReadPaddedCut(a, head, rest, b);
    EqualsIn(a + head, rest + b);
  }

  lemma PaddedNoEquals(a: string, line: string, b: string)
    requires All(IsSpace, a) && All(IsSpace, b) && '=' !in line
    ensures '=' !in a + line + b
  {
    SpacesNotEquals(a);
    SpacesNotEquals(b);
  }

  /** The indented pattern agrees with the partition on every line. */
  lemma KeyAgreesIndented(name: string, line: string)
    requires IsName(name)
    ensures MatchesIndented(name, line) <==> '=' in line && KeyOf(line) == name
  {
    var n := Span(IsSpace, line);
    var body := line[n..];
    assert LeftTrimmed(body);
    EmptyAll(IsSpace);
    hide IsSpace, All, KeyOf, Matches, IsName;
    KeyAgrees(name, body);
    assert line == line[..n] + body + "";
    if '=' in body {
      ReadPadded(line[..n], body, "");
    } else {
      PaddedNoEquals(line[..n], body, "");
    }
  }

  /** Cutting trailing white space off a line changes nothing the pattern sees. */
  lemma MatchesRightTrimmed(name: string, line: string)
    requires IsName(name)
    ensures MatchesIndented(name, TrimRight(IsSpace, line)) <==> MatchesIndented(name, line)
    ensures MatchesIndented(name, line) ==>
            ValueOf(TrimRight(IsSpace, line)) == ValueOf(line)
  {
    var k := Kept(IsSpace, line);
    EmptyAll(IsSpace);
    hide IsSpace, All, KeyOf, ValueOf, MatchesIndented, IsName;
    KeyAgreesIndented(name, line);
    KeyAgreesIndented(name, line[..k]);
    assert line == "" + line[..k] + line[k..];
    if '=' in line[..k] {
      ReadPadded("", line[..k], line[k..]);
    } else {
      PaddedNoEquals("", line[..k], line[k..]);
    }
  }
}
