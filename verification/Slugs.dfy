/** The slug of a version label: what names its directories. */
module Slugs {
  import opened Text
  import opened Kernelopt

  predicate IsDash(c: char) { c == '-' }

  predicate IsGap(c: char) { IsSpace(c) || c == '_' }

  /** The characters that are not removed: `[\w\s.-]`. */
  predicate Stays(c: char) { IsWord(c) || IsSpace(c) || c == '.' || c == '-' }

  function Filtered(t: string): string {
    if t == "" then "" else (if Stays(t[0]) then [t[0]] else "") + Filtered(t[1..])
  }

  /** Every run of characters that satisfy p becomes one dash: `re.sub(r"[p]+", "-", t)`. */
  function Dashed(p: char -> bool, t: string): string
    decreases |t|
  {
    if t == "" then ""
    else if p(t[0]) then
      assert Span(p, t) > 0;
      "-" + Dashed(p, t[Span(p, t)..])
    else [t[0]] + Dashed(p, t[1..])
  }

  function Slugify(t: string): string {
    Trim(IsDash, Dashed(IsDash, Dashed(IsGap, Filtered(Strip(Lower(t))))))
  }

  // ---- Slugs ------------------------------------------------------------

  predicate SlugChar(c: char) { 'a' <= c <= 'z' || '0' <= c <= '9' || c == '.' || c == '-' }

  predicate Apart(s: string, i: nat)
    requires 0 < i < |s|
  {
    s[i - 1] != '-' || s[i] != '-'
  }

  /** Lower-case letters, digits, dots and single dashes, none of these at either end. */
  predicate IsSlug(s: string) {
    && All(SlugChar, s) && Bare(IsDash, s)
    && forall i :: 0 < i < |s| ==> Apart(s, i)
  }

  predicate LowerWord(c: char) { Stays(c) && !('A' <= c <= 'Z') }

  lemma {:induction false} FilteredChars(t: string)
    requires forall i :: 0 <= i < |t| ==> !('A' <= t[i] <= 'Z')
    ensures All(LowerWord, Filtered(t))
  {
    if t != "" {
      FilteredChars(t[1..]);
      AllConcat(LowerWord, if Stays(t[0]) then [t[0]] else "", Filtered(t[1..]));
    }
  }

  /** After a pass, every character is a dash or one that was there and no gap. */
  lemma {:induction false} GapsGone(t: string)
    requires All(LowerWord, t)
    ensures All(SlugChar, Dashed(IsGap, t))
    decreases |t|
  {
    if t != "" {
      var n := Span(IsGap, t);
      assert forall i :: 0 <= i < |t| ==> LowerWord(t[i]);
      if IsGap(t[0]) {
        GapsGone(t[n..]);
        AllConcat(SlugChar, "-", Dashed(IsGap, t[n..]));
      } else {
        GapsGone(t[1..]);
        AllConcat(SlugChar, [t[0]], Dashed(IsGap, t[1..]));
      }
    }
  }

  predicate Single(s: string) { forall i :: 0 < i < |s| ==> Apart(s, i) }

  lemma SingleCons(c: char, s: string)
    requires Single(s) && (c != '-' || s == "" || s[0] != '-')
    ensures Single([c] + s)
  {
    var all := [c] + s;
    forall i | 0 < i < |all| ensures Apart(all, i) {
      if i > 1 { assert Apart(s, i - 1); }
    }
  }

  /** A dash that is left stands alone. */
  lemma {:induction false} DashesSingle(t: string)
    requires All(SlugChar, t)
    ensures All(SlugChar, Dashed(IsDash, t)) && Single(Dashed(IsDash, t))
    ensures Dashed(IsDash, t) != "" && Dashed(IsDash, t)[0] == '-' ==> t != "" && t[0] == '-'
    decreases |t|
  {
    if t != "" {
      var n := Span(IsDash, t);
      var rest := if IsDash(t[0]) then t[n..] else t[1..];
      assert forall i :: 0 <= i < |t| ==> SlugChar(t[i]);
      DashesSingle(rest);
      AllConcat(SlugChar, [t[0]], Dashed(IsDash, rest));
      SingleCons(t[0], Dashed(IsDash, rest));
    }
  }

  /** A piece of such a text is one too. */
  lemma TrimSingle(s: string)
    requires All(SlugChar, s) && Single(s)
    ensures IsSlug(Trim(IsDash, s))
  {
    var a, b := TrimSplit(IsDash, s);
    var m := Trim(IsDash, s);
    TrimIsBare(IsDash, s);
    hide Trim;
    AllConcat(SlugChar, a, m);
    AllConcat(SlugChar, a + m, b);
    forall i | 0 < i < |m| ensures Apart(m, i) {
      assert Apart(s, |a| + i);
      assert m[i] == s[|a| + i] && m[i - 1] == s[|a| + (i - 1)];
    }
  }

  /** Whatever the label, the result is a slug. */
  lemma SlugifyGives(t: string)
    ensures IsSlug(Slugify(t))
  {
    var low := Strip(Lower(t));
    StrippedLower(t);
    hide Strip, Filtered, Dashed, Single, IsSlug;
    FilteredChars(low);
    GapsGone(Filtered(low));
    DashesSingle(Dashed(IsGap, Filtered(low)));
    TrimSingle(Dashed(IsDash, Dashed(IsGap, Filtered(low))));
  }

  lemma StrippedLower(t: string)
    ensures forall i :: 0 <= i < |Strip(Lower(t))| ==> !('A' <= Strip(Lower(t))[i] <= 'Z')
  {
    var a, b := TrimSplit(IsSpace, Lower(t));
    var m := Strip(Lower(t));
    hide Trim;
    forall i | 0 <= i < |m| ensures !('A' <= m[i] <= 'Z') {
      assert m[i] == Lower(t)[|a| + i] == LowerChar(t[|a| + i]);
    }
  }

  // ---- Slugs stay -------------------------------------------------------

  lemma {:induction false} FilteredSame(t: string)
    requires All(Stays, t)
    ensures Filtered(t) == t
  {
    if t != "" {
      FilteredSame(t[1..]);
      assert t == [t[0]] + t[1..];
    }
  }

  /** Where every run has one character and that is a dash, nothing changes. */
  lemma {:induction false} DashedSame(p: char -> bool, t: string)
    requires Single(t) && forall i :: 0 <= i < |t| && p(t[i]) ==> t[i] == '-'
    ensures Dashed(p, t) == t
    decreases |t|
  {
    if t != "" {
      assert t == [t[0]] + t[1..];
      var n := Span(p, t);
      if p(t[0]) {
        OneDash(p, t);
      }
      SingleTail(t);
      DashedSame(p, t[1..]);
    }
  }

  lemma OneDash(p: char -> bool, t: string)
    requires t != "" && p(t[0]) && Single(t) && forall i :: 0 <= i < |t| && p(t[i]) ==> t[i] == '-'
    ensures Span(p, t) == 1
  {
    var head := t[..Span(p, t)];
    assert |t| > 1 ==> Apart(t, 1);
    assert forall i :: 0 <= i < |head| ==> head[i] == t[i] && p(head[i]);
  }

  lemma SingleTail(t: string)
    requires t != "" && Single(t)
    ensures Single(t[1..])
  {
    forall i | 0 < i < |t[1..]| ensures Apart(t[1..], i) { assert Apart(t, i + 1); }
  }

  lemma SlugChars(s: string)
    requires All(SlugChar, s)
    ensures Lower(s) == s && Strip(s) == s && All(Stays, s)
    ensures forall i :: 0 <= i < |s| ==> !IsGap(s[i])
  {
    SlugBare(s);
    hide Strip, Trim;
    assert forall i :: 0 <= i < |s| ==> SlugChar(s[i]);
    assert Lower(s) == s;
  }

  lemma SlugBare(s: string)
    requires All(SlugChar, s)
    ensures Strip(s) == s
  {
    assert forall i :: 0 <= i < |s| ==> SlugChar(s[i]);
    assert Bare(IsSpace, s);
    hide All;
    TrimBare(IsSpace, s);
  }

  /** The slugs are exactly the texts the function leaves alone; applying it to its own result
      changes nothing. */
  lemma SlugifyFixes(t: string)
    ensures Slugify(t) == t <==> IsSlug(t)
    ensures Slugify(Slugify(t)) == Slugify(t)
  {
    SlugifyGives(t);
    SlugStays(Slugify(t));
    hide Slugify;
    if IsSlug(t) { SlugStays(t); }
  }

  lemma SlugStays(t: string)
    requires IsSlug(t)
    ensures Slugify(t) == t
  {
    SlugChars(t);
    hide Strip, Filtered, Dashed, Trim;
    FilteredSame(t);
    DashedSame(IsGap, t);
    DashedSame(IsDash, t);
    TrimBare(IsDash, t);
  }
}
