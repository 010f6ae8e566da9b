/**
 * `slugFromTitle`, shared by the showcase and demo stores (they differ only in
 * the fallback word): trim, lower-case, turn every run of white space into
 * `-`, drop everything but `a-z`, `0-9` and `-`, collapse runs of `-`, drop a
 * leading and a trailing `-`, and use the fallback when nothing is left.
 */
module Slug {
  import opened Wrappers
  import opened Text

  predicate IsSlugChar(c: char) {
    'a' <= c <= 'z' || '0' <= c <= '9' || c == '-'
  }

  /** The characters of a slug that carry content: lower-case ASCII letters and digits. */
  predicate IsAlnum(c: char) {
    'a' <= c <= 'z' || '0' <= c <= '9'
  }

  predicate IsDash(c: char) {
    c == '-'
  }

  predicate NoDoubleDash(s: string) {
    forall i :: 0 <= i < |s| - 1 ==> !(s[i] == '-' && s[i + 1] == '-')
  }

  predicate AllSlugChars(s: string) {
    forall i :: 0 <= i < |s| ==> IsSlugChar(s[i])
  }

  /** What `slugFromTitle` promises of its result. */
  predicate IsSlug(s: string) {
    && s != []
    && AllSlugChars(s)
    && NoDoubleDash(s)
    && s[0] != '-'
    && s[|s| - 1] != '-'
  }

  /** The letters and digits of `s`, in order. */
  function Alnum(s: string): string {
    if s == [] then [] else (if IsAlnum(s[0]) then [s[0]] else []) + Alnum(s[1..])
  }

  lemma {:induction false} AlnumAppend(a: string, b: string)
    ensures Alnum(a + b) == Alnum(a) + Alnum(b)
  {
    if a == [] {
      assert a + b == b;
    } else {
      var h := if IsAlnum(a[0]) then [a[0]] else [];
      assert (a + b)[0] == a[0];
      assert (a + b)[1..] == a[1..] + b;
      AlnumAppend(a[1..], b);
      assert Alnum(a + b) == h + (Alnum(a[1..]) + Alnum(b));
      assert Alnum(a) == h + Alnum(a[1..]);
    }
  }

  lemma {:induction false} AlnumNone(s: string)
    requires forall i :: 0 <= i < |s| ==> !IsAlnum(s[i])
    ensures Alnum(s) == []
  {
    if s != [] {
      AlnumNone(s[1..]);
    }
  }

  /** Drops the leading characters of `s` that belong to the run class. */
  function SkipRun(s: string, inRun: char -> bool): string {
    if s != [] && inRun(s[0]) then SkipRun(s[1..], inRun) else s
  }

  /** What `SkipRun` drops belongs to the class, and what it keeps is a suffix that starts outside it. */
  lemma {:induction false} SkipRunShape(s: string, inRun: char -> bool)
    ensures |SkipRun(s, inRun)| <= |s| && SkipRun(s, inRun) == s[|s| - |SkipRun(s, inRun)|..]
    ensures SkipRun(s, inRun) != [] ==> !inRun(SkipRun(s, inRun)[0])
    ensures forall i :: 0 <= i < |s| - |SkipRun(s, inRun)| ==> inRun(s[i])
  {
    if s != [] && inRun(s[0]) {
      var t := s[1..];
      SkipRunShape(t, inRun);
      assert t[|t| - |SkipRun(s, inRun)|..] == s[|s| - |SkipRun(s, inRun)|..];
      forall i | 0 <= i < |s| - |SkipRun(s, inRun)| ensures inRun(s[i]) {
        if i > 0 {
          assert s[i] == t[i - 1];
        }
      }
    }
  }

  /**
   * `s.replace(/C+/g, rep)` for a character class `C` given as `inRun`: every
   * maximal run of class characters becomes one `rep`, everything else is kept.
   */
  function ReplaceRuns(s: string, inRun: char -> bool, rep: char): (r: string)
    ensures (r == []) == (s == [])
    ensures s != [] ==> r[0] == if inRun(s[0]) then rep else s[0]
    decreases |s|
  {
    if s == [] then []
    else if inRun(s[0]) then
      SkipRunShape(s[1..], inRun);
      [rep] + ReplaceRuns(SkipRun(s[1..], inRun), inRun, rep)
    else
      [s[0]] + ReplaceRuns(s[1..], inRun, rep)
  }

  /**
   * Every character of the result is `rep` or a character of `s` outside the
   * class, and no two neighbours both belong to the class.
   */
  lemma {:induction false} ReplaceRunsShape(s: string, inRun: char -> bool, rep: char)
    ensures forall i :: 0 <= i < |ReplaceRuns(s, inRun, rep)| ==>
      ReplaceRuns(s, inRun, rep)[i] == rep || (!inRun(ReplaceRuns(s, inRun, rep)[i]) && ReplaceRuns(s, inRun, rep)[i] in s)
    ensures forall i :: 0 <= i < |ReplaceRuns(s, inRun, rep)| - 1 ==>
      !(inRun(ReplaceRuns(s, inRun, rep)[i]) && inRun(ReplaceRuns(s, inRun, rep)[i + 1]))
    decreases |s|
  {
    if s != [] {
      var t := if inRun(s[0]) then SkipRun(s[1..], inRun) else s[1..];
      SkipRunShape(s[1..], inRun);
      assert forall c :: c in t ==> c in s;
      ReplaceRunsShape(t, inRun, rep);
      var tail := ReplaceRuns(t, inRun, rep);
      var r := ReplaceRuns(s, inRun, rep);
      assert r == [r[0]] + tail;
      assert tail != [] && inRun(r[0]) ==> !inRun(tail[0]);
      forall i | 0 <= i < |r| ensures r[i] == rep || (!inRun(r[i]) && r[i] in s) {
        if i == 0 {
          if !inRun(s[0]) {
            assert r[0] == s[0];
          }
        } else {
          assert r[i] == tail[i - 1];
          assert tail[i - 1] == rep || (!inRun(tail[i - 1]) && tail[i - 1] in t);
        }
      }
      forall i | 0 <= i < |r| - 1 ensures !(inRun(r[i]) && inRun(r[i + 1])) {
        assert r[i + 1] == tail[i];
        if i == 0 {
          if inRun(s[0]) {
            assert t != [] ==> tail[0] == t[0];
          }
        } else {
          assert r[i] == tail[i - 1];
        }
      }
    }
  }

  /** A text whose runs are already single `rep` characters is left as it is. */
  lemma {:induction false} ReplaceRunsIdentity(s: string, inRun: char -> bool, rep: char)
    requires forall i :: 0 <= i < |s| && inRun(s[i]) ==> s[i] == rep
    requires forall i :: 0 <= i < |s| - 1 ==> !(inRun(s[i]) && inRun(s[i + 1]))
    ensures ReplaceRuns(s, inRun, rep) == s
    decreases |s|
  {
    if s != [] {
      var t := s[1..];
      assert forall i :: 0 <= i < |t| ==> t[i] == s[i + 1];
      ReplaceRunsIdentity(t, inRun, rep);
      assert s == [s[0]] + t;
      if inRun(s[0]) {
        assert t == [] || !inRun(t[0]);
        assert SkipRun(t, inRun) == t;
        assert ReplaceRuns(s, inRun, rep) == [rep] + t;
      } else {
        assert ReplaceRuns(s, inRun, rep) == [s[0]] + t;
      }
    }
  }

  /** Replacing runs of non-alphanumeric characters by a non-alphanumeric one keeps the letters and digits. */
  lemma {:induction false} ReplaceRunsKeepsAlnum(s: string, inRun: char -> bool, rep: char)
    requires !IsAlnum(rep)
    requires forall i :: 0 <= i < |s| ==> inRun(s[i]) ==> !IsAlnum(s[i])
    ensures Alnum(ReplaceRuns(s, inRun, rep)) == Alnum(s)
    decreases |s|
  {
    if s != [] {
      if inRun(s[0]) {
        var rest := SkipRun(s[1..], inRun);
        SkipRunShape(s[1..], inRun);
        var skipped := s[1..][..|s| - 1 - |rest|];
        assert s[1..] == skipped + rest;
        AlnumNone(skipped);
        AlnumAppend(skipped, rest);
        ReplaceRunsKeepsAlnum(rest, inRun, rep);
        AlnumAppend([rep], ReplaceRuns(rest, inRun, rep));
      } else {
        ReplaceRunsKeepsAlnum(s[1..], inRun, rep);
        AlnumAppend([s[0]], ReplaceRuns(s[1..], inRun, rep));
      }
    }
  }

  /** `s.replace(/\s+/g, '-')`. */
  function SpacesToDashes(s: string): string {
    ReplaceRuns(s, IsJsSpace, '-')
  }

  /** `s.replace(/-+/g, '-')`. */
  function CollapseDashes(s: string): string {
    ReplaceRuns(s, IsDash, '-')
  }

  /** Collapsing leaves no double dash and adds no character outside the slug alphabet. */
  lemma CollapseDashesShape(s: string)
    requires AllSlugChars(s)
    ensures AllSlugChars(CollapseDashes(s)) && NoDoubleDash(CollapseDashes(s))
  {
    var r := CollapseDashes(s);
    ReplaceRunsShape(s, IsDash, '-');
    forall i | 0 <= i < |r| ensures IsSlugChar(r[i]) {
      assert r[i] == '-' || (!IsDash(r[i]) && r[i] in s);
    }
    forall i | 0 <= i < |r| - 1 ensures !(r[i] == '-' && r[i + 1] == '-') {
      assert !(IsDash(r[i]) && IsDash(r[i + 1]));
    }
  }

  /** `s.replace(/[^a-z0-9-]/g, '')`. */
  function KeepSlugChars(s: string): (r: string)
    ensures AllSlugChars(r)
    ensures Alnum(r) == Alnum(s)
  {
    if s == [] then []
    else
      var rest := KeepSlugChars(s[1..]);
      if IsSlugChar(s[0]) then
        AlnumAppend([s[0]], rest);
        [s[0]] + rest
      else
        rest
  }

  lemma {:induction false} KeepSlugCharsIdentity(s: string)
    requires AllSlugChars(s)
    ensures KeepSlugChars(s) == s
  {
    if s != [] {
      KeepSlugCharsIdentity(s[1..]);
    }
  }

  /** `s.replace(/^-|-$/g, '')`. */
  function StripEdgeDashes(s: string): string {
    var t := if s != [] && s[0] == '-' then s[1..] else s;
    if t != [] && t[|t| - 1] == '-' then t[..|t| - 1] else t
  }

  /** A piece of a text with slug characters and no double dash has the same two properties. */
  lemma SliceKeepsShape(s: string, a: nat, b: nat)
    requires a <= b <= |s|
    requires AllSlugChars(s) && NoDoubleDash(s)
    ensures AllSlugChars(s[a..b]) && NoDoubleDash(s[a..b])
  {
    var r := s[a..b];
    forall i | 0 <= i < |r| ensures r[i] == s[a + i] {
    }
  }

  /** Dropping edge dashes from a collapsed text leaves a slug, or nothing when it held no letter or digit. */
  lemma StripEdgeDashesShape(s: string)
    requires AllSlugChars(s) && NoDoubleDash(s)
    ensures var r := StripEdgeDashes(s);
      && AllSlugChars(r) && NoDoubleDash(r)
      && (r != [] ==> IsSlug(r))
      && Alnum(r) == Alnum(s)
      && (r == [] <==> Alnum(s) == [])
  {
    var a := if s != [] && s[0] == '-' then 1 else 0;
    var t := s[a..];
    var b := if t != [] && t[|t| - 1] == '-' then |s| - 1 else |s|;
    var r := StripEdgeDashes(s);
    assert r == s[a..b];
    SliceKeepsShape(s, a, b);
    if a == 1 {
      assert s == [s[0]] + t;
      AlnumAppend([s[0]], t);
    }
    assert Alnum(t) == Alnum(s);
    if b < |s| {
      assert t == r + [t[|t| - 1]];
      AlnumAppend(r, [t[|t| - 1]]);
    }
    assert Alnum(r) == Alnum(s);
    if r != [] {
      assert r[0] != '-';
      assert r[|r| - 1] != '-';
      assert IsAlnum(r[0]);
      assert Alnum(r) == [r[0]] + Alnum(r[1..]);
    }
  }

  /** The word a title without letters or digits becomes: `'item'` for showcase items, `'demo'` for demos. */
  datatype Fallback = ItemWord | DemoWord

  function Word(f: Fallback): (r: string)
    ensures IsSlug(r)
  {
    match f
    case ItemWord => "item"
    case DemoWord => "demo"
  }

  /** `slugFromTitle(title)` with the store's fallback word. */
  function SlugFromTitle(title: string, fallback: Fallback): (r: string)
    ensures IsSlug(r)
  {
    var kept := KeepSlugChars(SpacesToDashes(AsciiLower(Trim(title))));
    var collapsed := CollapseDashes(kept);
    CollapseDashesShape(kept);
    StripEdgeDashesShape(collapsed);
    var stripped := StripEdgeDashes(collapsed);
    if stripped == [] then Word(fallback) else stripped
  }

  lemma LowerOfSlugChars(s: string)
    requires AllSlugChars(s)
    ensures AsciiLower(s) == s
  {
    forall i | 0 <= i < |s| ensures AsciiLower(s)[i] == s[i] {
      assert IsSlugChar(s[i]);
    }
  }

  lemma NoSpacesInSlugChars(s: string)
    requires AllSlugChars(s)
    ensures Trim(s) == s && SpacesToDashes(s) == s
  {
    forall i | 0 <= i < |s| ensures !IsJsSpace(s[i]) {
      assert IsSlugChar(s[i]);
    }
    NoSpaceTrimmed(s);
    ReplaceRunsIdentity(s, IsJsSpace, '-');
  }

  /** Text made of slug characters without a double dash goes through the rewriting steps unchanged. */
  lemma SlugStepsIdentity(s: string)
    requires AllSlugChars(s) && NoDoubleDash(s)
    ensures CollapseDashes(KeepSlugChars(SpacesToDashes(AsciiLower(Trim(s))))) == s
  {
    NoSpacesInSlugChars(s);
    LowerOfSlugChars(s);
    KeepSlugCharsIdentity(s);
    ReplaceRunsIdentity(s, IsDash, '-');
  }

  /** A slug passes through every step unchanged. */
  lemma SlugIsFixedPoint(s: string, fallback: Fallback)
    requires IsSlug(s)
    ensures SlugFromTitle(s, fallback) == s
  {
    SlugStepsIdentity(s);
    StripEdgeOfSlug(s);
  }

  lemma StripEdgeOfSlug(s: string)
    requires IsSlug(s)
    ensures StripEdgeDashes(s) == s
  {
  }

  /** `slugFromTitle` is idempotent. */
  lemma SlugIdempotent(title: string, fallback: Fallback)
    ensures SlugFromTitle(SlugFromTitle(title, fallback), fallback) == SlugFromTitle(title, fallback)
  {
    SlugIsFixedPoint(SlugFromTitle(title, fallback), fallback);
  }

  lemma SpaceIsNotAlnum(c: char)
    requires IsJsSpace(c)
    ensures !IsAlnum(c) && !IsAlnum(LowerChar(c))
  {
  }

  lemma {:induction false} AsciiLowerAppend(a: string, b: string)
    ensures AsciiLower(a + b) == AsciiLower(a) + AsciiLower(b)
  {
  }

  /** White space removed by `trim` holds no letters or digits, before or after lower-casing. */
  lemma TrimKeepsAlnum(title: string)
    ensures Alnum(AsciiLower(Trim(title))) == Alnum(AsciiLower(title))
  {
    var t := TrimStart(title);
    TrimStartShape(title);
    TrimEndShape(t);
    var head := title[..|title| - |t|];
    assert title == head + t;
    var u := TrimEnd(t);
    var tail := t[|u|..];
    assert t == u + tail;
    AsciiLowerAppend(head, t);
    AsciiLowerAppend(u, tail);
    forall i | 0 <= i < |head| ensures !IsAlnum(AsciiLower(head)[i]) {
      SpaceIsNotAlnum(head[i]);
    }
    forall i | 0 <= i < |tail| ensures !IsAlnum(AsciiLower(tail)[i]) {
      SpaceIsNotAlnum(tail[i]);
    }
    AlnumNone(AsciiLower(head));
    AlnumNone(AsciiLower(tail));
    AlnumAppend(AsciiLower(head), AsciiLower(t));
    AlnumAppend(AsciiLower(u), AsciiLower(tail));
  }

  /**
   * The slug keeps exactly the letters and digits of the lower-cased title, in
   * order; only a title without any gets the fallback word.
   */
  lemma SlugKeepsLettersAndDigits(title: string, fallback: Fallback)
    ensures Alnum(SlugFromTitle(title, fallback))
         == if Alnum(AsciiLower(title)) == [] then Alnum(Word(fallback)) else Alnum(AsciiLower(title))
  {
    var lowered := AsciiLower(Trim(title));
    TrimKeepsAlnum(title);
    forall i | 0 <= i < |lowered| && IsJsSpace(lowered[i]) ensures !IsAlnum(lowered[i]) {
      SpaceIsNotAlnum(lowered[i]);
    }
    ReplaceRunsKeepsAlnum(lowered, IsJsSpace, '-');
    var kept := KeepSlugChars(SpacesToDashes(lowered));
    forall i | 0 <= i < |kept| && IsDash(kept[i]) ensures !IsAlnum(kept[i]) {
    }
    ReplaceRunsKeepsAlnum(kept, IsDash, '-');
    var collapsed := CollapseDashes(kept);
    CollapseDashesShape(kept);
    StripEdgeDashesShape(collapsed);
  }

  /**
   * The slug a create request sends: `(given && given.trim()) || slugFromTitle(title)`.
   */
  function RequestSlug(given: Option<string>, title: string, fallback: Fallback): string
  {
    if given.Some? && Trim(given.value) != "" then Trim(given.value) else SlugFromTitle(title, fallback)
  }

  /**
   * A supplied slug that is not blank is sent trimmed, otherwise the title's
   * well-formed slug; either way the slug sent is trimmed already and not blank.
   */
  lemma RequestSlugShape(given: Option<string>, title: string, fallback: Fallback)
    ensures var r := RequestSlug(given, title, fallback);
      && !IsBlank(r) && Trim(r) == r
      && (given.Some? && !IsBlank(given.value) ==> r == Trim(given.value))
      && (given.None? || IsBlank(given.value) ==> IsSlug(r))
  {
    if given.Some? && Trim(given.value) != "" {
      TrimIdempotent(given.value);
    } else {
      NoSpacesInSlugChars(SlugFromTitle(title, fallback));
    }
  }

  /** The `slug` member a create request sends: `slug.trim() || undefined`, where undefined leaves the member out. */
  function SentSlug(slug: string): Option<string> {
    if Trim(slug) != "" then Some(Trim(slug)) else None
  }

  /** The slug a create request chooses is always sent, and sent as chosen. */
  lemma SentRequestSlug(given: Option<string>, title: string, fallback: Fallback)
    ensures SentSlug(RequestSlug(given, title, fallback)) == Some(RequestSlug(given, title, fallback))
  {
    RequestSlugShape(given, title, fallback);
  }
}
