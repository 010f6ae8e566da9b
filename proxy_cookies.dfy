/**
 * The development proxy's `Set-Cookie` rewriting: every cookie the backend
 * sets loses its `Domain` and `Secure` attributes, `SameSite=None` becomes
 * `SameSite=Lax`, and a dangling `;` at the end is dropped, so that the
 * browser keeps the cookie on the plain-HTTP development origin.
 *
 * Each regular expression is modelled as what it matches: `;`, then the
 * greedy `\s*`, then its literal compared up to ASCII case (the `i` flag
 * without `u` never folds a non-ASCII character onto an ASCII one), and for
 * `Domain=` the greedy `[^;]+`. A global `replace` replaces the leftmost
 * match, resumes after it, and repeats.
 */
module ProxyCookies {
  import opened Wrappers
  import opened Text

  predicate NoSemicolon(s: string) {
    forall i :: 0 <= i < |s| ==> s[i] != ';'
  }

  /** The three attribute patterns the rewrite looks for. */
  datatype Pattern = DomainPattern | SecurePattern | SameSiteNonePattern

  /** The literal each pattern expects after `;\s*`, in lower case. */
  function PatternWord(p: Pattern): string {
    match p
    case DomainPattern => "domain="
    case SecurePattern => "secure"
    case SameSiteNonePattern => "samesite=none"
  }

  /** `\s*` from index `i`: the index of the first character that is not white space, or the end. */
  function SkipSpaces(s: string, i: nat): (r: nat)
    requires i <= |s|
    ensures i <= r <= |s|
    decreases |s| - i
  {
    if i < |s| && IsJsSpace(s[i]) then SkipSpaces(s, i + 1) else i
  }

  /** `[^;]*` from index `i`: the index of the first `;`, or the end. */
  function ValueEnd(s: string, i: nat): (r: nat)
    requires i <= |s|
    ensures i <= r <= |s|
    decreases |s| - i
  {
    if i < |s| && s[i] != ';' then ValueEnd(s, i + 1) else i
  }

  /** Whether `s` spells the lower-case literal `w` from index `k` on, up to ASCII case. */
  predicate WordAt(s: string, k: nat, w: string)
    requires k <= |s|
    decreases |w|
  {
    w == [] || (k < |s| && LowerChar(s[k]) == w[0] && WordAt(s, k + 1, w[1..]))
  }

  /**
   * The length of the match of the pattern at the start of `s`, if there is
   * one: `/;\s*Domain=[^;]+/i`, `/;\s*Secure/i` or `/;\s*SameSite=None/i`.
   */
  function MatchAt(s: string, p: Pattern): (r: Option<nat>)
    ensures r.Some? ==> 1 <= r.value <= |s|
  {
    if s == [] || s[0] != ';' then None
    else
      var k := SkipSpaces(s, 1);
      var w := PatternWord(p);
      if !WordAt(s, k, w) then None
      else
        WordAtFits(s, k, w);
        if p != DomainPattern then Some(k + |w|)
        else
          var e := ValueEnd(s, k + |w|);
          if e == k + |w| then None else Some(e)
  }

  /** Two literals spelled one after the other spell their concatenation. */
  lemma {:induction false} WordAtJoin(s: string, k: nat, w1: string, w2: string)
    requires k <= |s| && WordAt(s, k, w1)
    requires k + |w1| <= |s| && WordAt(s, k + |w1|, w2)
    ensures WordAt(s, k, w1 + w2)
    decreases |w1|
  {
    if w1 == [] {
      assert w1 + w2 == w2;
    } else {
      assert (w1 + w2)[1..] == w1[1..] + w2;
      WordAtJoin(s, k + 1, w1[1..], w2);
    }
  }

  lemma {:induction false} WordAtFits(s: string, k: nat, w: string)
    requires k <= |s| && WordAt(s, k, w)
    ensures k + |w| <= |s|
    decreases |w|
  {
    if w != [] {
      WordAtFits(s, k + 1, w[1..]);
    }
  }

  /** `s.replace(pattern, rep)` for a global pattern: every match, left to right and without overlap, replaced. */
  function ReplaceAll(s: string, p: Pattern, rep: string): string
    decreases |s|
  {
    if s == [] then []
    else
      match MatchAt(s, p)
      case Some(n) => rep + ReplaceAll(s[n..], p, rep)
      case None => [s[0]] + ReplaceAll(s[1..], p, rep)
  }

  /** Whether `/\s*;\s*$/` matches at the start of `t`: white space, one `;`, white space to the end. */
  predicate TailMatch(t: string) {
    var k := SkipSpaces(t, 0);
    k < |t| && t[k] == ';' && AllSpace(t[k + 1..])
  }

  /** The leftmost match of `/\s*;\s*$/` at or after `i`, removed. */
  function CutTail(s: string, i: nat): string
    requires i <= |s|
    decreases |s| - i
  {
    if TailMatch(s[i..]) then s[..i] else if i == |s| then s else CutTail(s, i + 1)
  }

  /** `s.replace(/\s*;\s*$/, '')`. */
  function StripTrailingSemicolon(s: string): string {
    CutTail(s, 0)
  }

  /** The replacement of `SameSite=None`, `; SameSite=Lax`, as the attribute it reads as. */
  const LaxAttribute: Attribute := Other(" SameSite=Lax")

  const Lax: string := Piece(LaxAttribute)

  /** The rewrite one cookie goes through, the four replacements in order. */
  function RewriteCookie(c: string): string {
    var noDomain := ReplaceAll(c, DomainPattern, "");
    var noSecure := ReplaceAll(noDomain, SecurePattern, "");
    StripTrailingSemicolon(ReplaceAll(noSecure, SameSiteNonePattern, Lax))
  }

  // ----- A pass works segment by segment -----

  /** A stretch of a cookie that starts at one `;` and runs up to the next (or the empty stretch). */
  predicate IsPiece(seg: string) {
    seg == [] || (seg[0] == ';' && NoSemicolon(seg[1..]))
  }

  function Join(segs: seq<string>): string {
    if segs == [] then [] else segs[0] + Join(segs[1..])
  }

  /** What a pass makes of one piece: the match at its `;`, if any, replaced; the rest kept. */
  function PieceOut(seg: string, p: Pattern, rep: string): string {
    match MatchAt(seg, p)
    case Some(n) => rep + seg[n..]
    case None => seg
  }

  function Outs(segs: seq<string>, p: Pattern, rep: string): (r: seq<string>)
    ensures |r| == |segs|
  {
    seq(|segs|, i requires 0 <= i < |segs| => PieceOut(segs[i], p, rep))
  }

  lemma NoSemicolonSuffix(x: string, n: nat)
    requires n <= |x| && NoSemicolon(x)
    ensures NoSemicolon(x[n..])
  {
    forall j | 0 <= j < |x| - n ensures x[n..][j] != ';' {
      assert x[n..][j] == x[j + n];
    }
  }

  /** Text without a `;` cannot start a match, so a pass copies it. */
  lemma {:induction false} ReplaceAfterPlain(x: string, y: string, p: Pattern, rep: string)
    requires NoSemicolon(x)
    ensures ReplaceAll(x + y, p, rep) == x + ReplaceAll(y, p, rep)
  {
    if x == [] {
      assert x + y == y;
    } else {
      assert (x + y)[0] == x[0];
      assert (x + y)[1..] == x[1..] + y;
      ReplaceAfterPlain(x[1..], y, p, rep);
      assert x == [x[0]] + x[1..];
    }
  }

  lemma {:induction false} SkipSpacesAppend(a: string, b: string, i: nat)
    requires i <= |a|
    requires b == [] || !IsJsSpace(b[0])
    ensures SkipSpaces(a + b, i) == SkipSpaces(a, i)
    decreases |a| - i
  {
    if i < |a| {
      assert (a + b)[i] == a[i];
      if IsJsSpace(a[i]) {
        SkipSpacesAppend(a, b, i + 1);
      }
    }
  }

  lemma {:induction false} ValueEndAppend(a: string, b: string, i: nat)
    requires i <= |a|
    requires b == [] || b[0] == ';'
    ensures ValueEnd(a + b, i) == ValueEnd(a, i)
    decreases |a| - i
  {
    if i < |a| {
      assert (a + b)[i] == a[i];
      if a[i] != ';' {
        ValueEndAppend(a, b, i + 1);
      }
    }
  }

  lemma PatternWordHasNoSemicolon(p: Pattern)
    ensures NoSemicolon(PatternWord(p))
  {
  }

  /** A literal without `;` is spelled at `k` in `a` exactly when it is spelled there once a `;`-led text is appended. */
  lemma {:induction false} WordAtBeforeSemicolon(a: string, b: string, k: nat, w: string)
    requires k <= |a|
    requires b == [] || b[0] == ';'
    requires NoSemicolon(w)
    ensures WordAt(a + b, k, w) == WordAt(a, k, w)
    decreases |w|
  {
    if w != [] {
      if k < |a| {
        assert (a + b)[k] == a[k];
        NoSemicolonSuffix(w, 1);
        WordAtBeforeSemicolon(a, b, k + 1, w[1..]);
      } else if k < |a + b| {
        assert (a + b)[k] == ';' && w[0] != ';';
      }
    }
  }

  /** Whether a pattern matches at a piece's `;` does not depend on what follows the piece. */
  lemma MatchAtPiece(seg: string, rest: string, p: Pattern)
    requires IsPiece(seg) && seg != []
    requires rest == [] || rest[0] == ';'
    ensures MatchAt(seg + rest, p) == MatchAt(seg, p)
  {
    var s := seg + rest;
    assert s[0] == ';';
    SkipSpacesAppend(seg, rest, 1);
    var k := SkipSpaces(seg, 1);
    var w := PatternWord(p);
    PatternWordHasNoSemicolon(p);
    WordAtBeforeSemicolon(seg, rest, k, w);
    if WordAt(seg, k, w) && p == DomainPattern {
      WordAtFits(seg, k, w);
      ValueEndAppend(seg, rest, k + |w|);
    }
  }

  lemma ReplaceMatchedStep(s: string, p: Pattern, rep: string, n: nat)
    requires s != [] && MatchAt(s, p) == Some(n)
    ensures ReplaceAll(s, p, rep) == rep + ReplaceAll(s[n..], p, rep)
  {
  }

  /** Past its `;`, a piece holds no `;`. */
  lemma PieceTail(seg: string, n: nat)
    requires IsPiece(seg) && 1 <= n <= |seg|
    ensures NoSemicolon(seg[n..])
  {
    NoSemicolonSuffix(seg[1..], n - 1);
    assert seg[n..] == seg[1..][n - 1..];
  }

  /** What follows a match inside a piece is copied up to the next piece. */
  lemma ReplaceAfterMatch(seg: string, rest: string, p: Pattern, rep: string, n: nat)
    requires IsPiece(seg) && 1 <= n <= |seg|
    ensures ReplaceAll((seg + rest)[n..], p, rep) == seg[n..] + ReplaceAll(rest, p, rep)
  {
    assert (seg + rest)[n..] == seg[n..] + rest;
    PieceTail(seg, n);
    ReplaceAfterPlain(seg[n..], rest, p, rep);
  }

  lemma ReplaceMatchedPiece(seg: string, rest: string, p: Pattern, rep: string, n: nat)
    requires IsPiece(seg) && seg != []
    requires rest == [] || rest[0] == ';'
    requires MatchAt(seg + rest, p) == Some(n) && n <= |seg|
    ensures ReplaceAll(seg + rest, p, rep) == rep + seg[n..] + ReplaceAll(rest, p, rep)
  {
    ReplaceMatchedStep(seg + rest, p, rep, n);
    ReplaceAfterMatch(seg, rest, p, rep, n);
  }

  lemma ReplaceUnmatchedStep(s: string, p: Pattern, rep: string)
    requires s != [] && MatchAt(s, p).None?
    ensures ReplaceAll(s, p, rep) == [s[0]] + ReplaceAll(s[1..], p, rep)
  {
  }

  /** A piece's `;` that starts no match is copied, and so is the rest of the piece. */
  lemma ReplaceAfterSemicolon(seg: string, rest: string, p: Pattern, rep: string)
    requires IsPiece(seg) && seg != []
    ensures [(seg + rest)[0]] + ReplaceAll((seg + rest)[1..], p, rep) == seg + ReplaceAll(rest, p, rep)
  {
    var c := (seg + rest)[0];
    var x := ReplaceAll(rest, p, rep);
    assert (seg + rest)[1..] == seg[1..] + rest;
    ReplaceAfterPlain(seg[1..], rest, p, rep);
    assert [c] + seg[1..] == seg;
    assert [c] + (seg[1..] + x) == ([c] + seg[1..]) + x;
  }

  lemma ReplaceUnmatchedPiece(seg: string, rest: string, p: Pattern, rep: string)
    requires IsPiece(seg) && seg != []
    requires rest == [] || rest[0] == ';'
    requires MatchAt(seg + rest, p).None?
    ensures ReplaceAll(seg + rest, p, rep) == seg + ReplaceAll(rest, p, rep)
  {
    ReplaceUnmatchedStep(seg + rest, p, rep);
    ReplaceAfterSemicolon(seg, rest, p, rep);
  }

  /** A pass over a piece followed by more pieces: the piece's own outcome, then the pass over the rest. */
  lemma ReplacePiece(seg: string, rest: string, p: Pattern, rep: string)
    requires IsPiece(seg)
    requires rest == [] || rest[0] == ';'
    ensures ReplaceAll(seg + rest, p, rep) == PieceOut(seg, p, rep) + ReplaceAll(rest, p, rep)
  {
    if seg == [] {
      assert seg + rest == rest;
    } else {
      MatchAtPiece(seg, rest, p);
      match MatchAt(seg, p) {
        case Some(n) => ReplaceMatchedPiece(seg, rest, p, rep, n);
        case None => ReplaceUnmatchedPiece(seg, rest, p, rep);
      }
    }
  }

  /** Joined pieces start with `;`, unless there is nothing to join. */
  lemma {:induction false} JoinStart(segs: seq<string>)
    requires forall i :: 0 <= i < |segs| ==> IsPiece(segs[i])
    ensures Join(segs) == [] || Join(segs)[0] == ';'
  {
    if segs != [] {
      JoinStart(segs[1..]);
    }
  }

  lemma {:induction false} ReplaceJoin(segs: seq<string>, p: Pattern, rep: string)
    requires forall i :: 0 <= i < |segs| ==> IsPiece(segs[i])
    ensures ReplaceAll(Join(segs), p, rep) == Join(Outs(segs, p, rep))
  {
    if segs != [] {
      JoinStart(segs[1..]);
      ReplacePiece(segs[0], Join(segs[1..]), p, rep);
      ReplaceJoin(segs[1..], p, rep);
      assert Outs(segs, p, rep)[1..] == Outs(segs[1..], p, rep);
    }
  }

  /**
   * Any string is text without `;` followed by `;`-led pieces, and a pass
   * rewrites each piece on its own: nothing a pass does inside one piece
   * depends on the others.
   */
  lemma ReplacePieces(head: string, segs: seq<string>, p: Pattern, rep: string)
    requires NoSemicolon(head)
    requires forall i :: 0 <= i < |segs| ==> IsPiece(segs[i])
    ensures ReplaceAll(head + Join(segs), p, rep) == head + Join(Outs(segs, p, rep))
  {
    ReplaceAfterPlain(head, Join(segs), p, rep);
    ReplaceJoin(segs, p, rep);
  }

  // ----- The trailing `;` -----

  /** `/\s*;\s*$/` cannot match a string that ends in neither `;` nor white space. */
  lemma NoTailMatchAtCleanEnd(t: string)
    requires t != [] && t[|t| - 1] != ';' && !IsJsSpace(t[|t| - 1])
    ensures !TailMatch(t)
  {
    var k := SkipSpaces(t, 0);
    if k + 1 < |t| {
      assert t[k + 1..][|t| - k - 2] == t[|t| - 1];
    }
  }

  /** Positions where the pattern does not match are skipped over. */
  lemma {:induction false} CutTailSkips(s: string, i: nat, m: nat)
    requires i <= m <= |s|
    requires forall j :: i <= j < m ==> !TailMatch(s[j..])
    ensures CutTail(s, i) == CutTail(s, m)
    decreases m - i
  {
    if i < m {
      CutTailSkips(s, i + 1, m);
    }
  }

  /** A string that ends in neither `;` nor white space has no trailing `;` to remove. */
  lemma StripCleanEnd(s: string)
    requires s != [] && s[|s| - 1] != ';' && !IsJsSpace(s[|s| - 1])
    ensures StripTrailingSemicolon(s) == s
  {
    forall j | 0 <= j < |s| ensures !TailMatch(s[j..]) {
      assert s[j..][|s| - j - 1] == s[|s| - 1];
      NoTailMatchAtCleanEnd(s[j..]);
    }
    CutTailSkips(s, 0, |s|);
    assert s[|s|..] == [];
  }

  /** `\s*` stops at or before any character that is not white space. */
  lemma {:induction false} SkipSpacesStops(s: string, i: nat, m: nat)
    requires i <= m < |s| && !IsJsSpace(s[m])
    ensures SkipSpaces(s, i) <= m
    decreases m - i
  {
    if i < m && IsJsSpace(s[i]) {
      SkipSpacesStops(s, i + 1, m);
    }
  }

  lemma {:induction false} SkipAllSpaces(s: string, i: nat)
    requires i <= |s| && AllSpace(s[i..])
    ensures SkipSpaces(s, i) == |s|
    decreases |s| - i
  {
    if i < |s| {
      assert s[i] == s[i..][0];
      assert s[i + 1..] == s[i..][1..];
      SkipAllSpaces(s, i + 1);
    }
  }

  /**
   * One `;` with white space after it is removed from the end of a string
   * whose last character is not white space, and nothing else is: a string
   * ending in `;;` keeps one of them.
   */
  lemma StripOneSemicolon(x: string, sp: string)
    requires x != [] && !IsJsSpace(x[|x| - 1])
    requires AllSpace(sp)
    ensures StripTrailingSemicolon(x + ";" + sp) == x
  {
    var s := x + ";" + sp;
    forall j | 0 <= j < |x| ensures !TailMatch(s[j..]) {
      var t := s[j..];
      assert t[|x| - 1 - j] == x[|x| - 1];
      SkipSpacesStops(t, 0, |x| - 1 - j);
      var k := SkipSpaces(t, 0);
      if k < |t| && t[k] == ';' {
        assert t[k + 1..][|x| - j - k - 1] == ';';
      }
    }
    CutTailSkips(s, 0, |x|);
    var t := s[|x|..];
    assert t == ";" + sp;
    assert t[1..] == sp;
    assert TailMatch(t);
  }

  // ----- Cookies as name=value and attributes -----

  /**
   * An attribute of a `Set-Cookie` value. The three the rewrite looks for keep
   * the white space written after their `;` and their name as written, in any
   * letter case (`Domain=`, `secure`, `SAMESITE=None`); any other attribute
   * is the text between its `;` and the next.
   */
  datatype Attribute =
    | Domain(sep: string, name: string, value: string)
    | Secure(sep: string, name: string)
    | SameSiteNone(sep: string, name: string)
    | Other(text: string)

  /** The attribute as it appears in the header, from its `;` on. */
  function Piece(a: Attribute): string {
    match a
    case Domain(sep, name, v) => ";" + sep + name + v
    case Secure(sep, name) => ";" + sep + name
    case SameSiteNone(sep, name) => ";" + sep + name
    case Other(t) => ";" + t
  }

  /** The literal that names one of the three attributes, as its pattern reads it. */
  function Keyword(a: Attribute): string
    requires !a.Other?
  {
    match a
    case Domain(_, _, _) => PatternWord(DomainPattern)
    case Secure(_, _) => PatternWord(SecurePattern)
    case SameSiteNone(_, _) => PatternWord(SameSiteNonePattern)
  }

  /**
   * The attributes the theorem below covers: one of the three, with white
   * space after its `;`, its name in any case and, for a domain, a non-empty
   * value without `;`; or another attribute without `;`, ending in a
   * character that is not white space, that none of the three patterns reads.
   */
  predicate WellFormed(a: Attribute) {
    if a.Other? then
      var t := a.text;
      && t != [] && NoSemicolon(t) && !IsJsSpace(t[|t| - 1])
      && MatchAt(Piece(a), DomainPattern).None?
      && MatchAt(Piece(a), SecurePattern).None?
      && MatchAt(Piece(a), SameSiteNonePattern).None?
    else
      && AllSpace(a.sep) && AsciiLower(a.name) == Keyword(a)
      && (a.Domain? ==> a.value != [] && NoSemicolon(a.value))
  }

  /** The header value for a cookie with these attributes, in order. */
  function Cookie(nameValue: string, attrs: seq<Attribute>): string {
    nameValue + Join(Stage(attrs, Piece))
  }

  /** An attribute after the `Domain` pass. */
  function AfterDomain(a: Attribute): string {
    if a.Domain? then "" else Piece(a)
  }

  /** An attribute after the `Secure` pass. */
  function AfterSecure(a: Attribute): string {
    if a.Domain? || a.Secure? then "" else Piece(a)
  }

  /** An attribute after all passes: dropped, turned into `SameSite=Lax`, or kept. */
  function Kept(a: Attribute): string {
    match a
    case Domain(_, _, _) => ""
    case Secure(_, _) => ""
    case SameSiteNone(_, _) => Lax
    case Other(_) => Piece(a)
  }

  function Stage(attrs: seq<Attribute>, f: Attribute -> string): (r: seq<string>)
    ensures |r| == |attrs|
  {
    seq(|attrs|, i requires 0 <= i < |attrs| => f(attrs[i]))
  }

  lemma {:induction false} ValueEndAll(s: string, i: nat)
    requires i <= |s| && NoSemicolon(s[i..])
    ensures ValueEnd(s, i) == |s|
    decreases |s| - i
  {
    if i < |s| {
      assert s[i] == s[i..][0];
      NoSemicolonSuffix(s[i..], 1);
      assert s[i + 1..] == s[i..][1..];
      ValueEndAll(s, i + 1);
    }
  }

  /** A literal spelled in a string stays spelled when more text follows. */
  lemma {:induction false} WordAtExtend(a: string, b: string, k: nat, w: string)
    requires k <= |a| && WordAt(a, k, w)
    ensures WordAt(a + b, k, w)
    decreases |w|
  {
    if w != [] {
      assert (a + b)[k] == a[k];
      WordAtExtend(a, b, k + 1, w[1..]);
    }
  }

  /** Past `;` and white space, `Domain=` and a value without `;` that runs to the end: the whole string matches. */
  lemma DomainMatches(s: string, k: nat)
    requires s != [] && s[0] == ';'
    requires SkipSpaces(s, 1) == k && k + 7 < |s| && WordAt(s, k, "domain=")
    requires NoSemicolon(s[k + 7..])
    ensures MatchAt(s, DomainPattern) == Some(|s|)
  {
    ValueEndAll(s, k + 7);
  }

  /** `\s*` from `i` stops at `j` when everything before `j` is white space and `s[j]` is not. */
  lemma {:induction false} SkipSpacesTo(s: string, i: nat, j: nat)
    requires i <= j < |s| && !IsJsSpace(s[j])
    requires forall m :: i <= m < j ==> IsJsSpace(s[m])
    ensures SkipSpaces(s, i) == j
    decreases j - i
  {
    if i < j {
      SkipSpacesTo(s, i + 1, j);
    }
  }

  /** A name written in any letter case spells its lower-case form. */
  lemma {:induction false} WordAtLower(s: string, k: nat, n: string)
    requires k + |n| <= |s| && s[k..k + |n|] == n
    ensures WordAt(s, k, AsciiLower(n))
    decreases |n|
  {
    if n != [] {
      assert s[k] == n[0];
      assert s[k + 1..k + 1 + |n[1..]|] == n[1..];
      assert AsciiLower(n)[1..] == AsciiLower(n[1..]);
      WordAtLower(s, k + 1, n[1..]);
    }
  }

  /** Two literals that differ at `j` are not both spelled at `k`. */
  lemma {:induction false} NotWordAtDiffer(s: string, k: nat, w1: string, w2: string, j: nat)
    requires k <= |s| && WordAt(s, k, w1)
    requires j < |w1| && j < |w2| && w1[j] != w2[j]
    ensures !WordAt(s, k, w2)
    decreases j
  {
    if j > 0 {
      NotWordAtDiffer(s, k + 1, w1[1..], w2[1..], j - 1);
    }
  }

  /** A character whose lower case is a letter is neither white space nor `;`. */
  lemma LetterNotSpace(c: char)
    requires 'a' <= LowerChar(c) <= 'z'
    ensures !IsJsSpace(c) && c != ';'
  {
  }

  /** A name whose lower case has no `;` has none either. */
  lemma NoSemicolonOfLower(n: string)
    requires NoSemicolon(AsciiLower(n))
    ensures NoSemicolon(n)
  {
    forall i | 0 <= i < |n| ensures n[i] != ';' {
      assert AsciiLower(n)[i] == LowerChar(n[i]);
    }
  }

  lemma SpaceNoSemicolon(sep: string)
    requires AllSpace(sep)
    ensures NoSemicolon(sep)
  {
  }

  /**
   * Past the `;` of one of the three attributes, `\s*` stops at its name,
   * which spells the pattern's literal; a domain's value follows the name.
   */
  lemma KeywordSpelled(a: Attribute)
    requires WellFormed(a) && !a.Other?
    ensures 1 + |a.sep| + |Keyword(a)| <= |Piece(a)|
    ensures SkipSpaces(Piece(a), 1) == 1 + |a.sep|
    ensures WordAt(Piece(a), 1 + |a.sep|, Keyword(a))
    ensures a.Domain? ==> Piece(a)[1 + |a.sep| + |Keyword(a)|..] == a.value
    ensures !a.Domain? ==> |Piece(a)| == 1 + |a.sep| + |Keyword(a)|
  {
    var s := Piece(a);
    var k := 1 + |a.sep|;
    var n := a.name;
    var rest := if a.Domain? then a.value else [];
    assert s == ";" + a.sep + n + rest;
    assert s[k..k + |n|] == n;
    WordAtLower(s, k, n);
    assert AsciiLower(n)[0] == LowerChar(n[0]);
    LetterNotSpace(n[0]);
    forall m | 1 <= m < k ensures IsJsSpace(s[m]) {
      assert s[m] == a.sep[m - 1];
    }
    SkipSpacesTo(s, 1, k);
    assert s[k + |n|..] == rest;
  }

  /** The `Domain` pass removes exactly the domain attributes, however they are spelled. */
  lemma DomainPass(a: Attribute)
    requires WellFormed(a)
    ensures PieceOut(Piece(a), DomainPattern, "") == AfterDomain(a)
  {
    if !a.Other? {
      var s := Piece(a);
      var k := 1 + |a.sep|;
      KeywordSpelled(a);
      if a.Domain? {
        DomainMatches(s, k);
        assert s[|s|..] == [];
      } else {
        NotWordAtDiffer(s, k, Keyword(a), PatternWord(DomainPattern), 0);
        NoWordNoMatch(s, DomainPattern, k);
      }
    }
  }

  /** The `Secure` pass removes exactly the `Secure` attributes among those left, however they are spelled. */
  lemma SecurePass(a: Attribute)
    requires WellFormed(a)
    ensures PieceOut(AfterDomain(a), SecurePattern, "") == AfterSecure(a)
  {
    if a.Secure? || a.SameSiteNone? {
      var s := Piece(a);
      var k := 1 + |a.sep|;
      KeywordSpelled(a);
      if a.Secure? {
        WordMatches(s, SecurePattern, k);
        assert s[|s|..] == [];
      } else {
        NotWordAtDiffer(s, k, Keyword(a), PatternWord(SecurePattern), 1);
        NoWordNoMatch(s, SecurePattern, k);
      }
    }
  }

  /** Past `;` and the white space after it, the literal of a pattern without a value matches on its own. */
  lemma WordMatches(s: string, p: Pattern, k: nat)
    requires p != DomainPattern && s != [] && s[0] == ';'
    requires SkipSpaces(s, 1) == k && WordAt(s, k, PatternWord(p))
    ensures MatchAt(s, p) == Some(k + |PatternWord(p)|)
  {
  }

  /** The `SameSite=None` pass turns exactly that attribute, however it is spelled, into `SameSite=Lax`. */
  lemma SameSitePass(a: Attribute)
    requires WellFormed(a)
    ensures PieceOut(AfterSecure(a), SameSiteNonePattern, Lax) == Kept(a)
  {
    if a.SameSiteNone? {
      var s := Piece(a);
      KeywordSpelled(a);
      WordMatches(s, SameSiteNonePattern, 1 + |a.sep|);
      assert s[|s|..] == [];
    }
  }

  // ----- The whole rewrite of one cookie -----

  /** What may follow the attributes: nothing, or one `;` and white space. */
  predicate Trailer(t: string) {
    t == [] || (t[0] == ';' && AllSpace(t[1..]))
  }

  /** Ends in a character that is neither `;` nor white space. */
  predicate CleanEnd(s: string) {
    s != [] && s[|s| - 1] != ';' && !IsJsSpace(s[|s| - 1])
  }

  lemma NoSemicolonOf(x: string)
    requires ';' !in x
    ensures NoSemicolon(x)
  {
    forall i | 0 <= i < |x| ensures x[i] != ';' {
      assert x[i] in x;
    }
  }

  lemma NoSemicolonJoin(x: string, y: string)
    requires NoSemicolon(x) && NoSemicolon(y)
    ensures NoSemicolon(x + y)
  {
    forall i | 0 <= i < |x + y| ensures (x + y)[i] != ';' {
      if i >= |x| {
        assert (x + y)[i] == y[i - |x|];
      }
    }
  }

  lemma WellFormedPiece(a: Attribute)
    requires WellFormed(a)
    ensures IsPiece(Piece(a)) && (!a.Domain? ==> CleanEnd(Piece(a)))
  {
    var s := Piece(a);
    if a.Other? {
      assert s[1..] == a.text;
      assert s[|s| - 1] == a.text[|a.text| - 1];
    } else {
      var n := a.name;
      var rest := if a.Domain? then a.value else [];
      assert s[1..] == a.sep + n + rest;
      PatternWordHasNoSemicolon(DomainPattern);
      PatternWordHasNoSemicolon(SecurePattern);
      PatternWordHasNoSemicolon(SameSiteNonePattern);
      NoSemicolonOfLower(n);
      SpaceNoSemicolon(a.sep);
      NoSemicolonJoin(a.sep, n);
      NoSemicolonJoin(a.sep + n, rest);
      if !a.Domain? {
        assert s[|s| - 1] == n[|n| - 1];
        assert AsciiLower(n)[|n| - 1] == LowerChar(n[|n| - 1]);
        LetterNotSpace(n[|n| - 1]);
      }
    }
  }


  /** The trailer is a piece no pattern matches. */
  lemma TrailerUntouched(t: string, p: Pattern, rep: string)
    requires Trailer(t)
    ensures IsPiece(t) && PieceOut(t, p, rep) == t
  {
    if t != [] {
      SkipAllSpaces(t, 1);
      assert NoSemicolon(t[1..]) by {
        forall i | 0 <= i < |t[1..]| ensures t[1..][i] != ';' {
          assert IsJsSpace(t[1..][i]);
        }
      }
    }
  }

  lemma {:induction false} JoinAppend(segs: seq<string>, t: string)
    ensures Join(segs + [t]) == Join(segs) + t
  {
    if segs == [] {
      assert segs + [t] == [t];
    } else {
      assert (segs + [t])[1..] == segs[1..] + [t];
      JoinAppend(segs[1..], t);
    }
  }

  /**
   * One pass over name=value, a stage of the attributes and the trailer:
   * when the pass turns each attribute's stage `f` into stage `g`, it turns
   * the whole string into stage `g`.
   */
  lemma PassStage(nv: string, attrs: seq<Attribute>, t: string, p: Pattern, rep: string,
                  f: Attribute -> string, g: Attribute -> string)
    requires NoSemicolon(nv) && Trailer(t)
    requires forall i :: 0 <= i < |attrs| ==> IsPiece(f(attrs[i])) && PieceOut(f(attrs[i]), p, rep) == g(attrs[i])
    ensures ReplaceAll(nv + Join(Stage(attrs, f) + [t]), p, rep) == nv + Join(Stage(attrs, g) + [t])
  {
    var segs := Stage(attrs, f) + [t];
    TrailerUntouched(t, p, rep);
    ReplacePieces(nv, segs, p, rep);
    assert Outs(segs, p, rep) == Stage(attrs, g) + [t];
  }

  /** Joining pieces that are empty or end cleanly after a clean end keeps a clean end. */
  lemma {:induction false} JoinCleanEnd(x: string, segs: seq<string>)
    requires CleanEnd(x)
    requires forall i :: 0 <= i < |segs| ==> segs[i] == [] || CleanEnd(segs[i])
    ensures CleanEnd(x + Join(segs))
    decreases |segs|
  {
    if segs != [] {
      assert x + Join(segs) == (x + segs[0]) + Join(segs[1..]);
      if segs[0] != [] {
        assert (x + segs[0])[|x + segs[0]| - 1] == segs[0][|segs[0]| - 1];
      }
      JoinCleanEnd(x + segs[0], segs[1..]);
    }
  }

  /** A trailer after a clean end is removed, and nothing else is. */
  lemma StripTrailer(x: string, t: string)
    requires CleanEnd(x) && Trailer(t)
    ensures StripTrailingSemicolon(x + t) == x
  {
    if t == [] {
      assert x + t == x;
      StripCleanEnd(x);
    } else {
      assert x + t == x + ";" + t[1..];
      StripOneSemicolon(x, t[1..]);
    }
  }

  /** What each pass makes of one well-formed attribute, and that every stage is a piece. */
  lemma AttributeStages(a: Attribute)
    requires WellFormed(a)
    ensures IsPiece(Piece(a)) && PieceOut(Piece(a), DomainPattern, "") == AfterDomain(a)
    ensures IsPiece(AfterDomain(a)) && PieceOut(AfterDomain(a), SecurePattern, "") == AfterSecure(a)
    ensures IsPiece(AfterSecure(a)) && PieceOut(AfterSecure(a), SameSiteNonePattern, Lax) == Kept(a)
    ensures Kept(a) == [] || CleanEnd(Kept(a))
  {
    WellFormedPiece(a);
    DomainPass(a);
    SecurePass(a);
    SameSitePass(a);
    assert Lax[|Lax| - 1] == 'x';
  }

  lemma DomainStage(nv: string, attrs: seq<Attribute>, t: string)
    requires NoSemicolon(nv) && Trailer(t)
    requires forall i :: 0 <= i < |attrs| ==> WellFormed(attrs[i])
    ensures ReplaceAll(nv + Join(Stage(attrs, Piece) + [t]), DomainPattern, "") == nv + Join(Stage(attrs, AfterDomain) + [t])
  {
    forall i | 0 <= i < |attrs|
      ensures IsPiece(Piece(attrs[i])) && PieceOut(Piece(attrs[i]), DomainPattern, "") == AfterDomain(attrs[i])
    {
      AttributeStages(attrs[i]);
    }
    PassStage(nv, attrs, t, DomainPattern, "", Piece, AfterDomain);
  }

  lemma SecureStage(nv: string, attrs: seq<Attribute>, t: string)
    requires NoSemicolon(nv) && Trailer(t)
    requires forall i :: 0 <= i < |attrs| ==> WellFormed(attrs[i])
    ensures ReplaceAll(nv + Join(Stage(attrs, AfterDomain) + [t]), SecurePattern, "") == nv + Join(Stage(attrs, AfterSecure) + [t])
  {
    forall i | 0 <= i < |attrs|
      ensures IsPiece(AfterDomain(attrs[i])) && PieceOut(AfterDomain(attrs[i]), SecurePattern, "") == AfterSecure(attrs[i])
    {
      AttributeStages(attrs[i]);
    }
    PassStage(nv, attrs, t, SecurePattern, "", AfterDomain, AfterSecure);
  }

  lemma SameSiteStage(nv: string, attrs: seq<Attribute>, t: string)
    requires NoSemicolon(nv) && Trailer(t)
    requires forall i :: 0 <= i < |attrs| ==> WellFormed(attrs[i])
    ensures ReplaceAll(nv + Join(Stage(attrs, AfterSecure) + [t]), SameSiteNonePattern, Lax) == nv + Join(Stage(attrs, Kept) + [t])
  {
    forall i | 0 <= i < |attrs|
      ensures IsPiece(AfterSecure(attrs[i])) && PieceOut(AfterSecure(attrs[i]), SameSiteNonePattern, Lax) == Kept(attrs[i])
    {
      AttributeStages(attrs[i]);
    }
    PassStage(nv, attrs, t, SameSiteNonePattern, Lax, AfterSecure, Kept);
  }

  /** The three replacements, attribute by attribute. */
  lemma ThreePasses(nv: string, attrs: seq<Attribute>, t: string)
    requires NoSemicolon(nv) && Trailer(t)
    requires forall i :: 0 <= i < |attrs| ==> WellFormed(attrs[i])
    ensures var noDomain := ReplaceAll(Cookie(nv, attrs) + t, DomainPattern, "");
      var noSecure := ReplaceAll(noDomain, SecurePattern, "");
      ReplaceAll(noSecure, SameSiteNonePattern, Lax) == nv + Join(Stage(attrs, Kept)) + t
  {
    JoinAppend(Stage(attrs, Piece), t);
    assert Cookie(nv, attrs) + t == nv + Join(Stage(attrs, Piece) + [t]);
    DomainStage(nv, attrs, t);
    SecureStage(nv, attrs, t);
    SameSiteStage(nv, attrs, t);
    JoinAppend(Stage(attrs, Kept), t);
    assert nv + Join(Stage(attrs, Kept) + [t]) == nv + Join(Stage(attrs, Kept)) + t;
  }

  /** Whatever survives the passes ends cleanly after a clean name=value. */
  lemma KeptCleanEnd(nv: string, attrs: seq<Attribute>)
    requires CleanEnd(nv)
    requires forall i :: 0 <= i < |attrs| ==> WellFormed(attrs[i])
    ensures CleanEnd(nv + Join(Stage(attrs, Kept)))
  {
    forall i | 0 <= i < |attrs| ensures Stage(attrs, Kept)[i] == [] || CleanEnd(Stage(attrs, Kept)[i]) {
      AttributeStages(attrs[i]);
    }
    JoinCleanEnd(nv, Stage(attrs, Kept));
  }

  /**
   * The rewrite of a cookie written as name=value, well-formed attributes and
   * perhaps a trailing `;`: every `Domain` and `Secure` attribute is gone,
   * `SameSite=None` has become `SameSite=Lax`, every other attribute is kept
   * in its place, and the trailing `;` is gone.
   */
  lemma RewriteCookieByAttribute(nv: string, attrs: seq<Attribute>, t: string)
    requires NoSemicolon(nv) && CleanEnd(nv) && Trailer(t)
    requires forall i :: 0 <= i < |attrs| ==> WellFormed(attrs[i])
    ensures RewriteCookie(Cookie(nv, attrs) + t) == nv + Join(Stage(attrs, Kept))
  {
    ThreePasses(nv, attrs, t);
    KeptCleanEnd(nv, attrs);
    StripTrailer(nv + Join(Stage(attrs, Kept)), t);
  }

  // ----- What the rewrite leaves -----

  /** The attributes a rewritten cookie has: `Domain` and `Secure` dropped, `SameSite=None` as `SameSite=Lax`. */
  function Survivors(attrs: seq<Attribute>): (r: seq<Attribute>)
    ensures |r| <= |attrs|
    ensures forall i :: 0 <= i < |r| ==> r[i].Other?
  {
    if attrs == [] then []
    else
      var rest := Survivors(attrs[1..]);
      match attrs[0]
      case Domain(_, _, _) => rest
      case Secure(_, _) => rest
      case SameSiteNone(_, _) => [LaxAttribute] + rest
      case Other(_) => [attrs[0]] + rest
  }

  lemma {:induction false} StageFirst(attrs: seq<Attribute>, f: Attribute -> string)
    requires attrs != []
    ensures Join(Stage(attrs, f)) == f(attrs[0]) + Join(Stage(attrs[1..], f))
  {
    assert Stage(attrs, f)[1..] == Stage(attrs[1..], f);
  }

  lemma SurvivorsFirstDropped(attrs: seq<Attribute>)
    requires attrs != [] && (attrs[0].Domain? || attrs[0].Secure?)
    ensures Join(Stage(Survivors(attrs), Piece)) == Kept(attrs[0]) + Join(Stage(Survivors(attrs[1..]), Piece))
  {
    assert Survivors(attrs) == Survivors(attrs[1..]);
    assert Kept(attrs[0]) == [];
  }

  lemma {:induction false} StageCons(b: Attribute, rest: seq<Attribute>, f: Attribute -> string)
    ensures Join(Stage([b] + rest, f)) == f(b) + Join(Stage(rest, f))
  {
    StageFirst([b] + rest, f);
    assert ([b] + rest)[1..] == rest;
  }

  lemma SurvivorsFirstKept(attrs: seq<Attribute>)
    requires attrs != [] && (attrs[0].SameSiteNone? || attrs[0].Other?)
    ensures Join(Stage(Survivors(attrs), Piece)) == Kept(attrs[0]) + Join(Stage(Survivors(attrs[1..]), Piece))
  {
    var rest := Survivors(attrs[1..]);
    if attrs[0].SameSiteNone? {
      assert Survivors(attrs) == [LaxAttribute] + rest;
      StageCons(LaxAttribute, rest, Piece);
    } else {
      assert Survivors(attrs) == [attrs[0]] + rest;
      StageCons(attrs[0], rest, Piece);
    }
  }

  /** What the passes keep is exactly the pieces of the surviving attributes. */
  lemma {:induction false} KeptAreSurvivors(attrs: seq<Attribute>)
    ensures Join(Stage(attrs, Kept)) == Join(Stage(Survivors(attrs), Piece))
  {
    if attrs != [] {
      StageFirst(attrs, Kept);
      KeptAreSurvivors(attrs[1..]);
      if attrs[0].Domain? || attrs[0].Secure? {
        SurvivorsFirstDropped(attrs);
      } else {
        SurvivorsFirstKept(attrs);
      }
    }
  }

  lemma {:induction false} WordAtSplit(s: string, k: nat, w1: string, w2: string)
    requires k <= |s| && WordAt(s, k, w1 + w2)
    ensures k + |w1| <= |s| && WordAt(s, k + |w1|, w2)
    decreases |w1|
  {
    if w1 == [] {
      assert w1 + w2 == w2;
    } else {
      assert (w1 + w2)[1..] == w1[1..] + w2;
      WordAtSplit(s, k + 1, w1[1..], w2);
    }
  }

  /** Past `;` and white space, a literal that is not spelled there means no match. */
  lemma NoWordNoMatch(s: string, p: Pattern, k: nat)
    requires s != [] && s[0] == ';'
    requires SkipSpaces(s, 1) == k && !WordAt(s, k, PatternWord(p))
    ensures MatchAt(s, p).None?
  {
  }

  lemma LaxSkip()
    ensures SkipSpaces(Lax, 1) == 2
  {
    assert Lax[1] == ' ' && Lax[2] == 'S';
    SkipSpacesTo(Lax, 1, 2);
  }

  lemma LaxNotDomain()
    ensures MatchAt(Lax, DomainPattern).None?
  {
    LaxSkip();
    assert Lax[2] == 'S';
    NoWordNoMatch(Lax, DomainPattern, 2);
  }

  lemma LaxNotSecure()
    ensures MatchAt(Lax, SecurePattern).None?
  {
    LaxSkip();
    assert Lax[2] == 'S' && Lax[3] == 'a';
    NoWordNoMatch(Lax, SecurePattern, 2);
  }

  /** A literal is not spelled where its tail is not spelled. */
  lemma NotWordAtJoin(s: string, k: nat, w1: string, w2: string)
    requires k + |w1| <= |s| && !WordAt(s, k + |w1|, w2)
    ensures !WordAt(s, k, w1 + w2)
  {
    if WordAt(s, k, w1 + w2) {
      WordAtSplit(s, k, w1, w2);
    }
  }

  lemma LaxNotSameSiteNone()
    ensures MatchAt(Lax, SameSiteNonePattern).None?
  {
    LaxSkip();
    assert Lax[11] == 'L';
    NotWordAtJoin(Lax, 2, "samesite=", "none");
    assert "samesite=" + "none" == "samesite=none";
    NoWordNoMatch(Lax, SameSiteNonePattern, 2);
  }

  /** `SameSite=Lax` is an attribute none of the patterns reads. */
  lemma LaxWellFormed()
    ensures WellFormed(LaxAttribute)
  {
    NoSemicolonOf(" SameSite=Lax");
    LaxNotDomain();
    LaxNotSecure();
    LaxNotSameSiteNone();
  }

  /** Every survivor is one of the attributes or `SameSite=Lax`, so it has any property they all have. */
  lemma {:induction false} SurvivorsHave(attrs: seq<Attribute>, has: Attribute -> bool)
    requires has(LaxAttribute)
    requires forall i :: 0 <= i < |attrs| ==> has(attrs[i])
    ensures forall i :: 0 <= i < |Survivors(attrs)| ==> has(Survivors(attrs)[i])
  {
    if attrs != [] {
      var tail := attrs[1..];
      assert forall i :: 0 <= i < |tail| ==> tail[i] == attrs[i + 1];
      SurvivorsHave(tail, has);
      var rest := Survivors(tail);
      if attrs[0].SameSiteNone? || attrs[0].Other? {
        var head := if attrs[0].SameSiteNone? then LaxAttribute else attrs[0];
        var r := [head] + rest;
        assert Survivors(attrs) == r;
        forall i | 0 <= i < |r| ensures has(r[i]) {
          if i > 0 {
            assert r[i] == rest[i - 1];
          }
        }
      }
    }
  }

  lemma SurvivorsWellFormed(attrs: seq<Attribute>)
    requires forall i :: 0 <= i < |attrs| ==> WellFormed(attrs[i])
    ensures forall i :: 0 <= i < |Survivors(attrs)| ==> WellFormed(Survivors(attrs)[i])
  {
    LaxWellFormed();
    SurvivorsHave(attrs, WellFormed);
  }

  /** On attributes that are all kept, the passes change nothing. */
  lemma {:induction false} SurvivorsKept(attrs: seq<Attribute>)
    requires forall i :: 0 <= i < |attrs| ==> attrs[i].Other?
    ensures Survivors(attrs) == attrs
  {
    if attrs != [] {
      SurvivorsKept(attrs[1..]);
      assert attrs == [attrs[0]] + attrs[1..];
    }
  }

  /**
   * The rewrite of a well-formed cookie is the cookie with the surviving
   * attributes, and rewriting that again changes nothing.
   */
  lemma RewriteCookieSurvivors(nv: string, attrs: seq<Attribute>, t: string)
    requires NoSemicolon(nv) && CleanEnd(nv) && Trailer(t)
    requires forall i :: 0 <= i < |attrs| ==> WellFormed(attrs[i])
    ensures RewriteCookie(Cookie(nv, attrs) + t) == Cookie(nv, Survivors(attrs))
    ensures RewriteCookie(RewriteCookie(Cookie(nv, attrs) + t)) == RewriteCookie(Cookie(nv, attrs) + t)
  {
    RewriteCookieByAttribute(nv, attrs, t);
    KeptAreSurvivors(attrs);
    var rest := Survivors(attrs);
    SurvivorsWellFormed(attrs);
    SurvivorsKept(rest);
    RewriteCookieByAttribute(nv, rest, []);
    KeptAreSurvivors(rest);
    assert Cookie(nv, rest) + [] == Cookie(nv, rest);
  }

  lemma SecExampleText()
    ensures "a=b; Sec; Secureure" == "a=b" + Join(["; Sec", "; Secureure"])
  {
    assert Join(["; Secureure"]) == "; Secureure" + Join([]);
    assert ["; Sec", "; Secureure"][1..] == ["; Secureure"];
  }

  lemma SecPieceUnmatched(p1: string)
    requires p1 == "; Sec"
    ensures IsPiece(p1) && PieceOut(p1, SecurePattern, "") == p1
  {
    NoSemicolonOf(" Sec");
    assert p1[1..] == " Sec";
    assert p1[1] == ' ' && p1[2] == 'S' && p1[3] == 'e' && p1[4] == 'c' && |p1| == 5;
    assert !WordAt(p1, 2, "secure");
    NoWordNoMatch(p1, SecurePattern, 2);
  }

  lemma SecurePieceMatched(p2: string)
    requires p2 == "; Secureure"
    ensures IsPiece(p2) && PieceOut(p2, SecurePattern, "") == "ure"
  {
    NoSemicolonOf(" Secureure");
    assert p2[1..] == " Secureure";
    assert p2[1] == ' ' && p2[2] == 'S';
    SecureLiteralWord();
    assert p2 == "; Secure" + "ure";
    WordAtExtend("; Secure", "ure", 2, "secure");
    WordMatches(p2, SecurePattern, 2);
    assert p2[8..] == "ure";
  }

  lemma SecExampleJoin()
    ensures "a=b" + Join(["; Sec", "ure"]) == "a=b; Secure"
  {
    assert Join(["ure"]) == "ure" + Join([]);
    assert ["; Sec", "ure"][1..] == ["ure"];
  }

  lemma SecureLiteralWord()
    ensures WordAt("; Secure", 2, "secure")
  {
  }

  lemma SecureLiteralMatches()
    ensures MatchAt("; Secure", SecurePattern) == Some(8)
  {
    var s := "; Secure";
    assert s[1] == ' ' && s[2] == 'S';
    SecureLiteralWord();
    WordMatches(s, SecurePattern, 2);
  }

  lemma OutsOfTwo(a: string, b: string, p: Pattern, rep: string)
    requires IsPiece(a) && IsPiece(b)
    ensures forall i :: 0 <= i < |[a, b]| ==> IsPiece([a, b][i])
    ensures Outs([a, b], p, rep) == [PieceOut(a, p, rep), PieceOut(b, p, rep)]
  {
  }

  /**
   * Without a word boundary after `Secure`, the pass can remove `; Secure`
   * from inside an attribute and join what was around it into a fresh
   * `; Secure`: a second rewrite would change the header again.
   */
  lemma SecurePassCanLeaveSecure(c: string)
    requires c == "a=b; Sec; Secureure"
    ensures ReplaceAll(c, SecurePattern, "") == "a=b; Secure"
    ensures MatchAt("; Secure", SecurePattern) == Some(8)
  {
    SecExampleText();
    var segs := ["; Sec", "; Secureure"];
    SecPieceUnmatched(segs[0]);
    SecurePieceMatched(segs[1]);
    OutsOfTwo(segs[0], segs[1], SecurePattern, "");
    NoSemicolonOf("a=b");
    ReplacePieces("a=b", segs, SecurePattern, "");
    SecExampleJoin();
    SecureLiteralMatches();
  }

  // ----- The proxied response's headers -----

  /** A header value: one string or an array of strings. */
  datatype HeaderValue = Single(text: string) | Multiple(texts: seq<string>)

  const SetCookieHeader: string := "set-cookie"

  /** Whether the rewrite has work to do: the header is present and not the empty string (`!setCookie`). */
  predicate HasSetCookie(h: map<string, HeaderValue>) {
    SetCookieHeader in h && h[SetCookieHeader] != Single("")
  }

  /** The cookies of a header value: a single string is a one-element array. */
  function CookieList(v: HeaderValue): seq<string> {
    match v
    case Single(c) => [c]
    case Multiple(cs) => cs
  }

  /** `.map(c => …)`: each cookie rewritten, in order. */
  function RewriteAll(cs: seq<string>): seq<string> {
    seq(|cs|, i requires 0 <= i < |cs| => RewriteCookie(cs[i]))
  }

  /** The headers after `rewriteCookiesForProxy`. */
  function RewriteHeaders(h: map<string, HeaderValue>): (r: map<string, HeaderValue>)
    ensures r.Keys == h.Keys
    ensures forall k :: k in h && k != SetCookieHeader ==> r[k] == h[k]
    ensures !HasSetCookie(h) ==> r == h
    ensures HasSetCookie(h) ==>
      && r[SetCookieHeader].Multiple?
      && |r[SetCookieHeader].texts| == |CookieList(h[SetCookieHeader])|
      && forall i :: 0 <= i < |r[SetCookieHeader].texts| ==>
           r[SetCookieHeader].texts[i] == RewriteCookie(CookieList(h[SetCookieHeader])[i])
  {
    if !HasSetCookie(h) then h
    else h[SetCookieHeader := Multiple(RewriteAll(CookieList(h[SetCookieHeader])))]
  }

  /** A `Set-Cookie` value in the shape the theorem above covers. */
  datatype SetCookie = SetCookie(nameValue: string, attrs: seq<Attribute>, trailer: string)

  predicate Proper(c: SetCookie) {
    && NoSemicolon(c.nameValue) && CleanEnd(c.nameValue) && Trailer(c.trailer)
    && forall i :: 0 <= i < |c.attrs| ==> WellFormed(c.attrs[i])
  }

  function HeaderText(c: SetCookie): string {
    Cookie(c.nameValue, c.attrs) + c.trailer
  }

  /** The cookie the rewrite makes of `c`. */
  function Rewritten(c: SetCookie): SetCookie {
    SetCookie(c.nameValue, Survivors(c.attrs), "")
  }

  lemma RewrittenProper(c: SetCookie)
    requires Proper(c)
    ensures Proper(Rewritten(c))
    ensures RewriteCookie(HeaderText(c)) == HeaderText(Rewritten(c))
    ensures RewriteCookie(HeaderText(Rewritten(c))) == HeaderText(Rewritten(c))
  {
    SurvivorsWellFormed(c.attrs);
    RewriteCookieSurvivors(c.nameValue, c.attrs, c.trailer);
    assert HeaderText(Rewritten(c)) == Cookie(c.nameValue, Survivors(c.attrs)) + [];
  }

  /**
   * When every cookie of the header is proper, the header becomes the array of
   * the rewritten cookies, in order, and a second rewrite changes nothing.
   */
  lemma RewriteProperHeaders(h: map<string, HeaderValue>, cs: seq<SetCookie>)
    requires HasSetCookie(h)
    requires |CookieList(h[SetCookieHeader])| == |cs|
    requires forall i :: 0 <= i < |cs| ==> Proper(cs[i]) && CookieList(h[SetCookieHeader])[i] == HeaderText(cs[i])
    ensures RewriteHeaders(h)[SetCookieHeader] == Multiple(seq(|cs|, i requires 0 <= i < |cs| => HeaderText(Rewritten(cs[i]))))
    ensures RewriteHeaders(RewriteHeaders(h)) == RewriteHeaders(h)
  {
    var r := RewriteHeaders(h);
    forall i | 0 <= i < |cs|
      ensures r[SetCookieHeader].texts[i] == HeaderText(Rewritten(cs[i]))
      ensures RewriteCookie(r[SetCookieHeader].texts[i]) == r[SetCookieHeader].texts[i]
    {
      RewrittenProper(cs[i]);
    }
    var rr := RewriteHeaders(r);
    assert rr[SetCookieHeader] == r[SetCookieHeader];
    assert rr == r;
  }

  /** The proxied response, whose headers the rewrite updates in place. */
  class ProxyResponse {
    var headers: map<string, HeaderValue>

    constructor(headers: map<string, HeaderValue>)
      ensures this.headers == headers
    {
      this.headers := headers;
    }

    /** `rewriteCookiesForProxy(proxyRes)`. */
    method RewriteCookiesForProxy()
      modifies this
      ensures headers == RewriteHeaders(old(headers))
    {
      if SetCookieHeader !in headers || headers[SetCookieHeader] == Single("") {
        return;
      }
      var setCookie := headers[SetCookieHeader];
      headers := headers[SetCookieHeader := Multiple(RewriteAll(CookieList(setCookie)))];
    }
  }
}
