/**
 * `sanitizeCode` of the snippet sandbox: a fixed chain of fifteen global
 * regular-expression replacements that strip TypeScript syntax before the
 * snippet is handed to the JavaScript engine.
 *
 * Each regular expression is a `Pattern`; `MatchAt` says where a match that
 * starts at a given index ends, and `ReplaceWith` is the `/g` replacement
 * loop of String.prototype.replace (leftmost match, resume after it, no
 * overlaps). None of the fifteen expressions can match the empty string, and
 * in each of them a repeated class is disjoint from what follows it, so the
 * backtracking engine's answer at an index is the longest prefix in the
 * expression's language: `MatchAtIsLongest` proves `MatchAt` against the
 * declarative `InLanguage`.
 */
module Sanitizer {

  import opened Wrappers

  /** `\s`: the WhiteSpace and LineTerminator code points of ECMA-262. */
  predicate IsWs(c: char) {
    || c == '\t' || c == '\n' || c == '\U{000B}' || c == '\U{000C}' || c == '\r'
    || c == ' ' || c == '\U{00A0}' || c == '\U{1680}' || ('\U{2000}' <= c <= '\U{200A}')
    || c == '\U{2028}' || c == '\U{2029}' || c == '\U{202F}' || c == '\U{205F}'
    || c == '\U{3000}' || c == '\U{FEFF}'
  }

  /** `\w`: ASCII letters, digits and the underscore. */
  predicate IsWordChar(c: char) {
    ('a' <= c <= 'z') || ('A' <= c <= 'Z') || ('0' <= c <= '9') || c == '_'
  }

  /** The character classes the fifteen expressions repeat: `\s`, `\w`, `[^c]`. */
  datatype CharClass = Space | WordChar | Except(excluded: char)

  predicate InClass(k: CharClass, c: char) {
    match k
    case Space => IsWs(c)
    case WordChar => IsWordChar(c)
    case Except(x) => c != x
  }

  /** Every character of `s[lo..hi]` is in class `k`. */
  predicate AllIn(s: string, lo: int, hi: int, k: CharClass) {
    0 <= lo <= hi <= |s| && forall m :: lo <= m < hi ==> InClass(k, s[m])
  }

  /** `w` occurs in `s` at index `i`. */
  predicate OccursAt(s: string, i: int, w: string) {
    0 <= i && i + |w| <= |s| && s[i..i + |w|] == w
  }

  /** Where a greedy run of class `k` that starts at `j` stops. */
  function RunEnd(s: string, j: nat, k: CharClass): (e: nat)
    requires j <= |s|
    ensures j <= e <= |s| && AllIn(s, j, e, k)
    ensures e == |s| || !InClass(k, s[e])
    decreases |s| - j
  {
    if j < |s| && InClass(k, s[j]) then RunEnd(s, j + 1, k) else j
  }

  /** A run of class `k` stops at the first character outside `k`. */
  lemma RunEndIsFirstOutside(s: string, j: nat, e: nat, k: CharClass)
    requires j <= e <= |s| && AllIn(s, j, e, k) && (e == |s| || !InClass(k, s[e]))
    ensures RunEnd(s, j, k) == e
  {
  }

  datatype Pattern =
    | Annotation(typeName: string)   // /:\s*typeName/g
    | ArrayAnnotation                // /:\s*\w+\[\]/g
    | ObjectAnnotation               // /:\s*\{[^}]+\}/g
    | Declaration(keyword: string, open: char, close: char)
                                     // /keyword\s+\w+\s*open[^close]+close/g
    | TypeArgument                   // /<\w+>/g
    | OptionalMarker                 // /\?\s*:/g
    | Modifier(keyword: string)      // /keyword\s+/g

  /** The patterns the model reasons about: a type name starts with a non-space. */
  predicate WellFormed(p: Pattern) {
    && (p.Annotation? ==> |p.typeName| > 0 && !IsWs(p.typeName[0]))
    && (p.Declaration? ==> |p.keyword| > 0 && !IsWs(p.open) && !IsWordChar(p.open))
    && (p.Modifier? ==> |p.keyword| > 0)
  }

  /** The shortest string in the pattern's language. */
  function MinLength(p: Pattern): nat {
    match p
    case Annotation(n) => 1 + |n|
    case ArrayAnnotation => 4
    case ObjectAnnotation => 4
    case Declaration(kw, _, _) => |kw| + 5
    case TypeArgument => 3
    case OptionalMarker => 2
    case Modifier(w) => |w| + 1
  }

  /** `[^x]+x` spans `t[lo..]`: a non-empty run without `x`, then the final `x`. */
  predicate ClosedBy(t: string, lo: int, x: char) {
    0 <= lo < |t| - 1 && AllIn(t, lo, |t| - 1, Except(x)) && t[|t| - 1] == x
  }

  /**
   * The language of each regular expression, written as the expression reads:
   * literal parts, and runs of a class between split points.
   */
  ghost predicate InLanguage(p: Pattern, t: string) {
    match p
    case Annotation(n) =>
      |t| >= 1 + |n| && t[0] == ':' && AllIn(t, 1, |t| - |n|, Space) && t[|t| - |n|..] == n
    case ArrayAnnotation =>
      |t| >= 4 && t[0] == ':' && t[|t| - 2..] == "[]" &&
      exists a :: 1 <= a < |t| - 2 && AllIn(t, 1, a, Space) && AllIn(t, a, |t| - 2, WordChar)
    case ObjectAnnotation =>
      |t| >= 4 && t[0] == ':' &&
      exists a :: 1 <= a && AllIn(t, 1, a, Space) && ClosedBy(t, a + 1, '}') && t[a] == '{'
    case Declaration(kw, open, close) =>
      OccursAt(t, 0, kw) &&
      exists a, b, c :: |kw| < a < b <= c && AllIn(t, |kw|, a, Space) && AllIn(t, a, b, WordChar)
                        && AllIn(t, b, c, Space) && ClosedBy(t, c + 1, close) && t[c] == open
    case TypeArgument =>
      |t| >= 3 && t[0] == '<' && t[|t| - 1] == '>' && AllIn(t, 1, |t| - 1, WordChar)
    case OptionalMarker =>
      |t| >= 2 && t[0] == '?' && t[|t| - 1] == ':' && AllIn(t, 1, |t| - 1, Space)
    case Modifier(w) =>
      |t| > |w| && t[..|w|] == w && AllIn(t, |w|, |t|, Space)
  }

  /**
   * The tail shared by the object, interface and alias patterns: an opening
   * character at `c`, then at least one character other than `close`, then
   * `close`; the result is the index just past `close`.
   */
  function Delimited(s: string, c: nat, open: char, close: char): (r: Option<nat>)
    requires c <= |s|
    ensures r.Some? ==> c + 3 <= r.value <= |s|
    ensures r.Some? ==> s[c] == open && s[r.value - 1] == close
  {
    if OccursAt(s, c, [open]) then
      var k := RunEnd(s, c + 1, Except(close));
      if c + 1 < k < |s| then Some(k + 1) else None
    else None
  }

  /** `\w+\s*` then the delimited tail, from index `a`. */
  function NamedBlock(s: string, a: nat, open: char, close: char): (r: Option<nat>)
    requires a <= |s|
    ensures r.Some? ==> a + 4 <= r.value <= |s|
  {
    var b := RunEnd(s, a, WordChar);
    if a < b then Delimited(s, RunEnd(s, b, Space), open, close) else None
  }

  /**
   * The shape shared by the interface and alias patterns: the keyword `kw`,
   * at least one whitespace, a name of at least one word character, optional
   * whitespace, then the delimited tail.
   */
  function MatchDeclaration(s: string, i: nat, kw: string, open: char, close: char): (r: Option<nat>)
    requires i <= |s|
    ensures r.Some? ==> i + |kw| + 5 <= r.value <= |s|
  {
    if OccursAt(s, i, kw) then
      var a := RunEnd(s, i + |kw|, Space);
      if i + |kw| < a then NamedBlock(s, a, open, close) else None
    else None
  }

  /** `:\s*` followed by the type name `n`. */
  function MatchAnnotation(s: string, i: nat, n: string): (r: Option<nat>)
    requires i <= |s|
    ensures r.Some? ==> i + 1 + |n| <= r.value <= |s|
  {
    if OccursAt(s, i, ":") then
      var j := RunEnd(s, i + 1, Space);
      if OccursAt(s, j, n) then Some(j + |n|) else None
    else None
  }

  /** `:\s*\w+\[\]` */
  function MatchArrayAnnotation(s: string, i: nat): (r: Option<nat>)
    requires i <= |s|
    ensures r.Some? ==> i + 4 <= r.value <= |s|
  {
    if OccursAt(s, i, ":") then
      var j := RunEnd(s, i + 1, Space);
      var k := RunEnd(s, j, WordChar);
      if j < k && OccursAt(s, k, "[]") then Some(k + 2) else None
    else None
  }

  /** `:\s*\{[^}]+\}` */
  function MatchObjectAnnotation(s: string, i: nat): (r: Option<nat>)
    requires i <= |s|
    ensures r.Some? ==> i + 4 <= r.value <= |s|
  {
    if OccursAt(s, i, ":") then
      var j := RunEnd(s, i + 1, Space);
      Delimited(s, j, '{', '}')
    else None
  }

  /** `<\w+>` */
  function MatchTypeArgument(s: string, i: nat): (r: Option<nat>)
    requires i <= |s|
    ensures r.Some? ==> i + 3 <= r.value <= |s|
  {
    if OccursAt(s, i, "<") then
      var k := RunEnd(s, i + 1, WordChar);
      if i + 1 < k && OccursAt(s, k, ">") then Some(k + 1) else None
    else None
  }

  /** `\?\s*:` */
  function MatchOptionalMarker(s: string, i: nat): (r: Option<nat>)
    requires i <= |s|
    ensures r.Some? ==> i + 2 <= r.value <= |s|
  {
    if OccursAt(s, i, "?") then
      var j := RunEnd(s, i + 1, Space);
      if OccursAt(s, j, ":") then Some(j + 1) else None
    else None
  }

  /** The keyword `w` followed by `\s+`. */
  function MatchModifier(s: string, i: nat, w: string): (r: Option<nat>)
    requires i <= |s|
    ensures r.Some? ==> i + |w| + 1 <= r.value <= |s|
  {
    if OccursAt(s, i, w) then
      var k := RunEnd(s, i + |w|, Space);
      if i + |w| < k then Some(k) else None
    else None
  }

  /**
   * The end of the match of `p` that starts at index `i` of `s`, if any.
   * The `\s*`/`\w+` runs are greedy and every `[^c]+` stops at the first `c`.
   */
  function MatchAt(p: Pattern, s: string, i: nat): (r: Option<nat>)
    requires i <= |s|
    ensures r.Some? ==> i + MinLength(p) <= r.value <= |s|
  {
    match p
    case Annotation(n) => MatchAnnotation(s, i, n)
    case ArrayAnnotation => MatchArrayAnnotation(s, i)
    case ObjectAnnotation => MatchObjectAnnotation(s, i)
    case Declaration(kw, open, close) => MatchDeclaration(s, i, kw, open, close)
    case TypeArgument => MatchTypeArgument(s, i)
    case OptionalMarker => MatchOptionalMarker(s, i)
    case Modifier(w) => MatchModifier(s, i, w)
  }

  /** One `.replace(pattern, replacement)` step of the chain. */
  datatype Rule = Rule(pattern: Pattern, replacement: string)

  /** A replacement shorter than any match: every rule of the chain is one. */
  predicate Shortening(r: Rule) {
    |r.replacement| < MinLength(r.pattern)
  }

  /** The end of the match that starts at a given index, if there is one. */
  type Matcher = (string, nat) -> Option<nat>

  /** Every match ends after its start and inside the string. */
  ghost predicate Advances(m: Matcher) {
    forall s: string, i: nat :: i <= |s| && m(s, i).Some? ==> i < m(s, i).value <= |s|
  }

  /** Every match in `s` is longer than the replacement. */
  ghost predicate Shrinking(m: Matcher, repl: string, s: string) {
    forall k: nat :: k <= |s| && m(s, k).Some? ==> k + |repl| < m(s, k).value
  }

  /**
   * String.prototype.replace with a global expression, from index `i` on:
   * try a match at `i`; on a match emit the replacement and resume at its
   * end, otherwise copy `s[i]` and try the next index.
   */
  function ReplaceWith(m: Matcher, repl: string, s: string, i: nat): (out: string)
    requires Advances(m) && i <= |s|
    ensures Shrinking(m, repl, s) ==> |out| <= |s| - i
    decreases |s| - i
  {
    if i == |s| then ""
    else
      match m(s, i)
      case Some(e) => repl + ReplaceWith(m, repl, s, e)
      case None => [s[i]] + ReplaceWith(m, repl, s, i + 1)
  }

  /** The matcher of a pattern. */
  function MatcherOf(p: Pattern): Matcher {
    (s: string, i: nat) => if i <= |s| then MatchAt(p, s, i) else None
  }

  lemma MatcherAdvances(p: Pattern)
    ensures Advances(MatcherOf(p))
  {
  }

  lemma MatcherShrinking(r: Rule, s: string)
    ensures Shortening(r) ==> Shrinking(MatcherOf(r.pattern), r.replacement, s)
  {
  }

  /** `s.replace(pattern, replacement)` with the rule's global expression. */
  function ReplaceAll(r: Rule, s: string): (out: string)
    ensures Shortening(r) ==> |out| <= |s|
  {
    MatcherAdvances(r.pattern);
    MatcherShrinking(r, s);
    ReplaceWith(MatcherOf(r.pattern), r.replacement, s, 0)
  }

  /** The chain of sandbox-worker.ts:25-39, in its order. */
  const Rules: seq<Rule> := [
    Rule(Annotation("string"), ""),
    Rule(Annotation("number"), ""),
    Rule(Annotation("boolean"), ""),
    Rule(Annotation("any"), ""),
    Rule(Annotation("void"), ""),
    Rule(ArrayAnnotation, ""),
    Rule(ObjectAnnotation, ""),
    Rule(Declaration("interface", '{', '}'), ""),
    Rule(Declaration("type", '=', ';'), ""),
    Rule(TypeArgument, ""),
    Rule(OptionalMarker, ":"),
    Rule(Modifier("private"), ""),
    Rule(Modifier("public"), ""),
    Rule(Modifier("protected"), ""),
    Rule(Modifier("readonly"), "")
  ]

  /** Apply the rules one after the other, each to the whole previous result. */
  function ApplyRules(rules: seq<Rule>, s: string): (out: string)
    ensures (forall k :: 0 <= k < |rules| ==> Shortening(rules[k])) ==> |out| <= |s|
  {
    if rules == [] then s else ApplyRules(rules[1..], ReplaceAll(rules[0], s))
  }

  /**
   * sanitizeCode (sandbox-worker.ts:23-39): strip the TypeScript-only syntax
   * the rules recognise. It never lengthens the code.
   */
  function SanitizeCode(code: string): (r: string)
    ensures |r| <= |code|
  {
    RulesWellFormed();
    ApplyRules(Rules, code)
  }

  // ---------------------------------------------------------------------
  // Facts about slices and runs
  // ---------------------------------------------------------------------

  lemma AllInSlice(s: string, i: nat, e: nat, lo: nat, hi: nat, k: CharClass)
    requires i <= e <= |s| && lo <= hi <= e - i
    ensures AllIn(s[i..e], lo, hi, k) <==> AllIn(s, i + lo, i + hi, k)
  {
    var t := s[i..e];
    if AllIn(s, i + lo, i + hi, k) {
      forall m | lo <= m < hi ensures InClass(k, t[m]) {
        assert t[m] == s[i + m];
      }
    }
    if AllIn(t, lo, hi, k) {
      forall m | i + lo <= m < i + hi ensures InClass(k, s[m]) {
        assert s[m] == t[m - i];
      }
    }
  }

  lemma OccursInSlice(s: string, i: nat, e: nat, a: nat, w: string)
    requires i <= e <= |s| && a + |w| <= e - i
    ensures OccursAt(s[i..e], a, w) <==> OccursAt(s, i + a, w)
  {
    var x, y := s[i..e][a..a + |w|], s[i + a..i + a + |w|];
    forall m | 0 <= m < |w| ensures x[m] == y[m] {
      assert x[m] == s[i + a + m];
    }
    assert x == y;
  }

  /** A run of class `k` reaches at least as far as any all-`k` stretch from its start. */
  lemma RunEndCovers(s: string, j: nat, e: nat, k: CharClass)
    requires j <= e <= |s| && AllIn(s, j, e, k)
    ensures RunEnd(s, j, k) >= e
  {
  }

  /** A run of spaces followed by a run without `x` is a run without `x`, when `x` is no space. */
  lemma SpacesThenExcept(s: string, lo: nat, mid: nat, hi: nat, x: char)
    requires !IsWs(x) && AllIn(s, lo, mid, Space) && AllIn(s, mid, hi, Except(x))
    ensures AllIn(s, lo, hi, Except(x))
  {
  }

  lemma WordIsNotSpace(c: char)
    requires IsWordChar(c)
    ensures !IsWs(c)
  {
  }

  lemma OccursSingle(s: string, i: nat, c: char)
    requires i < |s|
    ensures OccursAt(s, i, [c]) <==> s[i] == c
  {
    assert s[i..i + 1] == [s[i]];
  }

  // ---------------------------------------------------------------------
  // MatchAt against the declarative language
  // ---------------------------------------------------------------------

  lemma AnnotationSound(n: string, s: string, i: nat)
    requires i <= |s| && MatchAt(Annotation(n), s, i).Some?
    ensures InLanguage(Annotation(n), s[i..MatchAt(Annotation(n), s, i).value])
  {
    OccursSingle(s, i, ':');
    var j := RunEnd(s, i + 1, Space);
    var e := j + |n|;
    var t := s[i..e];
    AllInSlice(s, i, e, 1, j - i, Space);
    assert t[|t| - |n|..] == s[j..e];
  }

  lemma AnnotationComplete(n: string, s: string, i: nat, e: nat)
    requires WellFormed(Annotation(n)) && i <= e <= |s| && InLanguage(Annotation(n), s[i..e])
    ensures MatchAt(Annotation(n), s, i) == Some(e)
  {
    var t := s[i..e];
    var j := e - |n|;
    assert s[i] == t[0];
    OccursSingle(s, i, ':');
    AllInSlice(s, i, e, 1, j - i, Space);
    assert s[j..e] == t[|t| - |n|..];
    assert s[j] == n[0];
    RunEndIsFirstOutside(s, i + 1, j, Space);
  }

  lemma ArrayAnnotationSound(s: string, i: nat)
    requires i <= |s| && MatchAt(ArrayAnnotation, s, i).Some?
    ensures InLanguage(ArrayAnnotation, s[i..MatchAt(ArrayAnnotation, s, i).value])
  {
    OccursSingle(s, i, ':');
    var j := RunEnd(s, i + 1, Space);
    var k := RunEnd(s, j, WordChar);
    var e := k + 2;
    var t := s[i..e];
    AllInSlice(s, i, e, 1, j - i, Space);
    AllInSlice(s, i, e, j - i, k - i, WordChar);
    assert t[|t| - 2..] == s[k..e];
    assert AllIn(t, 1, j - i, Space) && AllIn(t, j - i, |t| - 2, WordChar);
  }

  /** The parts of an array annotation `s[i..e]`, read off in `s`. */
  lemma ArrayAnnotationParts(s: string, i: nat, e: nat, a: nat)
    requires i <= e <= |s| && 1 <= a < e - i - 2
    requires s[i..e][0] == ':' && s[i..e][e - i - 2..] == "[]"
    requires AllIn(s[i..e], 1, a, Space) && AllIn(s[i..e], a, e - i - 2, WordChar)
    ensures s[i] == ':' && OccursAt(s, e - 2, "[]")
    ensures AllIn(s, i + 1, i + a, Space) && AllIn(s, i + a, e - 2, WordChar)
  {
    var t := s[i..e];
    assert s[i] == t[0];
    AllInSlice(s, i, e, 1, a, Space);
    AllInSlice(s, i, e, a, |t| - 2, WordChar);
    assert s[e - 2..e] == t[|t| - 2..];
  }

  /** An array annotation laid out in `s` is what the matcher finds. */
  lemma ArrayAnnotationAt(s: string, i: nat, j: nat, e: nat)
    requires i < j < e - 2 && e <= |s| && s[i] == ':' && OccursAt(s, e - 2, "[]")
    requires AllIn(s, i + 1, j, Space) && AllIn(s, j, e - 2, WordChar)
    ensures MatchArrayAnnotation(s, i) == Some(e)
  {
    OccursSingle(s, i, ':');
    WordIsNotSpace(s[j]);
    RunEndIsFirstOutside(s, i + 1, j, Space);
    assert s[e - 2] == '[';
    RunEndIsFirstOutside(s, j, e - 2, WordChar);
  }

  lemma ArrayAnnotationComplete(s: string, i: nat, e: nat)
    requires i <= e <= |s| && InLanguage(ArrayAnnotation, s[i..e])
    ensures MatchAt(ArrayAnnotation, s, i) == Some(e)
  {
    var t := s[i..e];
    var a :| 1 <= a < |t| - 2 && AllIn(t, 1, a, Space) && AllIn(t, a, |t| - 2, WordChar);
    ArrayAnnotationParts(s, i, e, a);
    ArrayAnnotationAt(s, i, i + a, e);
  }

  lemma ObjectAnnotationSound(s: string, i: nat)
    requires i <= |s| && MatchAt(ObjectAnnotation, s, i).Some?
    ensures InLanguage(ObjectAnnotation, s[i..MatchAt(ObjectAnnotation, s, i).value])
  {
    OccursSingle(s, i, ':');
    var j := RunEnd(s, i + 1, Space);
    OccursSingle(s, j, '{');
    var k := RunEnd(s, j + 1, Except('}'));
    var e := k + 1;
    var t := s[i..e];
    AllInSlice(s, i, e, 1, j - i, Space);
    AllInSlice(s, i, e, j - i + 1, k - i, Except('}'));
    assert t[j - i] == s[j];
    assert ClosedBy(t, j - i + 1, '}');
  }

  lemma ObjectAnnotationCompleteAt(s: string, i: nat, j: nat, e: nat)
    requires i < j && j + 2 < e <= |s| && s[i] == ':' && AllIn(s, i + 1, j, Space) && s[j] == '{'
    requires AllIn(s, j + 1, e - 1, Except('}')) && s[e - 1] == '}'
    ensures MatchAt(ObjectAnnotation, s, i) == Some(e)
  {
    OccursSingle(s, i, ':');
    RunEndIsFirstOutside(s, i + 1, j, Space);
    OccursSingle(s, j, '{');
    RunEndIsFirstOutside(s, j + 1, e - 1, Except('}'));
  }

  lemma ObjectAnnotationComplete(s: string, i: nat, e: nat)
    requires i <= e <= |s| && InLanguage(ObjectAnnotation, s[i..e])
    ensures MatchAt(ObjectAnnotation, s, i) == Some(e)
  {
    var t := s[i..e];
    var a :| 1 <= a && AllIn(t, 1, a, Space) && ClosedBy(t, a + 1, '}') && t[a] == '{';
    assert s[i] == t[0] && s[i + a] == t[a] && s[e - 1] == t[|t| - 1];
    AllInSlice(s, i, e, 1, a, Space);
    AllInSlice(s, i, e, a + 1, |t| - 1, Except('}'));
    ObjectAnnotationCompleteAt(s, i, i + a, e);
  }

  lemma DeclarationSound(kw: string, open: char, close: char, s: string, i: nat)
    requires i <= |s| && MatchDeclaration(s, i, kw, open, close).Some?
    ensures InLanguage(Declaration(kw, open, close), s[i..MatchDeclaration(s, i, kw, open, close).value])
  {
    var a := RunEnd(s, i + |kw|, Space);
    var b := RunEnd(s, a, WordChar);
    var c := RunEnd(s, b, Space);
    OccursSingle(s, c, open);
    var e := MatchDeclaration(s, i, kw, open, close).value;
    DeclarationSoundAt(kw, open, close, s, i, a, b, c, e);
  }

  lemma DeclarationSoundAt(kw: string, open: char, close: char, s: string, i: nat, a: nat, b: nat, c: nat, e: nat)
    requires i + |kw| < a < b <= c && c + 2 < e <= |s| && OccursAt(s, i, kw)
    requires AllIn(s, i + |kw|, a, Space) && AllIn(s, a, b, WordChar) && AllIn(s, b, c, Space)
    requires s[c] == open && AllIn(s, c + 1, e - 1, Except(close)) && s[e - 1] == close
    ensures InLanguage(Declaration(kw, open, close), s[i..e])
  {
    var t := s[i..e];
    OccursInSlice(s, i, e, 0, kw);
    AllInSlice(s, i, e, |kw|, a - i, Space);
    AllInSlice(s, i, e, a - i, b - i, WordChar);
    AllInSlice(s, i, e, b - i, c - i, Space);
    AllInSlice(s, i, e, c - i + 1, e - 1 - i, Except(close));
    assert t[c - i] == s[c] && t[|t| - 1] == s[e - 1];
    assert ClosedBy(t, c - i + 1, close);
  }

  lemma DeclarationCompleteAt(kw: string, open: char, close: char, s: string, i: nat, a: nat, b: nat, c: nat, e: nat)
    requires !IsWs(open) && !IsWordChar(open)
    requires i + |kw| < a < b <= c && c + 2 < e <= |s| && OccursAt(s, i, kw)
    requires AllIn(s, i + |kw|, a, Space) && AllIn(s, a, b, WordChar) && AllIn(s, b, c, Space)
    requires s[c] == open && AllIn(s, c + 1, e - 1, Except(close)) && s[e - 1] == close
    ensures MatchDeclaration(s, i, kw, open, close) == Some(e)
  {
    WordIsNotSpace(s[a]);
    RunEndIsFirstOutside(s, i + |kw|, a, Space);
    assert !IsWordChar(s[b]);
    RunEndIsFirstOutside(s, a, b, WordChar);
    RunEndIsFirstOutside(s, b, c, Space);
    OccursSingle(s, c, open);
    RunEndIsFirstOutside(s, c + 1, e - 1, Except(close));
  }

  lemma DeclarationCompleteSplit(kw: string, open: char, close: char, s: string, i: nat, e: nat, a: nat, b: nat, c: nat)
    requires !IsWs(open) && !IsWordChar(open) && i <= e <= |s| && OccursAt(s[i..e], 0, kw)
    requires |kw| < a < b <= c && AllIn(s[i..e], |kw|, a, Space) && AllIn(s[i..e], a, b, WordChar)
    requires AllIn(s[i..e], b, c, Space) && ClosedBy(s[i..e], c + 1, close) && s[i..e][c] == open
    ensures MatchDeclaration(s, i, kw, open, close) == Some(e)
  {
    var t := s[i..e];
    OccursInSlice(s, i, e, 0, kw);
    AllInSlice(s, i, e, |kw|, a, Space);
    AllInSlice(s, i, e, a, b, WordChar);
    AllInSlice(s, i, e, b, c, Space);
    AllInSlice(s, i, e, c + 1, |t| - 1, Except(close));
    assert s[i + c] == t[c] && s[e - 1] == t[|t| - 1];
    DeclarationCompleteAt(kw, open, close, s, i, i + a, i + b, i + c, e);
  }

  lemma DeclarationComplete(kw: string, open: char, close: char, s: string, i: nat, e: nat)
    requires !IsWs(open) && !IsWordChar(open)
    requires i <= e <= |s| && InLanguage(Declaration(kw, open, close), s[i..e])
    ensures MatchDeclaration(s, i, kw, open, close) == Some(e)
  {
    var t := s[i..e];
    var a, b, c :| |kw| < a < b <= c && AllIn(t, |kw|, a, Space) && AllIn(t, a, b, WordChar)
                   && AllIn(t, b, c, Space) && ClosedBy(t, c + 1, close) && t[c] == open;
    DeclarationCompleteSplit(kw, open, close, s, i, e, a, b, c);
  }

  /**
   * The type-alias expression reads `=\s*[^;]+;`; since whitespace is never
   * the closing character, the optional whitespace adds no string, and the
   * language is the one of `Declaration(kw, open, close)`.
   */
  ghost predicate SpacedDeclaration(t: string, kw: string, open: char, close: char) {
    OccursAt(t, 0, kw) &&
    exists a, b, c, d :: |kw| < a < b <= c < d && AllIn(t, |kw|, a, Space) && AllIn(t, a, b, WordChar)
                         && AllIn(t, b, c, Space) && AllIn(t, c + 1, d, Space)
                         && ClosedBy(t, d, close) && t[c] == open
  }

  lemma SpacedDeclarationSame(t: string, kw: string, open: char, close: char)
    requires !IsWs(close)
    ensures SpacedDeclaration(t, kw, open, close) <==> InLanguage(Declaration(kw, open, close), t)
  {
    if SpacedDeclaration(t, kw, open, close) {
      var a, b, c, d :| |kw| < a < b <= c < d && AllIn(t, |kw|, a, Space) && AllIn(t, a, b, WordChar)
                        && AllIn(t, b, c, Space) && AllIn(t, c + 1, d, Space)
                        && ClosedBy(t, d, close) && t[c] == open;
      SpacesThenExcept(t, c + 1, d, |t| - 1, close);
      assert ClosedBy(t, c + 1, close);
    }
    if InLanguage(Declaration(kw, open, close), t) {
      var a, b, c :| |kw| < a < b <= c && AllIn(t, |kw|, a, Space) && AllIn(t, a, b, WordChar)
                     && AllIn(t, b, c, Space) && ClosedBy(t, c + 1, close) && t[c] == open;
      assert AllIn(t, c + 1, c + 1, Space);
    }
  }

  lemma TypeArgumentSound(s: string, i: nat)
    requires i <= |s| && MatchAt(TypeArgument, s, i).Some?
    ensures InLanguage(TypeArgument, s[i..MatchAt(TypeArgument, s, i).value])
  {
    OccursSingle(s, i, '<');
    var k := RunEnd(s, i + 1, WordChar);
    OccursSingle(s, k, '>');
    AllInSlice(s, i, k + 1, 1, k - i, WordChar);
  }

  lemma TypeArgumentComplete(s: string, i: nat, e: nat)
    requires i <= e <= |s| && InLanguage(TypeArgument, s[i..e])
    ensures MatchAt(TypeArgument, s, i) == Some(e)
  {
    var t := s[i..e];
    assert s[i] == t[0] && s[e - 1] == t[|t| - 1];
    OccursSingle(s, i, '<');
    AllInSlice(s, i, e, 1, |t| - 1, WordChar);
    RunEndIsFirstOutside(s, i + 1, e - 1, WordChar);
    OccursSingle(s, e - 1, '>');
  }

  lemma OptionalMarkerSound(s: string, i: nat)
    requires i <= |s| && MatchAt(OptionalMarker, s, i).Some?
    ensures InLanguage(OptionalMarker, s[i..MatchAt(OptionalMarker, s, i).value])
  {
    OccursSingle(s, i, '?');
    var j := RunEnd(s, i + 1, Space);
    OccursSingle(s, j, ':');
    AllInSlice(s, i, j + 1, 1, j - i, Space);
  }

  lemma OptionalMarkerComplete(s: string, i: nat, e: nat)
    requires i <= e <= |s| && InLanguage(OptionalMarker, s[i..e])
    ensures MatchAt(OptionalMarker, s, i) == Some(e)
  {
    var t := s[i..e];
    assert s[i] == t[0] && s[e - 1] == t[|t| - 1];
    OccursSingle(s, i, '?');
    AllInSlice(s, i, e, 1, |t| - 1, Space);
    RunEndIsFirstOutside(s, i + 1, e - 1, Space);
    OccursSingle(s, e - 1, ':');
  }

  lemma ModifierSound(w: string, s: string, i: nat)
    requires i <= |s| && MatchAt(Modifier(w), s, i).Some?
    ensures InLanguage(Modifier(w), s[i..MatchAt(Modifier(w), s, i).value])
  {
    var k := RunEnd(s, i + |w|, Space);
    var t := s[i..k];
    assert t[..|w|] == s[i..i + |w|];
    AllInSlice(s, i, k, |w|, k - i, Space);
  }

  lemma ModifierComplete(w: string, s: string, i: nat, e: nat)
    requires i <= e <= |s| && InLanguage(Modifier(w), s[i..e])
    ensures MatchAt(Modifier(w), s, i).Some? && e <= MatchAt(Modifier(w), s, i).value
  {
    var t := s[i..e];
    assert s[i..i + |w|] == t[..|w|];
    AllInSlice(s, i, e, |w|, |t|, Space);
    RunEndCovers(s, i + |w|, e, Space);
  }

  /**
   * What the backtracking engine finds at index `i`: `MatchAt` returns a
   * string of the expression's language, and no longer string of it starts
   * at `i`; it finds nothing exactly when no prefix of `s[i..]` is in the
   * language.
   */
  lemma MatchAtIsLongest(p: Pattern, s: string, i: nat, e: nat)
    requires WellFormed(p) && i <= e <= |s|
    ensures MatchAt(p, s, i) == Some(e) ==> InLanguage(p, s[i..e])
    ensures InLanguage(p, s[i..e]) ==> MatchAt(p, s, i).Some? && e <= MatchAt(p, s, i).value
  {
    match p
    case Annotation(n) =>
      if MatchAt(p, s, i).Some? { AnnotationSound(n, s, i); }
      if InLanguage(p, s[i..e]) { AnnotationComplete(n, s, i, e); }
    case ArrayAnnotation =>
      if MatchAt(p, s, i).Some? { ArrayAnnotationSound(s, i); }
      if InLanguage(p, s[i..e]) { ArrayAnnotationComplete(s, i, e); }
    case ObjectAnnotation =>
      if MatchAt(p, s, i).Some? { ObjectAnnotationSound(s, i); }
      if InLanguage(p, s[i..e]) { ObjectAnnotationComplete(s, i, e); }
    case Declaration(kw, open, close) =>
      if MatchAt(p, s, i).Some? { DeclarationSound(kw, open, close, s, i); }
      if InLanguage(p, s[i..e]) { DeclarationComplete(kw, open, close, s, i, e); }
    case TypeArgument =>
      if MatchAt(p, s, i).Some? { TypeArgumentSound(s, i); }
      if InLanguage(p, s[i..e]) { TypeArgumentComplete(s, i, e); }
    case OptionalMarker =>
      if MatchAt(p, s, i).Some? { OptionalMarkerSound(s, i); }
      if InLanguage(p, s[i..e]) { OptionalMarkerComplete(s, i, e); }
    case Modifier(w) =>
      if MatchAt(p, s, i).Some? { ModifierSound(w, s, i); }
      if InLanguage(p, s[i..e]) { ModifierComplete(w, s, i, e); }
  }

  // ---------------------------------------------------------------------
  // What a match needs, and that a match only looks forward
  // ---------------------------------------------------------------------

  /** The character every match of `p` starts with. */
  function Lead(p: Pattern): char
    requires WellFormed(p)
  {
    match p
    case Annotation(_) => ':'
    case ArrayAnnotation => ':'
    case ObjectAnnotation => ':'
    case Declaration(kw, _, _) => kw[0]
    case TypeArgument => '<'
    case OptionalMarker => '?'
    case Modifier(w) => w[0]
  }

  /** Literal parts that every match of `p` contains. */
  function Required(p: Pattern): seq<string> {
    match p
    case Annotation(n) => [":", n]
    case ArrayAnnotation => [":", "[]"]
    case ObjectAnnotation => [":", "{", "}"]
    case Declaration(kw, open, close) => [kw, [open], [close]]
    case TypeArgument => ["<", ">"]
    case OptionalMarker => ["?", ":"]
    case Modifier(w) => [w]
  }

  ghost predicate Mentions(s: string, w: string) {
    exists j :: OccursAt(s, j, w)
  }

  lemma OccursHead(s: string, i: nat, w: string)
    requires |w| > 0 && OccursAt(s, i, w)
    ensures s[i] == w[0]
  {
    assert s[i..i + |w|][0] == s[i];
  }

  lemma MatchStartsWithLead(p: Pattern, s: string, i: nat)
    requires WellFormed(p) && i <= |s| && MatchAt(p, s, i).Some?
    ensures i < |s| && s[i] == Lead(p)
  {
    match p
    case Annotation(_) => OccursHead(s, i, ":");
    case ArrayAnnotation => OccursHead(s, i, ":");
    case ObjectAnnotation => OccursHead(s, i, ":");
    case Declaration(kw, _, _) => OccursHead(s, i, kw);
    case TypeArgument => OccursHead(s, i, "<");
    case OptionalMarker => OccursHead(s, i, "?");
    case Modifier(w) => OccursHead(s, i, w);
  }

  lemma DelimitedNeeds(s: string, c: nat, open: char, close: char)
    requires c <= |s| && Delimited(s, c, open, close).Some?
    ensures Mentions(s, [open]) && Mentions(s, [close])
  {
    var e := Delimited(s, c, open, close).value;
    OccursSingle(s, c, open);
    OccursSingle(s, e - 1, close);
  }

  lemma DeclarationNeeds(s: string, i: nat, kw: string, open: char, close: char)
    requires i <= |s| && MatchDeclaration(s, i, kw, open, close).Some?
    ensures Mentions(s, kw) && Mentions(s, [open]) && Mentions(s, [close])
  {
    var c := RunEnd(s, RunEnd(s, RunEnd(s, i + |kw|, Space), WordChar), Space);
    DelimitedNeeds(s, c, open, close);
  }

  lemma MatchNeedsRequired(p: Pattern, s: string, i: nat)
    requires i <= |s| && MatchAt(p, s, i).Some?
    ensures forall w :: w in Required(p) ==> Mentions(s, w)
  {
    match p
    case Annotation(n) =>
      var j := RunEnd(s, i + 1, Space);
      assert OccursAt(s, i, ":") && OccursAt(s, j, n);
    case ArrayAnnotation =>
      var k := RunEnd(s, RunEnd(s, i + 1, Space), WordChar);
      assert OccursAt(s, i, ":") && OccursAt(s, k, "[]");
    case ObjectAnnotation =>
      var j := RunEnd(s, i + 1, Space);
      DelimitedNeeds(s, j, '{', '}');
      assert OccursAt(s, i, ":");
    case Declaration(kw, open, close) =>
      DeclarationNeeds(s, i, kw, open, close);
    case TypeArgument =>
      var k := RunEnd(s, i + 1, WordChar);
      assert OccursAt(s, i, "<") && OccursAt(s, k, ">");
    case OptionalMarker =>
      var j := RunEnd(s, i + 1, Space);
      assert OccursAt(s, i, "?") && OccursAt(s, j, ":");
    case Modifier(w) =>
      assert OccursAt(s, i, w);
  }

  /** Every character of a mentioned literal occurs in the string. */
  lemma MentionedCharsOccur(s: string, w: string, c: char)
    requires Mentions(s, w) && c in w
    ensures c in s
  {
    var j :| OccursAt(s, j, w);
    var m :| 0 <= m < |w| && w[m] == c;
    assert s[j..j + |w|][m] == s[j + m];
  }

  /** `p` cannot match anywhere in a string that lacks one of its literal characters. */
  lemma NoMatchWithoutChar(p: Pattern, s: string, w: string, c: char)
    requires w in Required(p) && c in w && c !in s
    ensures forall i :: 0 <= i <= |s| ==> MatchAt(p, s, i).None?
  {
    forall i | 0 <= i <= |s| ensures MatchAt(p, s, i).None? {
      if MatchAt(p, s, i).Some? {
        MatchNeedsRequired(p, s, i);
        MentionedCharsOccur(s, w, c);
      }
    }
  }

  function ShiftBy(r: Option<nat>, d: nat): Option<nat> {
    match r
    case None => None
    case Some(e) => Some(e + d)
  }

  /** `t` is `s` with its first `d` characters dropped. */
  predicate Suffix(s: string, t: string, d: nat) {
    |s| == |t| + d && forall j :: 0 <= j < |t| ==> s[j + d] == t[j]
  }

  lemma SuffixOf(s: string, d: nat)
    requires d <= |s|
    ensures Suffix(s, s[d..], d)
  {
  }

  /*
   * The shift lemmas below compare index `j + d` of `s` with index `j` of
   * its suffix `t`, always naming both indices, so that the terms about `s`
   * and about `t` line up without arithmetic.
   */

  lemma {:induction false} RunEndShift(s: string, t: string, d: nat, j: nat, j': nat, k: CharClass)
    requires Suffix(s, t, d) && j' <= |t| && j == j' + d
    ensures RunEnd(s, j, k) == d + RunEnd(t, j', k)
    decreases |t| - j'
  {
    if j' < |t| {
      assert s[j] == t[j'];
      if InClass(k, s[j]) {
        RunEndShift(s, t, d, j + 1, j' + 1, k);
      }
    }
  }

  lemma OccursShift(s: string, t: string, d: nat, j: nat, j': nat, w: string)
    requires Suffix(s, t, d) && j' <= |t| && j == j' + d
    ensures OccursAt(s, j, w) <==> OccursAt(t, j', w)
  {
    if j' + |w| <= |t| {
      var x, y := s[j..j + |w|], t[j'..j' + |w|];
      forall m | 0 <= m < |w| ensures x[m] == y[m] {
        assert x[m] == s[j' + m + d] && y[m] == t[j' + m];
      }
      assert x == y;
    }
  }

  lemma ShiftAnnotation(n: string, s: string, t: string, d: nat, i: nat, i': nat)
    requires Suffix(s, t, d) && i' <= |t| && i == i' + d
    ensures MatchAt(Annotation(n), s, i) == ShiftBy(MatchAt(Annotation(n), t, i'), d)
  {
    OccursShift(s, t, d, i, i', ":");
    if OccursAt(s, i, ":") {
      RunEndShift(s, t, d, i + 1, i' + 1, Space);
      OccursShift(s, t, d, RunEnd(s, i + 1, Space), RunEnd(t, i' + 1, Space), n);
    }
  }

  lemma ShiftArrayAnnotation(s: string, t: string, d: nat, i: nat, i': nat)
    requires Suffix(s, t, d) && i' <= |t| && i == i' + d
    ensures MatchAt(ArrayAnnotation, s, i) == ShiftBy(MatchAt(ArrayAnnotation, t, i'), d)
  {
    OccursShift(s, t, d, i, i', ":");
    if OccursAt(s, i, ":") {
      RunEndShift(s, t, d, i + 1, i' + 1, Space);
      var j, j' := RunEnd(s, i + 1, Space), RunEnd(t, i' + 1, Space);
      RunEndShift(s, t, d, j, j', WordChar);
      OccursShift(s, t, d, RunEnd(s, j, WordChar), RunEnd(t, j', WordChar), "[]");
    }
  }

  lemma DelimitedShift(s: string, t: string, d: nat, c: nat, c': nat, open: char, close: char)
    requires Suffix(s, t, d) && c' <= |t| && c == c' + d
    ensures Delimited(s, c, open, close) == ShiftBy(Delimited(t, c', open, close), d)
  {
    OccursShift(s, t, d, c, c', [open]);
    if OccursAt(s, c, [open]) {
      RunEndShift(s, t, d, c + 1, c' + 1, Except(close));
    }
  }

  lemma ShiftObjectAnnotation(s: string, t: string, d: nat, i: nat, i': nat)
    requires Suffix(s, t, d) && i' <= |t| && i == i' + d
    ensures MatchAt(ObjectAnnotation, s, i) == ShiftBy(MatchAt(ObjectAnnotation, t, i'), d)
  {
    OccursShift(s, t, d, i, i', ":");
    if OccursAt(s, i, ":") {
      RunEndShift(s, t, d, i + 1, i' + 1, Space);
      DelimitedShift(s, t, d, RunEnd(s, i + 1, Space), RunEnd(t, i' + 1, Space), '{', '}');
    }
  }

  lemma NamedBlockShift(s: string, t: string, d: nat, a: nat, a': nat, open: char, close: char)
    requires Suffix(s, t, d) && a' <= |t| && a == a' + d
    ensures NamedBlock(s, a, open, close) == ShiftBy(NamedBlock(t, a', open, close), d)
  {
    RunEndShift(s, t, d, a, a', WordChar);
    var b, b' := RunEnd(s, a, WordChar), RunEnd(t, a', WordChar);
    RunEndShift(s, t, d, b, b', Space);
    DelimitedShift(s, t, d, RunEnd(s, b, Space), RunEnd(t, b', Space), open, close);
  }

  lemma DeclarationShift(s: string, t: string, d: nat, i: nat, i': nat, kw: string, open: char, close: char)
    requires Suffix(s, t, d) && i' <= |t| && i == i' + d
    ensures MatchDeclaration(s, i, kw, open, close) == ShiftBy(MatchDeclaration(t, i', kw, open, close), d)
  {
    OccursShift(s, t, d, i, i', kw);
    if OccursAt(s, i, kw) {
      RunEndShift(s, t, d, i + |kw|, i' + |kw|, Space);
      NamedBlockShift(s, t, d, RunEnd(s, i + |kw|, Space), RunEnd(t, i' + |kw|, Space), open, close);
    }
  }

  lemma ShiftTypeArgument(s: string, t: string, d: nat, i: nat, i': nat)
    requires Suffix(s, t, d) && i' <= |t| && i == i' + d
    ensures MatchAt(TypeArgument, s, i) == ShiftBy(MatchAt(TypeArgument, t, i'), d)
  {
    OccursShift(s, t, d, i, i', "<");
    if OccursAt(s, i, "<") {
      RunEndShift(s, t, d, i + 1, i' + 1, WordChar);
      OccursShift(s, t, d, RunEnd(s, i + 1, WordChar), RunEnd(t, i' + 1, WordChar), ">");
    }
  }

  lemma ShiftOptionalMarker(s: string, t: string, d: nat, i: nat, i': nat)
    requires Suffix(s, t, d) && i' <= |t| && i == i' + d
    ensures MatchAt(OptionalMarker, s, i) == ShiftBy(MatchAt(OptionalMarker, t, i'), d)
  {
    OccursShift(s, t, d, i, i', "?");
    if OccursAt(s, i, "?") {
      RunEndShift(s, t, d, i + 1, i' + 1, Space);
      OccursShift(s, t, d, RunEnd(s, i + 1, Space), RunEnd(t, i' + 1, Space), ":");
    }
  }

  lemma ShiftModifier(w: string, s: string, t: string, d: nat, i: nat, i': nat)
    requires Suffix(s, t, d) && i' <= |t| && i == i' + d
    ensures MatchAt(Modifier(w), s, i) == ShiftBy(MatchAt(Modifier(w), t, i'), d)
  {
    OccursShift(s, t, d, i, i', w);
    if OccursAt(s, i, w) {
      RunEndShift(s, t, d, i + |w|, i' + |w|, Space);
    }
  }

  /** A match at index `i' + d` of `s` is the match at `i'` of its suffix `t`: no pattern looks behind. */
  lemma MatchAtShift(p: Pattern, s: string, t: string, d: nat, i: nat, i': nat)
    requires Suffix(s, t, d) && i' <= |t| && i == i' + d
    ensures MatchAt(p, s, i) == ShiftBy(MatchAt(p, t, i'), d)
  {
    match p
    case Annotation(n) => ShiftAnnotation(n, s, t, d, i, i');
    case ArrayAnnotation => ShiftArrayAnnotation(s, t, d, i, i');
    case ObjectAnnotation => ShiftObjectAnnotation(s, t, d, i, i');
    case Declaration(kw, open, close) => DeclarationShift(s, t, d, i, i', kw, open, close);
    case TypeArgument => ShiftTypeArgument(s, t, d, i, i');
    case OptionalMarker => ShiftOptionalMarker(s, t, d, i, i');
    case Modifier(w) => ShiftModifier(w, s, t, d, i, i');
  }

  /** `p` cannot match anywhere in a string that does not mention one of its literal parts. */
  lemma NoMatchWithoutWord(p: Pattern, s: string, w: string)
    requires w in Required(p) && !Mentions(s, w)
    ensures forall i :: 0 <= i <= |s| ==> MatchAt(p, s, i).None?
  {
    forall i | 0 <= i <= |s| ensures MatchAt(p, s, i).None? {
      if MatchAt(p, s, i).Some? {
        MatchNeedsRequired(p, s, i);
      }
    }
  }

  // ---------------------------------------------------------------------
  // Global replacement
  // ---------------------------------------------------------------------

  predicate NoMatchIn(p: Pattern, s: string, i: nat, j: nat)
    requires i <= j <= |s|
  {
    forall k :: i <= k < j ==> MatchAt(p, s, k).None?
  }

  lemma AppendAssoc(a: string, b: string, c: string)
    ensures a + (b + c) == (a + b) + c
  {
  }

  /** Indices where the matcher finds nothing are copied unchanged. */
  lemma {:induction false} ReplaceWithSkip(m: Matcher, repl: string, s: string, i: nat, j: nat)
    requires Advances(m) && i <= j <= |s|
    requires forall k :: i <= k < j ==> m(s, k).None?
    ensures ReplaceWith(m, repl, s, i) == s[i..j] + ReplaceWith(m, repl, s, j)
    decreases j - i
  {
    if i < j {
      ReplaceWithSkip(m, repl, s, i + 1, j);
      var rest := ReplaceWith(m, repl, s, j);
      calc {
        ReplaceWith(m, repl, s, i);
        [s[i]] + ReplaceWith(m, repl, s, i + 1);
        [s[i]] + (s[i + 1..j] + rest);
        { AppendAssoc([s[i]], s[i + 1..j], rest); assert [s[i]] + s[i + 1..j] == s[i..j]; }
        s[i..j] + rest;
      }
    }
  }

  /** A replaced match: the output is the replacement, then what follows the match. */
  lemma ReplaceWithAtMatch(m: Matcher, repl: string, s: string, i: nat, e: nat)
    requires Advances(m) && i < |s| && m(s, i) == Some(e)
    ensures ReplaceWith(m, repl, s, i) == repl + ReplaceWith(m, repl, s, e)
  {
  }

  /** A copied character: the output is that character, then what follows it. */
  lemma ReplaceWithCopies(m: Matcher, repl: string, s: string, i: nat)
    requires Advances(m) && i < |s| && m(s, i).None?
    ensures ReplaceWith(m, repl, s, i) == [s[i]] + ReplaceWith(m, repl, s, i + 1)
  {
  }

  /** Two positions where replacement finds the same match continue alike. */
  lemma ReplaceWithBothMatch(m: Matcher, repl: string, s: string, i: nat, t: string, j: nat)
    requires Advances(m) && i < |s| && j < |t| && m(s, i).Some? && m(t, j).Some?
    requires ReplaceWith(m, repl, s, m(s, i).value) == ReplaceWith(m, repl, t, m(t, j).value)
    ensures ReplaceWith(m, repl, s, i) == ReplaceWith(m, repl, t, j)
  {
    ReplaceWithAtMatch(m, repl, s, i, m(s, i).value);
    ReplaceWithAtMatch(m, repl, t, j, m(t, j).value);
  }

  /** Two positions that copy the same character continue alike. */
  lemma ReplaceWithBothCopy(m: Matcher, repl: string, s: string, i: nat, t: string, j: nat)
    requires Advances(m) && i < |s| && j < |t| && m(s, i).None? && m(t, j).None? && s[i] == t[j]
    requires ReplaceWith(m, repl, s, i + 1) == ReplaceWith(m, repl, t, j + 1)
    ensures ReplaceWith(m, repl, s, i) == ReplaceWith(m, repl, t, j)
  {
    ReplaceWithCopies(m, repl, s, i);
    ReplaceWithCopies(m, repl, t, j);
  }

  /** `t` is `s` from `d` on, and the matcher finds the same matches in both. */
  ghost predicate Aligned(m: Matcher, s: string, t: string, d: nat)
  {
    && Suffix(s, t, d)
    && (forall j :: 0 <= j <= |t| ==> AlignedAt(m, s, t, d, j))
  }

  /** The matcher finds the same match at `j + d` in `s` as at `j` in `t`. */
  ghost predicate AlignedAt(m: Matcher, s: string, t: string, d: nat, j: nat) {
    m(s, j + d) == ShiftBy(m(t, j), d)
  }

  /** One step of replacement is the same at `j + d` in `s` and at `j` in an aligned `t`. */
  lemma ReplaceWithAlignedStep(m: Matcher, repl: string, s: string, t: string, d: nat, j: nat)
    requires Advances(m) && Aligned(m, s, t, d) && j < |t|
    requires m(t, j).Some? ==> ReplaceWith(m, repl, s, m(t, j).value + d) == ReplaceWith(m, repl, t, m(t, j).value)
    requires m(t, j).None? ==> ReplaceWith(m, repl, s, j + 1 + d) == ReplaceWith(m, repl, t, j + 1)
    ensures ReplaceWith(m, repl, s, j + d) == ReplaceWith(m, repl, t, j)
  {
    assert AlignedAt(m, s, t, d, j) && s[j + d] == t[j];
    if m(t, j).Some? {
      ReplaceWithBothMatch(m, repl, s, j + d, t, j);
    } else {
      ReplaceWithBothCopy(m, repl, s, j + d, t, j);
    }
  }

  /** On aligned strings, replacement from `j + d` in `s` is replacement from `j` in `t`. */
  lemma {:induction false} ReplaceWithAligned(m: Matcher, repl: string, s: string, t: string, d: nat, j: nat)
    requires Advances(m) && Aligned(m, s, t, d) && j <= |t|
    ensures ReplaceWith(m, repl, s, j + d) == ReplaceWith(m, repl, t, j)
    decreases |t| - j
  {
    if j < |t| {
      var next := if m(t, j).Some? then m(t, j).value else j + 1;
      ReplaceWithAligned(m, repl, s, t, d, next);
      ReplaceWithAlignedStep(m, repl, s, t, d, j);
    }
  }

  /** If the replacement is shorter than every match, any match shortens the output. */
  lemma {:induction false} ReplaceWithShrinks(m: Matcher, repl: string, s: string, i: nat, k: nat)
    requires Advances(m) && Shrinking(m, repl, s) && i <= k < |s| && m(s, k).Some?
    ensures |ReplaceWith(m, repl, s, i)| < |s| - i
    decreases |s| - i
  {
    match m(s, i)
    case Some(e) =>
    case None => ReplaceWithShrinks(m, repl, s, i + 1, k);
  }

  /** Every pattern's matcher only looks forward, so it aligns `s` with its suffixes. */
  lemma MatcherAligned(p: Pattern, s: string, t: string, d: nat)
    requires Suffix(s, t, d)
    ensures Aligned(MatcherOf(p), s, t, d)
  {
    forall j | 0 <= j <= |t| ensures AlignedAt(MatcherOf(p), s, t, d, j) {
      MatcherShiftAt(p, s, t, d, j);
    }
  }

  lemma MatcherShiftAt(p: Pattern, s: string, t: string, d: nat, j: nat)
    requires Suffix(s, t, d) && j <= |t|
    ensures AlignedAt(MatcherOf(p), s, t, d, j)
  {
    MatchAtShift(p, s, t, d, j + d, j);
  }

  /** Replacement from index `d` of `s` is replacement of `s[d..]`. */
  lemma ReplaceAllFrom(r: Rule, s: string, d: nat)
    requires d <= |s|
    ensures ReplaceWith(MatcherOf(r.pattern), r.replacement, s, d) == ReplaceAll(r, s[d..])
  {
    SuffixOf(s, d);
    MatcherAdvances(r.pattern);
    MatcherAligned(r.pattern, s, s[d..], d);
    ReplaceWithAligned(MatcherOf(r.pattern), r.replacement, s, s[d..], d, 0);
  }

  /** A prefix free of the pattern's first character passes through unchanged. */
  lemma ReplaceAllAfter(r: Rule, u: string, w: string)
    requires WellFormed(r.pattern) && Lead(r.pattern) !in u
    ensures ReplaceAll(r, u + w) == u + ReplaceAll(r, w)
  {
    var s, m := u + w, MatcherOf(r.pattern);
    MatcherAdvances(r.pattern);
    forall k | 0 <= k < |u| ensures m(s, k).None? {
      if MatchAt(r.pattern, s, k).Some? {
        MatchStartsWithLead(r.pattern, s, k);
      }
    }
    ReplaceWithSkip(m, r.replacement, s, 0, |u|);
    ReplaceAllFrom(r, s, |u|);
    assert s[0..|u|] == u && s[|u|..] == w;
  }

  /** A match at the very start is replaced, and replacement resumes after it. */
  lemma ReplaceAllAtMatch(r: Rule, w: string, n: nat)
    requires MatchAt(r.pattern, w, 0) == Some(n)
    ensures ReplaceAll(r, w) == r.replacement + ReplaceAll(r, w[n..])
  {
    MatcherAdvances(r.pattern);
    assert ReplaceAll(r, w) == r.replacement + ReplaceWith(MatcherOf(r.pattern), r.replacement, w, n);
    ReplaceAllFrom(r, w, n);
  }

  /** Without a match at the very start, the first character is copied. */
  lemma ReplaceAllNoMatchHead(r: Rule, w: string)
    requires |w| > 0 && MatchAt(r.pattern, w, 0).None?
    ensures ReplaceAll(r, w) == w[..1] + ReplaceAll(r, w[1..])
  {
    MatcherAdvances(r.pattern);
    assert ReplaceAll(r, w) == [w[0]] + ReplaceWith(MatcherOf(r.pattern), r.replacement, w, 1);
    ReplaceAllFrom(r, w, 1);
    assert w[..1] == [w[0]];
  }

  /** A string in which the pattern matches nowhere is left as it is. */
  lemma ReplaceAllNoMatch(r: Rule, s: string)
    requires NoMatchIn(r.pattern, s, 0, |s|)
    ensures ReplaceAll(r, s) == s
  {
    MatcherAdvances(r.pattern);
    var m := MatcherOf(r.pattern);
    assert forall k :: 0 <= k < |s| ==> m(s, k) == MatchAt(r.pattern, s, k);
    ReplaceWithSkip(m, r.replacement, s, 0, |s|);
  }

  /**
   * A single match, with no match before it and none in what follows it, is
   * replaced and everything around it is copied.
   */
  lemma ReplaceAllSingleMatch(r: Rule, u: string, w: string, n: nat)
    requires NoMatchIn(r.pattern, u + w, 0, |u|)
    requires MatchAt(r.pattern, w, 0) == Some(n)
    requires n <= |w| && NoMatchIn(r.pattern, w[n..], 0, |w| - n)
    ensures ReplaceAll(r, u + w) == u + r.replacement + w[n..]
  {
    var s, m := u + w, MatcherOf(r.pattern);
    MatcherAdvances(r.pattern);
    assert forall k :: 0 <= k < |u| ==> m(s, k) == MatchAt(r.pattern, s, k);
    ReplaceWithSkip(m, r.replacement, s, 0, |u|);
    ReplaceAllFrom(r, s, |u|);
    assert s[0..|u|] == u && s[|u|..] == w;
    ReplaceAllAtMatch(r, w, n);
    ReplaceAllNoMatch(r, w[n..]);
    AppendAssoc(u, r.replacement, w[n..]);
  }

  /**
   * A shortening rule leaves a string unchanged exactly when its pattern
   * matches nowhere in it.
   */
  lemma ReplaceAllFixedIff(r: Rule, s: string)
    requires Shortening(r)
    ensures ReplaceAll(r, s) == s <==> NoMatchIn(r.pattern, s, 0, |s|)
  {
    if !NoMatchIn(r.pattern, s, 0, |s|) {
      var k :| 0 <= k < |s| && MatchAt(r.pattern, s, k).Some?;
      MatcherAdvances(r.pattern);
      MatcherShrinking(r, s);
      ReplaceWithShrinks(MatcherOf(r.pattern), r.replacement, s, 0, k);
    } else {
      ReplaceAllNoMatch(r, s);
    }
  }

  // ---------------------------------------------------------------------
  // The chain as a whole
  // ---------------------------------------------------------------------

  /** Every rule of the chain is well formed and shortening. */
  lemma RulesWellFormed()
    ensures forall k :: 0 <= k < |Rules| ==> WellFormed(Rules[k].pattern) && Shortening(Rules[k])
  {
    RulesArePlain();
    RulesShorten();
  }

  lemma RulesArePlain()
    ensures forall k :: 0 <= k < |Rules| ==> WellFormed(Rules[k].pattern)
  {
  }

  lemma RulesShorten()
    ensures forall k :: 0 <= k < |Rules| ==> Shortening(Rules[k])
  {
  }

  /** Applying the chain from rule `k` on is rule `k`, then the rest. */
  lemma ApplyRulesStep(rules: seq<Rule>, k: nat, s: string)
    requires k < |rules|
    ensures ApplyRules(rules[k..], s) == ApplyRules(rules[k + 1..], ReplaceAll(rules[k], s))
  {
    assert rules[k..][1..] == rules[k + 1..];
  }

  /** Rules that leave the string unchanged can be skipped. */
  lemma {:induction false} ApplyRulesSkip(rules: seq<Rule>, a: nat, b: nat, s: string)
    requires a <= b <= |rules|
    requires forall j :: a <= j < b ==> ReplaceAll(rules[j], s) == s
    ensures ApplyRules(rules[a..], s) == ApplyRules(rules[b..], s)
    decreases b - a
  {
    if a < b {
      ApplyRulesStep(rules, a, s);
      ApplyRulesSkip(rules, a + 1, b, s);
    }
  }

  /** A string that no rule matches passes through the chain unchanged. */
  lemma ApplyRulesNoMatch(rules: seq<Rule>, s: string)
    requires forall k :: 0 <= k < |rules| ==> NoMatchIn(rules[k].pattern, s, 0, |s|)
    ensures ApplyRules(rules, s) == s
  {
    forall j | 0 <= j < |rules| ensures ReplaceAll(rules[j], s) == s {
      ReplaceAllNoMatch(rules[j], s);
    }
    ApplyRulesSkip(rules, 0, |rules|, s);
    assert rules[0..] == rules && rules[|rules|..] == [];
  }

  lemma MentionsChar(s: string, c: char)
    ensures Mentions(s, [c]) <==> c in s
  {
    if c in s {
      var j :| 0 <= j < |s| && s[j] == c;
      OccursSingle(s, j, c);
    }
    if Mentions(s, [c]) {
      MentionedCharsOccur(s, [c], c);
    }
  }

  /**
   * Plain JavaScript: no colon, no angle bracket, and none of the keywords
   * the chain removes.
   */
  ghost predicate Untyped(code: string) {
    && ':' !in code && '<' !in code
    && !Mentions(code, "interface") && !Mentions(code, "type")
    && !Mentions(code, "private") && !Mentions(code, "public")
    && !Mentions(code, "protected") && !Mentions(code, "readonly")
  }

  /** No rule of the chain matches anywhere in untyped code. */
  lemma UntypedNoMatch(code: string, k: nat)
    requires Untyped(code) && k < |Rules|
    ensures NoMatchIn(Rules[k].pattern, code, 0, |code|)
  {
    MentionsChar(code, ':');
    MentionsChar(code, '<');
    var p := Rules[k].pattern;
    if p.Annotation? || p.ArrayAnnotation? || p.ObjectAnnotation? || p.OptionalMarker? {
      NoMatchWithoutWord(p, code, ":");
    } else if p.TypeArgument? {
      NoMatchWithoutWord(p, code, "<");
    } else {
      NoMatchWithoutWord(p, code, p.keyword);
    }
  }

  /** Untyped code passes through any tail of the chain unchanged. */
  lemma ApplyRulesKeepsUntyped(code: string, k: nat)
    requires Untyped(code) && k <= |Rules|
    ensures ApplyRules(Rules[k..], code) == code
  {
    forall j | 0 <= j < |Rules[k..]| ensures NoMatchIn(Rules[k..][j].pattern, code, 0, |code|) {
      UntypedNoMatch(code, k + j);
    }
    ApplyRulesNoMatch(Rules[k..], code);
  }

  /** Code without TypeScript syntax is run exactly as written. */
  lemma SanitizeKeepsUntyped(code: string)
    requires Untyped(code)
    ensures SanitizeCode(code) == code
  {
    ApplyRulesKeepsUntyped(code, 0);
    assert Rules[0..] == Rules;
  }

  /**
   * When the rules before rule `k` leave the code alone and rule `k` turns
   * it into untyped code, that is the result of the whole chain.
   */
  lemma OnlyRuleFires(code: string, k: nat, t: string)
    requires k < |Rules| && ReplaceAll(Rules[k], code) == t && Untyped(t)
    requires forall j :: 0 <= j < k ==> ReplaceAll(Rules[j], code) == code
    ensures SanitizeCode(code) == t
  {
    ApplyRulesSkip(Rules, 0, k, code);
    ApplyRulesStep(Rules, k, code);
    ApplyRulesKeepsUntyped(t, k + 1);
    assert Rules[0..] == Rules;
  }

  /** A string lacking one character of `w` does not mention `w`. */
  lemma NotMentionedWithoutChar(s: string, w: string, c: char)
    requires c in w && c !in s
    ensures !Mentions(s, w)
  {
    if Mentions(s, w) {
      MentionedCharsOccur(s, w, c);
    }
  }

  /** A rule whose literal part needs a character the string lacks leaves it alone. */
  lemma ReplaceAllWithoutChar(r: Rule, s: string, w: string, c: char)
    requires w in Required(r.pattern) && c in w && c !in s
    ensures ReplaceAll(r, s) == s
  {
    NoMatchWithoutChar(r.pattern, s, w, c);
    ReplaceAllNoMatch(r, s);
  }
}
