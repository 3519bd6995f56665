/**
 * What the chain of sanitizeCode does to the annotated declarations the
 * lessons are made of (lessons.ts), stated for every surrounding text.
 */
module SanitizerExamples {
  import opened Wrappers
  import opened Sanitizer

  /** The text after the colon of `":" + sp + n + v`. */
  lemma SiteShape(w: string, sp: string, n: string, v: string)
    requires w == ":" + sp + n + v && ':' !in v
    requires AllIn(sp, 0, |sp|, Space) && |n| > 0 && AllIn(n, 0, |n|, WordChar)
    ensures RunEnd(w, 1, Space) == 1 + |sp|
    ensures w[1 + |sp|..] == n + v && ':' !in w[1..]
  {
    var j := 1 + |sp|;
    assert w[j] == n[0];
    WordIsNotSpace(n[0]);
    forall i | 1 <= i < j ensures IsWs(w[i]) {
      assert w[i] == sp[i - 1];
    }
    RunEndIsFirstOutside(w, 1, j, Space);
    assert w[j..] == n + v;
    forall i | 0 <= i < |w[1..]| ensures w[1..][i] != ':' {
      if i < |sp| {
        assert w[1..][i] == sp[i];
      } else if i < |sp| + |n| {
        assert w[1..][i] == n[i - |sp|];
      } else {
        assert w[1..][i] == v[i - |sp| - |n|];
      }
    }
  }

  /** At the colon, the annotation rule for `n` removes `":" + sp + n`. */
  lemma AnnotationFiresAtColon(r: Rule, w: string, sp: string, n: string, v: string)
    requires r == Rule(Annotation(n), "") && w == ":" + sp + n + v && ':' !in v
    requires AllIn(sp, 0, |sp|, Space) && |n| > 0 && AllIn(n, 0, |n|, WordChar)
    ensures ReplaceAll(r, w) == v
  {
    SiteShape(w, sp, n, v);
    var j := 1 + |sp|;
    assert OccursAt(w, 0, ":") && OccursAt(w, j, n);
    ReplaceAllAtMatch(r, w, j + |n|);
    assert w[j + |n|..] == v;
    ReplaceAllWithoutChar(r, v, ":", ':');
  }

  /** The annotation rule for `n` removes `":" + sp + n`. */
  lemma AnnotationFires(r: Rule, u: string, sp: string, n: string, v: string)
    requires r == Rule(Annotation(n), "") && ':' !in u && ':' !in v
    requires AllIn(sp, 0, |sp|, Space) && |n| > 0 && AllIn(n, 0, |n|, WordChar)
    ensures ReplaceAll(r, u + ":" + sp + n + v) == u + v
  {
    var w := ":" + sp + n + v;
    assert u + ":" + sp + n + v == u + w;
    WordIsNotSpace(n[0]);
    ReplaceAllAfter(r, u, w);
    AnnotationFiresAtColon(r, w, sp, n, v);
  }

  /** An annotation rule whose type name starts with another letter finds nothing. */
  lemma AnnotationBlocked(r: Rule, u: string, sp: string, n: string, v: string)
    requires |n| > 0 && AllIn(n, 0, |n|, WordChar) && AllIn(sp, 0, |sp|, Space)
    requires r.pattern.Annotation? && WellFormed(r.pattern) && r.pattern.typeName[0] != n[0]
    requires ':' !in u && ':' !in v
    ensures ReplaceAll(r, u + ":" + sp + n + v) == u + ":" + sp + n + v
  {
    var w := ":" + sp + n + v;
    assert u + ":" + sp + n + v == u + w;
    ReplaceAllAfter(r, u, w);
    SiteShape(w, sp, n, v);
    if OccursAt(w, 1 + |sp|, r.pattern.typeName) {
      OccursHead(w, 1 + |sp|, r.pattern.typeName);
    }
    ReplaceAllNoMatchHead(r, w);
    ReplaceAllWithoutChar(r, w[1..], ":", ':');
    assert w[..1] + w[1..] == w;
  }

  /** The primitive annotation rules before rule `k` leave its site alone. */
  lemma EarlierAnnotationsKeep(k: nat, u: string, sp: string, v: string)
    requires k < 5 && ':' !in u && ':' !in v && AllIn(sp, 0, |sp|, Space)
    ensures forall j :: 0 <= j < k ==>
      ReplaceAll(Rules[j], u + ":" + sp + Rules[k].pattern.typeName + v)
        == u + ":" + sp + Rules[k].pattern.typeName + v
  {
    var n := Rules[k].pattern.typeName;
    RulesWellFormed();
    forall j | 0 <= j < k
      ensures ReplaceAll(Rules[j], u + ":" + sp + n + v) == u + ":" + sp + n + v
    {
      AnnotationBlocked(Rules[j], u, sp, n, v);
    }
  }

  /**
   * `: string`, `: number`, `: boolean`, `: any` and `: void` are removed
   * from otherwise untyped code, whatever surrounds them.
   */
  lemma PrimitiveAnnotationRemoved(k: nat, u: string, sp: string, v: string)
    requires k < 5 && Untyped(u + v) && AllIn(sp, 0, |sp|, Space)
    ensures SanitizeCode(u + ":" + sp + Rules[k].pattern.typeName + v) == u + v
  {
    var n := Rules[k].pattern.typeName;
    var code := u + ":" + sp + n + v;
    assert ':' !in u && ':' !in v by {
      assert forall c :: c in u ==> c in u + v;
      assert forall c :: c in v ==> c in u + v;
    }
    EarlierAnnotationsKeep(k, u, sp, v);
    AnnotationFires(Rules[k], u, sp, n, v);
    OnlyRuleFires(code, k, u + v);
  }

  /**
   * Rule order: `: number[]` loses only `: number`, because the `number`
   * rule runs before the array rule; the brackets stay behind.
   */
  lemma NumberArrayKeepsBrackets(u: string, sp: string, v: string)
    requires Untyped(u + "[]" + v) && AllIn(sp, 0, |sp|, Space)
    ensures SanitizeCode(u + ":" + sp + "number[]" + v) == u + "[]" + v
  {
    assert Rules[1].pattern.typeName == "number";
    assert u + ":" + sp + "number[]" + v == u + ":" + sp + "number" + ("[]" + v);
    assert u + "[]" + v == u + ("[]" + v);
    PrimitiveAnnotationRemoved(1, u, sp, "[]" + v);
  }

  /** The array pattern matches `":" + sp + n + "[]"` at the start of `w`. */
  lemma ArraySite(w: string, sp: string, n: string, v: string)
    requires w == ":" + sp + n + ("[]" + v) && ':' !in v
    requires AllIn(sp, 0, |sp|, Space) && |n| > 0 && AllIn(n, 0, |n|, WordChar)
    ensures MatchAt(ArrayAnnotation, w, 0) == Some(|sp| + |n| + 3)
    ensures w[|sp| + |n| + 3..] == v
  {
    SiteShape(w, sp, n, "[]" + v);
    var j := 1 + |sp|;
    var k := j + |n|;
    assert AllIn(w, j, k, WordChar) by {
      forall m | j <= m < k ensures IsWordChar(w[m]) {
        assert w[m] == w[j..][m - j] == n[m - j];
      }
    }
    assert w[k..] == "[]" + v;
    assert w[k] == '[';
    RunEndIsFirstOutside(w, j, k, WordChar);
    assert OccursAt(w, 0, ":") && OccursAt(w, k, "[]");
  }

  /** The array rule removes `":" + sp + n + "[]"`. */
  lemma ArrayAnnotationFires(r: Rule, u: string, sp: string, n: string, v: string)
    requires r == Rule(ArrayAnnotation, "") && ':' !in u && ':' !in v
    requires AllIn(sp, 0, |sp|, Space) && |n| > 0 && AllIn(n, 0, |n|, WordChar)
    ensures ReplaceAll(r, u + ":" + sp + n + "[]" + v) == u + v
  {
    var w := ":" + sp + n + ("[]" + v);
    ReplaceAllAfter(r, u, w);
    ArraySite(w, sp, n, v);
    ReplaceAllAtMatch(r, w, |sp| + |n| + 3);
    ReplaceAllWithoutChar(r, v, ":", ':');
    ArrayText(u, ":", sp, n, "[]", v);
    EmptyPrefix(ReplaceAll(r, v));
  }

  /** Regrouping the text around an array annotation. */
  lemma ArrayText(u: string, c: string, sp: string, n: string, b: string, v: string)
    ensures u + c + sp + n + b + v == u + (c + sp + n + (b + v))
  {
    AppendAssoc(c + sp + n, b, v);
    AppendAssoc(u, c + sp + n, b + v);
    AppendAssoc(u + c, sp, n);
    AppendAssoc(u, c, sp);
    AppendAssoc(u, c + sp, n);
  }

  lemma EmptyPrefix(s: string)
    ensures "" + s == s
  {
  }

  /**
   * An array annotation whose element type does not begin like one of the
   * five primitive names (`xs: T[]`, `: Lesson[]`) is removed whole.
   */
  lemma ArrayAnnotationRemoved(u: string, sp: string, n: string, v: string)
    requires Untyped(u + v) && AllIn(sp, 0, |sp|, Space)
    requires |n| > 0 && AllIn(n, 0, |n|, WordChar) && n[0] !in "snbav"
    ensures SanitizeCode(u + ":" + sp + n + "[]" + v) == u + v
  {
    var code := u + ":" + sp + n + "[]" + v;
    assert ':' !in u && ':' !in v by {
      assert forall c :: c in u ==> c in u + v;
      assert forall c :: c in v ==> c in u + v;
    }
    PrimitivesKeepArray(u, sp, n, v);
    ArrayAnnotationFires(Rules[5], u, sp, n, v);
    OnlyRuleFires(code, 5, u + v);
  }

  /** None of the five primitive rules fires on an array annotation of another type. */
  lemma PrimitivesKeepArray(u: string, sp: string, n: string, v: string)
    requires ':' !in u && ':' !in v && AllIn(sp, 0, |sp|, Space)
    requires |n| > 0 && AllIn(n, 0, |n|, WordChar) && n[0] !in "snbav"
    ensures forall j :: 0 <= j < 5 ==> ReplaceAll(Rules[j], u + ":" + sp + n + "[]" + v) == u + ":" + sp + n + "[]" + v
  {
    var code := u + ":" + sp + n + "[]" + v;
    assert code == u + ":" + sp + n + ("[]" + v);
    assert ':' !in "[]" + v;
    RulesWellFormed();
    forall j | 0 <= j < 5 ensures ReplaceAll(Rules[j], code) == code {
      assert Rules[j].pattern.typeName[0] in "snbav";
      AnnotationBlocked(Rules[j], u, sp, n, "[]" + v);
    }
  }

  /** The first example of the type-annotation lesson. */
  lemma CountAnnotationRemoved()
    ensures SanitizeCode("let count: number = 42;") == "let count = 42;"
  {
    var u, v := "let count", " = 42;";
    assert "let count: number = 42;" == u + ":" + " " + "number" + v;
    assert u + v == "let count = 42;";
    CountUntyped();
    SingleSpace();
    PrimitiveAnnotationRemoved(1, u, " ", v);
  }

  lemma CountUntyped()
    ensures Untyped("let count = 42;")
  {
    UntypedByChars("let count = 42;");
  }

  lemma SingleSpace()
    ensures AllIn(" ", 0, 1, Space)
  {
  }

  /** `let a: number[] = [1];` comes out as `let a[] = [1];`, which is not JavaScript. */
  lemma NumberArrayExample()
    ensures SanitizeCode("let a: number[] = [1];") == "let a[] = [1];"
  {
    var u, v := "let a", " = [1];";
    assert "let a: number[] = [1];" == u + ":" + " " + "number[]" + v;
    assert u + "[]" + v == "let a[] = [1];";
    BracketsUntyped();
    SingleSpace();
    NumberArrayKeepsBrackets(u, " ", v);
  }

  lemma BracketsUntyped()
    ensures Untyped("let a[] = [1];")
  {
    UntypedByChars("let a[] = [1];");
  }

  /**
   * Code without a colon, an angle bracket, and the letters i, y, p and r
   * cannot mention any keyword of the chain.
   */
  lemma UntypedByChars(s: string)
    requires ':' !in s && '<' !in s && 'i' !in s && 'y' !in s && 'p' !in s && 'r' !in s
    ensures Untyped(s)
  {
    NotMentionedWithoutChar(s, "interface", 'i');
    NotMentionedWithoutChar(s, "type", 'y');
    NotMentionedWithoutChar(s, "private", 'p');
    NotMentionedWithoutChar(s, "public", 'p');
    NotMentionedWithoutChar(s, "protected", 'p');
    NotMentionedWithoutChar(s, "readonly", 'r');
  }

  // ---------------------------------------------------------------------
  // Modifiers, optional markers and type arguments
  // ---------------------------------------------------------------------

  /** `private name: string;`: the `string` rule removes the annotation first. */
  lemma PrivateFieldAnnotation()
    ensures ReplaceAll(Rules[0], "private name: string;") == "private name;"
  {
    var u, n := "private name", "string";
    assert "private name: string;" == u + ":" + " " + n + ";";
    assert u + ";" == "private name;";
    SingleSpace();
    assert AllIn(n, 0, |n|, WordChar);
    AnnotationFires(Rules[0], u, " ", n, ";");
  }

  /**
   * The rules between the `string` rule and the `private` rule find
   * nothing in code without a colon, an `f`, a `y`, `<` and `?`.
   */
  lemma MiddleRuleKeeps(j: nat, t: string)
    requires 1 <= j < 11 && ':' !in t && 'f' !in t && 'y' !in t && '<' !in t && '?' !in t
    ensures ReplaceAll(Rules[j], t) == t
  {
    if j < 7 {
      ReplaceAllWithoutChar(Rules[j], t, ":", ':');
    } else if j == 7 {
      ReplaceAllWithoutChar(Rules[j], t, "interface", 'f');
    } else if j == 8 {
      ReplaceAllWithoutChar(Rules[j], t, "type", 'y');
    } else if j == 9 {
      ReplaceAllWithoutChar(Rules[j], t, "<", '<');
    } else {
      ReplaceAllWithoutChar(Rules[j], t, "?", '?');
    }
  }

  lemma PrivateFieldUntouched()
    ensures forall j :: 1 <= j < 11 ==> ReplaceAll(Rules[j], "private name;") == "private name;"
  {
    var t := "private name;";
    assert ':' !in t && 'f' !in t && 'y' !in t && '<' !in t && '?' !in t;
    forall j | 1 <= j < 11 ensures ReplaceAll(Rules[j], t) == t {
      MiddleRuleKeeps(j, t);
    }
  }

  lemma NameUntyped()
    ensures Untyped("name;")
  {
    UntypedByChars("name;");
  }

  /** The `private` rule removes the keyword and the space after it. */
  lemma PrivateKeywordRemoved()
    ensures ReplaceAll(Rules[11], "private name;") == "name;"
  {
    var t := "private name;";
    assert OccursAt(t, 0, "private");
    assert IsWs(t[7]) && !IsWs(t[8]);
    RunEndIsFirstOutside(t, 7, 8, Space);
    ReplaceAllAtMatch(Rules[11], t, 8);
    assert t[8..] == "name;";
    ReplaceAllWithoutChar(Rules[11], "name;", "private", 'p');
  }

  /** A class field `private name: string;` comes out as `name;`. */
  lemma PrivateFieldExample()
    ensures SanitizeCode("private name: string;") == "name;"
  {
    PrivateFieldThroughRule11();
    NameUntyped();
    ApplyRulesKeepsUntyped("name;", 12);
    assert Rules[0..] == Rules;
  }

  /** The first twelve rules take `private name: string;` to `name;`. */
  lemma PrivateFieldThroughRule11()
    ensures ApplyRules(Rules[0..], "private name: string;") == ApplyRules(Rules[12..], "name;")
  {
    PrivateFieldAnnotation();
    ApplyRulesStep(Rules, 0, "private name: string;");
    PrivateKeywordStage();
  }

  /** Rules 1 to 11 take `private name;` to `name;`. */
  lemma PrivateKeywordStage()
    ensures ApplyRules(Rules[1..], "private name;") == ApplyRules(Rules[12..], "name;")
  {
    var t := "private name;";
    PrivateFieldUntouched();
    PrivateKeywordRemoved();
    ApplyRulesSkip(Rules, 1, 11, t);
    ApplyRulesStep(Rules, 11, t);
  }

  /**
   * The optional-marker rule turns `?` + whitespace + `:` into `:`, given
   * that the rule finds nothing to replace before it or after it.
   */
  lemma OptionalMarkerFires(u: string, sp: string, v: string)
    requires AllIn(sp, 0, |sp|, Space)
    requires NoMatchIn(Rules[10].pattern, u + "?" + sp + ":" + v, 0, |u|)
    requires NoMatchIn(Rules[10].pattern, v, 0, |v|)
    ensures ReplaceAll(Rules[10], u + "?" + sp + ":" + v) == u + ":" + v
  {
    var r, w := Rules[10], "?" + sp + ":" + v;
    assert u + "?" + sp + ":" + v == u + w;
    var j := 1 + |sp|;
    assert AllIn(w, 1, j, Space) by {
      forall m | 1 <= m < j ensures IsWs(w[m]) {
        assert w[m] == sp[m - 1];
      }
    }
    assert w[j] == ':' && !IsWs(':');
    RunEndIsFirstOutside(w, 1, j, Space);
    assert OccursAt(w, 0, "?") && OccursAt(w, j, ":");
    assert w[j + 1..] == v;
    ReplaceAllSingleMatch(r, u, w, j + 1);
  }

  /**
   * `<\w+>` needs a word character after `<`: the type argument of
   * `Promise<{ id: number }>` is not a match and stays in the code.
   */
  lemma ObjectTypeArgumentKept(s: string, i: nat)
    requires i + 1 < |s| && s[i] == '<' && s[i + 1] == '{'
    ensures MatchAt(TypeArgument, s, i).None?
  {
    assert RunEnd(s, i + 1, WordChar) == i + 1;
  }

  // ---------------------------------------------------------------------
  // Interfaces and type aliases
  // ---------------------------------------------------------------------

  /** The declaration pattern, given where the parts of a declaration at the start of `w` end. */
  lemma DeclarationSiteAt(kw: string, open: char, close: char, w: string, a: nat, b: nat, c: nat, e: nat)
    requires |kw| < a < b <= c && c + 1 < e < |w|
    requires OccursAt(w, 0, kw) && AllIn(w, |kw|, a, Space) && AllIn(w, a, b, WordChar) && AllIn(w, b, c, Space)
    requires w[c] == open && !IsWs(open) && !IsWordChar(open)
    requires AllIn(w, c + 1, e, Except(close)) && w[e] == close
    ensures MatchAt(Declaration(kw, open, close), w, 0) == Some(e + 1)
  {
    WordIsNotSpace(w[a]);
    RunEndIsFirstOutside(w, |kw|, a, Space);
    if b < c && IsWordChar(w[b]) {
      WordIsNotSpace(w[b]);
    }
    RunEndIsFirstOutside(w, a, b, WordChar);
    RunEndIsFirstOutside(w, b, c, Space);
    RunEndIsFirstOutside(w, c + 1, e, Except(close));
    OccursSingle(w, c, open);
  }

  /** A run inside `d` is still a run once `v` follows `d`. */
  lemma AllInPrefix(d: string, v: string, lo: int, hi: int, k: CharClass)
    requires AllIn(d, lo, hi, k)
    ensures AllIn(d + v, lo, hi, k)
  {
    forall m | lo <= m < hi ensures InClass(k, (d + v)[m]) {
      assert (d + v)[m] == d[m];
    }
  }

  /** A declaration followed by anything is matched exactly up to its end. */
  lemma DeclarationMatch(kw: string, open: char, close: char, d: string, v: string)
    requires InLanguage(Declaration(kw, open, close), d) && !IsWs(open) && !IsWordChar(open)
    ensures MatchAt(Declaration(kw, open, close), d + v, 0) == Some(|d|)
  {
    var w := d + v;
    var a, b, c :| |kw| < a < b <= c && AllIn(d, |kw|, a, Space) && AllIn(d, a, b, WordChar)
      && AllIn(d, b, c, Space) && ClosedBy(d, c + 1, close) && d[c] == open;
    var e := |d| - 1;
    assert d[..|kw|] == w[..|kw|];
    AllInPrefix(d, v, |kw|, a, Space);
    AllInPrefix(d, v, a, b, WordChar);
    AllInPrefix(d, v, b, c, Space);
    AllInPrefix(d, v, c + 1, e, Except(close));
    assert w[c] == open && w[e] == close;
    DeclarationSiteAt(kw, open, close, w, a, b, c, e);
  }

  /**
   * A declaration rule deletes a declaration `d` wherever it stands, given
   * that the rule finds nothing to delete before it or after it.
   */
  lemma DeclarationRuleFires(r: Rule, u: string, d: string, v: string)
    requires r.pattern.Declaration? && WellFormed(r.pattern) && r.replacement == ""
    requires InLanguage(r.pattern, d) && !IsWs(r.pattern.open)
    requires NoMatchIn(r.pattern, u + d + v, 0, |u|) && NoMatchIn(r.pattern, v, 0, |v|)
    ensures ReplaceAll(r, u + d + v) == u + v
  {
    var p := r.pattern;
    var w := d + v;
    DeclarationMatch(p.keyword, p.open, p.close, d, v);
    AppendAssoc(u, d, v);
    assert w[|d|..] == v;
    ReplaceAllSingleMatch(r, u, w, |d|);
    EmptyInfix(u, v);
  }

  lemma EmptyInfix(u: string, v: string)
    ensures u + "" + v == u + v
  {
    assert u + "" == u;
  }

  /**
   * The interface rule deletes a whole `interface Name { ... }`: a text of
   * its expression, which ends at the first `}` after the `{`, with at
   * least one character between them.
   */
  lemma InterfaceRemoved(u: string, d: string, v: string)
    requires InLanguage(Declaration("interface", '{', '}'), d)
    requires NoMatchIn(Rules[7].pattern, u + d + v, 0, |u|) && NoMatchIn(Rules[7].pattern, v, 0, |v|)
    ensures ReplaceAll(Rules[7], u + d + v) == u + v
  {
    DeclarationRuleFires(Rules[7], u, d, v);
  }

  /**
   * The alias rule deletes a whole `type Name = ...;`, which ends at the
   * first `;` after the `=`, with at least one character between them.
   */
  lemma TypeAliasRemoved(u: string, d: string, v: string)
    requires InLanguage(Declaration("type", '=', ';'), d)
    requires NoMatchIn(Rules[8].pattern, u + d + v, 0, |u|) && NoMatchIn(Rules[8].pattern, v, 0, |v|)
    ensures ReplaceAll(Rules[8], u + d + v) == u + v
  {
    DeclarationRuleFires(Rules[8], u, d, v);
  }
}
