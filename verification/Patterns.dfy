/** src/core/pattern.c: compiling a list of patterns, globs and regular expressions, and matching a name against it. */
module Patterns {
  import opened Glob
  import opened Options
  import opened Regex
  import opened RegexMeaning

  // ---------- what a pattern says ----------

  /** A glob that fits the tokens, has none of ^ $ + [, and only literals that can be told from every byte. */
  ghost predicate GoodGlob(env: Platform, s: string) {
    && IsGlob(s) && 2 + |s| + multiset(s)['*'] < 30 && Comparable(env, s)
    && forall c :: c in s ==> c !in {'^', '$', '+', '['}
  }

  /** The source is such a glob, or no glob but a regular expression that fits. */
  ghost predicate Good(env: Platform, s: string) {
    GoodGlob(env, s) || (!IsGlob(s) && exists r :: Compilable(r) && Print(r) == s)
  }

  ghost predicate AllGood(env: Platform, source: seq<string>) { forall k :: 0 <= k < |source| ==> Good(env, source[k]) }

  ghost predicate Finds(env: Platform, r: Regexp, name: string) {
    if r.atStart then MatchesAt(env, r, name, 0) else exists i: nat :: i < |name| && MatchesAt(env, r, name, i)
  }

  /** What a source pattern says of a name. */
  ghost predicate Says(env: Platform, s: string, name: string) {
    if IsGlob(s) then GlobMatch(s, name)
    else exists r :: Compilable(r) && Print(r) == s && Finds(env, r, name)
  }

  /** Where a compiled pattern is found in a name. */
  ghost predicate Found(env: Platform, pat: seq<Obj>, n: nat, name: string)
    requires Compiled(pat, n)
  {
    if pat[0].kind.Begin? then Accepts(env, pat, 1, n, name, 0)
    else exists k :: 0 <= k < |name| && Accepts(env, pat, 0, n, name, k)
  }

  /** The compiled pattern is found in exactly the C strings of which s says so. */
  ghost predicate Decides(env: Platform, pat: seq<Obj>, s: string) {
    exists n: nat ::
      Compiled(pat, n) && forall name :: Bytes(name) ==> (Found(env, pat, n, name) <==> Says(env, s, name))
  }

  /** What sw_patterns_compile hands to re_compile for one source pattern. */
  function RegexOf(source: string): string {
    if IsGlob(source) && |GlobRegex(source)| + 1 < 512 then GlobRegex(source) else source
  }

  lemma GlobDecides(env: Platform, s: string, stack: seq<Obj>) returns (pat: seq<Obj>)
    requires |stack| == MAX_OBJECTS && GoodGlob(env, s)
    ensures Lex(RegexOf(s), 0, 1, stack) == Some(pat) && Decides(env, pat, s)
  {
    TokensCounted(s);
    TranslationFits(s);
    MetaFreeChars(s);
    GlobKeepsMeaning(env, s, stack);
    hide Lex, Accepts, GlobMatch, IsGlob;
    var p: seq<Obj>, n: nat :| Lex(GlobRegex(s), 0, 1, stack) == Some(p) && Compiled(p, n) && p[0].kind.Begin? &&
      forall text :: Bytes(text) ==> (Accepts(env, p, 1, n, text, 0) <==> GlobMatch(s, text));
    pat := p;
    forall name | Bytes(name) ensures Found(env, pat, n, name) <==> Says(env, s, name) {
      assert Accepts(env, p, 1, n, name, 0) <==> GlobMatch(s, name);
    }
  }

  lemma RegexpDecides(env: Platform, s: string, stack: seq<Obj>) returns (pat: seq<Obj>)
    requires |stack| == MAX_OBJECTS && !IsGlob(s) && exists r :: Compilable(r) && Print(r) == s
    ensures Lex(s, 0, 1, stack) == Some(pat) && Decides(env, pat, s)
  {
    var r0 :| Compilable(r0) && Print(r0) == s;
    var n;
    pat, n := CompiledMeaning(r0, stack);
    forall r, name | Compilable(r) && Print(r) == s && Bytes(name)
      ensures Found(env, pat, n, name) <==> Finds(env, r, name)
    {
      FoundIsFinds(env, r, stack, pat, n, name);
    }
    forall name | Bytes(name) ensures Found(env, pat, n, name) <==> Says(env, s, name) {
      assert Found(env, pat, n, name) <==> Finds(env, r0, name);
    }
  }

  lemma FoundIsFinds(env: Platform, r: Regexp, stack: seq<Obj>, pat: seq<Obj>, n: nat, name: string)
    requires |stack| == MAX_OBJECTS && Compilable(r) && Bytes(name)
    requires Lex(Print(r), 0, 1, stack) == Some(pat) && Compiled(pat, n)
    ensures Found(env, pat, n, name) <==> Finds(env, r, name)
  {
    hide Accepts, MatchesAt, Lex, Compilable, Print;
    var p, m := CompiledMeaning(r, stack);
    OneTerminator(pat, if r.atStart then 1 else 0, n, m);
    assert r.atStart ==> (Accepts(env, pat, 1, m, name, 0) <==> MatchesAt(env, r, name, 0));
    assert !r.atStart ==> forall i: nat :: i <= |name| ==>
             (Accepts(env, pat, 0, m, name, i) <==> MatchesAt(env, r, name, i));
  }

  // ---------- the list ----------

  /** The text that is compiled for one source: as it stands unless it is a glob. */
  method RegexText(source: string) returns (text: string)
    ensures text == RegexOf(source)
    ensures !IsGlob(source) ==> text == source
    ensures forall env, stack: seq<Obj> :: |stack| == MAX_OBJECTS && Good(env, source) ==>
              Lex(text, 0, 1, stack).Some? && Decides(env, Lex(text, 0, 1, stack).value, source)
  {
    text := source;
    var isGlob := IsGlobPattern(source);
    if isGlob {
      var buf := new char[512];
      var fits := GlobToRegex(source, buf);
      if fits {
        text := buf[..|GlobRegex(source)|];
        assert text == (GlobRegex(source) + ['\0'])[..|GlobRegex(source)|];
      }
    }
    forall env, stack: seq<Obj> | |stack| == MAX_OBJECTS && Good(env, source)
      ensures Lex(text, 0, 1, stack).Some? && Decides(env, Lex(text, 0, 1, stack).value, source)
    {
      SourceDecides(env, source, stack);
    }
  }

  lemma SourceDecides(env: Platform, s: string, stack: seq<Obj>)
    requires |stack| == MAX_OBJECTS && Good(env, s)
    ensures Lex(RegexOf(s), 0, 1, stack).Some? && Decides(env, Lex(RegexOf(s), 0, 1, stack).value, s)
  {
    if IsGlob(s) {
      var pat := GlobDecides(env, s, stack);
    } else {
      var pat := RegexpDecides(env, s, stack);
    }
  }

  /** sw_patterns_compile: all patterns, in order, or nothing if one fails. */
  method CompilePatterns(source: seq<string>, stack: seq<Obj>) returns (r: Option<seq<seq<Obj>>>)
    requires |stack| == MAX_OBJECTS
    ensures r.Some? <==> source != [] && forall k :: 0 <= k < |source| ==> Lex(RegexOf(source[k]), 0, 1, stack).Some?
    ensures r.Some? ==> |r.value| == |source|
    ensures r.Some? ==> forall k :: 0 <= k < |source| ==> Lex(RegexOf(source[k]), 0, 1, stack) == Some(r.value[k])
    ensures r.Some? ==> forall k :: 0 <= k < |source| && !IsGlob(source[k]) ==>
              Lex(source[k], 0, 1, stack) == Some(r.value[k])
    ensures forall env :: source != [] && AllGood(env, source) ==> r.Some?
    ensures r.Some? ==>
              forall env, k :: 0 <= k < |source| && Good(env, source[k]) ==> Decides(env, r.value[k], source[k])
  {
    hide Lex, RegexOf, IsGlob, Good, Decides;
    if source == [] { return None; }
    var out: seq<seq<Obj>> := [];
    var i := 0;
    while i < |source|
      invariant i == |out| <= |source|
      invariant forall k :: 0 <= k < i ==> Lex(RegexOf(source[k]), 0, 1, stack) == Some(out[k])
      invariant forall k :: 0 <= k < i && !IsGlob(source[k]) ==> Lex(source[k], 0, 1, stack) == Some(out[k])
      invariant forall env, k :: 0 <= k < i && Good(env, source[k]) ==> Decides(env, out[k], source[k])
    {
      var text := RegexText(source[i]);
      var c := Compile(text, stack);
      if c.None? { return None; }
      out := out + [c.value];
      i := i + 1;
    }
    return Some(out);
  }

  /** sw_pattern_matched: whether some compiled pattern is found. When each decides its source, that is whether some
      source says so. */
  method PatternMatched(env: Platform, patterns: seq<seq<Obj>>, ghost ns: seq<nat>, name: string) returns (r: bool)
    requires |ns| == |patterns| && forall k :: 0 <= k < |ns| ==> Compiled(patterns[k], ns[k])
    ensures r <==> exists k :: 0 <= k < |ns| && Found(env, patterns[k], ns[k], name)
  {
    var i := 0;
    while i < |patterns|
      invariant i <= |patterns|
      invariant forall k :: 0 <= k < i ==> !Found(env, patterns[k], ns[k], name)
    {
      var at, len := MatchP(env, patterns[i], ns[i], name);
      if at >= 0 { return true; }
      i := i + 1;
    }
    return false;
  }

  /** Compiling a list and matching a name against it: whether some source says so of the name. */
  method Matched(env: Platform, source: seq<string>, name: string, stack: seq<Obj>) returns (r: bool)
    requires |stack| == MAX_OBJECTS && Bytes(name) && AllGood(env, source)
    ensures r <==> exists k :: 0 <= k < |source| && Says(env, source[k], name)
  {
    hide Lex, RegexOf, Says, Found, Good, Compiled, IsGlob;
    var c := CompilePatterns(source, stack);
    if c.None? { return false; }
    ghost var ns: seq<nat> := [];
    ghost var i := 0;
    while i < |source|
      invariant i == |ns| <= |source|
      invariant forall k :: 0 <= k < i ==> Compiled(c.value[k], ns[k])
      invariant forall k :: 0 <= k < i ==> (Found(env, c.value[k], ns[k], name) <==> Says(env, source[k], name))
    {
      ghost var n: nat :| Compiled(c.value[i], n) &&
        forall w :: Bytes(w) ==> (Found(env, c.value[i], n, w) <==> Says(env, source[i], w));
      ns := ns + [n];
      i := i + 1;
    }
    r := PatternMatched(env, c.value, ns, name);
  }
}
