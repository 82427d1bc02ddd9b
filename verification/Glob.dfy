/** src/core/pattern.c: recognising globs, translating them to regular
    expressions, and matching a name against a list of compiled patterns. */
module Glob {
  import opened Options
  import opened Regex

  // ---------- what a glob means ----------

  /** '*' is any string, '?' any one character, everything else itself. */
  ghost predicate GlobMatch(g: string, w: string) {
    if g == "" then w == ""
    else if g[0] == '*' then exists k :: 0 <= k <= |w| && GlobMatch(g[1..], w[k..])
    else w != "" && (g[0] == '?' || g[0] == w[0]) && GlobMatch(g[1..], w[1..])
  }

  predicate IsMeta(c: char) { c == '^' || c == '$' || c == '+' || c == '[' }

  /** No character of g, escaped or not, is one of ^ $ + [. */
  predicate MetaFree(g: string) {
    g == "" || (!IsMeta(g[0]) && MetaFree(g[1..]))
  }

  /** No character of g is beyond ASCII. */
  ghost predicate HighFree(g: string) { forall k :: 0 <= k < |g| ==> !High(g[k]) }

  /** Every literal of g can be told from every byte. */
  ghost predicate Comparable(env: Platform, g: string) { env.signed ==> HighFree(g) }

  /** No character of g outside a backslash pair is one of ^ $ + [. */
  predicate NoBareMeta(g: string) {
    if g == "" then true
    else if g[0] == '\\' then |g| == 1 || NoBareMeta(g[2..])
    else !IsMeta(g[0]) && NoBareMeta(g[1..])
  }

  /** Some character of g outside a backslash pair is '*' or '?'. */
  predicate HasWildcard(g: string) {
    if g == "" then false
    else if g[0] == '\\' then |g| > 1 && HasWildcard(g[2..])
    else g[0] == '*' || g[0] == '?' || HasWildcard(g[1..])
  }

  predicate IsGlob(g: string) { NoBareMeta(g) && HasWildcard(g) }

  /** The character at i comes second in a backslash pair. */
  predicate Escaped(p: string, i: nat)
    requires i <= |p|
  {
    i > 0 && p[i - 1] == '\\' && !Escaped(p, i - 1)
  }

  /** The character at i is one of cs and stands outside every backslash pair. */
  predicate Bare(p: string, i: nat, cs: set<char>)
    requires i < |p|
  {
    !Escaped(p, i) && p[i] in cs
  }

  lemma {:induction false} BareFrom(p: string, t: nat)
    requires t <= |p| && !Escaped(p, t)
    ensures NoBareMeta(p[t..]) <==> forall i: nat :: t <= i < |p| ==> !Bare(p, i, {'^', '$', '+', '['})
    ensures HasWildcard(p[t..]) <==> exists i: nat :: t <= i < |p| && Bare(p, i, {'*', '?'})
    decreases |p| - t
  {
    if t < |p| {
      assert p[t..][1..] == p[t + 1..];
      if p[t] != '\\' {
        BareFrom(p, t + 1);
      } else if t + 1 < |p| {
        assert p[t..][2..] == p[t + 2..];
        BareFrom(p, t + 2);
      }
      assert Bare(p, t, {'*', '?'}) <==> p[t] == '*' || p[t] == '?';
      assert Bare(p, t, {'^', '$', '+', '['}) <==> IsMeta(p[t]);
    }
  }

  /** A pattern is taken for a glob exactly when, outside backslash pairs, it has a '*' or a '?' and none of ^ $ + [. */
  lemma IsGlobMeaning(p: string)
    ensures IsGlob(p) <==>
            && (forall i: nat :: i < |p| ==> !Bare(p, i, {'^', '$', '+', '['}))
            && (exists i: nat :: i < |p| && Bare(p, i, {'*', '?'}))
  {
    BareFrom(p, 0);
    assert p[0..] == p;
  }

  /** is_glob_pattern. */
  method IsGlobPattern(pattern: string) returns (r: bool)
    ensures r == IsGlob(pattern)
  {
    var has := false;
    var i := 0;
    while i < |pattern|
      invariant i <= |pattern|
      invariant NoBareMeta(pattern) == NoBareMeta(pattern[i..])
      invariant HasWildcard(pattern) == (has || HasWildcard(pattern[i..]))
    {
      var c := pattern[i];
      ghost var s := pattern[i..];
      assert s[1..] == pattern[i + 1..];
      if IsMeta(c) { return false; }
      if c == '\\' {
        if i + 1 < |pattern| {
          assert s[2..] == pattern[i + 2..];
          i := i + 1;
        }
      } else if c == '*' || c == '?' {
        has := true;
      }
      i := i + 1;
    }
    return has;
  }

  // ---------- the translation ----------

  function TranslateChar(c: char): (r: string) {
    match c
    case '*' => ".*"
    case '?' => "."
    case '.' => "\\."
    case '\\' => "\\\\"
    case _ => [c]
  }

  function Translate(g: string): string {
    if g == "" then "" else TranslateChar(g[0]) + Translate(g[1..])
  }

  function GlobRegex(g: string): string { "^" + Translate(g) + "$" }

  /** The buffer's contents once i characters have been translated. */
  function Written(g: string, i: nat): string
    requires i <= |g|
  {
    "^" + Translate(g[..i])
  }

  lemma TranslateSplit(g: string, i: nat)
    requires i < |g|
    ensures Translate(g[..i + 1]) == Translate(g[..i]) + TranslateChar(g[i])
    ensures |Translate(g[..i + 1])| <= |Translate(g)|
  {
    if i == 0 {
      assert g[..1] == [g[0]] && g[..0] == "" && [g[0]][1..] == "";
      assert TranslateChar(g[0]) + "" == TranslateChar(g[0]);
    } else {
      TranslateSplit(g[1..], i - 1);
      assert g[1..][..i] == g[..i + 1][1..] && g[1..][..i - 1] == g[..i][1..];
      assert TranslateChar(g[0]) + (Translate(g[1..i]) + TranslateChar(g[i]))
          == (TranslateChar(g[0]) + Translate(g[1..i])) + TranslateChar(g[i]);
    }
  }

  lemma WrittenStep(g: string, i: nat)
    requires i < |g|
    ensures Written(g, i + 1) == Written(g, i) + TranslateChar(g[i])
    ensures |Written(g, i)| + |TranslateChar(g[i])| < |GlobRegex(g)|
  {
    TranslateSplit(g, i);
  }

  lemma WrittenAll(g: string)
    ensures Written(g, |g|) + "$" == GlobRegex(g)
  {
    assert g[..|g|] == g;
  }

  /** sw_glob_to_regex: fills buf with the translation and a terminator exactly
      when there is room for both and one byte more. */
  method GlobToRegex(glob: string, buf: array<char>) returns (ok: bool)
    modifies buf
    ensures ok <==> buf.Length >= 4 && |GlobRegex(glob)| + 1 < buf.Length
    ensures ok ==> buf[..|GlobRegex(glob)| + 1] == GlobRegex(glob) + ['\0']
  {
    if buf.Length < 4 { return false; }
    buf[0] := '^';
    var pos := 1;
    var i := 0;
    while i < |glob|
      invariant i <= |glob| && 0 < pos < buf.Length
      invariant buf[..pos] == Written(glob, i)
    {
      WrittenStep(glob, i);
      if pos + 3 >= buf.Length { return false; }
      pos := EmitChar(glob[i], buf, pos);
      i := i + 1;
    }
    WrittenAll(glob);
    if pos + 2 >= buf.Length { return false; }
    ghost var done := buf[..pos];
    buf[pos] := '$';
    pos := pos + 1;
    assert buf[..pos] == done + "$";
    buf[pos] := '\0';
    return true;
  }

  /** The switch of sw_glob_to_regex. */
  method EmitChar(c: char, buf: array<char>, pos0: nat) returns (pos: nat)
    requires pos0 + 2 < buf.Length
    modifies buf
    ensures pos == pos0 + |TranslateChar(c)|
    ensures buf[..pos] == old(buf[..pos0]) + TranslateChar(c)
  {
    pos := pos0;
    if c == '*' { buf[pos] := '.'; buf[pos + 1] := '*'; pos := pos + 2; }
    else if c == '?' { buf[pos] := '.'; pos := pos + 1; }
    else if c == '.' { buf[pos] := '\\'; buf[pos + 1] := '.'; pos := pos + 2; }
    else if c == '\\' { buf[pos] := '\\'; buf[pos + 1] := '\\'; pos := pos + 2; }
    else { buf[pos] := c; pos := pos + 1; }
  }

  // ---------- meaning-preserving translation ----------

  /** Tokens a translated glob needs: one a character, one more a '*', two anchors. */
  function TokenCount(g: string): (r: nat)
    ensures r >= |g| + 2
  {
    if g == "" then 2 else (if g[0] == '*' then 2 else 1) + TokenCount(g[1..])
  }

  lemma {:induction false} TokensCounted(g: string)
    ensures TokenCount(g) == 2 + |g| + multiset(g)['*']
  {
    if g != "" {
      TokensCounted(g[1..]);
      assert g == [g[0]] + g[1..];
    }
  }

  lemma {:induction false} TranslationFits(g: string)
    ensures |Translate(g)| <= 2 * |g|
  {
    if g != "" { TranslationFits(g[1..]); }
  }

  /** What a character becomes in the token array: an anchor character turns into
      an anchor token, which compares against what the stack held (x). */
  function Literal(c: char, x: char): char { if c == '^' || c == '$' then x else c }

  function Blur(g: string, x: char): (r: string)
    ensures |r| == |g|
    ensures forall k :: 0 <= k < |g| ==> r[k] == Literal(g[k], x)
  {
    if g == "" then "" else [Literal(g[0], x)] + Blur(g[1..], x)
  }

  /** Tokens pat[j..n] spell the glob g, followed by END. */
  ghost predicate Spells(pat: seq<Obj>, j: nat, n: nat, g: string)
    decreases g
  {
    && j < n < |pat|
    && if g == "" then j + 1 == n && pat[j].kind.End? && pat[n].kind.Unused?
       else if g[0] == '*' then pat[j].kind.Dot? && pat[j + 1].kind.Star? && Spells(pat, j + 2, n, g[1..])
       else if g[0] == '?' then pat[j].kind.Dot? && Spells(pat, j + 1, n, g[1..])
       else
         && (pat[j].kind.Char? || pat[j].kind.Begin? || pat[j].kind.End?)
         && pat[j].ch == g[0]
         && Spells(pat, j + 1, n, g[1..])
  }

  ghost predicate NoClassOrPlus(g: string) { '+' !in g && '[' !in g }

  /** The object a glob character other than * + [ compiles to. */
  function TokenOf(c: char, prior: Obj): Obj {
    match c
    case '?' => prior.(kind := Dot)
    case '^' => prior.(kind := Begin)
    case '$' => prior.(kind := End)
    case _ => prior.(kind := Char, ch := c)
  }

  lemma LexOneChar(c: char, rest: string, slot: nat, prior: Obj)
    requires c != '*' && c != '+' && c != '['
    ensures LexOne(TranslateChar(c) + rest, slot, prior) == Some((TokenOf(c, prior), rest, slot))
  {
    var s := TranslateChar(c) + rest;
    if c == '.' || c == '\\' { assert s[1] == c && s[2..] == rest; } else { assert s[1..] == rest; }
  }

  lemma LexStar(rest: string, j: nat, slot: nat, objs: seq<Obj>)
    requires |objs| == MAX_OBJECTS && j + 2 < MAX_OBJECTS
    ensures Lex(TranslateChar('*') + rest, j, slot, objs) ==
            Lex(rest, j + 2, slot, objs[j := objs[j].(kind := Dot)][j + 1 := objs[j + 1].(kind := Star)])
  {
    var s := TranslateChar('*') + rest;
    assert s[0] == '.' && s[1..] == "*" + rest && s[1..][1..] == rest;
    assert Lex(s, j, slot, objs) == Lex(s[1..], j + 1, slot, objs[j := objs[j].(kind := Dot)]);
  }

  /** Compiling the translation of a glob without + and [ spells it out. */
  lemma {:induction false} LexSpells(g: string, j: nat, slot: nat, objs: seq<Obj>, x: char) returns (pat: seq<Obj>,
                                     n: nat)
    requires |objs| == MAX_OBJECTS && j + TokenCount(g) <= MAX_OBJECTS
    requires NoClassOrPlus(g)
    requires x != '*' && x != '?'
    requires MetaFree(g) || (forall k :: j <= k < MAX_OBJECTS ==> objs[k].ch == x)
    ensures Lex(Translate(g) + "$", j, slot, objs) == Some(pat)
    ensures |pat| == MAX_OBJECTS && Spells(pat, j, n, Blur(g, x))
    ensures forall k :: 0 <= k < j ==> pat[k] == objs[k]
  {
    var s := Translate(g) + "$";
    if g == "" {
      var o := objs[j := objs[j].(kind := End)];
      assert s[1..] == "";
      n := j + 1;
      pat := o[n := o[n].(kind := Unused)];
      assert Lex("", n, slot, o) == Some(pat);
    } else {
      var rest := Translate(g[1..]) + "$";
      assert s == TranslateChar(g[0]) + rest;
      assert Blur(g, x)[1..] == Blur(g[1..], x);
      if g[0] == '*' {
        LexStar(rest, j, slot, objs);
        var o := objs[j := objs[j].(kind := Dot)][j + 1 := objs[j + 1].(kind := Star)];
        pat, n := LexSpells(g[1..], j + 2, slot, o, x);
        assert pat[j] == o[j] && pat[j + 1] == o[j + 1];
      } else {
        LexOneChar(g[0], rest, slot, objs[j]);
        var o := objs[j := TokenOf(g[0], objs[j])];
        pat, n := LexSpells(g[1..], j + 1, slot, o, x);
        assert pat[j] == o[j];
      }
    }
  }

  lemma {:induction false} SpellsBody(pat: seq<Obj>, j: nat, n: nat, g: string)
    requires Spells(pat, j, n, g)
    ensures Body(pat, j, n) && !IsQuant(pat[j].kind)
    decreases g
  {
    if g != "" {
      SpellsBody(pat, if g[0] == '*' then j + 2 else j + 1, n, g[1..]);
    }
  }

  /** A token sequence that spells g accepts exactly what g matches. */
  lemma {:induction false} SpellsMeaning(env: Platform, pat: seq<Obj>, j: nat, n: nat, g: string, text: string, i: nat)
    requires Spells(pat, j, n, g) && i <= |text| && Body(pat, j, n) && Bytes(text) && Comparable(env, g)
    ensures Accepts(env, pat, j, n, text, i) <==> GlobMatch(g, text[i..])
    decreases g
  {
    hide Accepts, InLang;
    if g == "" {
      SpellsNothing(env, pat, j, n, text, i);
    } else if g[0] == '*' {
      SpellsBody(pat, j + 2, n, g[1..]);
      AcceptsStep(env, pat, j, n, text, i);
      forall m | i <= m <= |text|
        ensures Accepts(env, pat, NextItem(pat, j), n, text, m) <==> GlobMatch(g[1..], text[i..][m - i..])
      {
        SpellsMeaning(env, pat, j + 2, n, g[1..], text, m);
        assert text[i..][m - i..] == text[m..];
      }
      if GlobMatch(g, text[i..]) {
        var k :| 0 <= k <= |text[i..]| && GlobMatch(g[1..], text[i..][k..]);
        assert Accepts(env, pat, NextItem(pat, j), n, text, i + k) && Times(pat, j, i + k - i);
        assert AcceptsVia(env, pat, j, n, text, i);
      }
    } else {
      SpellsBody(pat, j + 1, n, g[1..]);
      AcceptsStep(env, pat, j, n, text, i);
      OneChar(env, pat, j, n, text, i);
      if i < |text| {
        SpellsMeaning(env, pat, j + 1, n, g[1..], text, i + 1);
        assert text[i..][1..] == text[i + 1..];
      }
    }
  }

  /** Where plain chars are signed, tokens that spell a glob with a byte beyond ASCII
      accept nothing. */
  lemma {:induction false} SpellsNever(env: Platform, pat: seq<Obj>, j: nat, n: nat, g: string, text: string, i: nat)
    requires Spells(pat, j, n, g) && i <= |text| && Body(pat, j, n) && Bytes(text) && env.signed && !HighFree(g)
    ensures !Accepts(env, pat, j, n, text, i)
    decreases g
  {
    hide Accepts, InLang;
    if g[0] == '*' {
      SpellsBody(pat, j + 2, n, g[1..]);
      AcceptsStep(env, pat, j, n, text, i);
      forall m | i <= m <= |text| ensures !Accepts(env, pat, NextItem(pat, j), n, text, m) {
        SpellsNever(env, pat, j + 2, n, g[1..], text, m);
      }
    } else {
      SpellsBody(pat, j + 1, n, g[1..]);
      AcceptsStep(env, pat, j, n, text, i);
      OneChar(env, pat, j, n, text, i);
      if i < |text| && !High(g[0]) { SpellsNever(env, pat, j + 1, n, g[1..], text, i + 1); }
    }
  }

  lemma SpellsNothing(env: Platform, pat: seq<Obj>, j: nat, n: nat, text: string, i: nat)
    requires Spells(pat, j, n, "") && i <= |text| && Body(pat, j, n)
    ensures Accepts(env, pat, j, n, text, i) <==> text[i..] == ""
  {
    assert Accepts(env, pat, j, n, text, i) <==> InLang(env, pat, j, n, text, i, |text|);
  }

  lemma CompiledFirst(g: string, stack: seq<Obj>)
    requires |stack| == MAX_OBJECTS
    ensures var o := stack[0 := stack[0].(kind := Begin)];
            Lex(GlobRegex(g), 0, 1, stack) == Lex(Translate(g) + "$", 1, 1, o)
  {
    var s := GlobRegex(g);
    assert s[0] == '^' && s[1..] == Translate(g) + "$";
  }

  /** The compiled translation of g says of every C string what g says of it. */
  ghost predicate Faithful(env: Platform, g: string, stack: seq<Obj>)
    requires |stack| == MAX_OBJECTS
  {
    exists pat: seq<Obj>, n: nat ::
      Lex(GlobRegex(g), 0, 1, stack) == Some(pat) && Compiled(pat, n) && pat[0].kind.Begin? &&
      forall text :: Bytes(text) ==> (Accepts(env, pat, 1, n, text, 0) <==> GlobMatch(g, text))
  }

  /** A glob that fits, contains none of ^ $ + [, and where plain chars are signed no
      byte beyond ASCII, keeps its meaning. */
  lemma GlobKeepsMeaning(env: Platform, g: string, stack: seq<Obj>)
    requires |stack| == MAX_OBJECTS && TokenCount(g) < MAX_OBJECTS && MetaFree(g) && Comparable(env, g)
    ensures Faithful(env, g, stack)
  {
    CompiledFirst(g, stack);
    var o := stack[0 := stack[0].(kind := Begin)];
    MetaFreeChars(g);
    var pat, n := LexSpells(g, 1, 1, o, 'x');
    BlurMetaFree(g);
    assert pat[0] == pat[..1][0];
    SpellsBody(pat, 1, n, g);
    forall text | Bytes(text) ensures Accepts(env, pat, 1, n, text, 0) <==> GlobMatch(g, text) {
      SpellsMeaning(env, pat, 1, n, g, text, 0);
      assert text[0..] == text;
    }
    assert Compiled(pat, n) && pat[0].kind.Begin?;
  }

  lemma MetaFreeChars(g: string)
    ensures MetaFree(g) <==> '^' !in g && '$' !in g && '+' !in g && '[' !in g
  {
  }

  lemma BlurMetaFree(g: string)
    requires MetaFree(g)
    ensures Blur(g, 'x') == g
  {
    MetaFreeChars(g);
  }

  // ---------- when the translation loses the meaning ----------

  /** Length of the shortest words of pat[p..n], when it has any. */
  ghost function MinLen(pat: seq<Obj>, p: nat, n: nat): nat
    requires p <= n < |pat| && Body(pat, p, n)
    decreases n - p
  {
    if p == n || AtEnd(pat, p, n) then 0
    else (if pat[p + 1].kind.QuestionMark? || pat[p + 1].kind.Star? then 0 else 1) + MinLen(pat, NextItem(pat, p), n)
  }

  /** Number of characters every match of g must have. */
  function GlobMin(g: string): nat {
    if g == "" then 0 else (if g[0] == '*' then 0 else 1) + GlobMin(g[1..])
  }

  /** Membership depends on the characters between i and j only. */
  lemma InLangShift(env: Platform, pat: seq<Obj>, p: nat, n: nat, v: string, i: nat, j: nat, w: string, d: int)
    requires p <= n < |pat| && Body(pat, p, n) && i <= j <= |v| && 0 <= i + d && j + d <= |w|
    requires forall k :: i <= k < j ==> v[k] == w[k + d]
    requires InLang(env, pat, p, n, v, i, j)
    ensures InLang(env, pat, p, n, w, i + d, j + d)
    decreases n - p
  {
    if p < n && !AtEnd(pat, p, n) {
      var m :| i <= m <= j && Times(pat, p, m - i) && All(env, pat[p], v, i, m) &&
               InLang(env, pat, NextItem(pat, p), n, v, m, j);
      InLangShift(env, pat, NextItem(pat, p), n, v, m, j, w, d);
      assert Times(pat, p, (m + d) - (i + d));
      forall k | i + d <= k < m + d ensures MatchOne(env, pat[p], w[k]) {
        assert v[k - d] == w[k - d + d];
      }
      assert All(env, pat[p], w, i + d, m + d);
    }
  }

  /** From any word, dropping optional repetitions gives one of least length. */
  lemma ShortWord(env: Platform, pat: seq<Obj>, p: nat, n: nat, v: string, i: nat, j: nat) returns (w: string)
    requires p <= n < |pat| && Body(pat, p, n) && i <= j <= |v|
    requires InLang(env, pat, p, n, v, i, j)
    ensures |w| == MinLen(pat, p, n) && InLang(env, pat, p, n, w, 0, |w|) && forall c :: c in w ==> c in v
    decreases n - p
  {
    if p == n || AtEnd(pat, p, n) {
      w := "";
    } else {
      var q := NextItem(pat, p);
      var m :| i <= m <= j && Times(pat, p, m - i) && All(env, pat[p], v, i, m) && InLang(env, pat, q, n, v, m, j);
      var u := ShortWord(env, pat, q, n, v, m, j);
      var head := if pat[p + 1].kind.QuestionMark? || pat[p + 1].kind.Star? then "" else [v[i]];
      w := head + u;
      InLangShift(env, pat, q, n, u, 0, |u|, w, |head|);
      assert Times(pat, p, |head| - 0) && All(env, pat[p], w, 0, |head|);
    }
  }

  lemma GlobNeeds(g: string, w: string)
    requires GlobMatch(g, w)
    ensures |w| >= GlobMin(g)
    ensures forall c :: c in g && c != '*' && c != '?' ==> c in w
  {
    if g != "" {
      if g[0] == '*' {
        var k :| 0 <= k <= |w| && GlobMatch(g[1..], w[k..]);
        GlobNeeds(g[1..], w[k..]);
        assert w == w[..k] + w[k..];
      } else {
        GlobNeeds(g[1..], w[1..]);
        assert g == [g[0]] + g[1..] && w == [w[0]] + w[1..];
      }
    }
  }

  /** A string g matches, with no character that g does not name but x. */
  function Sample(g: string, x: char): (w: string)
    ensures GlobMatch(g, w)
    ensures forall c :: c in w ==> c == x || c in g
  {
    if g == "" then ""
    else
      var u := Sample(g[1..], x);
      if g[0] == '*' then assert u[0..] == u; u
      else
        var w := [if g[0] == '?' then x else g[0]] + u;
        assert w[1..] == u;
        w
  }

  lemma SampleIsBytes(g: string)
    requires Bytes(g)
    ensures Bytes(Sample(g, 'x'))
  {
    var w := Sample(g, 'x');
    forall k | 0 <= k < |w| ensures 0 < w[k] as int < 0x100 { assert w[k] in w; }
  }

  lemma BlurKeepsBytes(g: string)
    ensures Bytes(g) ==> Bytes(Blur(g, 'x'))
    ensures HighFree(Blur(g, 'x')) <==> HighFree(g)
  {
    if HighFree(Blur(g, 'x')) {
      forall k | 0 <= k < |g| ensures !High(g[k]) { assert Literal(g[k], 'x') == Blur(g, 'x')[k]; }
    }
  }

  /** A byte beyond ASCII where plain chars are signed: nothing is matched any more. */
  lemma HighByteLosesMeaning(env: Platform, g: string, stack: seq<Obj>)
    requires |stack| == MAX_OBJECTS && TokenCount(g) < MAX_OBJECTS && Bytes(g)
    requires NoClassOrPlus(g) && env.signed && !HighFree(g)
    requires MetaFree(g) || forall k :: 0 <= k < MAX_OBJECTS ==> stack[k].ch == 'x'
    ensures !Faithful(env, g, stack)
  {
    CompiledFirst(g, stack);
    var o := stack[0 := stack[0].(kind := Begin)];
    var pat, n := LexSpells(g, 1, 1, o, 'x');
    if Faithful(env, g, stack) {
      var n' :| Compiled(pat, n') &&
                forall text :: Bytes(text) ==> (Accepts(env, pat, 1, n', text, 0) <==> GlobMatch(g, text));
      var w := Sample(g, 'x');
      SampleIsBytes(g);
      SpellsBody(pat, 1, n, Blur(g, 'x'));
      BlurKeepsBytes(g);
      OneTerminator(pat, 1, n, n');
      SpellsNever(env, pat, 1, n, Blur(g, 'x'), w, 0);
      assert false;
    }
  }

  /** Escaped ^ or $, but no + or [: what the stack held takes their place. */
  lemma AnchorLosesMeaning(env: Platform, g: string, stack: seq<Obj>)
    requires |stack| == MAX_OBJECTS && TokenCount(g) < MAX_OBJECTS && Bytes(g)
    requires NoClassOrPlus(g) && !MetaFree(g)
    requires forall k :: 0 <= k < MAX_OBJECTS ==> stack[k].ch == 'x'
    ensures !Faithful(env, g, stack)
  {
    if !Comparable(env, g) {
      HighByteLosesMeaning(env, g, stack);
      return;
    }
    CompiledFirst(g, stack);
    MetaFreeChars(g);
    hide Lex, Accepts, GlobMatch, Spells, Translate, MetaFree;
    var o := stack[0 := stack[0].(kind := Begin)];
    var pat, n := LexSpells(g, 1, 1, o, 'x');
    if Faithful(env, g, stack) {
      var n' :| Compiled(pat, n') &&
                forall text :: Bytes(text) ==> (Accepts(env, pat, 1, n', text, 0) <==> GlobMatch(g, text));
      var w := Sample(Blur(g, 'x'), 'x');
      assert w[0..] == w;
      BlurKeepsBytes(g);
      SampleIsBytes(Blur(g, 'x'));
      SpellsBody(pat, 1, n, Blur(g, 'x'));
      SpellsMeaning(env, pat, 1, n, Blur(g, 'x'), w, 0);
      OneTerminator(pat, 1, n, n');
      GlobNeeds(g, w);
      assert false;
    }
  }

  lemma OneTerminator(pat: seq<Obj>, p: nat, n: nat, n': nat)
    requires p <= n < |pat| && p <= n' < |pat| && Body(pat, p, n) && Body(pat, p, n')
    ensures n == n'
    decreases n - p
  {
    if p < n && p < n' { OneTerminator(pat, NextItem(pat, p), n, n'); }
  }

  lemma GlobMinDrop(h: string, k: nat)
    requires k < |h| && h[k] != '*'
    ensures GlobMin(h) >= 1 + GlobMin(h[k + 1..]) && TokenCount(h) >= 1 + TokenCount(h[k + 1..])
  {
    if k > 0 {
      GlobMinDrop(h[1..], k - 1);
      assert h[1..][k..] == h[k + 1..];
    }
  }

  /** Inside a class, a translated character other than ']' is just copied. */
  lemma ClassSkips(c: char, rest: string, slot: nat) returns (slot': nat)
    requires c != ']' && ClassBody(TranslateChar(c) + rest, slot).Some?
    ensures ClassBody(rest, slot').Some?
    ensures ClassBody(rest, slot').value.1 == ClassBody(TranslateChar(c) + rest, slot).value.1
  {
    var s := TranslateChar(c) + rest;
    if c == '.' || c == '\\' {
      assert s[2..] == rest;
      slot' := slot + 2;
    } else if c == '*' {
      assert s[1..] == "*" + rest && s[1..][1..] == rest;
      assert ClassBody(s[1..], slot + 1).Some?;
      slot' := slot + 2;
    } else {
      assert s[1..] == rest;
      slot' := slot + 1;
    }
  }

  lemma ClassHasEnd(h: string, slot: nat)
    requires ClassBody(Translate(h) + "$", slot).Some? && ClassBody(Translate(h) + "$", slot).value.1 != ""
    ensures h != ""
  {
    assert Translate("") + "$" == "$" && "$"[1..] == "";
  }

  lemma ClassStops(rest: string, slot: nat)
    ensures ClassBody("]" + rest, slot) == Some(("", "]" + rest, slot))
  {
  }

  /** A class opened by an escaped '[' ends at a ']' of the glob, after which
      the glob goes on outside any backslash pair. */
  lemma ClassEnds(h: string, slot: nat) returns (k: nat)
    requires NoBareMeta(h) && ClassBody(Translate(h) + "$", slot).Some?
    requires ClassBody(Translate(h) + "$", slot).value.1 != ""
    ensures k < |h| && h[k] == ']' && NoBareMeta(h[k + 1..])
    ensures ClassBody(Translate(h) + "$", slot).value.1 == "]" + (Translate(h[k + 1..]) + "$")
    decreases |h|
  {
    hide ClassBody;
    var s := Translate(h) + "$";
    ClassHasEnd(h, slot);
    if h[0] == ']' {
      assert s == "]" + (Translate(h[1..]) + "$");
      ClassStops(Translate(h[1..]) + "$", slot);
      k := 0;
    } else {
      assert s == TranslateChar(h[0]) + (Translate(h[1..]) + "$");
      var slot1 := ClassSkips(h[0], Translate(h[1..]) + "$", slot);
      if h[0] == '\\' && |h| > 1 {
        k := ClassEndsEscaped(h[1..], slot1);
      } else {
        k := ClassEnds(h[1..], slot1);
      }
      assert h[1..][k + 1..] == h[k + 2..];
      k := k + 1;
    }
  }

  /** The same for the second character of a backslash pair and what follows. */
  lemma ClassEndsEscaped(h: string, slot: nat) returns (k: nat)
    requires h != "" && NoBareMeta(h[1..]) && ClassBody(Translate(h) + "$", slot).Some?
    requires ClassBody(Translate(h) + "$", slot).value.1 != ""
    ensures k < |h| && h[k] == ']' && NoBareMeta(h[k + 1..])
    ensures ClassBody(Translate(h) + "$", slot).value.1 == "]" + (Translate(h[k + 1..]) + "$")
    decreases |h|
  {
    hide ClassBody;
    assert Translate(h) + "$" == TranslateChar(h[0]) + (Translate(h[1..]) + "$");
    if h[0] == ']' {
      ClassStops(Translate(h[1..]) + "$", slot);
      k := 0;
    } else {
      var slot1 := ClassSkips(h[0], Translate(h[1..]) + "$", slot);
      k := ClassEnds(h[1..], slot1);
      assert h[1..][k + 1..] == h[k + 2..];
      k := k + 1;
    }
  }

  /** g has a + or a [. */
  predicate Loses(g: string) {
    g != "" && (g[0] == '+' || g[0] == '[' || Loses(g[1..]))
  }

  lemma LosesChars(g: string)
    ensures Loses(g) <==> !NoClassOrPlus(g)
  {
    if g != "" { assert g == [g[0]] + g[1..]; }
  }

  function Bound(g: string): int { GlobMin(g) - if Loses(g) then 1 else 0 }

  /** pat[j..n] is an anchored body whose shortest words have length at most b. */
  ghost predicate Short(pat: seq<Obj>, j: nat, n: nat, b: int) {
    j < n < |pat| && Body(pat, j, n) && pat[n - 1].kind.End? && MinLen(pat, j, n) <= b
  }

  lemma ShortAtom(pat: seq<Obj>, j: nat, n: nat, b: int)
    requires Short(pat, j + 1, n, b) && !pat[j].kind.Unused? && !IsQuant(pat[j].kind)
    ensures Short(pat, j, n, b + 1)
  {
    assert !IsQuant(pat[j + 1].kind);
  }

  lemma ShortStar(pat: seq<Obj>, j: nat, n: nat, b: int)
    requires Short(pat, j + 2, n, b) && !pat[j].kind.Unused? && !IsQuant(pat[j].kind) && pat[j + 1].kind.Star?
    ensures Short(pat, j, n, b)
  {
  }

  lemma LexPushChar(c: char, rest: string, j: nat, slot: nat, objs: seq<Obj>)
    requires |objs| == MAX_OBJECTS && j + 1 < MAX_OBJECTS && c != '*' && c != '+' && c != '['
    ensures Lex(TranslateChar(c) + rest, j, slot, objs) == Lex(rest, j + 1, slot, objs[j := TokenOf(c, objs[j])])
  {
    LexOneChar(c, rest, slot, objs[j]);
    LexPush(TranslateChar(c) + rest, j, slot, objs, TokenOf(c, objs[j]), rest, slot);
  }

  /** The objects compiled from an accepted glob: shortest words at most as long
      as the glob demands, and shorter if the glob has a + or a [. */
  lemma {:induction false} LexShortens(g: string, j: nat, slot: nat, objs: seq<Obj>, pat: seq<Obj>) returns (n: nat)
    requires |objs| == MAX_OBJECTS && j + TokenCount(g) <= MAX_OBJECTS && NoBareMeta(g)
    requires Lex(Translate(g) + "$", j, slot, objs) == Some(pat)
    ensures Short(pat, j, n, Bound(g))
    ensures forall k :: 0 <= k < j ==> pat[k] == objs[k]
    decreases |g|, 2
  {
    if g == "" {
      var p, n' := LexSpells("", j, slot, objs, 'x');
      n := n';
    } else if g[0] == '\\' && |g| > 1 {
      var rest := Translate(g[1..]) + "$";
      assert Translate(g) + "$" == TranslateChar(g[0]) + rest;
      LexPushChar(g[0], rest, j, slot, objs);
      n := LexEscaped(g[1..], j + 1, slot, objs[j := TokenOf(g[0], objs[j])], pat);
    } else {
      n := LexPlain(g, j, slot, objs, pat);
    }
  }

  /** The step for a character other than + and [. */
  lemma {:induction false} LexPlain(g: string, j: nat, slot: nat, objs: seq<Obj>, pat: seq<Obj>) returns (n: nat)
    requires |objs| == MAX_OBJECTS && j + TokenCount(g) <= MAX_OBJECTS
    requires g != "" && g[0] != '+' && g[0] != '[' && NoBareMeta(g[1..])
    requires Lex(Translate(g) + "$", j, slot, objs) == Some(pat)
    ensures Short(pat, j, n, Bound(g))
    ensures forall k :: 0 <= k < j ==> pat[k] == objs[k]
    decreases |g|, 0
  {
    hide Lex, Short;
    var rest := Translate(g[1..]) + "$";
    assert Translate(g) + "$" == TranslateChar(g[0]) + rest;
    if g[0] == '*' {
      LexStar(rest, j, slot, objs);
      var o := objs[j := objs[j].(kind := Dot)][j + 1 := objs[j + 1].(kind := Star)];
      n := LexShortens(g[1..], j + 2, slot, o, pat);
      assert pat[j] == o[j] && pat[j + 1] == o[j + 1];
      ShortStar(pat, j, n, Bound(g[1..]));
    } else {
      LexPushChar(g[0], rest, j, slot, objs);
      var o := objs[j := TokenOf(g[0], objs[j])];
      n := LexShortens(g[1..], j + 1, slot, o, pat);
      assert pat[j] == o[j];
      ShortAtom(pat, j, n, Bound(g[1..]));
    }
  }

  /** The same when the first character of g follows a backslash, compiled at j - 1. */
  lemma {:induction false} LexEscaped(g: string, j: nat, slot: nat, objs: seq<Obj>, pat: seq<Obj>) returns (n: nat)
    requires |objs| == MAX_OBJECTS && j + TokenCount(g) <= MAX_OBJECTS
    requires j > 0 && objs[j - 1].kind.Char? && g != "" && NoBareMeta(g[1..])
    requires Lex(Translate(g) + "$", j, slot, objs) == Some(pat)
    ensures Short(pat, j - 1, n, 1 + Bound(g))
    ensures forall k :: 0 <= k < j ==> pat[k] == objs[k]
    decreases |g|, 1
  {
    if g[0] == '+' {
      n := LexEscapedPlus(g, j, slot, objs, pat);
    } else {
      if g[0] == '[' {
        n := LexClass(g, j, slot, objs, pat);
      } else {
        n := LexPlain(g, j, slot, objs, pat);
      }
      assert pat[j - 1] == objs[j - 1];
      ShortAtom(pat, j - 1, n, Bound(g));
    }
  }

  lemma {:induction false} LexEscapedPlus(g: string, j: nat, slot: nat, objs: seq<Obj>, pat: seq<Obj>) returns (n: nat)
    requires |objs| == MAX_OBJECTS && j + TokenCount(g) <= MAX_OBJECTS
    requires j > 0 && objs[j - 1].kind.Char? && g != "" && g[0] == '+' && NoBareMeta(g[1..])
    requires Lex(Translate(g) + "$", j, slot, objs) == Some(pat)
    ensures Short(pat, j - 1, n, 1 + Bound(g))
    ensures forall k :: 0 <= k < j ==> pat[k] == objs[k]
    decreases |g|, 0
  {
    var rest := Translate(g[1..]) + "$";
    assert Translate(g) + "$" == TranslateChar('+') + rest;
    var o := objs[j := objs[j].(kind := Plus)];
    n := LexShortens(g[1..], j + 1, slot, o, pat);
    assert pat[j - 1] == o[j - 1] && pat[j] == o[j];
    assert Bound(g) == GlobMin(g[1..]);
  }

  /** The same for an opening bracket: the class swallows up to a ']' of g. */
  lemma {:induction false} LexClass(g: string, j: nat, slot: nat, objs: seq<Obj>, pat: seq<Obj>) returns (n: nat)
    requires |objs| == MAX_OBJECTS && j + TokenCount(g) <= MAX_OBJECTS
    requires g != "" && g[0] == '[' && NoBareMeta(g[1..])
    requires Lex(Translate(g) + "$", j, slot, objs) == Some(pat)
    ensures Short(pat, j, n, Bound(g))
    ensures forall k :: 0 <= k < j ==> pat[k] == objs[k]
    decreases |g|, 0
  {
    var h := g[1..];
    assert Translate(g) + "$" == "[" + (Translate(h) + "$");
    var k, one, slot1 := LexesBracket(h, j, slot, objs);
    hide Lex, LexOne, Short, Translate;
    GlobMinDrop(h, k);
    var o := objs[j := one];
    n := LexShortens(h[k + 1..], j + 1, slot1, o, pat);
    assert pat[j] == o[j];
    ShortAtom(pat, j, n, Bound(h[k + 1..]));
  }

  lemma LexesBracket(h: string, j: nat, slot: nat, objs: seq<Obj>) returns (k: nat, one: Obj, slot1: nat)
    requires |objs| == MAX_OBJECTS && j + 1 < MAX_OBJECTS && NoBareMeta(h)
    requires Lex("[" + (Translate(h) + "$"), j, slot, objs).Some?
    ensures k < |h| && h[k] == ']' && NoBareMeta(h[k + 1..]) && one.kind.CharClass?
    ensures Lex("[" + (Translate(h) + "$"), j, slot, objs) ==
            Lex(Translate(h[k + 1..]) + "$", j + 1, slot1, objs[j := one])
  {
    var s := "[" + (Translate(h) + "$");
    assert s[1..] == Translate(h) + "$" && s[1] == s[1..][0];
    NotInverted(h);
    var l := LexOne(s, slot, objs[j]);
    k := ClassEnds(h, slot);
    one, slot1 := l.value.0, l.value.2;
    assert l.value.1 == Translate(h[k + 1..]) + "$";
    LexPush(s, j, slot, objs, one, l.value.1, slot1);
  }

  lemma NotInverted(h: string)
    requires NoBareMeta(h)
    ensures (Translate(h) + "$")[0] != '^'
  {
    if h != "" { assert (Translate(h) + "$")[0] == TranslateChar(h[0])[0]; }
  }

  /** Escaped + or [: the regular expression, if it compiles at all, matches
      nothing or something shorter than the glob demands. */
  lemma QuantifierLosesMeaning(env: Platform, g: string, stack: seq<Obj>)
    requires |stack| == MAX_OBJECTS && TokenCount(g) < MAX_OBJECTS && Bytes(g)
    requires NoBareMeta(g) && !NoClassOrPlus(g)
    ensures !Faithful(env, g, stack)
  {
    CompiledFirst(g, stack);
    var o := stack[0 := stack[0].(kind := Begin)];
    if Faithful(env, g, stack) {
      var pat: seq<Obj>, n': nat :| Lex(GlobRegex(g), 0, 1, stack) == Some(pat) && Compiled(pat, n') &&
        pat[0].kind.Begin? &&
        forall text :: Bytes(text) ==> (Accepts(env, pat, 1, n', text, 0) <==> GlobMatch(g, text));
      LosesChars(g);
      var n := LexShortens(g, 1, 1, o, pat);
      OneTerminator(pat, 1, n, n');
      var v := Sample(g, 'x');
      SampleIsBytes(g);
      assert Accepts(env, pat, 1, n, v, 0);
      var w := ShortWord(env, pat, 1, n, v, 0, |v|);
      PartIsBytes(v, w);
      assert Accepts(env, pat, 1, n, w, 0);
      GlobNeeds(g, w);
      assert false;
    }
  }

  lemma PartIsBytes(v: string, w: string)
    requires Bytes(v) && forall c :: c in w ==> c in v
    ensures Bytes(w)
  {
    forall k | 0 <= k < |w| ensures 0 < w[k] as int < 0x100 { assert w[k] in w; }
  }

  /** The translation of an accepted glob that fits in the token array keeps the
      glob's meaning, whatever the stack held, exactly when no character of the
      glob is one of ^ $ + [ (only escaped ones pass is_glob_pattern), nor, where
      plain chars are signed, a byte beyond ASCII. */
  lemma GlobMeaningIff(env: Platform, g: string)
    requires Bytes(g) && IsGlob(g) && TokenCount(g) < MAX_OBJECTS
    ensures (forall stack: seq<Obj> :: |stack| == MAX_OBJECTS ==> Faithful(env, g, stack)) <==>
            MetaFree(g) && (env.signed ==> HighFree(g))
  {
    MetaFreeChars(g);
    if MetaFree(g) && Comparable(env, g) {
      forall stack: seq<Obj> | |stack| == MAX_OBJECTS ensures Faithful(env, g, stack) {
        GlobKeepsMeaning(env, g, stack);
      }
    } else {
      var stack := seq(MAX_OBJECTS, _ => Obj(Unused, 'x', ""));
      if !NoClassOrPlus(g) {
        QuantifierLosesMeaning(env, g, stack);
      } else if MetaFree(g) {
        HighByteLosesMeaning(env, g, stack);
      } else {
        AnchorLosesMeaning(env, g, stack);
      }
    }
  }

  /** A star and an escaped plus: accepted, short enough, and never faithful. */
  lemma EscapedPlusLosesMeaning(env: Platform, stack: seq<Obj>)
    requires |stack| == MAX_OBJECTS
    ensures IsGlob("*\\+") && TokenCount("*\\+") < MAX_OBJECTS && !Faithful(env, "*\\+", stack)
  {
    var g := "*\\+";
    assert g[1..] == "\\+" && g[1..][2..] == "" && g[1..][1..] == "+" && "+"[1..] == "";
    assert g[2] == '+';
    QuantifierLosesMeaning(env, g, stack);
  }

  /** A star and an escaped dollar: not faithful over a stack that holds x. */
  lemma EscapedDollarLosesMeaning(env: Platform)
    ensures IsGlob("*\\$") && TokenCount("*\\$") < MAX_OBJECTS
    ensures !Faithful(env, "*\\$", seq(MAX_OBJECTS, _ => Obj(Unused, 'x', "")))
  {
    var g := "*\\$";
    assert g[1..] == "\\$" && g[1..][2..] == "" && g[1..][1..] == "$" && "$"[1..] == "";
    assert g[2] == '$' && IsMeta('$') && !MetaFree(g) by { MetaFreeChars(g); }
    AnchorLosesMeaning(env, g, seq(MAX_OBJECTS, _ => Obj(Unused, 'x', "")));
  }

  /** The bytes of an accented e and a star: the compiled translation matches no
      string at all where plain chars are signed, and keeps the meaning elsewhere. */
  lemma AccentLosesMeaning(env: Platform, stack: seq<Obj>)
    requires |stack| == MAX_OBJECTS
    ensures IsGlob("\U{C3}\U{A9}*") && MetaFree("\U{C3}\U{A9}*") && TokenCount("\U{C3}\U{A9}*") < MAX_OBJECTS
    ensures Faithful(env, "\U{C3}\U{A9}*", stack) <==> !env.signed
  {
    var g := "\U{C3}\U{A9}*";
    assert g[1..] == "\U{A9}*" && g[1..][1..] == "*" && "*"[1..] == "";
    assert High(g[0]);
    if env.signed {
      HighByteLosesMeaning(env, g, stack);
    } else {
      GlobKeepsMeaning(env, g, stack);
    }
  }
}
