/** The regular-expression engine of src/regex/re.c: token objects, the
    declarative language they denote, and the backtracking matcher, which is
    proved to decide that language. */
module Regex {
  import opened Options

  datatype Kind =
    | Unused | Dot | Begin | End | QuestionMark | Star | Plus | Char
    | CharClass | InvCharClass | Digit | NotDigit | Alpha | NotAlpha
    | Whitespace | NotWhitespace

  /** C strings, one char a byte. */
  ghost predicate Bytes(s: string) { forall k :: 0 <= k < |s| ==> 0 < s[k] as int < 0x100 }

  /** A byte beyond ASCII. */
  predicate High(c: char) { c as int >= 0x80 }

  /** The value a plain char has once promoted to int. */
  function Promoted(env: Platform, c: char): int { if env.signed && High(c) then c as int - 0x100 else c as int }

  /** One regex_t; its character is an unsigned char. Assigning the kind alone leaves the character as it was, which
      is how an anchor keeps whatever the stack held. */
  datatype Obj = Obj(kind: Kind, ch: char, ccl: string)

  /** What the platform decides: whether a plain char is signed, and membership of a
      character in the class with the given source text. */
  datatype Platform = Platform(signed: bool, inClass: (char, string) -> bool)

  const MAX_OBJECTS: nat := 30
  const MAX_CCL: nat := 40

  // ---------- single characters ----------

  predicate MatchDigit(c: char) { '0' <= c <= '9' }

  predicate MatchAlpha(c: char) { 'a' <= c <= 'z' || 'A' <= c <= 'Z' }

  predicate MatchSpace(c: char) { c == ' ' || 9 as char <= c <= 13 as char }

  predicate MatchAlnum(c: char) { c == '_' || MatchAlpha(c) || MatchDigit(c) }

  predicate MatchOne(env: Platform, p: Obj, c: char) {
    match p.kind
    case Dot => true
    case CharClass => env.inClass(c, p.ccl)
    case InvCharClass => !env.inClass(c, p.ccl)
    case Digit => MatchDigit(c)
    case NotDigit => !MatchDigit(c)
    case Alpha => MatchAlnum(c)
    case NotAlpha => !MatchAlnum(c)
    case Whitespace => MatchSpace(c)
    case NotWhitespace => !MatchSpace(c)
    case _ => p.ch as int == Promoted(env, c)
  }

  predicate IsQuant(k: Kind) { k.QuestionMark? || k.Star? || k.Plus? }

  // ---------- the language of a token sequence ----------

  /** Tokens pat[p..n] form a body: atoms, each with at most one quantifier, and
      possibly a final END. */
  ghost predicate Body(pat: seq<Obj>, p: nat, n: nat)
    requires p <= n < |pat|
    decreases n - p
  {
    if p == n then pat[n].kind.Unused?
    else
      && !pat[p].kind.Unused?
      && !IsQuant(pat[p].kind)
      && NextItem(pat, p) <= n
      && Body(pat, NextItem(pat, p), n)
  }

  /** Position of the item after the one at p. */
  function NextItem(pat: seq<Obj>, p: nat): (q: nat)
    requires p < |pat|
    ensures p < q
  {
    if p + 1 < |pat| && IsQuant(pat[p + 1].kind) then p + 2 else p + 1
  }

  /** How often the item at p may repeat its atom. */
  ghost predicate Times(pat: seq<Obj>, p: nat, k: nat)
    requires p < |pat|
  {
    if p + 1 < |pat| && pat[p + 1].kind.QuestionMark? then k <= 1
    else if p + 1 < |pat| && pat[p + 1].kind.Star? then true
    else if p + 1 < |pat| && pat[p + 1].kind.Plus? then 1 <= k
    else k == 1
  }

  /** pat[p] is the END that closes the body. */
  predicate AtEnd(pat: seq<Obj>, p: nat, n: nat)
    requires p <= n < |pat|
  {
    p + 1 == n && pat[p].kind.End?
  }

  ghost predicate All(env: Platform, o: Obj, text: string, i: nat, j: nat)
    requires i <= j <= |text|
  {
    forall m :: i <= m < j ==> MatchOne(env, o, text[m])
  }

  /** text[i..j] is a word of the language of pat[p..n]. */
  ghost predicate InLang(env: Platform, pat: seq<Obj>, p: nat, n: nat, text: string, i: nat, j: nat)
    requires p <= n < |pat| && i <= j <= |text|
    requires Body(pat, p, n)
    decreases n - p
  {
    if p == n || AtEnd(pat, p, n) then i == j
    else
      exists m :: i <= m <= j && Times(pat, p, m - i) && All(env, pat[p], text, i, m) &&
                  InLang(env, pat, NextItem(pat, p), n, text, m, j)
  }

  /** The body ends in END, so a match must reach the end of the text. */
  ghost predicate Anchored(pat: seq<Obj>, n: nat)
    requires n < |pat|
  {
    n > 0 && pat[n - 1].kind.End?
  }

  /** Some prefix of text[i..] is in the language (all of text[i..] if anchored). */
  ghost predicate Accepts(env: Platform, pat: seq<Obj>, p: nat, n: nat, text: string, i: nat)
    requires p <= n < |pat| && i <= |text|
    requires Body(pat, p, n)
  {
    exists j :: i <= j <= |text| && (p < n && Anchored(pat, n) ==> j == |text|) &&
                InLang(env, pat, p, n, text, i, j)
  }

  /** One item of backtracking: the matcher may commit to a number of
      repetitions and go on from there. */
  ghost predicate AcceptsVia(env: Platform, pat: seq<Obj>, p: nat, n: nat, text: string, i: nat)
    requires p < n < |pat| && i <= |text|
    requires Body(pat, p, n)
  {
    exists m :: i <= m <= |text| && Times(pat, p, m - i) && All(env, pat[p], text, i, m) &&
                Accepts(env, pat, NextItem(pat, p), n, text, m)
  }

  /** When the last item is END with a quantifier, or no END at all, nothing is
      anchored; otherwise the anchor is met by every later item too. */
  lemma AnchorStays(pat: seq<Obj>, p: nat, n: nat)
    requires p < n < |pat| && Body(pat, p, n) && NextItem(pat, p) == n && Anchored(pat, n)
    ensures AtEnd(pat, p, n)
  {
  }

  lemma AcceptsStep(env: Platform, pat: seq<Obj>, p: nat, n: nat, text: string, i: nat)
    requires p < n < |pat| && i <= |text|
    requires Body(pat, p, n) && !AtEnd(pat, p, n)
    ensures Accepts(env, pat, p, n, text, i) <==> AcceptsVia(env, pat, p, n, text, i)
  {
    var q := NextItem(pat, p);
    if q == n && Anchored(pat, n) { AnchorStays(pat, p, n); }
    if Accepts(env, pat, p, n, text, i) {
      var j :| i <= j <= |text| && (Anchored(pat, n) ==> j == |text|) && InLang(env, pat, p, n, text, i, j);
      var m :| i <= m <= j && Times(pat, p, m - i) && All(env, pat[p], text, i, m) &&
               InLang(env, pat, q, n, text, m, j);
      assert Accepts(env, pat, q, n, text, m);
    }
    if AcceptsVia(env, pat, p, n, text, i) {
      var m :| i <= m <= |text| && Times(pat, p, m - i) && All(env, pat[p], text, i, m) &&
               Accepts(env, pat, q, n, text, m);
      var j :| m <= j <= |text| && (q < n && Anchored(pat, n) ==> j == |text|) && InLang(env, pat, q, n, text, m, j);
      assert InLang(env, pat, p, n, text, i, j);
    }
  }

  // ---------- the backtracking matcher ----------

  /** matchpattern: decides Accepts, whatever the incoming match length. */
  method MatchPattern(env: Platform, pat: seq<Obj>, p0: nat, ghost n: nat, text: string, i0: nat, len0: int)
    returns (r: bool, len: int)
    requires p0 <= n < |pat| && i0 <= |text| && Body(pat, p0, n)
    ensures r <==> Accepts(env, pat, p0, n, text, i0)
    decreases n - p0, 1
  {
    var p, i := p0, i0;
    len := len0;
    while true
      invariant p0 <= p <= n && i0 <= i <= |text| && Body(pat, p, n)
      invariant Accepts(env, pat, p0, n, text, i0) <==> Accepts(env, pat, p, n, text, i)
      decreases n - p
    {
      if pat[p].kind.Unused? || pat[p + 1].kind.QuestionMark? {
        if pat[p].kind.Unused? {
          assert InLang(env, pat, p, n, text, i, i);
          assert Accepts(env, pat, p, n, text, i);
        }
        r, len := MatchQuestion(env, pat, p, n, text, i, len);
        return;
      } else if pat[p + 1].kind.Star? {
        AcceptsStep(env, pat, p, n, text, i);
        r, len := MatchStar(env, pat, p, n, text, i, len);
        return;
      } else if pat[p + 1].kind.Plus? {
        AcceptsStep(env, pat, p, n, text, i);
        r, len := MatchPlus(env, pat, p, n, text, i, len);
        return;
      } else if pat[p].kind.End? && pat[p + 1].kind.Unused? {
        assert i == |text| ==> InLang(env, pat, p, n, text, i, i);
        return i == |text|, len;
      }
      AcceptsStep(env, pat, p, n, text, i);
      len := len + 1;
      OneChar(env, pat, p, n, text, i);
      if !(i < |text| && MatchOne(env, pat[p], text[i])) {
        break;
      }
      p, i := p + 1, i + 1;
    }
    return false, len0;
  }

  /** An atom without a quantifier consumes exactly one character. */
  lemma OneChar(env: Platform, pat: seq<Obj>, p: nat, n: nat, text: string, i: nat)
    requires p < n < |pat| && i <= |text| && Body(pat, p, n) && !IsQuant(pat[p + 1].kind)
    ensures AcceptsVia(env, pat, p, n, text, i) <==>
            i < |text| && MatchOne(env, pat[p], text[i]) && Accepts(env, pat, p + 1, n, text, i + 1)
  {
    if i < |text| && MatchOne(env, pat[p], text[i]) && Accepts(env, pat, p + 1, n, text, i + 1) {
      assert Times(pat, p, (i + 1) - i) && All(env, pat[p], text, i, i + 1);
    }
  }

  method MatchQuestion(env: Platform, pat: seq<Obj>, p: nat, ghost n: nat, text: string, i: nat, len0: int)
    returns (r: bool, len: int)
    requires p <= n < |pat| && i <= |text| && Body(pat, p, n)
    requires pat[p].kind.Unused? || (p < n && pat[p + 1].kind.QuestionMark?)
    ensures r <==> pat[p].kind.Unused? || Accepts(env, pat, p, n, text, i)
    decreases n - p, 0
  {
    if pat[p].kind.Unused? { return true, len0; }
    AcceptsStep(env, pat, p, n, text, i);
    assert All(env, pat[p], text, i, i) && Times(pat, p, i - i);
    r, len := MatchPattern(env, pat, p + 2, n, text, i, len0);
    if r { return; }
    if i < |text| && MatchOne(env, pat[p], text[i]) {
      assert All(env, pat[p], text, i, i + 1) && Times(pat, p, (i + 1) - i);
      r, len := MatchPattern(env, pat, p + 2, n, text, i + 1, len);
      if r {
        len := len + 1;
        return;
      }
    }
    return false, len;
  }

  method MatchStar(env: Platform, pat: seq<Obj>, p: nat, ghost n: nat, text: string, i0: nat, len0: int)
    returns (r: bool, len: int)
    requires p < n < |pat| && i0 <= |text| && Body(pat, p, n) && pat[p + 1].kind.Star?
    ensures r <==> AcceptsVia(env, pat, p, n, text, i0)
    decreases n - p, 0
  {
    var i: int := i0;
    len := len0;
    while i < |text| && MatchOne(env, pat[p], text[i])
      invariant i0 <= i <= |text| && All(env, pat[p], text, i0, i)
    {
      i, len := i + 1, len + 1;
    }
    ghost var top, q := i, p + 2;
    while i >= i0
      invariant i0 - 1 <= i <= top
      invariant forall m :: i < m <= top ==> !Accepts(env, pat, q, n, text, m)
    {
      r, len := MatchPattern(env, pat, p + 2, n, text, i, len);
      if r {
        assert Times(pat, p, i - i0) && All(env, pat[p], text, i0, i);
        return;
      }
      i, len := i - 1, len - 1;
    }
    return false, len0;
  }

  method MatchPlus(env: Platform, pat: seq<Obj>, p: nat, ghost n: nat, text: string, i0: nat, len0: int)
    returns (r: bool, len: int)
    requires p < n < |pat| && i0 <= |text| && Body(pat, p, n) && pat[p + 1].kind.Plus?
    ensures r <==> AcceptsVia(env, pat, p, n, text, i0)
    decreases n - p, 0
  {
    var i := i0;
    len := len0;
    while i < |text| && MatchOne(env, pat[p], text[i])
      invariant i0 <= i <= |text| && All(env, pat[p], text, i0, i)
    {
      i, len := i + 1, len + 1;
    }
    ghost var top, q := i, p + 2;
    while i > i0
      invariant i0 <= i <= top
      invariant forall m :: i < m <= top ==> !Accepts(env, pat, q, n, text, m)
    {
      r, len := MatchPattern(env, pat, p + 2, n, text, i, len);
      if r {
        assert Times(pat, p, i - i0) && All(env, pat[p], text, i0, i);
        return;
      }
      i, len := i - 1, len - 1;
    }
    return false, len;
  }

  /** The compiled objects pat, terminated at n, are a regular expression. */
  ghost predicate Compiled(pat: seq<Obj>, n: nat) {
    n < |pat| && (if pat[0].kind.Begin? then 1 <= n && Body(pat, 1, n) else Body(pat, 0, n))
  }

  /** re_matchp: an anchored pattern matches at 0 or not at all; otherwise the
      least start strictly before the end of the text is returned. */
  method MatchP(env: Platform, pat: seq<Obj>, ghost n: nat, text: string) returns (idx: int, len: int)
    requires Compiled(pat, n)
    ensures pat[0].kind.Begin? ==> idx == if Accepts(env, pat, 1, n, text, 0) then 0 else -1
    ensures !pat[0].kind.Begin? ==> -1 <= idx < |text| || idx == -1
    ensures !pat[0].kind.Begin? && idx >= 0 ==> Accepts(env, pat, 0, n, text, idx)
    ensures !pat[0].kind.Begin? ==>
              forall k :: 0 <= k < (if idx >= 0 then idx else |text|) ==> !Accepts(env, pat, 0, n, text, k)
  {
    len := 0;
    var m;
    if pat[0].kind.Begin? {
      m, len := MatchPattern(env, pat, 1, n, text, 0, len);
      return if m then 0 else -1, len;
    }
    var i := 0;
    while true
      invariant 0 <= i <= |text|
      invariant forall k :: 0 <= k < i ==> !Accepts(env, pat, 0, n, text, k)
      decreases |text| - i
    {
      m, len := MatchPattern(env, pat, 0, n, text, i, len);
      if m {
        return if i == |text| then -1 else i, len;
      }
      if i == |text| { break; }
      i := i + 1;
    }
    return -1, len;
  }

  // ---------- the compiler ----------

  /** What one class body "...]" contributes: its text, the rest of the pattern
      (starting at the closing bracket, or empty) and the next free buffer slot. */
  function ClassBody(s: string, slot: nat): Option<(string, string, nat)> {
    if s == "" || s[0] == ']' then Some(("", s, slot))
    else if s[0] == '\\' then
      if slot >= MAX_CCL - 1 || |s| == 1 then None
      else match ClassBody(s[2..], slot + 2)
           case None => None
           case Some(t) => Some((s[..2] + t.0, t.1, t.2))
    else if slot >= MAX_CCL then None
    else match ClassBody(s[1..], slot + 1)
         case None => None
         case Some(t) => Some((s[..1] + t.0, t.1, t.2))
  }

  lemma ClassBodyShrinks(s: string, slot: nat)
    ensures ClassBody(s, slot).Some? ==> |ClassBody(s, slot).value.1| <= |s|
  {
  }

  function EscapeKind(c: char): Kind {
    match c
    case 'd' => Digit
    case 'D' => NotDigit
    case 'w' => Alpha
    case 'W' => NotAlpha
    case 's' => Whitespace
    case 'S' => NotWhitespace
    case _ => Char
  }

  /** The next object of a non-empty pattern, written over prior, with the rest of
      the pattern and the next free class-buffer slot. */
  function LexOne(s: string, slot: nat, prior: Obj): (r: Option<(Obj, string, nat)>)
    requires s != ""
    ensures r.Some? ==> |r.value.1| < |s|
  {
    match s[0]
    case '^' => Some((prior.(kind := Begin), s[1..], slot))
    case '$' => Some((prior.(kind := End), s[1..], slot))
    case '.' => Some((prior.(kind := Dot), s[1..], slot))
    case '*' => Some((prior.(kind := Star), s[1..], slot))
    case '+' => Some((prior.(kind := Plus), s[1..], slot))
    case '?' => Some((prior.(kind := QuestionMark), s[1..], slot))
    case '\\' =>
      if |s| == 1 then Some((prior, s[1..], slot))
      else if EscapeKind(s[1]).Char? then Some((prior.(kind := Char, ch := s[1]), s[2..], slot))
      else Some((prior.(kind := EscapeKind(s[1])), s[2..], slot))
    case '[' =>
      var inv := |s| > 1 && s[1] == '^';
      if inv && |s| == 2 then None
      else
        var from := if inv then 2 else 1;
        ClassBodyShrinks(s[from..], slot);
        (match ClassBody(s[from..], slot)
         case None => None
         case Some(t) =>
           if t.2 >= MAX_CCL || t.1 == "" then None
           else Some((prior.(kind := if inv then InvCharClass else CharClass, ccl := t.0), t.1[1..], t.2 + 1)))
    case c => Some((prior.(kind := Char, ch := c), s[1..], slot))
  }

  /** Compilation of s into objs from index j on. */
  function Lex(s: string, j: nat, slot: nat, objs: seq<Obj>): (r: Option<seq<Obj>>)
    requires |objs| == MAX_OBJECTS && j < MAX_OBJECTS
    ensures r.Some? ==> |r.value| == MAX_OBJECTS
    decreases |s|
  {
    if s == "" || j + 1 >= MAX_OBJECTS then Some(objs[j := objs[j].(kind := Unused)])
    else match LexOne(s, slot, objs[j])
         case None => None
         case Some(t) => Lex(t.1, j + 1, t.2, objs[j := t.0])
  }

  /** Lex of one more object. */
  lemma LexPush(s: string, j: nat, slot: nat, objs: seq<Obj>, o: Obj, rest: string, slot': nat)
    requires |objs| == MAX_OBJECTS && j + 1 < MAX_OBJECTS && s != ""
    requires LexOne(s, slot, objs[j]) == Some((o, rest, slot'))
    ensures Lex(s, j, slot, objs) == Lex(rest, j + 1, slot', objs[j := o])
  {
  }

  /** re_compile: fills the object array left to right. The array starts as
      whatever the stack held. */
  method Compile(pattern: string, stack: seq<Obj>) returns (r: Option<seq<Obj>>)
    requires |stack| == MAX_OBJECTS
    ensures r == Lex(pattern, 0, 1, stack)
  {
    var objs := new Obj[MAX_OBJECTS](k requires 0 <= k < MAX_OBJECTS => stack[k]);
    assert objs[..] == stack;
    var i: nat, j: nat, slot: nat := 0, 0, 1;
    while i < |pattern| && j + 1 < MAX_OBJECTS
      invariant i <= |pattern| && j < MAX_OBJECTS
      invariant Lex(pattern, 0, 1, stack) == Lex(pattern[i..], j, slot, objs[..])
      decreases |pattern| - i
    {
      var ok, o;
      ghost var was := objs[..];
      ok, o, i, slot := CompileOne(pattern, i, slot, objs[j]);
      if !ok { return None; }
      objs[j] := o;
      assert objs[..] == was[j := o];
      j := j + 1;
    }
    objs[j] := objs[j].(kind := Unused);
    return Some(objs[..]);
  }

  /** The switch of re_compile: one object, leaving i after its last character. */
  method CompileOne(pattern: string, i0: nat, slot0: nat, prior: Obj) returns (ok: bool, o: Obj, i: nat, slot: nat)
    requires i0 < |pattern|
    ensures i0 < i && (ok ==> i <= |pattern|)
    ensures ok <==> LexOne(pattern[i0..], slot0, prior).Some?
    ensures ok ==> LexOne(pattern[i0..], slot0, prior).value == (o, pattern[i..], slot)
  {
    var c := pattern[i0];
    ghost var s := pattern[i0..];
    o, i, slot, ok := prior, i0, slot0, true;
    if c == '^' { o := o.(kind := Begin); }
    else if c == '$' { o := o.(kind := End); }
    else if c == '.' { o := o.(kind := Dot); }
    else if c == '*' { o := o.(kind := Star); }
    else if c == '+' { o := o.(kind := Plus); }
    else if c == '?' { o := o.(kind := QuestionMark); }
    else if c == '\\' {
      if i + 1 < |pattern| {
        i := i + 1;
        assert s[1] == pattern[i] && s[2..] == pattern[i + 1..];
        o := if EscapeKind(pattern[i]).Char? then o.(kind := Char, ch := pattern[i])
             else o.(kind := EscapeKind(pattern[i]));
      }
    } else if c == '[' {
      ok, o, i, slot := CompileClass(pattern, i0, slot0, prior);
    } else {
      o := o.(kind := Char, ch := c);
    }
    i := i + 1;
  }

  /** The '[' case: an optional '^', then the class text up to ']'. */
  method CompileClass(pattern: string, i0: nat, slot0: nat, prior: Obj) returns (ok: bool, o: Obj, i: nat, slot: nat)
    requires i0 < |pattern| && pattern[i0] == '['
    ensures i0 <= i && (ok ==> i < |pattern|)
    ensures ok <==> LexOne(pattern[i0..], slot0, prior).Some?
    ensures ok ==> LexOne(pattern[i0..], slot0, prior).value == (o, pattern[i + 1..], slot)
  {
    ghost var s := pattern[i0..];
    o, i, slot := prior, i0, slot0;
    var inv := i + 1 < |pattern| && pattern[i + 1] == '^';
    assert inv <==> |s| > 1 && s[1] == '^';
    if inv {
      i := i + 1;
      if i + 1 == |pattern| { return false, o, i, slot; }
    }
    assert pattern[i + 1..] == s[if inv then 2 else 1..];
    var body;
    ok, body, i, slot := ScanClass(pattern, i + 1, slot);
    if !ok || slot >= MAX_CCL || i == |pattern| { return false, o, i, slot; }
    slot := slot + 1;
    o := o.(kind := if inv then InvCharClass else CharClass, ccl := body);
    assert pattern[i..][1..] == pattern[i + 1..];
  }

  /** The inner loop of the '[' case: copies the class text up to ']' or the end. */
  method ScanClass(pattern: string, from: nat, slot0: nat) returns (ok: bool, body: string, i: nat, slot: nat)
    requires from <= |pattern|
    ensures from <= i <= |pattern|
    ensures ok <==> ClassBody(pattern[from..], slot0).Some?
    ensures ok ==> ClassBody(pattern[from..], slot0).value == (body, pattern[i..], slot)
  {
    body, i, slot := "", from, slot0;
    if ClassBody(pattern[i..], slot).Some? {
      assert body + ClassBody(pattern[i..], slot).value.0 == ClassBody(pattern[i..], slot).value.0;
    }
    while i < |pattern| && pattern[i] != ']'
      invariant from <= i <= |pattern|
      invariant ClassBody(pattern[i..], slot).Some? <==> ClassBody(pattern[from..], slot0).Some?
      invariant ClassBody(pattern[i..], slot).Some? ==>
                  ClassBody(pattern[from..], slot0).value ==
                  (body + ClassBody(pattern[i..], slot).value.0,
                   ClassBody(pattern[i..], slot).value.1, ClassBody(pattern[i..], slot).value.2)
    {
      var s := pattern[i..];
      if pattern[i] == '\\' {
        if slot >= MAX_CCL - 1 || i + 1 == |pattern| { return false, body, i, slot; }
        assert s[2..] == pattern[i + 2..] && s[..2] == [pattern[i], pattern[i + 1]];
        ghost var b := body;
        body, i, slot := body + [pattern[i], pattern[i + 1]], i + 2, slot + 2;
        if ClassBody(s, slot - 2).Some? {
          assert b + (s[..2] + ClassBody(s[2..], slot).value.0) == body + ClassBody(s[2..], slot).value.0;
        }
      } else {
        if slot >= MAX_CCL { return false, body, i, slot; }
        assert s[1..] == pattern[i + 1..] && s[..1] == [pattern[i]];
        ghost var b := body;
        body, i, slot := body + [pattern[i]], i + 1, slot + 1;
        if ClassBody(s, slot - 1).Some? {
          assert b + (s[..1] + ClassBody(s[1..], slot).value.0) == body + ClassBody(s[1..], slot).value.0;
        }
      }
    }
    assert body + "" == body;
    return true, body, i, slot;
  }
}
