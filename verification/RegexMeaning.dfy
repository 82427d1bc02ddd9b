/** What the regular expressions of src/regex/re.c mean: a syntax for them, how one is written down, the names it
    denotes, and the proof that compiling and matching the written text decides exactly that. */
module RegexMeaning {
  import opened Options
  import opened Regex

  datatype Atom =
    | Lit(c: char)
    | Any
    | DigitIn(neg: bool)
    | WordIn(neg: bool)
    | SpaceIn(neg: bool)
    | ClassIn(neg: bool, text: string)

  datatype Quant = Once | Opt | Many | More

  /** An atom and how often it may repeat. */
  datatype Item = Item(atom: Atom, quant: Quant)

  /** Items between an optional '^' and an optional '$'. */
  datatype Regexp = Regexp(atStart: bool, items: seq<Item>, atEnd: bool)

  // ---------- how it is written ----------

  function PrintAtom(a: Atom): (r: string) {
    match a
    case Lit(c) => if c in {'^', '$', '.', '*', '+', '?', '\\', '['} then ['\\', c] else [c]
    case Any => "."
    case DigitIn(neg) => if neg then "\\D" else "\\d"
    case WordIn(neg) => if neg then "\\W" else "\\w"
    case SpaceIn(neg) => if neg then "\\S" else "\\s"
    case ClassIn(neg, text) => (if neg then "[^" else "[") + (text + "]")
  }

  function PrintQuant(q: Quant): string {
    match q
    case Once => ""
    case Opt => "?"
    case Many => "*"
    case More => "+"
  }

  function PrintItem(it: Item): string { PrintAtom(it.atom) + PrintQuant(it.quant) }

  function PrintItems(items: seq<Item>): string {
    if items == [] then "" else PrintItem(items[0]) + PrintItems(items[1..])
  }

  function Print(r: Regexp): string {
    (if r.atStart then "^" else "") + (PrintItems(r.items) + if r.atEnd then "$" else "")
  }

  // ---------- what it means ----------

  predicate IsDigit(c: char) { c in {'0', '1', '2', '3', '4', '5', '6', '7', '8', '9'} }

  predicate IsLower(c: char) {
    c in {'a', 'b', 'c', 'd', 'e', 'f', 'g', 'h', 'i', 'j', 'k', 'l', 'm',
          'n', 'o', 'p', 'q', 'r', 's', 't', 'u', 'v', 'w', 'x', 'y', 'z'}
  }

  predicate IsUpper(c: char) {
    c in {'A', 'B', 'C', 'D', 'E', 'F', 'G', 'H', 'I', 'J', 'K', 'L', 'M',
          'N', 'O', 'P', 'Q', 'R', 'S', 'T', 'U', 'V', 'W', 'X', 'Y', 'Z'}
  }

  predicate IsSpace(c: char) { c in {' ', '\t', '\n', '\U{B}', '\U{C}', '\r'} }

  ghost predicate Counts(q: Quant, k: nat) {
    match q
    case Once => k == 1
    case Opt => k <= 1
    case Many => true
    case More => 1 <= k
  }

  /** The bytes an atom stands for. A class goes by its text; where plain chars are signed, a literal byte beyond
      ASCII stands for nothing. */
  predicate Holds(env: Platform, a: Atom, c: char) {
    match a
    case Lit(x) => c == x && !(env.signed && x as int >= 128)
    case Any => true
    case DigitIn(neg) => IsDigit(c) != neg
    case WordIn(neg) => (IsLower(c) || IsUpper(c) || IsDigit(c) || c == '_') != neg
    case SpaceIn(neg) => IsSpace(c) != neg
    case ClassIn(neg, text) => env.inClass(c, text) != neg
  }

  /** u is as many bytes of the item's atom as its quantifier allows. */
  ghost predicate Run(env: Platform, it: Item, u: string) {
    Counts(it.quant, |u|) && forall c :: c in u ==> Holds(env, it.atom, c)
  }

  /** w is a run of each item's atom after the other, each as long as its quantifier allows. */
  ghost predicate Denotes(env: Platform, items: seq<Item>, w: string) {
    if items == [] then w == ""
    else
      exists k: nat :: k <= |w| && Run(env, items[0], w[..k]) && Denotes(env, items[1..], w[k..])
  }

  /** A stretch of name from i on, up to the end if r says so, is denoted. */
  ghost predicate MatchesAt(env: Platform, r: Regexp, name: string, i: nat)
    requires i <= |name|
  {
    exists k :: i <= k <= |name| && (r.atEnd ==> k == |name|) && Denotes(env, r.items, name[i..k])
  }

  // ---------- what fits ----------

  /** A class text that ends where it should: backslash pairs, and no ']' outside one. */
  predicate ClassText(s: string) {
    if s == "" then true
    else if s[0] == '\\' then |s| > 1 && ClassText(s[2..])
    else s[0] != ']' && ClassText(s[1..])
  }

  predicate GoodAtom(a: Atom) { a.ClassIn? ==> ClassText(a.text) && (a.neg || a.text == "" || a.text[0] != '^') }

  ghost predicate GoodItems(items: seq<Item>) { forall k :: 0 <= k < |items| ==> GoodAtom(items[k].atom) }

  /** Tokens and bytes of class text that the items take. */
  function Size(it: Item): nat { if it.quant.Once? then 1 else 2 }

  function Sizes(items: seq<Item>): nat { if items == [] then 0 else Size(items[0]) + Sizes(items[1..]) }

  function Room(a: Atom): nat { if a.ClassIn? then |a.text| + 1 else 0 }

  function Rooms(items: seq<Item>): nat { if items == [] then 0 else Room(items[0].atom) + Rooms(items[1..]) }

  ghost predicate Compilable(r: Regexp) {
    && GoodItems(r.items)
    && Sizes(r.items) + (if r.atStart then 1 else 0) + (if r.atEnd then 1 else 0) < MAX_OBJECTS
    && Rooms(r.items) < MAX_CCL
  }

  // ---------- tokens ----------

  /** The token an atom compiles to. */
  predicate Fits(a: Atom, o: Obj) {
    match a
    case Lit(c) => o.kind.Char? && o.ch == c
    case Any => o.kind.Dot?
    case DigitIn(neg) => o.kind == if neg then NotDigit else Digit
    case WordIn(neg) => o.kind == if neg then NotAlpha else Alpha
    case SpaceIn(neg) => o.kind == if neg then NotWhitespace else Whitespace
    case ClassIn(neg, text) => o.kind == (if neg then InvCharClass else CharClass) && o.ccl == text
  }

  function QuantKind(q: Quant): Kind
    requires !q.Once?
  {
    match q
    case Opt => QuestionMark
    case Many => Star
    case More => Plus
  }

  /** Tokens pat[j..n] spell the items, followed by END if asked for. */
  ghost predicate Spelled(pat: seq<Obj>, j: nat, n: nat, items: seq<Item>, end: bool)
    decreases items
  {
    && j <= n < |pat|
    && if items == [] then pat[n].kind.Unused? && (if end then j + 1 == n && pat[j].kind.End? else j == n)
       else
         && j + Size(items[0]) <= n
         && Fits(items[0].atom, pat[j])
         && (!items[0].quant.Once? ==> pat[j + 1].kind == QuantKind(items[0].quant))
         && Spelled(pat, j + Size(items[0]), n, items[1..], end)
  }

  lemma Ranges(c: char)
    ensures MatchDigit(c) <==> IsDigit(c)
    ensures MatchSpace(c) <==> IsSpace(c)
  {
  }

  lemma LetterRanges(c: char)
    ensures MatchAlpha(c) <==> IsLower(c) || IsUpper(c)
  {
  }

  lemma FitMeans(env: Platform, a: Atom, o: Obj, c: char)
    requires Fits(a, o) && 0 < c as int < 0x100
    ensures MatchOne(env, o, c) <==> Holds(env, a, c)
  {
    hide IsDigit, IsLower, IsUpper, IsSpace, MatchDigit, MatchAlpha, MatchSpace;
    Ranges(c);
    LetterRanges(c);
  }

  // ---------- reading back what is written ----------

  lemma {:induction false} ReadsClass(s: string, rest: string, slot: nat)
    requires ClassText(s) && slot + |s| < MAX_CCL
    ensures ClassBody(s + ("]" + rest), slot) == Some((s, "]" + rest, slot + |s|))
  {
    var all := s + ("]" + rest);
    if s == "" {
      assert all == "]" + rest;
    } else if s[0] == '\\' {
      ReadsClass(s[2..], rest, slot + 2);
      assert all[2..] == s[2..] + ("]" + rest) && all[..2] == s[..2] && s[..2] + s[2..] == s;
    } else {
      ReadsClass(s[1..], rest, slot + 1);
      assert all[1..] == s[1..] + ("]" + rest) && all[..1] == s[..1] && s[..1] + s[1..] == s;
    }
  }

  lemma LexesClass(neg: bool, tail: string, text: string, rest: string, slot: nat, prior: Obj)
    requires ClassBody(tail, slot) == Some((text, "]" + rest, slot + |text|)) && slot + |text| < MAX_CCL
    requires tail != "" && (neg || tail[0] != '^')
    ensures LexOne((if neg then "[^" else "[") + tail, slot, prior) ==
            Some((prior.(kind := if neg then InvCharClass else CharClass, ccl := text), rest, slot + |text| + 1))
  {
    hide ClassBody;
    assert ("]" + rest)[1..] == rest;
    if neg {
      assert ("[^" + tail)[2..] == tail;
    } else {
      assert ("[" + tail)[1..] == tail;
    }
  }

  lemma NotInverted(a: Atom, rest: string)
    requires a.ClassIn? && GoodAtom(a)
    ensures a.neg || (a.text + ("]" + rest))[0] != '^'
  {
  }

  lemma ReadsClassAtom(a: Atom, rest: string, slot: nat, prior: Obj) returns (o: Obj)
    requires a.ClassIn? && GoodAtom(a) && slot + Room(a) <= MAX_CCL
    ensures LexOne(PrintAtom(a) + rest, slot, prior) == Some((o, rest, slot + Room(a)))
    ensures Fits(a, o)
  {
    hide ClassBody, LexOne, ClassText;
    var tail := a.text + ("]" + rest);
    NotInverted(a, rest);
    ReadsClass(a.text, rest, slot);
    o := prior.(kind := if a.neg then InvCharClass else CharClass, ccl := a.text);
    LexesClass(a.neg, tail, a.text, rest, slot, prior);
    assert PrintAtom(a) + rest == (if a.neg then "[^" else "[") + tail;
  }

  lemma ReadsAtom(a: Atom, rest: string, slot: nat, prior: Obj) returns (o: Obj)
    requires GoodAtom(a) && slot + Room(a) <= MAX_CCL
    ensures LexOne(PrintAtom(a) + rest, slot, prior) == Some((o, rest, slot + Room(a)))
    ensures Fits(a, o)
  {
    if a.ClassIn? {
      o := ReadsClassAtom(a, rest, slot, prior);
    } else {
      var s := PrintAtom(a) + rest;
      assert if |PrintAtom(a)| == 1 then s[1..] == rest else s[1] == PrintAtom(a)[1] && s[2..] == rest;
      o := LexOne(s, slot, prior).value.0;
    }
  }

  lemma ReadsQuant(q: Quant, rest: string, slot: nat, prior: Obj)
    requires !q.Once?
    ensures LexOne(PrintQuant(q) + rest, slot, prior) == Some((prior.(kind := QuantKind(q)), rest, slot))
  {
    assert (PrintQuant(q) + rest)[1..] == rest;
  }

  /** Compiling the text of one item writes its one or two tokens. */
  lemma ReadsItem(it: Item, rest: string, j: nat, slot: nat, objs: seq<Obj>) returns (o: seq<Obj>)
    requires |objs| == MAX_OBJECTS && j + Size(it) < MAX_OBJECTS
    requires GoodAtom(it.atom) && slot + Room(it.atom) <= MAX_CCL
    ensures |o| == MAX_OBJECTS && Fits(it.atom, o[j])
    ensures !it.quant.Once? ==> o[j + 1].kind == QuantKind(it.quant)
    ensures forall k :: 0 <= k < j ==> o[k] == objs[k]
    ensures Lex(PrintItem(it) + rest, j, slot, objs) == Lex(rest, j + Size(it), slot + Room(it.atom), o)
  {
    hide LexOne, Fits;
    var tail := PrintQuant(it.quant) + rest;
    assert PrintItem(it) + rest == PrintAtom(it.atom) + tail;
    var one := ReadsAtom(it.atom, tail, slot, objs[j]);
    o := objs[j := one];
    LexPush(PrintAtom(it.atom) + tail, j, slot, objs, one, tail, slot + Room(it.atom));
    if it.quant.Once? {
      assert tail == rest;
    } else {
      ReadsQuant(it.quant, rest, slot + Room(it.atom), o[j + 1]);
      var two := o[j + 1].(kind := QuantKind(it.quant));
      LexPush(tail, j + 1, slot + Room(it.atom), o, two, rest, slot + Room(it.atom));
      o := o[j + 1 := two];
    }
  }

  lemma ReadsEnd(end: bool, j: nat, slot: nat, objs: seq<Obj>) returns (pat: seq<Obj>, n: nat)
    requires |objs| == MAX_OBJECTS && j + (if end then 1 else 0) < MAX_OBJECTS
    ensures Lex(if end then "$" else "", j, slot, objs) == Some(pat)
    ensures |pat| == MAX_OBJECTS && Spelled(pat, j, n, [], end)
    ensures forall k :: 0 <= k < j ==> pat[k] == objs[k]
  {
    n := if end then j + 1 else j;
    var o := objs;
    if end {
      o := objs[j := objs[j].(kind := End)];
      assert "$"[1..] == "";
      LexPush("$", j, slot, objs, o[j], "", slot);
    }
    pat := o[n := o[n].(kind := Unused)];
  }

  lemma {:induction false} ReadsItems(items: seq<Item>, end: bool, j: nat, slot: nat, objs: seq<Obj>)
    returns (pat: seq<Obj>, n: nat)
    requires |objs| == MAX_OBJECTS && j + Sizes(items) + (if end then 1 else 0) < MAX_OBJECTS
    requires GoodItems(items) && slot + Rooms(items) <= MAX_CCL
    ensures Lex(PrintItems(items) + if end then "$" else "", j, slot, objs) == Some(pat)
    ensures |pat| == MAX_OBJECTS && Spelled(pat, j, n, items, end)
    ensures forall k :: 0 <= k < j ==> pat[k] == objs[k]
    decreases |items|
  {
    hide Lex, Fits, PrintItem, GoodAtom;
    var s := PrintItems(items) + if end then "$" else "";
    if items == [] {
      assert s == if end then "$" else "";
      pat, n := ReadsEnd(end, j, slot, objs);
    } else {
      var rest := PrintItems(items[1..]) + if end then "$" else "";
      assert s == PrintItem(items[0]) + rest;
      var o := ReadsItem(items[0], rest, j, slot, objs);
      pat, n := ReadsItems(items[1..], end, j + Size(items[0]), slot + Room(items[0].atom), o);
      assert pat[j] == o[j];
    }
  }

  lemma {:induction false} SpelledBody(pat: seq<Obj>, j: nat, n: nat, items: seq<Item>, end: bool)
    requires Spelled(pat, j, n, items, end)
    ensures Body(pat, j, n) && !IsQuant(pat[j].kind)
    ensures j < n ==> (Anchored(pat, n) <==> end)
    decreases items
  {
    if items != [] {
      SpelledBody(pat, j + Size(items[0]), n, items[1..], end);
    }
  }

  // ---------- compiling and matching decide the meaning ----------

  /** The language of the tokens is what the items denote. */
  lemma {:induction false} LanguageIsDenoted(env: Platform, pat: seq<Obj>, j: nat, n: nat, items: seq<Item>, end: bool,
                                             name: string, i: nat, k: nat)
    requires Spelled(pat, j, n, items, end) && Body(pat, j, n) && Bytes(name) && i <= k <= |name|
    ensures InLang(env, pat, j, n, name, i, k) <==> Denotes(env, items, name[i..k])
    decreases items
  {
    if items != [] {
      var q := j + Size(items[0]);
      SpelledBody(pat, q, n, items[1..], end);
      SpelledNext(pat, j, n, items, end);
      hide InLang, Denotes, Spelled, Body, Run;
      if InLang(env, pat, j, n, name, i, k) {
        LanguageSplits(env, pat, j, n, items, end, name, i, k);
        var m: nat :| i <= m <= k && Run(env, items[0], name[i..m]) && InLang(env, pat, q, n, name, m, k);
        LanguageIsDenoted(env, pat, q, n, items[1..], end, name, m, k);
        DenotesJoined(env, items, name, i, m, k);
      }
      if Denotes(env, items, name[i..k]) {
        DenotesSplits(env, items, name, i, k);
        var m: nat :| i <= m <= k && Run(env, items[0], name[i..m]) && Denotes(env, items[1..], name[m..k]);
        LanguageIsDenoted(env, pat, q, n, items[1..], end, name, m, k);
        LanguageJoined(env, pat, j, n, items, end, name, i, m, k);
      }
    }
  }

  lemma LanguageSplits(env: Platform, pat: seq<Obj>, j: nat, n: nat, items: seq<Item>, end: bool,
                       name: string, i: nat, k: nat)
    requires items != [] && Spelled(pat, j, n, items, end) && Body(pat, j, n) && Bytes(name) && i <= k <= |name|
    requires InLang(env, pat, j, n, name, i, k)
    ensures j + Size(items[0]) <= n && Body(pat, j + Size(items[0]), n)
    ensures exists m: nat :: i <= m <= k && Run(env, items[0], name[i..m]) &&
                             InLang(env, pat, j + Size(items[0]), n, name, m, k)
  {
    SpelledNext(pat, j, n, items, end);
    hide Spelled, Run, Times, All;
    var m: nat :| i <= m <= k && Times(pat, j, m - i) && All(env, pat[j], name, i, m) &&
      InLang(env, pat, NextItem(pat, j), n, name, m, k);
    RunIsTaken(env, items[0], pat, j, name, i, m);
    assert InLang(env, pat, j + Size(items[0]), n, name, m, k);
  }

  lemma LanguageJoined(env: Platform, pat: seq<Obj>, j: nat, n: nat, items: seq<Item>, end: bool,
                       name: string, i: nat, m: nat, k: nat)
    requires items != [] && Spelled(pat, j, n, items, end) && Body(pat, j, n) && Bytes(name) && i <= m <= k <= |name|
    requires Run(env, items[0], name[i..m])
    requires j + Size(items[0]) <= n && Body(pat, j + Size(items[0]), n)
    requires InLang(env, pat, j + Size(items[0]), n, name, m, k)
    ensures InLang(env, pat, j, n, name, i, k)
  {
    SpelledNext(pat, j, n, items, end);
    hide Spelled, Run, Times, All;
    RunIsTaken(env, items[0], pat, j, name, i, m);
    assert InLang(env, pat, NextItem(pat, j), n, name, m, k);
  }

  lemma DenotesSplits(env: Platform, items: seq<Item>, name: string, i: nat, k: nat)
    requires items != [] && i <= k <= |name| && Denotes(env, items, name[i..k])
    ensures exists m: nat :: i <= m <= k && Run(env, items[0], name[i..m]) && Denotes(env, items[1..], name[m..k])
  {
    hide Run;
    var w := name[i..k];
    var d: nat :| d <= |w| && Run(env, items[0], w[..d]) && Denotes(env, items[1..], w[d..]);
    var m := i + d;
    assert w[d..] == name[m..k] && w[..d] == name[i..m];
  }

  lemma DenotesJoined(env: Platform, items: seq<Item>, name: string, i: nat, m: nat, k: nat)
    requires items != [] && i <= m <= k <= |name|
    requires Run(env, items[0], name[i..m]) && Denotes(env, items[1..], name[m..k])
    ensures Denotes(env, items, name[i..k])
  {
    hide Run;
    var w, d := name[i..k], m - i;
    assert w[d..] == name[m..k] && w[..d] == name[i..m];
  }

  lemma SpelledNext(pat: seq<Obj>, j: nat, n: nat, items: seq<Item>, end: bool)
    requires Spelled(pat, j, n, items, end) && items != []
    ensures j + Size(items[0]) == NextItem(pat, j) <= n && j < n && !AtEnd(pat, j, n)
    ensures Fits(items[0].atom, pat[j]) && Spelled(pat, NextItem(pat, j), n, items[1..], end)
    ensures items[0].quant.Once? ==> !IsQuant(pat[j + 1].kind)
    ensures !items[0].quant.Once? ==> pat[j + 1].kind == QuantKind(items[0].quant)
  {
    SpelledBody(pat, j + Size(items[0]), n, items[1..], end);
  }

  /** The token of an item may be repeated over a stretch just when the stretch is a run of the item. */
  lemma RunIsTaken(env: Platform, it: Item, pat: seq<Obj>, j: nat, name: string, i: nat, m: nat)
    requires j + Size(it) < |pat| && Fits(it.atom, pat[j]) && Bytes(name) && i <= m <= |name|
    requires if it.quant.Once? then !IsQuant(pat[j + 1].kind) else pat[j + 1].kind == QuantKind(it.quant)
    ensures Times(pat, j, m - i) && All(env, pat[j], name, i, m) <==> Run(env, it, name[i..m])
  {
    RunIsHeld(env, it.atom, pat[j], name, i, m);
  }

  lemma RunIsHeld(env: Platform, a: Atom, o: Obj, name: string, i: nat, m: nat)
    requires Fits(a, o) && Bytes(name) && i <= m <= |name|
    ensures All(env, o, name, i, m) <==> forall c :: c in name[i..m] ==> Holds(env, a, c)
  {
    forall k | i <= k < m ensures MatchOne(env, o, name[k]) <==> Holds(env, a, name[k]) {
      FitMeans(env, a, o, name[k]);
    }
    if forall c :: c in name[i..m] ==> Holds(env, a, c) {
      forall k | i <= k < m ensures MatchOne(env, o, name[k]) { assert name[k] == name[i..m][k - i]; }
    }
  }

  /** Every expression that fits compiles, and its tokens accept at each place of a name exactly what it denotes. */
  lemma CompiledMeaning(r: Regexp, stack: seq<Obj>) returns (pat: seq<Obj>, n: nat)
    requires |stack| == MAX_OBJECTS && Compilable(r)
    ensures Lex(Print(r), 0, 1, stack) == Some(pat) && Compiled(pat, n)
    ensures pat[0].kind.Begin? <==> r.atStart
    ensures forall env: Platform, name, i: nat :: Bytes(name) && i <= |name| ==>
              (Accepts(env, pat, if r.atStart then 1 else 0, n, name, i) <==> MatchesAt(env, r, name, i))
  {
    var rest := PrintItems(r.items) + if r.atEnd then "$" else "";
    var p := if r.atStart then 1 else 0;
    if r.atStart {
      var begin := stack[0].(kind := Begin);
      assert Print(r)[1..] == rest;
      LexPush(Print(r), 0, 1, stack, begin, rest, 1);
      pat, n := ReadsItems(r.items, r.atEnd, 1, 1, stack[0 := begin]);
      assert pat[0] == begin;
    } else {
      assert Print(r) == rest;
      pat, n := ReadsItems(r.items, r.atEnd, 0, 1, stack);
    }
    SpelledBody(pat, p, n, r.items, r.atEnd);
    forall env: Platform, name, i: nat | Bytes(name) && i <= |name|
      ensures Accepts(env, pat, p, n, name, i) <==> MatchesAt(env, r, name, i)
    {
      AcceptsDenoted(env, pat, p, n, r, name, i);
    }
  }

  lemma AcceptsDenoted(env: Platform, pat: seq<Obj>, p: nat, n: nat, r: Regexp, name: string, i: nat)
    requires Spelled(pat, p, n, r.items, r.atEnd) && Body(pat, p, n) && Bytes(name) && i <= |name|
    ensures Accepts(env, pat, p, n, name, i) <==> MatchesAt(env, r, name, i)
  {
    SpelledBody(pat, p, n, r.items, r.atEnd);
    forall k | i <= k <= |name|
      ensures InLang(env, pat, p, n, name, i, k) <==> Denotes(env, r.items, name[i..k])
    {
      LanguageIsDenoted(env, pat, p, n, r.items, r.atEnd, name, i, k);
    }
  }

  /** re_match: an expression that starts with '^' matches at 0 or not at all; any other at the least place before the
      end of the name. */
  method Match(env: Platform, pattern: string, ghost r: Regexp, name: string, stack: seq<Obj>) returns (idx: int)
    requires |stack| == MAX_OBJECTS && Compilable(r) && pattern == Print(r) && Bytes(name)
    ensures r.atStart ==> idx == if MatchesAt(env, r, name, 0) then 0 else -1
    ensures !r.atStart ==> -1 <= idx && (idx >= 0 ==> idx < |name| && MatchesAt(env, r, name, idx))
    ensures !r.atStart ==>
              forall k :: 0 <= k < (if idx >= 0 then idx else |name|) ==> !MatchesAt(env, r, name, k)
  {
    ghost var pat, n := CompiledMeaning(r, stack);
    var c := Compile(pattern, stack);
    if c.None? { return -1; }
    var len;
    idx, len := MatchP(env, c.value, n, name);
  }

  // ---------- single characters ----------

  lemma FitIsAtom(a: Atom, o: Obj)
    requires Fits(a, o)
    ensures !o.kind.Begin?
  {
  }

  lemma OneByte(env: Platform, a: Atom, c: char)
    ensures MatchesAt(env, Regexp(false, [Item(a, Once)], false), [c], 0) <==> Holds(env, a, c)
  {
    hide Holds;
    var items := [Item(a, Once)];
    var w := [c];
    assert items[1..] == [] && w[0..1] == w;
    if Holds(env, a, c) {
      assert Run(env, items[0], w[0..1]) && Denotes(env, items[1..], w[1..1]);
      DenotesJoined(env, items, w, 0, 1, 1);
    }
    if MatchesAt(env, Regexp(false, items, false), w, 0) {
      var k :| 0 <= k <= 1 && Denotes(env, items, w[0..k]);
      DenotesSplits(env, items, w, 0, k);
      var m: nat :| m <= k && Run(env, items[0], w[0..m]);
      assert w[0..m][0] == c;
    }
  }

  /** The pattern that is one atom accepts exactly that atom's bytes. */
  lemma AtomPattern(env: Platform, a: Atom, c: char, stack: seq<Obj>) returns (pat: seq<Obj>)
    requires |stack| == MAX_OBJECTS && GoodAtom(a) && Room(a) < MAX_CCL && 0 < c as int < 0x100
    ensures Lex(PrintAtom(a), 0, 1, stack) == Some(pat) && Compiled(pat, 1) && !pat[0].kind.Begin?
    ensures Accepts(env, pat, 0, 1, [c], 0) <==> Holds(env, a, c)
  {
    hide Accepts, Holds, Lex, PrintAtom, Fits;
    var r := Regexp(false, [Item(a, Once)], false);
    assert r.items[1..] == [];
    assert PrintItems(r.items) == PrintItem(r.items[0]) + "" == PrintAtom(a) == PrintItems(r.items) + "";
    var n;
    pat, n := ReadsItems(r.items, false, 0, 1, stack);
    assert n == 1;
    SpelledBody(pat, 0, 1, r.items, false);
    AcceptsDenoted(env, pat, 0, 1, r, [c], 0);
    OneByte(env, a, c);
    assert Fits(a, pat[0]);
    FitIsAtom(a, pat[0]);
  }

  /** The patterns "\\d" and "\\D". */
  lemma DigitPattern(env: Platform, neg: bool, c: char, stack: seq<Obj>) returns (pat: seq<Obj>)
    requires |stack| == MAX_OBJECTS && 0 < c as int < 0x100
    ensures Lex(if neg then "\\D" else "\\d", 0, 1, stack) == Some(pat) && Compiled(pat, 1) && !pat[0].kind.Begin?
    ensures Accepts(env, pat, 0, 1, [c], 0) <==>
            (c in {'0', '1', '2', '3', '4', '5', '6', '7', '8', '9'}) != neg
  {
    pat := AtomPattern(env, DigitIn(neg), c, stack);
  }

  /** The patterns "\\w" and "\\W". */
  lemma WordPattern(env: Platform, neg: bool, c: char, stack: seq<Obj>) returns (pat: seq<Obj>)
    requires |stack| == MAX_OBJECTS && 0 < c as int < 0x100
    ensures Lex(if neg then "\\W" else "\\w", 0, 1, stack) == Some(pat) && Compiled(pat, 1) && !pat[0].kind.Begin?
    ensures Accepts(env, pat, 0, 1, [c], 0) <==> (IsLower(c) || IsUpper(c) || IsDigit(c) || c == '_') != neg
  {
    pat := AtomPattern(env, WordIn(neg), c, stack);
  }

  /** The patterns "\\s" and "\\S". */
  lemma SpacePattern(env: Platform, neg: bool, c: char, stack: seq<Obj>) returns (pat: seq<Obj>)
    requires |stack| == MAX_OBJECTS && 0 < c as int < 0x100
    ensures Lex(if neg then "\\S" else "\\s", 0, 1, stack) == Some(pat) && Compiled(pat, 1) && !pat[0].kind.Begin?
    ensures Accepts(env, pat, 0, 1, [c], 0) <==> IsSpace(c) != neg
  {
    pat := AtomPattern(env, SpaceIn(neg), c, stack);
  }
}
