/** The dangling-reference guard of scripts/export_ui_contract.py: a tokenizer over the
    printed text that decides whether the exported contract is closed. */
module TsGuard {
  import opened Text
  import opened TsTypes

  const SEPARATORS := {'(', ')', '|', '<', '>', ','}

  const BUILTINS := {"string", "number", "boolean", "null", "unknown", "Record", "readonly"}

  /** White space of `str.split`, within ASCII. */
  predicate IsBlank(c: char) {
    IsSpace(c) || 28 as char <= c <= 31 as char
  }

  predicate IsAlpha(c: char) {
    'a' <= c <= 'z' || 'A' <= c <= 'Z'
  }

  /** `text.split()`. */
  function SplitWords(s: string): seq<string>
    decreases |s|
  {
    if s == [] then []
    else if IsBlank(s[0]) then SplitWords(s[1..])
    else [s[..Run(s)]] + SplitWords(s[Run(s)..])
  }

  function Run(s: string): (n: nat)
    ensures n <= |s|
    ensures s != [] && !IsBlank(s[0]) ==> n > 0
  {
    if s != [] && !IsBlank(s[0]) then 1 + Run(s[1..]) else 0
  }

  /** `text.replace("[]", " ")`. */
  function ReplacePair(s: string): string {
    if s == [] then []
    else if |s| >= 2 && s[0] == '[' && s[1] == ']' then " " + ReplacePair(s[2..])
    else [s[0]] + ReplacePair(s[1..])
  }

  function Blanked(s: string, symbols: set<char>): (r: string)
    ensures |r| == |s| && forall i :: 0 <= i < |s| ==> r[i] == if s[i] in symbols then ' ' else s[i]
  {
    seq(|s|, i requires 0 <= i < |s| => if s[i] in symbols then ' ' else s[i])
  }

  function Clean(s: string): string {
    Blanked(ReplacePair(s), SEPARATORS)
  }

  predicate Keep(token: string) {
    token != [] && IsAlpha(token[0]) && '"' !in token
  }

  /** What `_identifiers` returns. */
  function Tokens(rendered: string): set<string> {
    set t | t in SplitWords(Clean(rendered)) && Keep(t)
  }

  method ReplaceChar(s: string, symbol: char) returns (r: string)
    ensures r == Blanked(s, {symbol})
  {
    r := Blanked(s, {symbol});
  }

  /** `_identifiers`: one replacement after the other, then the split. */
  method Identifiers(rendered: string) returns (tokens: set<string>)
    ensures tokens == Tokens(rendered)
    ensures forall t :: t in tokens <==> IsStretch(rendered, t) && Wanted(t)
  {
    var cleaned := ReplacePair(rendered);
    cleaned := ReplaceChar(cleaned, '(');
    cleaned := ReplaceChar(cleaned, ')');
    var symbols := ['|', '<', '>', ','];
    var i := 0;
    while i < |symbols|
      invariant 0 <= i <= |symbols|
      invariant cleaned == Blanked(ReplacePair(rendered), {'(', ')'} + set k | 0 <= k < i :: symbols[k])
    {
      cleaned := ReplaceChar(cleaned, symbols[i]);
      i := i + 1;
    }
    assert {'(', ')'} + (set k | 0 <= k < |symbols| :: symbols[k]) == SEPARATORS by {
      assert symbols[0] == '|' && symbols[1] == '<' && symbols[2] == '>' && symbols[3] == ',';
    }
    tokens := set t | t in SplitWords(cleaned) && Keep(t);
    hide IsStretch, Wanted;
    forall t ensures t in Tokens(rendered) <==> IsStretch(rendered, t) && Wanted(t) {
      TokensExactly(rendered, t);
    }
  }

  // ------------------------------------------------------------ tokens, by position

  /** White space and separators, by code point. */
  predicate Divides(c: char) {
    c as int == 32 || 9 <= c as int <= 13 || 28 <= c as int <= 31
    || c == '(' || c == ')' || c == '|' || c == '<' || c == '>' || c == ','
  }

  predicate PairAt(s: string, i: int) {
    0 <= i && i + 1 < |s| && s[i] == '[' && s[i + 1] == ']'
  }

  /** Position `k` belongs to no token: it divides, or is half of a `[]`. */
  predicate Cut(s: string, k: nat) {
    k < |s| && (Divides(s[k]) || PairAt(s, k) || PairAt(s, k - 1))
  }

  /** A longest stretch without a cut. */
  ghost predicate Stretch(s: string, i: nat, j: nat) {
    && i < j && j <= |s|
    && (forall k: nat :: i <= k < j ==> !Cut(s, k))
    && (i == 0 || Cut(s, i - 1)) && (j == |s| || Cut(s, j))
  }

  ghost predicate StretchOf(s: string, t: string, i: nat, j: nat) {
    Stretch(s, i, j) && t == s[i..j]
  }

  ghost predicate IsStretch(s: string, t: string) {
    exists i: nat, j: nat :: StretchOf(s, t, i, j)
  }

  /** It starts with an ASCII letter and has no quote in it. */
  predicate Wanted(t: string) {
    && t != [] && (65 <= t[0] as int <= 90 || 97 <= t[0] as int <= 122)
    && forall k :: 0 <= k < |t| ==> t[k] as int != 34
  }

  lemma BlankedAppend(a: string, b: string)
    ensures Blanked(a + b, SEPARATORS) == Blanked(a, SEPARATORS) + Blanked(b, SEPARATORS)
  {
  }

  /** The words of a text are its stretches. */
  lemma {:induction false} WordsAreStretches(s: string, t: string)
    ensures t in SplitWords(Clean(s)) <==> IsStretch(s, t)
    decreases |s|
  {
    hide SplitWords, Clean, IsStretch;
    if s == [] {
      NoWords(t);
    } else if Cut(s, 0) {
      var skip := if PairAt(s, 0) then 2 else 1;
      WordsAreStretches(s[skip..], t);
      BlankHead(s, skip);
      StretchesAfterBlank(s, skip, t);
    } else {
      var n := HeadLength(s);
      WordsAreStretches(s[n..], t);
      WordHead(s, n);
      StretchesAfterWord(s, n, t);
    }
  }

  lemma NoWords(t: string)
    ensures t !in SplitWords(Clean("")) && !IsStretch("", t)
  {
    assert Clean("") == "";
  }

  /** How many characters stand before the first cut. */
  function HeadLength(s: string): (n: nat)
    ensures n <= |s|
    ensures forall k: nat :: k < n ==> !Divides(s[k]) && !PairAt(s, k)
    ensures n < |s| ==> Divides(s[n]) || PairAt(s, n)
  {
    if s == [] || Divides(s[0]) || PairAt(s, 0) then 0
    else
      assert forall k :: 0 < k < |s| ==> (PairAt(s, k) <==> PairAt(s[1..], k - 1)) && s[k] == s[1..][k - 1];
      1 + HeadLength(s[1..])
  }

  lemma BlankHead(s: string, skip: nat)
    requires Cut(s, 0) && skip == if PairAt(s, 0) then 2 else 1
    ensures SplitWords(Clean(s)) == SplitWords(Clean(s[skip..]))
  {
    var c := if PairAt(s, 0) then ' ' else s[0];
    assert ReplacePair(s) == [c] + ReplacePair(s[skip..]);
    BlankedAppend([c], ReplacePair(s[skip..]));
    var first := Blanked([c], SEPARATORS)[0];
    assert IsBlank(first);
    assert Clean(s) == [first] + Clean(s[skip..]);
    hide Clean, SplitWords, ReplacePair;
    BlankFirst(first, Clean(s[skip..]));
  }

  lemma {:induction false} PlainHead(s: string, n: nat)
    requires n <= |s| && forall k: nat :: k < n ==> !Divides(s[k]) && !PairAt(s, k)
    ensures ReplacePair(s) == s[..n] + ReplacePair(s[n..])
  {
    if n > 0 {
      assert forall k: nat :: k < n - 1 ==> s[1..][k] == s[k + 1] && (PairAt(s[1..], k) <==> PairAt(s, k + 1));
      PlainHead(s[1..], n - 1);
      assert s[1..][n - 1..] == s[n..];
      assert s[..n] == [s[0]] + s[1..][..n - 1];
      assert !PairAt(s, 0);
    }
  }

  lemma PlainIsKept(a: string)
    requires forall k :: 0 <= k < |a| ==> !Divides(a[k])
    ensures Blanked(a, SEPARATORS) == a && forall c :: c in a ==> !IsBlank(c)
  {
  }

  lemma WordHead(s: string, n: nat)
    requires n == HeadLength(s) && n > 0
    ensures SplitWords(Clean(s)) == [s[..n]] + SplitWords(Clean(s[n..]))
  {
    var a, b := s[..n], Clean(s[n..]);
    PlainHead(s, n);
    BlankedAppend(a, ReplacePair(s[n..]));
    PlainIsKept(a);
    assert Clean(s) == a + b;
    NextIsBlank(s, n);
    hide Clean, Blanked, ReplacePair, HeadLength, IsBlank, Divides;
    WordsBefore(a, b);
    OneWord(a);
  }

  lemma OneWord(a: string)
    requires a != [] && forall c :: c in a ==> !IsBlank(c)
    ensures SplitWords(a) == [a]
  {
    OneRun(a);
    assert a[0] in a;
    assert a[..|a|] == a && a[|a|..] == [];
    assert SplitWords(a) == [a] + SplitWords([]);
  }

  lemma NextIsBlank(s: string, n: nat)
    requires n == HeadLength(s)
    ensures Clean(s[n..]) == [] || IsBlank(Clean(s[n..])[0])
  {
    var b := s[n..];
    if b != [] {
      assert b[0] == s[n] && (PairAt(b, 0) <==> PairAt(s, n));
      assert ReplacePair(b)[0] == if PairAt(b, 0) then ' ' else b[0];
    }
  }

  /** Dropping `n` characters that end no pair shifts the cuts. */
  lemma CutsShift(s: string, n: nat, k: nat)
    requires n <= |s| && !PairAt(s, n - 1)
    ensures Cut(s[n..], k) <==> Cut(s, k + n)
  {
    var r := s[n..];
    assert k < |r| ==> r[k] == s[k + n];
    assert PairAt(r, k) <==> PairAt(s, k + n);
    assert k > 0 ==> (PairAt(r, k - 1) <==> PairAt(s, k + n - 1));
  }

  lemma StretchShifts(s: string, n: nat, t: string, i: nat, j: nat)
    requires n <= |s| && !PairAt(s, n - 1) && j <= |s| - n
    requires i > 0 || (n > 0 && Cut(s, n - 1))
    ensures StretchOf(s[n..], t, i, j) <==> StretchOf(s, t, i + n, j + n)
  {
    forall k: nat ensures Cut(s[n..], k) <==> Cut(s, k + n) {
      CutsShift(s, n, k);
    }
    hide Cut, PairAt;
    if i < j {
      assert s[n..][i..j] == s[i + n..j + n];
      assert (forall k: nat :: i <= k < j ==> !Cut(s[n..], k)) <==> forall k: nat :: i + n <= k < j + n ==> !Cut(s, k) by {
        if forall k: nat :: i <= k < j ==> !Cut(s[n..], k) {
          forall k: nat | i + n <= k < j + n ensures !Cut(s, k) {
            assert !Cut(s[n..], k - n);
          }
        }
      }
    }
  }

  lemma StretchesAfterBlank(s: string, skip: nat, t: string)
    requires Cut(s, 0) && skip == if PairAt(s, 0) then 2 else 1
    ensures IsStretch(s[skip..], t) <==> IsStretch(s, t)
  {
    assert Cut(s, skip - 1) && !PairAt(s, skip - 1);
    hide Cut, PairAt, Divides;
    if IsStretch(s[skip..], t) {
      var i: nat, j: nat :| StretchOf(s[skip..], t, i, j);
      StretchShifts(s, skip, t, i, j);
    }
    if IsStretch(s, t) {
      var i: nat, j: nat :| StretchOf(s, t, i, j);
      assert !Cut(s, i);
      assert i >= skip;
      StretchShifts(s, skip, t, i - skip, j - skip);
    }
  }

  lemma HeadIsUncut(s: string, n: nat)
    requires n == HeadLength(s) && n > 0
    ensures !PairAt(s, n - 1) && (forall k: nat :: k < n ==> !Cut(s, k)) && (n < |s| ==> Cut(s, n))
  {
    forall k: nat | k < n ensures !Cut(s, k) {
      assert !Divides(s[k]) && !PairAt(s, k);
      if k > 0 {
        var m: nat := k - 1;
        assert !PairAt(s, m);
      }
    }
    var m: nat := n - 1;
    assert !PairAt(s, m);
  }

  lemma StretchesAfterWord(s: string, n: nat, t: string)
    requires n == HeadLength(s) && n > 0
    ensures IsStretch(s, t) <==> t == s[..n] || IsStretch(s[n..], t)
  {
    HeadIsUncut(s, n);
    CutsShift(s, n, 0);
    hide Cut, PairAt, Divides, HeadLength;
    assert s[0..n] == s[..n];
    assert StretchOf(s, s[..n], 0, n);
    if IsStretch(s[n..], t) {
      var i: nat, j: nat :| StretchOf(s[n..], t, i, j);
      assert !Cut(s[n..], i);
      StretchShifts(s, n, t, i, j);
    }
    if IsStretch(s, t) {
      var i: nat, j: nat :| StretchOf(s, t, i, j);
      assert !Cut(s, i);
      if i < n {
        FirstStretch(s, n, i, j);
      } else {
        StretchShifts(s, n, t, i - n, j - n);
      }
    }
  }

  lemma FirstStretch(s: string, n: nat, i: nat, j: nat)
    requires n <= |s| && (forall k: nat :: k < n ==> !Cut(s, k)) && (n < |s| ==> Cut(s, n))
    requires Stretch(s, i, j) && i < n
    ensures i == 0 && j == n
  {
    hide Cut;
  }

  /** The tokens of any text, by position: the longest stretches without white space, a
      separator or a `[]`, that start with a letter and hold no quote. */
  lemma {:induction false} TokensExactly(s: string, t: string)
    ensures t in Tokens(s) <==> IsStretch(s, t) && Wanted(t)
  {
    WordsAreStretches(s, t);
    hide SplitWords, Clean, IsStretch;
    assert '"' !in t <==> forall k :: 0 <= k < |t| ==> t[k] as int != 34;
  }

  // ------------------------------------------------------------ tokens of joined text

  lemma {:induction false} RunStops(a: string, b: string)
    requires b == [] || IsBlank(b[0])
    ensures Run(a + b) == Run(a)
  {
    if a != [] {
      assert (a + b)[1..] == a[1..] + b;
      RunStops(a[1..], b);
    } else {
      assert a + b == b;
    }
  }

  /** Text that starts with white space adds its own words. */
  lemma {:induction false} WordsBefore(a: string, b: string)
    requires b == [] || IsBlank(b[0])
    ensures SplitWords(a + b) == SplitWords(a) + SplitWords(b)
    decreases |a|
  {
    var s := a + b;
    if a == [] {
      assert s == b;
    } else if IsBlank(a[0]) {
      assert s[1..] == a[1..] + b;
      WordsBefore(a[1..], b);
    } else {
      RunStops(a, b);
      var n := Run(a);
      assert s[..n] == a[..n] && s[n..] == a[n..] + b;
      WordsBefore(a[n..], b);
    }
  }

  lemma BlankFirst(c: char, b: string)
    requires IsBlank(c)
    ensures SplitWords([c] + b) == SplitWords(b) && SplitWords([]) == []
  {
    assert ([c] + b)[1..] == b;
  }

  lemma WordsAfter(a: string, b: string)
    requires a == [] || IsBlank(a[|a| - 1])
    ensures SplitWords(a + b) == SplitWords(a) + SplitWords(b)
  {
    if a == [] {
      assert a + b == b;
    } else {
      var front, c := a[..|a| - 1], a[|a| - 1];
      BlankFirst(c, b);
      BlankFirst(c, []);
      hide SplitWords, IsBlank;
      assert [c] + [] == [c];
      WordsBefore(front, [c] + b);
      WordsBefore(front, [c]);
      assert a + b == front + ([c] + b);
      assert a == front + [c];
      assert SplitWords(front) + [] == SplitWords(front);
    }
  }

  lemma {:induction false} PairAppend(a: string, b: string)
    requires a != [] && b != [] ==> !(a[|a| - 1] == '[' && b[0] == ']')
    ensures ReplacePair(a + b) == ReplacePair(a) + ReplacePair(b)
    decreases |a|
  {
    var s := a + b;
    if a == [] {
      assert s == b;
    } else if |a| >= 2 && a[0] == '[' && a[1] == ']' {
      assert s[2..] == a[2..] + b;
      PairAppend(a[2..], b);
      assert " " + (ReplacePair(a[2..]) + ReplacePair(b)) == " " + ReplacePair(a[2..]) + ReplacePair(b);
    } else {
      assert s[1..] == a[1..] + b && s[0] == a[0];
      assert |s| >= 2 ==> !(s[0] == '[' && s[1] == ']');
      PairAppend(a[1..], b);
      assert [a[0]] + (ReplacePair(a[1..]) + ReplacePair(b)) == [a[0]] + ReplacePair(a[1..]) + ReplacePair(b);
    }
  }

  lemma CleanAppend(a: string, b: string)
    requires a != [] && b != [] ==> !(a[|a| - 1] == '[' && b[0] == ']')
    ensures Clean(a + b) == Clean(a) + Clean(b)
  {
    PairAppend(a, b);
  }

  predicate Breaks(c: char) {
    IsBlank(c) || c in SEPARATORS
  }

  /** Text joined at a separator has the tokens of both sides. */
  lemma TokensBefore(a: string, b: string)
    requires b != [] && (Breaks(b[0]) || "[]" <= b)
    ensures Tokens(a + b) == Tokens(a) + Tokens(b)
  {
    CleanAppend(a, b);
    assert Clean(b) != [] && IsBlank(Clean(b)[0]);
    WordsBefore(Clean(a), Clean(b));
    hide Clean, SplitWords, Keep;
  }

  lemma TokensAfter(a: string, b: string)
    requires a != [] && Breaks(a[|a| - 1])
    ensures Tokens(a + b) == Tokens(a) + Tokens(b)
  {
    CleanAppend(a, b);
    LastClean(a);
    WordsAfter(Clean(a), Clean(b));
    hide Clean, SplitWords, Keep;
  }

  lemma LastClean(a: string)
    requires a != [] && Breaks(a[|a| - 1])
    ensures Clean(a) != [] && IsBlank(Clean(a)[|Clean(a)| - 1])
  {
    var front, c := a[..|a| - 1], a[|a| - 1];
    assert a == front + [c];
    CleanAppend(front, [c]);
    assert ReplacePair([c]) == [c] by { assert [c][1..] == []; }
  }

  lemma {:induction false} NoPair(s: string)
    requires forall c :: c in s ==> c != '['
    ensures ReplacePair(s) == s
  {
    if s != [] {
      assert s[0] in s;
      assert forall c :: c in s[1..] ==> c in s;
      NoPair(s[1..]);
      assert s == [s[0]] + s[1..];
    }
  }

  lemma {:induction false} OneRun(s: string)
    requires forall c :: c in s ==> !IsBlank(c)
    ensures Run(s) == |s|
  {
    if s != [] {
      assert s[0] in s;
      OneRun(s[1..]);
    }
  }

  /** Text the cleaning leaves alone is at most one token. */
  lemma OneToken(s: string)
    requires s != [] && Clean(s) == s && forall c :: c in s ==> !IsBlank(c)
    ensures Tokens(s) == if Keep(s) then {s} else {}
  {
    OneRun(s);
    assert s[0] in s;
    assert s[..|s|] == s && s[|s|..] == [];
    assert SplitWords(s) == [s] + SplitWords([]) == [s];
    hide Clean;
  }

  lemma WordToken(w: string)
    requires w != [] && forall c :: c in w ==> IsWordChar(c) || c == '-'
    ensures Tokens(w) == if IsAlpha(w[0]) then {w} else {}
  {
    NoPair(w);
    assert forall c :: c in w ==> c !in SEPARATORS;
    assert Clean(w) == w;
    assert '"' !in w;
    OneToken(w);
    hide Clean, SplitWords;
  }

  // ------------------------------------------------------------ tokens of printed types

  /** The class names in the part of an annotation that is printed. */
  function Shown(a: Ann): set<string>
    decreases a
  {
    match a
    case Named(n) => {n}
    case Annotated(x) => Shown(x)
    case UnionOf(args) => set i, n | 0 <= i < |args| && n in Shown(args[i]) :: n
    case ListOf(x) => Shown(x)
    case TupleOf(args) => set i, n | 0 <= i < |args| && IsFirst(args, i) && n in Shown(args[i]) :: n
    case MapOf(k, v) => Shown(k) + Shown(v)
    case _ => {}
  }

  /** The literals in the part that is printed. */
  function Literals(a: Ann): set<Lit>
    decreases a
  {
    match a
    case Annotated(x) => Literals(x)
    case UnionOf(args) => set i, l | 0 <= i < |args| && l in Literals(args[i]) :: l
    case ListOf(x) => Literals(x)
    case TupleOf(args) => set i, l | 0 <= i < |args| && IsFirst(args, i) && l in Literals(args[i]) :: l
    case MapOf(k, v) => Literals(k) + Literals(v)
    case LiteralOf(values) => set l | l in values
    case _ => {}
  }

  /** Of a tuple its first member is shown, if it has one. */
  lemma TupleShows(args: seq<Ann>)
    ensures var a := TupleOf(args);
      if Members(args) == [] then Shown(a) == {} && Literals(a) == {}
      else Shown(a) == Shown(Members(args)[0]) && Literals(a) == Literals(Members(args)[0])
  {
    if Members(args) != [] {
      var i := FindFirst(args);
      FirstMember(args, i);
      assert forall k :: 0 <= k < |args| && IsFirst(args, k) ==> k == i;
    } else {
      forall k | 0 <= k < |args| ensures !IsFirst(args, k) {
        if IsFirst(args, k) {
          FirstMember(args, k);
        }
      }
    }
  }

  /** Why a token that TypeScript does not define is found in printed text. */
  ghost predicate Explained(a: Ann, t: string) {
    (t in Shown(a) && t != [] && IsAlpha(t[0])) || exists l :: l in Literals(a) && t in Tokens(Dumps(l))
  }

  lemma BarTokens(a: string, b: string)
    ensures Tokens(a + " | " + b) == Tokens(a) + Tokens(b)
  {
    hide Tokens;
    assert a + " | " + b == a + (" | " + b);
    TokensBefore(a, " | " + b);
    TokensAfter(" | ", b);
    BarIsSilent();
  }

  lemma BarIsSilent()
    ensures Tokens(" | ") == {} && Tokens("(") == {} && Tokens(")[]") == {} && Tokens("[]") == {}
    ensures Tokens(", ") == {} && Tokens(">") == {}
  {
    PairIsSilent();
    SilentText(" | ");
    SilentText("(");
    SilentText(")");
    SilentText(", ");
    SilentText(">");
    hide Tokens;
    TokensBefore(")", "[]");
    assert ")" + "[]" == ")[]";
  }

  lemma RecordIsToken()
    ensures Tokens("Record<") == {"Record"}
  {
    SilentText("<");
    WordToken("Record");
    hide Tokens;
    TokensBefore("Record", "<");
    assert "Record" + "<" == "Record<";
  }

  lemma PairIsSilent()
    ensures Tokens("[]") == {}
  {
    assert "[]"[2..] == "" && ReplacePair("[]") == " " + ReplacePair("") == " ";
    assert Clean("[]") == " ";
    assert " "[1..] == "" && SplitWords(" ") == SplitWords("") == [];
  }

  lemma SilentText(s: string)
    requires forall c :: c in s ==> Breaks(c)
    ensures Tokens(s) == {}
  {
    NoPair(s);
    assert forall i :: 0 <= i < |s| ==> s[i] in s;
    assert forall c :: c in Clean(s) ==> IsBlank(c);
    BlankText(Clean(s));
  }

  lemma {:induction false} BlankText(s: string)
    requires forall c :: c in s ==> IsBlank(c)
    ensures SplitWords(s) == []
  {
    if s != [] {
      assert s[0] in s;
      BlankText(s[1..]);
    }
  }

  lemma ArrayTokens(s: string)
    ensures Tokens(AsArray(s)) == Tokens(s)
  {
    hide Tokens;
    BarIsSilent();
    if '|' in s {
      assert "(" + s + ")[]" == "(" + (s + ")[]");
      TokensAfter("(", s + ")[]");
      TokensBefore(s, ")[]");
    } else {
      TokensBefore(s, "[]");
    }
  }

  lemma RecordTokens(k: string, v: string)
    ensures Tokens("Record<" + k + ", " + v + ">") == {"Record"} + Tokens(k) + Tokens(v)
  {
    hide Tokens;
    BarIsSilent();
    RecordIsToken();
    assert "Record<" + k + ", " + v + ">" == "Record<" + (k + (", " + (v + ">")));
    TokensAfter("Record<", k + (", " + (v + ">")));
    TokensBefore(k, ", " + (v + ">"));
    TokensAfter(", ", v + ">");
    TokensBefore(v, ">");
  }

  lemma {:induction false} JoinTokens(texts: seq<string>)
    requires texts != []
    ensures forall t :: t in Tokens(JoinBars(texts)) <==> exists s :: s in texts && t in Tokens(s)
  {
    hide Tokens;
    if |texts| == 1 {
      assert texts == [texts[0]];
    } else {
      JoinTokens(texts[1..]);
      BarTokens(texts[0], JoinBars(texts[1..]));
      assert forall s :: s in texts <==> s == texts[0] || s in texts[1..];
    }
  }

  /** Every class name printed is a token if it starts with a letter, and every other
      token is TypeScript's own or cut out of a literal. */
  lemma {:induction false} TokensExplained(a: Ann, t: string)
    requires Supported(a) && Formed(a) && t !in BUILTINS
    ensures t in Tokens(Render(a)) <==> Explained(a, t)
    decreases a
  {
    hide Tokens;
    match a
    case NoneType => WordToken("null");
    case Scalar(k) => WordToken(ScalarText(k));
    case Named(n) => WordToken(n);
    case Annotated(x) => TokensExplained(x, t);
    case ListOf(x) =>
      TokensExplained(x, t);
      ArrayTokens(Render(x));
    case TupleOf(args) =>
      TupleShows(args);
      if Members(args) == [] {
        WordToken("unknown");
        ArrayTokens("unknown");
        assert AsArray("unknown") == "unknown[]";
      } else {
        TokensExplained(Members(args)[0], t);
        ArrayTokens(Render(Members(args)[0]));
      }
    case MapOf(k, v) =>
      TokensExplained(k, t);
      TokensExplained(v, t);
      RecordTokens(Render(k), Render(v));
    case UnionOf(args) =>
      forall i | 0 <= i < |args| ensures t in Tokens(Render(args[i])) <==> Explained(args[i], t) {
        assert args[i] in args;
        TokensExplained(args[i], t);
      }
      UnionTokens(args, t);
    case LiteralOf(values) => LiteralTokens(values, t);
  }

  lemma UnionTokens(args: seq<Ann>, t: string)
    requires Supported(UnionOf(args)) && args != []
    requires forall i :: 0 <= i < |args| ==> (t in Tokens(Render(args[i])) <==> Explained(args[i], t))
    ensures t in Tokens(Render(UnionOf(args))) <==> Explained(UnionOf(args), t)
  {
    hide Tokens;
    var texts := RenderAll(args);
    JoinTokens(Unique(texts));
    assert t in Tokens(Render(UnionOf(args))) <==> exists i :: 0 <= i < |args| && t in Tokens(texts[i]);
    hide Render, Unique, JoinBars, Dumps;
    assert Explained(UnionOf(args), t) <==> exists i :: 0 <= i < |args| && Explained(args[i], t);
  }

  lemma LiteralTokens(values: seq<Lit>, t: string)
    requires values != []
    ensures t in Tokens(Render(LiteralOf(values))) <==> Explained(LiteralOf(values), t)
  {
    hide Tokens;
    var texts := DumpAll(values);
    JoinTokens(Unique(texts));
    hide Unique, JoinBars, Dumps;
    assert forall i :: 0 <= i < |values| ==> texts[i] == Dumps(values[i]);
  }

  // ------------------------------------------------------------ quiet literals

  /** Nothing the tokenizer would cut: no space, separator or `[]` inside. */
  predicate Quiet(l: Lit) {
    match l
    case LStr(units) =>
      && (forall u :: u in units ==> u != 32 && (u < 128 ==> u as char !in SEPARATORS))
      && (forall i :: 0 <= i < |units| - 1 ==> !(units[i] == 91 && units[i + 1] == 93))
    case LBool(_) => false
    case _ => true
  }

  lemma EscapeIsPlain(u: Unit)
    requires u != 32 && (u < 128 ==> u as char !in SEPARATORS)
    ensures forall c :: c in Escape(u) ==> !Breaks(c)
    ensures Clean(Escape(u)) == Escape(u)
    ensures Escape(u) != []
    ensures Escape(u)[|Escape(u)| - 1] == '[' <==> u == 91
    ensures Escape(u)[0] == ']' <==> u == 93
  {
    EscapeChars(u);
    var e := Escape(u);
    assert e != [];
    if u == 91 {
      assert e[1..] == "";
      assert ReplacePair(e) == e;
    } else {
      hide Escape;
      NoPair(e);
    }
    hide Escape, ReplacePair, Breaks;
    UnbrokenStays(e);
  }

  lemma UnbrokenStays(s: string)
    requires ReplacePair(s) == s && forall c :: c in s ==> !Breaks(c)
    ensures Clean(s) == s
  {
    hide ReplacePair;
    assert forall i :: 0 <= i < |s| ==> s[i] in s;
  }

  lemma EscapeChars(u: Unit)
    requires u != 32 && (u < 128 ==> u as char !in SEPARATORS)
    ensures forall c :: c in Escape(u) ==> !Breaks(c) && (c == '[' ==> u == 91)
    ensures Escape(u)[|Escape(u)| - 1] == '[' <==> u == 91
    ensures Escape(u)[0] == ']' <==> u == 93
  {
    if !(u == 34 || u == 92 || 8 <= u <= 13 || 32 <= u <= 126) {
      HexIsPlain(u / 4096);
      HexIsPlain(u / 256 % 16);
      HexIsPlain(u / 16 % 16);
      HexIsPlain(u % 16);
      hide HexDigit, Breaks;
    }
  }

  lemma HexIsPlain(v: nat)
    requires v < 16
    ensures !Breaks(HexDigit(v)) && HexDigit(v) != '[' && HexDigit(v) != ']'
  {
  }

  lemma {:induction false} QuietText(units: seq<Unit>)
    requires Quiet(LStr(units))
    ensures var s := EscapeAll(units) + "\"";
      Clean(s) == s && (forall c :: c in s ==> !Breaks(c)) && (s[0] == ']' <==> units != [] && units[0] == 93)
  {
    hide Clean, Escape, Breaks;
    if units == [] {
      assert EscapeAll(units) + "\"" == "\"";
      QuoteIsPlain();
    } else {
      var u, more := units[0], EscapeAll(units[1..]) + "\"";
      assert u in units;
      QuietText(units[1..]) by {
        assert forall x :: x in units[1..] ==> x in units;
      }
      EscapeIsPlain(u);
      assert EscapeAll(units) + "\"" == Escape(u) + more;
      CleanAppend(Escape(u), more);
    }
  }

  lemma QuoteIsPlain()
    ensures Clean("\"") == "\"" && !Breaks('"')
  {
    NoPair("\"");
  }

  lemma QuietIsSilent(l: Lit)
    requires Quiet(l)
    ensures Tokens(Dumps(l)) <= BUILTINS
  {
    match l
    case LStr(units) =>
      QuietText(units);
      QuoteIsPlain();
      var s := Dumps(l);
      assert s == "\"" + (EscapeAll(units) + "\"");
      CleanAppend("\"", EscapeAll(units) + "\"");
      hide Clean;
      assert s[0] == '"';
      OneToken(s);
    case LInt(n) =>
      DecimalDigits(if n < 0 then -n else n);
      var d := Decimal(if n < 0 then -n else n);
      assert d[0] in d;
      assert forall c :: c in Dumps(l) ==> IsWordChar(c) || c == '-';
      WordToken(Dumps(l));
    case LNone => WordToken("null");
  }

  // ------------------------------------------------------------ the guard

  datatype Field = Field(name: string, ann: Ann)

  datatype Model = Model(name: string, fields: seq<Field>)

  datatype Answer =
    | Closed
    | Dangling(model: string, field: string, token: string)
    | NoMapping(model: string, field: string)

  ghost predicate FieldClosed(f: Field, emitted: set<string>) {
    Printable(f.ann) && (SupportedExactly(f.ann); Tokens(Render(f.ann)) <= emitted + BUILTINS)
  }

  ghost predicate ModelsClosed(models: seq<Model>, emitted: set<string>) {
    forall m, f :: m in models && f in m.fields ==> FieldClosed(f, emitted)
  }

  function Emitted(enums: seq<string>, models: seq<Model>): set<string> {
    (set e | e in enums) + (set m | m in models :: m.name)
  }

  /** An exception names the model and the field it comes from, and is deserved. */
  ghost predicate Deserved(r: Answer, m: Model, f: Field, emitted: set<string>) {
    match r
    case Closed => false
    case NoMapping(model, field) => model == m.name && field == f.name && !Printable(f.ann)
    case Dangling(model, field, token) =>
      && model == m.name && field == f.name && Printable(f.ann)
      && (SupportedExactly(f.ann); token in Tokens(Render(f.ann))) && token !in emitted && token !in BUILTINS
  }

  /** The innermost loop, over the tokens of one field. */
  method CheckField(m: Model, f: Field, emitted: set<string>) returns (r: Answer)
    ensures r.Closed? <==> FieldClosed(f, emitted)
    ensures !r.Closed? ==> Deserved(r, m, f, emitted)
  {
    SupportedExactly(f.ann);
    if !Supported(f.ann) {
      return NoMapping(m.name, f.name);
    }
    var tokens := Identifiers(Render(f.ann));
    hide Tokens, Render, Supported, Printable;
    while tokens != {}
      invariant tokens <= Tokens(Render(f.ann))
      invariant Tokens(Render(f.ann)) - tokens <= emitted + BUILTINS
    {
      var token :| token in tokens;
      if token !in emitted && token !in BUILTINS {
        return Dangling(m.name, f.name, token);
      }
      tokens := tokens - {token};
    }
    return Closed;
  }

  /** `_assert_no_dangling_references`, with an answer for each exception. */
  method AssertNoDanglingReferences(enums: seq<string>, models: seq<Model>) returns (r: Answer)
    ensures r.Closed? <==> ModelsClosed(models, Emitted(enums, models))
    ensures !r.Closed? ==>
      exists m, f :: m in models && f in m.fields && Deserved(r, m, f, Emitted(enums, models))
  {
    var emitted := Emitted(enums, models);
    hide FieldClosed, Deserved, Emitted;
    var i := 0;
    while i < |models|
      invariant 0 <= i <= |models|
      invariant forall m, f :: m in models[..i] && f in m.fields ==> FieldClosed(f, emitted)
    {
      var m := models[i];
      assert m in models;
      var k := 0;
      while k < |m.fields|
        invariant 0 <= k <= |m.fields|
        invariant forall f :: f in m.fields[..k] ==> FieldClosed(f, emitted)
      {
        var f := m.fields[k];
        assert f in m.fields;
        r := CheckField(m, f, emitted);
        if !r.Closed? {
          return;
        }
        assert m.fields[..k + 1] == m.fields[..k] + [f];
        k := k + 1;
      }
      assert m.fields[..k] == m.fields;
      assert models[..i + 1] == models[..i] + [m];
      i := i + 1;
    }
    assert models[..i] == models;
    return Closed;
  }

  ghost predicate NameAllowed(n: string, emitted: set<string>) {
    n in emitted || n in BUILTINS || (n != [] && !IsAlpha(n[0]))
  }

  /** The words the guard takes for TypeScript's own. */
  lemma BuiltinsAre(w: string)
    ensures w in BUILTINS <==>
      w == "string" || w == "number" || w == "boolean" || w == "null" || w == "unknown" || w == "Record" || w == "readonly"
  {
  }

  /** Soundness: when the guard passes, every class name printed is emitted, except one
      spelled like a TypeScript word or starting with an underscore. */
  lemma GuardIsSound(models: seq<Model>, emitted: set<string>, m: Model, f: Field, n: string)
    requires ModelsClosed(models, emitted) && m in models && f in m.fields
    requires Formed(f.ann) && n in Shown(f.ann)
    ensures NameAllowed(n, emitted)
  {
    assert FieldClosed(f, emitted);
    hide Tokens;
    ShownAreNames(f.ann, n);
    if n !in BUILTINS {
      SupportedExactly(f.ann);
      TokensExplained(f.ann, n);
    }
  }

  lemma {:induction false} ShownAreNames(a: Ann, n: string)
    requires Formed(a) && n in Shown(a)
    ensures IsName(n)
    decreases a
  {
    match a
    case Named(_) =>
    case Annotated(x) => ShownAreNames(x, n);
    case UnionOf(args) =>
      var i :| 0 <= i < |args| && n in Shown(args[i]);
      assert args[i] in args;
      ShownAreNames(args[i], n);
    case ListOf(x) => ShownAreNames(x, n);
    case TupleOf(args) =>
      var i :| 0 <= i < |args| && IsFirst(args, i) && n in Shown(args[i]);
      assert args[i] in args;
      ShownAreNames(args[i], n);
    case MapOf(k, v) =>
      if n in Shown(k) { ShownAreNames(k, n); } else { ShownAreNames(v, n); }
  }

  /** The guard, exactly: a field passes if and only if it is supported, its printed names
      are allowed, and nothing its literals are cut into is unknown. */
  lemma {:induction false} GuardIsExact(f: Field, emitted: set<string>)
    requires Formed(f.ann)
    ensures FieldClosed(f, emitted)
      <==> && Printable(f.ann)
           && (forall n :: n in Shown(f.ann) ==> NameAllowed(n, emitted))
           && (forall l :: l in Literals(f.ann) ==> Tokens(Dumps(l)) <= emitted + BUILTINS)
  {
    hide Tokens;
    SupportedExactly(f.ann);
    if Supported(f.ann) {
      forall t | t !in BUILTINS ensures t in Tokens(Render(f.ann)) <==> Explained(f.ann, t) {
        TokensExplained(f.ann, t);
      }
      forall n | n in Shown(f.ann) ensures IsName(n) {
        ShownAreNames(f.ann, n);
      }
      hide Render, Dumps, Shown, Literals, Formed, Supported, Printable;
      ClosedBySources(f.ann, Tokens(Render(f.ann)), emitted);
    }
  }

  lemma ClosedBySources(a: Ann, tokens: set<string>, emitted: set<string>)
    requires forall t :: t !in BUILTINS ==> (t in tokens <==> Explained(a, t))
    requires forall n :: n in Shown(a) ==> IsName(n)
    ensures tokens <= emitted + BUILTINS
      <==> && (forall n :: n in Shown(a) ==> NameAllowed(n, emitted))
           && (forall l :: l in Literals(a) ==> Tokens(Dumps(l)) <= emitted + BUILTINS)
  {
    hide Tokens, Dumps, Shown, Literals;
    if tokens <= emitted + BUILTINS {
      forall n | n in Shown(a) ensures NameAllowed(n, emitted) {
        assert n !in BUILTINS && IsAlpha(n[0]) ==> Explained(a, n);
      }
      forall l | l in Literals(a) ensures Tokens(Dumps(l)) <= emitted + BUILTINS {
        forall t | t in Tokens(Dumps(l)) && t !in BUILTINS ensures t in emitted {
          assert Explained(a, t);
        }
      }
    }
    if (forall n :: n in Shown(a) ==> NameAllowed(n, emitted))
       && (forall l :: l in Literals(a) ==> Tokens(Dumps(l)) <= emitted + BUILTINS) {
      forall t | t in tokens && t !in BUILTINS ensures t in emitted {
        assert Explained(a, t);
      }
    }
  }

  /** No false alarm, and no other miss, on literals the tokenizer leaves whole. */
  lemma {:induction false} NoFalseAlarm(f: Field, emitted: set<string>)
    requires Formed(f.ann) && forall l :: l in Literals(f.ann) ==> Quiet(l)
    ensures FieldClosed(f, emitted)
      <==> Printable(f.ann) && forall n :: n in Shown(f.ann) ==> NameAllowed(n, emitted)
  {
    hide Tokens, Quiet;
    GuardIsExact(f, emitted);
    forall l | l in Literals(f.ann) ensures Tokens(Dumps(l)) <= BUILTINS {
      QuietIsSilent(l);
    }
    hide Shown, Literals, Printable, Formed, FieldClosed, Dumps, NameAllowed;
  }

  // ------------------------------------------------------------ what the guard misses

  /** Whenever the guard passes the field, every class named anywhere in it is emitted. */
  ghost predicate CatchesAll(a: Ann) {
    forall emitted :: FieldClosed(Field("f", a), emitted) ==> Names(a) <= emitted
  }

  /** The guard vouches for every class named anywhere in an annotation, printed or not,
      if and only if each is a token of the printed text that is not TypeScript's own:
      for literals left whole, printed, starting with a letter and no TypeScript word. */
  lemma {:induction false} CatchesAllExactly(a: Ann)
    requires Supported(a) && Formed(a)
    ensures CatchesAll(a) <==> forall n :: n in Names(a) ==> n !in BUILTINS && Explained(a, n)
    ensures (forall l :: l in Literals(a) ==> Quiet(l)) ==>
      (CatchesAll(a) <==> forall n :: n in Names(a) ==> n in Shown(a) && n != [] && IsAlpha(n[0]) && n !in BUILTINS)
  {
    hide Tokens, Quiet;
    forall n | n in Names(a) ensures IsName(n) {
      NamesAreNames(a, n);
    }
    forall t | t !in BUILTINS ensures t in Tokens(Render(a)) <==> Explained(a, t) {
      TokensExplained(a, t);
    }
    CaughtAreTokens(a);
    if forall l :: l in Literals(a) ==> Quiet(l) {
      forall l | l in Literals(a) ensures Tokens(Dumps(l)) <= BUILTINS {
        QuietIsSilent(l);
      }
    }
    hide Names, Shown, Literals, Render, Supported, Formed, CatchesAll, Dumps;
  }

  /** The smallest thing the guard lets pass is the tokens themselves. */
  lemma CaughtAreTokens(a: Ann)
    requires Supported(a)
    ensures CatchesAll(a) <==> forall n :: n in Names(a) ==> n !in BUILTINS && n in Tokens(Render(a))
  {
    hide Tokens, Names, Render, Supported;
    SupportedExactly(a);
    hide Printable;
    var least := Tokens(Render(a)) - BUILTINS;
    assert FieldClosed(Field("f", a), least);
    if CatchesAll(a) {
      assert Names(a) <= least;
    }
    if forall n :: n in Names(a) ==> n !in BUILTINS && n in Tokens(Render(a)) {
      forall emitted | FieldClosed(Field("f", a), emitted) ensures Names(a) <= emitted {
      }
    }
  }

  lemma {:induction false} NamesAreNames(a: Ann, n: string)
    requires Formed(a) && n in Names(a)
    ensures IsName(n)
    decreases a
  {
    match a
    case Named(_) =>
    case Annotated(x) => NamesAreNames(x, n);
    case UnionOf(args) =>
      var i :| 0 <= i < |args| && n in Names(args[i]);
      assert args[i] in args;
      NamesAreNames(args[i], n);
    case ListOf(x) => NamesAreNames(x, n);
    case TupleOf(args) =>
      var i :| 0 <= i < |args| && n in Names(args[i]);
      assert args[i] in args;
      NamesAreNames(args[i], n);
    case MapOf(k, v) =>
      if n in Names(k) { NamesAreNames(k, n); } else { NamesAreNames(v, n); }
  }

  /** A model whose name starts with an underscore, or is a word the guard takes for
      TypeScript's, slips through; any other model by itself is caught. */
  lemma LoneNameIsCaughtExactly(n: string)
    requires IsName(n)
    ensures CatchesAll(Named(n)) <==> n[0] != '_' && n !in BUILTINS
  {
    CatchesAllExactly(Named(n));
    assert n[0] in n;
    hide CatchesAll;
    assert Names(Named(n)) == {n} && Shown(Named(n)) == {n} && Literals(Named(n)) == {};
  }

  /** A model that only occurs after the first member of a tuple is not even printed. */
  lemma SecondMemberIsNotSeen(n: string)
    requires IsName(n)
    ensures !CatchesAll(TupleOf([Scalar(Str), Named(n)]))
  {
    var args := [Scalar(Str), Named(n)];
    var a := TupleOf(args);
    TupleShows(args);
    assert Members(args)[0] == Scalar(Str);
    assert n in Names(args[1]) && n in Names(a);
    assert Shown(Scalar(Str)) == {} && Literals(Scalar(Str)) == {};
    assert Shown(a) == Shown(Members(args)[0]) && Literals(a) == Literals(Members(args)[0]);
    hide Members;
    CatchesAllExactly(a);
  }

  /** And a boolean literal is a false alarm: `true` is no word the guard knows. */
  lemma BooleanLiteralAlarms(b: bool, emitted: set<string>)
    ensures FieldClosed(Field("f", LiteralOf([LBool(b)])), emitted) <==> (if b then "true" else "false") in emitted
  {
    var w := if b then "true" else "false";
    WordToken(w);
    hide Tokens;
    var a := LiteralOf([LBool(b)]);
    GuardIsExact(Field("f", a), emitted);
    assert Literals(a) == {LBool(b)} by { assert [LBool(b)][0] == LBool(b); }
    assert Dumps(LBool(b)) == w;
    assert w !in BUILTINS by { NotBuiltin(b); }
    hide Literals, Dumps, FieldClosed;
  }

  lemma NotBuiltin(b: bool)
    ensures (if b then "true" else "false") !in BUILTINS
  {
    assert "null"[0] == 'n' && "true"[0] == 't' && |"false"| == 5;
  }
}
