/** A recursive-descent reader for the TypeScript types the exporter prints. `[]` binds
    tighter than `|`. It shares nothing with the printer. */
module TsParser {
  import opened Common
  import opened Text
  import opened TsTypes

  function Skip(s: string): (r: string)
    ensures |r| <= |s|
    ensures r != [] ==> r[0] != ' '
  {
    if s != [] && s[0] == ' ' then Skip(s[1..]) else s
  }

  function WordSpan(s: string): (n: nat)
    ensures n <= |s|
  {
    if s != [] && IsWordChar(s[0]) then 1 + WordSpan(s[1..]) else 0
  }

  function HexUnit(s: string): Option<Unit>
    requires |s| >= 4
  {
    match (HexValue(s[0]), HexValue(s[1]), HexValue(s[2]), HexValue(s[3]))
    case (Some(a), Some(b), Some(c), Some(d)) =>
      if a < 16 && b < 16 && c < 16 && d < 16 then Some(4096 * a + 256 * b + 16 * c + d) else None
    case _ => None
  }

  function SimpleEscape(c: char): Option<Unit> {
    if c == '"' then Some(34)
    else if c == '\\' then Some(92)
    else if c == 'b' then Some(8)
    else if c == 't' then Some(9)
    else if c == 'n' then Some(10)
    else if c == 'f' then Some(12)
    else if c == 'r' then Some(13)
    else None
  }

  /** The rest of a string literal after its opening quote. */
  function ScanString(s: string): (r: Option<(seq<Unit>, string)>)
    ensures r.Some? ==> |r.value.1| < |s|
  {
    if s == [] then None
    else if s[0] == '"' then Some(([], s[1..]))
    else if s[0] == '\\' then
      if |s| < 2 then None
      else if s[1] == 'u' then
        if |s| < 6 then None else Prepend(HexUnit(s[2..6]), ScanString(s[6..]))
      else Prepend(SimpleEscape(s[1]), ScanString(s[2..]))
    else if s[0] < ' ' || s[0] as int >= 0x10000 then None
    else Prepend(Some(s[0] as int), ScanString(s[1..]))
  }

  function Prepend(u: Option<Unit>, rest: Option<(seq<Unit>, string)>): Option<(seq<Unit>, string)> {
    match (u, rest)
    case (Some(x), Some(p)) => Some(([x] + p.0, p.1))
    case _ => None
  }

  /** A union of one is that one. */
  function One(alts: seq<Ts>): Ts {
    if |alts| == 1 then alts[0] else OneOf(alts)
  }

  predicate StartsWith(s: string, c: char) {
    s != [] && s[0] == c
  }

  function ParsePrimary(s0: string): (r: Option<(Ts, string)>)
    ensures r.Some? ==> |r.value.1| < |s0|
    decreases |s0|, 0
  {
    var s := Skip(s0);
    if s == [] then None
    else if s[0] == '(' then
      match ParseAlts(s[1..])
      case None => None
      case Some(p) =>
        var r := Skip(p.1);
        if StartsWith(r, ')') then Some((One(p.0), r[1..])) else None
    else if s[0] == '"' then
      match ScanString(s[1..])
      case None => None
      case Some(p) => Some((Quoted(p.0), p.1))
    else if s[0] == '-' then
      var n := WordSpan(s[1..]);
      match Digits(s[1..][..n])
      case None => None
      case Some(v) => Some((Number(-(v as int)), s[1..][n..]))
    else if IsWordChar(s[0]) then
      var n := WordSpan(s);
      var word, rest := s[..n], s[n..];
      if IsDigit(s[0]) then
        match Digits(word)
        case None => None
        case Some(v) => Some((Number(v), rest))
      else if word == "Record" && StartsWith(rest, '<') then ParseRecord(rest[1..])
      else if IsKeyword(word) then None
      else Some((Word(word), rest))
    else None
  }

  /** The two arguments of `Record<K, V>`, after the `<`. */
  function ParseRecord(s: string): (r: Option<(Ts, string)>)
    ensures r.Some? ==> |r.value.1| < |s|
    decreases |s|, 3
  {
    match ParseAlts(s)
    case None => None
    case Some(k) =>
      var r := Skip(k.1);
      if !StartsWith(r, ',') then None
      else
        match ParseAlts(r[1..])
        case None => None
        case Some(v) =>
          var q := Skip(v.1);
          if StartsWith(q, '>') then Some((Record(One(k.0), One(v.0)), q[1..])) else None
  }

  function Suffixes(t: Ts, s: string): (r: (Ts, string))
    ensures |r.1| <= |s|
    decreases |s|
  {
    var u := Skip(s);
    if |u| >= 2 && u[0] == '[' && u[1] == ']' then Suffixes(Array(t), u[2..]) else (t, s)
  }

  function ParsePostfix(s: string): (r: Option<(Ts, string)>)
    ensures r.Some? ==> |r.value.1| < |s|
    decreases |s|, 1
  {
    match ParsePrimary(s)
    case None => None
    case Some(p) => Some(Suffixes(p.0, p.1))
  }

  /** The alternatives of a union, and what follows them. */
  function ParseAlts(s: string): (r: Option<(seq<Ts>, string)>)
    ensures r.Some? ==> |r.value.1| < |s| && r.value.0 != []
    decreases |s|, 2
  {
    match ParsePostfix(s)
    case None => None
    case Some(p) => More([p.0], p.1)
  }

  function More(alts: seq<Ts>, s: string): (r: Option<(seq<Ts>, string)>)
    ensures r.Some? ==> |r.value.1| <= |s| && |r.value.0| >= |alts|
    decreases |s|, 4
  {
    var u := Skip(s);
    if !StartsWith(u, '|') then Some((alts, s))
    else
      match ParseAlts(u[1..])
      case None => None
      case Some(p) => Some((alts + p.0, p.1))
  }

  function Parse(s: string): Option<Ts> {
    match ParseAlts(s)
    case None => None
    case Some(p) => if Skip(p.1) == [] then Some(One(p.0)) else None
  }

  // ------------------------------------------------------------ reading printed text

  /** What may follow a whole printed type. */
  predicate Bounded(rest: string) {
    rest == [] || rest[0] in {')', '>', ','} || " | " <= rest
  }

  /** What may follow a printed element: nothing that would lengthen its last word. */
  predicate WordEnd(rest: string) {
    rest == [] || !(IsWordChar(rest[0]) || rest[0] == '<')
  }

  function Alts(s: string): seq<Ts> {
    match ParseAlts(s)
    case None => []
    case Some(p) => p.0
  }

  /** `s` reads as its own alternatives, whatever bounded text follows. */
  ghost predicate Good(s: string) {
    && Alts(s) != []
    && forall rest :: Bounded(rest) ==> ParseAlts(s + rest) == More(Alts(s), rest)
  }

  /** `s` reads as the one element `t`, which may still get suffixes. */
  ghost predicate Elem(s: string, t: Ts) {
    forall rest :: WordEnd(rest) ==> ParsePostfix(s + rest) == Some(Suffixes(t, rest))
  }

  lemma BoundedEnds(rest: string)
    requires Bounded(rest)
    ensures WordEnd(rest) && forall t :: Suffixes(t, rest) == (t, rest)
  {
    if " | " <= rest {
      assert rest[0] == ' ' && rest[1] == '|';
      assert Skip(rest) == Skip(rest[1..]) == rest[1..];
    } else if rest != [] {
      assert Skip(rest) == rest;
    }
  }

  lemma ElemGood(s: string, t: Ts)
    requires Elem(s, t)
    ensures Good(s) && Alts(s) == [t]
  {
    assert s + "" == s;
    BoundedEnds("");
    assert ParsePostfix(s + "") == Some(Suffixes(t, "")) == Some((t, ""));
    assert ParseAlts(s) == More([t], "") == Some(([t], ""));
    forall rest | Bounded(rest) ensures ParseAlts(s + rest) == More([t], rest) {
      BoundedEnds(rest);
      assert ParsePostfix(s + rest) == Some(Suffixes(t, rest));
    }
  }

  lemma MoreJoins(a: seq<Ts>, b: seq<Ts>, rest: string)
    ensures More(a + b, rest) ==
      match More(b, rest)
      case None => None
      case Some(p) => Some((a + p.0, p.1))
  {
    var u := Skip(rest);
    if StartsWith(u, '|') && ParseAlts(u[1..]).Some? {
      assert a + b + ParseAlts(u[1..]).value.0 == a + (b + ParseAlts(u[1..]).value.0);
    }
  }

  lemma SpaceSkipped(s: string)
    ensures ParseAlts(" " + s) == ParseAlts(s)
  {
    assert (" " + s)[1..] == s;
    assert Skip(" " + s) == Skip(s);
    PrimarySkips(" " + s, s);
  }

  lemma PrimarySkips(a: string, b: string)
    requires Skip(a) == Skip(b)
    ensures ParsePrimary(a) == ParsePrimary(b)
  {
  }

  /** Two printed types with a bar between them read as both. */
  lemma BarGood(a: string, b: string)
    requires Good(a) && Good(b)
    ensures Good(a + " | " + b) && Alts(a + " | " + b) == Alts(a) + Alts(b)
  {
    forall rest | Bounded(rest) || rest == ""
      ensures ParseAlts(a + " | " + b + rest) == More(Alts(a) + Alts(b), rest)
    {
      BarReads(a, b, rest);
    }
    assert a + " | " + b + "" == a + " | " + b;
    assert More(Alts(a) + Alts(b), "") == Some((Alts(a) + Alts(b), ""));
  }

  lemma MoreBar(alts: seq<Ts>, x: string)
    ensures More(alts, " | " + x) ==
      match ParseAlts(x)
      case None => None
      case Some(p) => Some((alts + p.0, p.1))
  {
    SpaceSkipped(x);
    hide ParseAlts;
    var s := " | " + x;
    assert s[1..] == "| " + x && s[1..][1..] == " " + x;
    assert Skip(s) == Skip(s[1..]) == s[1..];
  }

  lemma MoreStops(alts: seq<Ts>, rest: string)
    requires rest == [] || rest[0] in {')', '>', ','}
    ensures More(alts, rest) == Some((alts, rest)) && Skip(rest) == rest
  {
    hide ParseAlts;
  }

  lemma BarReads(a: string, b: string, rest: string)
    requires Good(a) && Good(b) && Bounded(rest)
    ensures ParseAlts(a + " | " + b + rest) == More(Alts(a) + Alts(b), rest)
  {
    hide ParseAlts, More, Alts;
    var tail := " | " + (b + rest);
    assert a + " | " + b + rest == a + tail;
    assert " | " <= tail;
    assert ParseAlts(a + tail) == More(Alts(a), tail);
    MoreBar(Alts(a), b + rest);
    assert ParseAlts(b + rest) == More(Alts(b), rest);
    MoreJoins(Alts(a), Alts(b), rest);
  }

  /** Brackets after an element make it an array. */
  lemma ArrayElem(s: string, t: Ts)
    requires Elem(s, t)
    ensures Elem(s + "[]", Array(t))
  {
    forall rest | WordEnd(rest) ensures ParsePostfix(s + "[]" + rest) == Some(Suffixes(Array(t), rest)) {
      assert s + "[]" + rest == s + ("[]" + rest);
      assert ("[]" + rest)[2..] == rest;
      assert ParsePostfix(s + ("[]" + rest)) == Some(Suffixes(t, "[]" + rest));
    }
  }

  /** Parentheses make any printed type an element. */
  lemma ParenElem(s: string)
    requires Good(s)
    ensures Elem("(" + s + ")", One(Alts(s)))
  {
    forall rest | WordEnd(rest) ensures ParsePostfix("(" + s + ")" + rest) == Some(Suffixes(One(Alts(s)), rest)) {
      var tail := ")" + rest;
      assert "(" + s + ")" + rest == "(" + (s + tail);
      assert ("(" + (s + tail))[1..] == s + tail && tail[1..] == rest;
      assert Skip(tail) == tail;
      assert ParseAlts(s + tail) == More(Alts(s), tail) == Some((Alts(s), tail));
    }
  }

  lemma RecordElem(k: string, v: string)
    requires Good(k) && Good(v)
    ensures Elem("Record<" + k + ", " + v + ">", Record(One(Alts(k)), One(Alts(v))))
  {
    forall rest | WordEnd(rest)
      ensures ParsePostfix("Record<" + k + ", " + v + ">" + rest)
           == Some(Suffixes(Record(One(Alts(k)), One(Alts(v))), rest))
    {
      RecordReads(k, v, rest);
      hide ParseRecord, Good, Alts, One;
      var body := k + ", " + v + ">" + rest;
      assert "Record<" + k + ", " + v + ">" + rest == "Record<" + body;
      RecordStarts(body);
    }
  }

  lemma RecordStarts(body: string)
    ensures ParsePrimary("Record<" + body) == ParseRecord(body)
  {
    var text := "Record<" + body;
    assert text == "Record" + ("<" + body);
    SpanStops("Record", "<" + body);
    assert text[..6] == "Record" && text[6..] == "<" + body && ("<" + body)[1..] == body;
    assert Skip(text) == text;
    hide ParseRecord, ParseAlts, Skip, WordSpan, ScanString;
  }

  lemma RecordReads(k: string, v: string, rest: string)
    requires Good(k) && Good(v)
    ensures ParseRecord(k + ", " + v + ">" + rest) == Some((Record(One(Alts(k)), One(Alts(v))), rest))
  {
    hide ParseAlts, More, Alts, One;
    var last := ">" + rest;
    var mid := ", " + v + last;
    assert k + ", " + v + ">" + rest == k + mid;
    MoreStops(Alts(k), mid);
    MoreStops(Alts(v), last);
    assert ParseAlts(k + mid) == Some((Alts(k), mid));
    assert mid[1..] == " " + (v + last);
    SpaceSkipped(v + last);
    assert ParseAlts(v + last) == Some((Alts(v), last));
    hide Good, Skip;
    assert last[1..] == rest;
  }

  lemma {:induction false} SpanStops(w: string, rest: string)
    requires forall c :: c in w ==> IsWordChar(c)
    requires rest == [] || !IsWordChar(rest[0])
    ensures WordSpan(w + rest) == |w| && (w + rest)[..|w|] == w && (w + rest)[|w|..] == rest
  {
    if w != [] {
      assert (w + rest)[1..] == w[1..] + rest;
      assert w[0] in w;
      SpanStops(w[1..], rest);
    } else {
      assert w + rest == rest;
    }
  }

  lemma WordElem(w: string)
    requires IsName(w) && !IsKeyword(w)
    ensures Elem(w, Word(w))
  {
    forall rest | WordEnd(rest) ensures ParsePostfix(w + rest) == Some(Suffixes(Word(w), rest)) {
      SpanStops(w, rest);
      assert w[0] in w;
      assert Skip(w + rest) == w + rest;
    }
  }

  lemma NumberElem(n: int)
    ensures Elem(SignedDecimal(n), Number(n))
  {
    forall rest | WordEnd(rest)
      ensures ParsePostfix(SignedDecimal(n) + rest) == Some(Suffixes(Number(n), rest))
    {
      NumberReads(if n < 0 then -n else n, n < 0, rest);
    }
  }

  lemma NumberReads(m: nat, negative: bool, rest: string)
    requires WordEnd(rest)
    ensures ParsePrimary((if negative then "-" + Decimal(m) else Decimal(m)) + rest)
         == Some((Number(if negative then -(m as int) else m as int), rest))
  {
    var d := Decimal(m);
    DecimalDigits(m);
    assert d[0] in d;
    hide Decimal, Digits, ParsePrimary;
    if negative {
      NegativeReads(d, m, rest);
    } else {
      PositiveReads(d, m, rest);
    }
  }

  lemma PositiveReads(d: string, m: nat, rest: string)
    requires d != [] && (forall c :: c in d ==> IsDigit(c)) && Digits(d) == Some(m) && WordEnd(rest)
    ensures ParsePrimary(d + rest) == Some((Number(m), rest))
  {
    assert d[0] in d;
    hide Digits;
    SpanStops(d, rest);
    hide WordSpan, ParseAlts, ParseRecord, ScanString;
    assert Skip(d + rest) == d + rest;
  }

  lemma NegativeReads(d: string, m: nat, rest: string)
    requires d != [] && (forall c :: c in d ==> IsDigit(c)) && Digits(d) == Some(m) && WordEnd(rest)
    ensures ParsePrimary("-" + d + rest) == Some((Number(-(m as int)), rest))
  {
    hide Digits;
    SpanStops(d, rest);
    hide WordSpan, ParseAlts, ParseRecord, ScanString;
    var s := "-" + d + rest;
    assert s[1..] == d + rest;
    assert Skip(s) == s;
  }

  lemma EscapeReads(u: Unit, rest: string)
    ensures ScanString(Escape(u) + rest) == Prepend(Some(u), ScanString(rest))
  {
    if u == 34 || u == 92 || u == 8 || u == 9 || u == 10 || u == 12 || u == 13 {
      var c := Escape(u)[1];
      assert Escape(u) + rest == ['\\', c] + rest;
      hide Prepend;
      ShortEscapeReads(c, rest);
    } else if 32 <= u <= 126 {
      var s := Escape(u) + rest;
      hide Prepend;
      assert s[0] == u as char && s[1..] == rest;
    } else {
      LongEscapeReads(u, rest);
      assert Escape(u) == ['\\', 'u'] + HexFour(u);
    }
  }

  lemma ShortEscapeReads(c: char, rest: string)
    requires c != 'u'
    ensures ScanString(['\\', c] + rest) == Prepend(SimpleEscape(c), ScanString(rest))
  {
    hide Prepend, SimpleEscape;
    var s := ['\\', c] + rest;
    assert s[0] == '\\' && s[1] == c && s[2..] == rest;
  }

  function HexFour(u: Unit): string {
    [HexDigit(u / 4096), HexDigit(u / 256 % 16), HexDigit(u / 16 % 16), HexDigit(u % 16)]
  }

  lemma HexUnitReads(u: Unit)
    ensures HexUnit(HexFour(u)) == Some(u)
  {
    var a, b, c, d := u / 4096, u / 256 % 16, u / 16 % 16, u % 16;
    assert u / 16 == 16 * (u / 256) + c;
    assert u / 256 == 16 * a + b;
    assert 4096 * a + 256 * b + 16 * c + d == u;
    HexDigitValue(a);
    HexDigitValue(b);
    HexDigitValue(c);
    HexDigitValue(d);
    hide HexDigit, HexValue;
  }

  lemma LongEscapeReads(u: Unit, rest: string)
    ensures ScanString(['\\', 'u'] + HexFour(u) + rest) == Prepend(Some(u), ScanString(rest))
  {
    HexUnitReads(u);
    assert |HexFour(u)| == 4;
    hide HexFour, HexUnit, Prepend;
    var s := ['\\', 'u'] + HexFour(u) + rest;
    assert s[0] == '\\' && s[1] == 'u' && s[2..6] == HexFour(u) && s[6..] == rest;
  }

  lemma {:induction false} StringReads(units: seq<Unit>, rest: string)
    ensures ScanString(EscapeAll(units) + "\"" + rest) == Some((units, rest))
  {
    var s := EscapeAll(units) + "\"" + rest;
    if units == [] {
      assert s[1..] == rest;
    } else {
      StringReads(units[1..], rest);
      var more := EscapeAll(units[1..]) + "\"" + rest;
      assert s == Escape(units[0]) + more;
      EscapeReads(units[0], more);
      assert [units[0]] + units[1..] == units;
    }
  }

  lemma KeywordsOfFour()
    ensures forall k :: k in KeywordsOfLength(4) ==> |k| == 4 && k[0] != 'n' && (k[0] == 't' ==> k[1] == 'h')
  {
  }

  lemma KeywordsOfFive()
    ensures forall k :: k in KeywordsOfLength(5) ==> |k| == 5 && k[0] != 'f'
  {
  }

  lemma KeywordsOfSix()
    ensures forall k :: k in KeywordsOfLength(6) ==>
      |k| == 6 && k[0] != 'n' && (k[0] == 's' ==> k[1] == 'w' || k[2] == 'a')
  {
  }

  lemma KeywordsOfSeven()
    ensures forall k :: k in KeywordsOfLength(7) ==> |k| == 7 && k[0] != 'b' && k[0] != 'u'
  {
  }

  /** No word the exporter prints of its own is a keyword. */
  lemma OwnWordsAreTypes(w: string)
    requires w in {"null", "true", "false", "string", "number", "boolean", "unknown"}
    ensures !IsKeyword(w) && IsName(w)
  {
    hide KeywordsOfLength;
    KeywordsOfFour();
    KeywordsOfFive();
    KeywordsOfSix();
    KeywordsOfSeven();
  }

  lemma LitElem(l: Lit)
    ensures Elem(Dumps(l), LeafOf(l))
  {
    match l
    case LStr(units) =>
      forall rest | WordEnd(rest) ensures ParsePostfix(Dumps(l) + rest) == Some(Suffixes(Quoted(units), rest)) {
        StringReads(units, rest);
        assert Dumps(l) + rest == "\"" + (EscapeAll(units) + "\"" + rest);
        assert ("\"" + (EscapeAll(units) + "\"" + rest))[1..] == EscapeAll(units) + "\"" + rest;
      }
    case LInt(n) => NumberElem(n);
    case LBool(b) =>
      OwnWordsAreTypes(if b then "true" else "false");
      WordElem(if b then "true" else "false");
    case LNone =>
      OwnWordsAreTypes("null");
      WordElem("null");
  }
}
