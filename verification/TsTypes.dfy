/** The annotations scripts/export_ui_contract.py prints, the TypeScript it prints them
    as, and the JSON values each of the two stands for. */
module TsTypes {
  import opened Common
  import opened Text

  /** One UTF-16 code unit, as JavaScript strings and JSON `\u` escapes count them. */
  type Unit = n: nat | n < 0x10000

  datatype Kind = Str | Int | Float | Bool | DateTime | Secret

  datatype Lit = LStr(units: seq<Unit>) | LInt(n: int) | LBool(b: bool) | LNone

  /** A resolved annotation. `Ellipsis` only occurs inside a tuple; `Unmapped` is
      anything `ts_type` has no branch for. */
  datatype Ann =
    | NoneType
    | Scalar(kind: Kind)
    | Named(name: string)
    | Annotated(inner: Ann)
    | UnionOf(args: seq<Ann>)
    | ListOf(elem: Ann)
    | TupleOf(args: seq<Ann>)
    | MapOf(key: Ann, value: Ann)
    | LiteralOf(values: seq<Lit>)
    | Ellipsis
    | Unmapped

  // ------------------------------------------------------------ printing

  /** `members` of the array branch: what is left without `Ellipsis`. */
  function Members(args: seq<Ann>): (r: seq<Ann>)
    ensures forall x :: x in r ==> x in args
    ensures r != [] ==> r[0] in args
  {
    if args == [] then []
    else if args[0].Ellipsis? then Members(args[1..])
    else [args[0]] + Members(args[1..])
  }

  /** `ts_type` raises `UnmappedTypeError` exactly when this is false. Of a tuple it
      only looks at the first member. */
  predicate Supported(a: Ann) {
    match a
    case UnionOf(args) => forall x :: x in args ==> Supported(x)
    case Annotated(x) => Supported(x)
    case ListOf(x) => Supported(x)
    case TupleOf(args) => Members(args) == [] || Supported(Members(args)[0])
    case MapOf(k, v) => Supported(k) && Supported(v)
    case Ellipsis => false
    case Unmapped => false
    case _ => true
  }

  /** Argument `i` of a tuple is the first that is no ellipsis. */
  predicate IsFirst(args: seq<Ann>, i: nat) {
    i < |args| && !args[i].Ellipsis? && forall k :: 0 <= k < i ==> args[k].Ellipsis?
  }

  lemma {:induction false} FirstMember(args: seq<Ann>, i: nat)
    requires IsFirst(args, i)
    ensures Members(args) != [] && Members(args)[0] == args[i]
  {
    if i > 0 {
      assert args[0].Ellipsis?;
      FirstMember(args[1..], i - 1);
    }
  }

  lemma {:induction false} FindFirst(args: seq<Ann>) returns (i: nat)
    requires Members(args) != []
    ensures IsFirst(args, i)
  {
    if args[0].Ellipsis? {
      var k := FindFirst(args[1..]);
      i := k + 1;
    } else {
      i := 0;
    }
  }

  /** The annotations that are visited on the way to the text: itself, the arguments, of a
      tuple the first member only. */
  function PrintedParts(a: Ann): set<Ann>
    decreases a
  {
    {a} +
    match a
    case Annotated(x) => PrintedParts(x)
    case UnionOf(args) => set i, p | 0 <= i < |args| && p in PrintedParts(args[i]) :: p
    case ListOf(x) => PrintedParts(x)
    case TupleOf(args) => set i, p | 0 <= i < |args| && IsFirst(args, i) && p in PrintedParts(args[i]) :: p
    case MapOf(k, v) => PrintedParts(k) + PrintedParts(v)
    case _ => {}
  }

  /** Nothing visited is without a mapping. */
  predicate Printable(a: Ann) {
    Unmapped !in PrintedParts(a) && Ellipsis !in PrintedParts(a)
  }

  /** An annotation prints if and only if no part that is visited lacks a mapping. */
  lemma {:induction false} SupportedExactly(a: Ann)
    ensures Supported(a) <==> Printable(a)
    decreases a
  {
    match a
    case Annotated(x) => SupportedExactly(x);
    case ListOf(x) => SupportedExactly(x);
    case MapOf(k, v) =>
      SupportedExactly(k);
      SupportedExactly(v);
    case UnionOf(args) =>
      forall i | 0 <= i < |args| ensures Supported(args[i]) <==> Printable(args[i]) {
        SupportedExactly(args[i]);
      }
    case TupleOf(args) =>
      if Members(args) != [] {
        var i := FindFirst(args);
        FirstMember(args, i);
        SupportedExactly(args[i]);
        assert forall k :: 0 <= k < |args| && IsFirst(args, k) ==> k == i;
      } else {
        forall k | 0 <= k < |args| ensures !IsFirst(args, k) {
          if IsFirst(args, k) {
            FirstMember(args, k);
          }
        }
      }
    case _ =>
  }

  /** `list(dict.fromkeys(texts))`: the first occurrence of each text, in order. */
  function Unique(texts: seq<string>): (r: seq<string>)
    ensures forall t :: t in r <==> t in texts
    ensures Distinct(r)
    ensures texts != [] ==> r != []
  {
    if texts == [] then []
    else
      var before := texts[..|texts| - 1];
      var last := texts[|texts| - 1];
      assert texts == before + [last];
      if last in before then Unique(before) else Unique(before) + [last]
  }

  function JoinBars(texts: seq<string>): string {
    if texts == [] then "" else if |texts| == 1 then texts[0] else texts[0] + " | " + JoinBars(texts[1..])
  }

  /** `json.dumps` of one character: ASCII output, lower-case hexadecimal escapes. */
  function Escape(u: Unit): string {
    if u == 34 then "\\\""
    else if u == 92 then "\\\\"
    else if u == 8 then "\\b"
    else if u == 9 then "\\t"
    else if u == 10 then "\\n"
    else if u == 12 then "\\f"
    else if u == 13 then "\\r"
    else if 32 <= u <= 126 then [u as char]
    else ['\\', 'u', HexDigit(u / 4096), HexDigit(u / 256 % 16), HexDigit(u / 16 % 16), HexDigit(u % 16)]
  }

  function EscapeAll(units: seq<Unit>): string {
    if units == [] then "" else Escape(units[0]) + EscapeAll(units[1..])
  }

  function SignedDecimal(n: int): string {
    if n < 0 then "-" + Decimal(-n) else Decimal(n)
  }

  /** `json.dumps` of a literal argument. */
  function Dumps(l: Lit): string {
    match l
    case LStr(units) => "\"" + EscapeAll(units) + "\""
    case LInt(n) => SignedDecimal(n)
    case LBool(b) => if b then "true" else "false"
    case LNone => "null"
  }

  function ScalarText(k: Kind): string {
    match k
    case Int => "number"
    case Float => "number"
    case Bool => "boolean"
    case _ => "string"
  }

  function AsArray(inner: string): string {
    if '|' in inner then "(" + inner + ")[]" else inner + "[]"
  }

  /** What `ts_type` returns when it does not raise. */
  function Render(a: Ann): string
    requires Supported(a)
    decreases a
  {
    match a
    case NoneType => "null"
    case Scalar(k) => ScalarText(k)
    case Named(n) => n
    case Annotated(x) => Render(x)
    case UnionOf(args) => JoinBars(Unique(RenderAll(args)))
    case ListOf(x) => AsArray(Render(x))
    case TupleOf(args) => if Members(args) == [] then "unknown[]" else AsArray(Render(Members(args)[0]))
    case MapOf(k, v) => "Record<" + Render(k) + ", " + Render(v) + ">"
    case LiteralOf(values) => JoinBars(Unique(DumpAll(values)))
  }

  function RenderAll(args: seq<Ann>): (texts: seq<string>)
    requires forall x :: x in args ==> Supported(x)
    ensures |texts| == |args| && forall i :: 0 <= i < |args| ==> texts[i] == Render(args[i])
    decreases args
  {
    if args == [] then [] else [Render(args[0])] + RenderAll(args[1..])
  }

  function DumpAll(values: seq<Lit>): (texts: seq<string>)
    ensures |texts| == |values| && forall i :: 0 <= i < |values| ==> texts[i] == Dumps(values[i])
  {
    seq(|values|, i requires 0 <= i < |values| => Dumps(values[i]))
  }

  /** Where a text is first found. */
  function FirstAt(texts: seq<string>, t: string): (i: nat)
    requires t in texts
    ensures i < |texts| && texts[i] == t && forall k :: 0 <= k < i ==> texts[k] != t
  {
    if texts[0] == t then 0 else 1 + FirstAt(texts[1..], t)
  }

  lemma FirstAtIs(texts: seq<string>, t: string, i: nat)
    requires i < |texts| && texts[i] == t && forall k :: 0 <= k < i ==> texts[k] != t
    ensures FirstAt(texts, t) == i
  {
  }

  /** De-duplication keeps the order of first occurrence. */
  lemma {:induction false} UniqueKeepsOrder(texts: seq<string>, k: nat, l: nat)
    requires k < l < |Unique(texts)|
    ensures FirstAt(texts, Unique(texts)[k]) < FirstAt(texts, Unique(texts)[l])
  {
    var n := |texts| - 1;
    var before, last := texts[..n], texts[n];
    assert texts == before + [last];
    var u := Unique(before);
    assert Unique(texts)[k] == u[k] && u[k] in before;
    FirstAtIs(texts, u[k], FirstAt(before, u[k]));
    if l < |u| {
      UniqueKeepsOrder(before, k, l);
      assert u[l] in before;
      FirstAtIs(texts, u[l], FirstAt(before, u[l]));
    } else {
      FirstAtIs(texts, last, n);
    }
  }

  /** `texts` is `all` without repeats, in the order of first occurrence. */
  ghost predicate OnceEach(all: seq<string>, texts: seq<string>) {
    && Distinct(texts) && (forall t :: t in texts <==> t in all)
    && forall k, l :: 0 <= k < l < |texts| ==>
         texts[k] in all && texts[l] in all && FirstAt(all, texts[k]) < FirstAt(all, texts[l])
  }

  lemma UniqueIsOnceEach(all: seq<string>)
    ensures OnceEach(all, Unique(all))
  {
    var texts := Unique(all);
    forall k, l | 0 <= k < l < |texts|
      ensures texts[k] in all && texts[l] in all && FirstAt(all, texts[k]) < FirstAt(all, texts[l])
    {
      UniqueKeepsOrder(all, k, l);
    }
  }

  /** A union prints what its arguments print as, each text once, in the order of first
      occurrence, with bars between; and so does a literal. */
  lemma UnionPrints(a: Ann)
    requires Supported(a) && (a.UnionOf? || a.LiteralOf?)
    ensures var all := if a.UnionOf? then RenderAll(a.args) else DumpAll(a.values);
      exists texts :: OnceEach(all, texts) && Render(a) == JoinBars(texts)
  {
    var all := if a.UnionOf? then RenderAll(a.args) else DumpAll(a.values);
    UniqueIsOnceEach(all);
    hide OnceEach, Unique, JoinBars;
    assert Render(a) == JoinBars(Unique(all));
  }

  lemma TwoBars(x: string, y: string)
    ensures JoinBars([x, y]) == x + " | " + y
  {
    assert [x, y][1..] == [y];
    assert JoinBars([y]) == y;
  }

  lemma TwoUnique(x: string, y: string)
    requires x != y
    ensures Unique([x, y, x]) == [x, y]
  {
    assert [x, y, x][..2] == [x, y] && [x, y][..1] == [x] && [x][..0] == [];
    assert Unique([x]) == [x] && Unique([x, y]) == [x, y];
  }

  /** To the letter: `list[int | None | float]` and `dict[str, int]`. */
  lemma PrintsToTheLetter()
    ensures var u := UnionOf([Scalar(Int), NoneType, Scalar(Float)]);
      Supported(ListOf(u)) && Render(ListOf(u)) == "(number | null)[]"
    ensures Render(MapOf(Scalar(Str), Scalar(Int))) == "Record<string, number>"
  {
    UnionToTheLetter();
    ArrayToTheLetter();
    hide AsArray;
    assert "Record<" + "string" + ", " + "number" + ">" == "Record<string, number>";
  }

  lemma ArrayToTheLetter()
    ensures AsArray("number | null") == "(number | null)[]"
  {
    assert "number | null"[7] == '|';
    assert "(" + "number | null" + ")[]" == "(number | null)[]";
  }

  lemma UnionToTheLetter()
    ensures var u := UnionOf([Scalar(Int), NoneType, Scalar(Float)]); Supported(u) && Render(u) == "number | null"
  {
    assert RenderAll([Scalar(Int), NoneType, Scalar(Float)]) == ["number", "null", "number"];
    assert |"number"| != |"null"|;
    TwoUnique("number", "null");
    TwoBars("number", "null");
    hide Unique, JoinBars, RenderAll;
    assert "number" + " | " + "null" == "number | null";
  }

  // ------------------------------------------------------------ what typing can build

  predicate IsWordChar(c: char) {
    'a' <= c <= 'z' || 'A' <= c <= 'Z' || '0' <= c <= '9' || c == '_'
  }

  predicate IsDigit(c: char) {
    '0' <= c <= '9'
  }

  predicate IsName(s: string) {
    s != [] && !IsDigit(s[0]) && forall c :: c in s ==> IsWordChar(c)
  }

  /** Unions and literals have arguments, and class names are identifiers. */
  predicate Formed(a: Ann) {
    match a
    case Named(n) => IsName(n)
    case UnionOf(args) => args != [] && forall x :: x in args ==> Formed(x)
    case TupleOf(args) => forall x :: x in args ==> Formed(x)
    case Annotated(x) => Formed(x)
    case ListOf(x) => Formed(x)
    case MapOf(k, v) => Formed(k) && Formed(v)
    case LiteralOf(values) => values != []
    case _ => true
  }

  /** Every class named anywhere in an annotation, printed or not. */
  function Names(a: Ann): set<string>
    decreases a
  {
    match a
    case Named(n) => {n}
    case Annotated(x) => Names(x)
    case UnionOf(args) => set i, n | 0 <= i < |args| && n in Names(args[i]) :: n
    case ListOf(x) => Names(x)
    case TupleOf(args) => set i, n | 0 <= i < |args| && n in Names(args[i]) :: n
    case MapOf(k, v) => Names(k) + Names(v)
    case _ => {}
  }

  // ------------------------------------------------------------ meanings

  datatype Json =
    | JNull
    | JBool(b: bool)
    | JNum(x: real)
    | JStr(units: seq<Unit>)
    | JArr(items: seq<Json>)
    | JObj(entries: map<seq<Unit>, Json>)

  /** `meaning`: the values a class or interface of a given name stands for. `spells`:
      which object key a number is written as. */
  datatype Env = Env(meaning: (string, Json) -> bool, spells: (real, seq<Unit>) -> bool)

  datatype Ts =
    | Word(word: string)
    | Quoted(units: seq<Unit>)
    | Number(n: int)
    | Array(elem: Ts)
    | Record(key: Ts, value: Ts)
    | OneOf(alts: seq<Ts>)

  function LeafOf(l: Lit): Ts {
    match l
    case LStr(units) => Quoted(units)
    case LInt(n) => Number(n)
    case LBool(b) => Word(if b then "true" else "false")
    case LNone => Word("null")
  }

  /** Types TypeScript itself defines under a word. */
  const PREDEFINED := {"null", "string", "number", "boolean", "true", "false", "unknown", "any", "never", "object",
                       "undefined", "void", "symbol", "bigint"}

  /** Words that cannot stand as a type at all: reserved words of the language and the
      operators of its types. */
  function KeywordsOfLength(n: nat): set<string> {
    match n
    case 2 => {"do", "if", "in"}
    case 3 => {"for", "new", "try", "var", "let"}
    case 4 => {"case", "else", "enum", "this", "with"}
    case 5 => {"break", "catch", "class", "const", "super", "throw", "while", "yield", "await", "keyof", "infer"}
    case 6 => {"delete", "export", "import", "return", "switch", "typeof", "public", "static", "unique"}
    case 7 => {"default", "extends", "finally", "package", "private"}
    case 8 => {"continue", "debugger", "function", "readonly"}
    case 9 => {"interface", "protected"}
    case 10 => {"instanceof", "implements"}
    case _ => {}
  }

  predicate IsKeyword(w: string) {
    w in KeywordsOfLength(|w|)
  }

  predicate IsReserved(w: string) {
    w in PREDEFINED || IsKeyword(w)
  }

  /** No JSON value is `never`, undefined, a symbol or a big integer. */
  predicate WordAccepts(env: Env, w: string, j: Json) {
    if w == "null" then j.JNull?
    else if w == "string" then j.JStr?
    else if w == "number" then j.JNum?
    else if w == "boolean" then j.JBool?
    else if w == "true" then j == JBool(true)
    else if w == "false" then j == JBool(false)
    else if w == "unknown" || w == "any" then true
    else if w == "object" then j.JArr? || j.JObj?
    else if w in PREDEFINED then false
    else env.meaning(w, j)
  }

  /** What one alternative of a `Record`'s key type is: all strings, all numbers, the
      values of a class, one string, one number, or no key type at all. */
  datatype Key = AnyText | AnyNumber | OfClass(name: string) | TextKey(units: seq<Unit>) | NumberKey(n: int) | NoKey

  function KeyOf(t: Ts): Key {
    match t
    case Word(w) =>
      if w == "string" then AnyText
      else if w == "number" then AnyNumber
      else if w in PREDEFINED then NoKey
      else OfClass(w)
    case Quoted(units) => TextKey(units)
    case Number(n) => NumberKey(n)
    case _ => NoKey
  }

  function Keys(key: Ts): set<Key> {
    if key.OneOf? then set t | t in key.alts :: KeyOf(t) else {KeyOf(key)}
  }

  /** TypeScript wants an entry under every key a closed key type lists: a string or
      number that some alternative names, unless another takes all of its sort. */
  ghost predicate Required(env: Env, keys: set<Key>, key: seq<Unit>) {
    || (AnyText !in keys
        && (TextKey(key) in keys || exists w :: OfClass(w) in keys && env.meaning(w, JStr(key))))
    || (AnyNumber !in keys && exists x: real :: env.spells(x, key) && NamesNumber(env, keys, x))
  }

  ghost predicate NamesNumber(env: Env, keys: set<Key>, x: real) {
    (exists n :: NumberKey(n) in keys && n as real == x) || exists w :: OfClass(w) in keys && env.meaning(w, JNum(x))
  }

  /** The key type is one, and every key it requires is there. */
  ghost predicate Complete(env: Env, keys: set<Key>, entries: map<seq<Unit>, Json>) {
    NoKey !in keys && forall key :: Required(env, keys, key) ==> key in entries
  }

  /** The values TypeScript gives a type. An object's keys must be of its key type, as
      strings or as numbers spelled as strings, and complete. */
  ghost predicate Accepts(env: Env, t: Ts, j: Json) {
    match t
    case Word(w) => WordAccepts(env, w, j)
    case Quoted(units) => j == JStr(units)
    case Number(n) => j == JNum(n as real)
    case Array(e) => j.JArr? && forall i :: 0 <= i < |j.items| ==> Accepts(env, e, j.items[i])
    case Record(k, v) =>
      && j.JObj? && Complete(env, Keys(k), j.entries)
      && forall key :: key in j.entries ==>
           && (Accepts(env, k, JStr(key)) || exists x: real :: env.spells(x, key) && Accepts(env, k, JNum(x)))
           && Accepts(env, v, j.entries[key])
    case OneOf(alts) => exists i :: 0 <= i < |alts| && Accepts(env, alts[i], j)
  }

  ghost predicate AnyAccepts(env: Env, alts: seq<Ts>, j: Json) {
    exists i :: 0 <= i < |alts| && Accepts(env, alts[i], j)
  }

  function JsonOf(l: Lit): Json {
    match l
    case LStr(units) => JStr(units)
    case LInt(n) => JNum(n as real)
    case LBool(b) => JBool(b)
    case LNone => JNull
  }

  predicate KindHolds(k: Kind, j: Json) {
    match k
    case Int => j.JNum?
    case Float => j.JNum?
    case Bool => j.JBool?
    case _ => j.JStr?
  }

  /** `tuple[X, ...]`, the only tuple of any length. */
  predicate Variadic(args: seq<Ann>) {
    |args| == 2 && args[1].Ellipsis? && !args[0].Ellipsis?
  }

  /** The values Pydantic writes for an annotation, as far as JSON types go: a number is a
      number and a datetime is a string. A dict holds any of its keys, not all. */
  ghost predicate Denotes(env: Env, a: Ann, j: Json) {
    match a
    case NoneType => j.JNull?
    case Scalar(k) => KindHolds(k, j)
    case Named(n) => env.meaning(n, j)
    case Annotated(x) => Denotes(env, x, j)
    case UnionOf(args) => exists i :: 0 <= i < |args| && Denotes(env, args[i], j)
    case ListOf(x) => j.JArr? && forall i :: 0 <= i < |j.items| ==> Denotes(env, x, j.items[i])
    case TupleOf(args) =>
      j.JArr? &&
      if Variadic(args) then forall i :: 0 <= i < |j.items| ==> Denotes(env, args[0], j.items[i])
      else |j.items| == |args| && forall i :: 0 <= i < |args| ==> Denotes(env, args[i], j.items[i])
    case MapOf(k, v) =>
      j.JObj? && forall key :: key in j.entries ==>
        && (Denotes(env, k, JStr(key)) || exists x: real :: env.spells(x, key) && Denotes(env, k, JNum(x)))
        && Denotes(env, v, j.entries[key])
    case LiteralOf(values) => exists i :: 0 <= i < |values| && j == JsonOf(values[i])
    case Ellipsis => false
    case Unmapped => false
  }

  /** The alternatives of an annotation used as a key. */
  function KeysOf(a: Ann): set<Key>
    decreases a
  {
    match a
    case Scalar(k) => {KeyOf(Word(ScalarText(k)))}
    case Named(n) => {KeyOf(Word(n))}
    case Annotated(x) => KeysOf(x)
    case UnionOf(args) => set i, k | 0 <= i < |args| && k in KeysOf(args[i]) :: k
    case LiteralOf(values) => set i | 0 <= i < |values| :: KeyOf(LeafOf(values[i]))
    case _ => {NoKey}
  }

  /** A key type that requires no key, whatever its classes stand for. */
  ghost predicate OpenKeys(keys: set<Key>) {
    && NoKey !in keys
    && (forall units :: TextKey(units) in keys ==> AnyText in keys)
    && (forall n :: NumberKey(n) in keys ==> AnyNumber in keys)
    && (forall w :: OfClass(w) in keys ==> AnyText in keys && AnyNumber in keys)
  }

  /** What printing keeps: no class is named like a word of TypeScript, tuples have any
      length, and no mapping lists its keys. */
  ghost predicate Faithful(a: Ann) {
    match a
    case Named(n) => !IsReserved(n)
    case Annotated(x) => Faithful(x)
    case UnionOf(args) => forall x :: x in args ==> Faithful(x)
    case ListOf(x) => Faithful(x)
    case TupleOf(args) => Variadic(args) && Faithful(args[0])
    case MapOf(k, v) => Faithful(k) && Faithful(v) && OpenKeys(KeysOf(k))
    case _ => true
  }
}
