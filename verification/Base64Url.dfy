/** The unpadded base64url codec of src/core/auth.py (RFC 4648 section 5). */
module Base64Url {
  import opened Common
  import opened Text

  function Symbol(v: nat): char
    requires v < 64
  {
    if v < 26 then 'A' + v as char
    else if v < 52 then 'a' + (v - 26) as char
    else if v < 62 then '0' + (v - 52) as char
    else if v == 62 then '-'
    else '_'
  }

  /** The decoder maps `-` and `_` onto `+` and `/` first, so it takes both spellings. */
  function Value(c: char): (v: Option<nat>)
    ensures v.Some? ==> v.value < 64
  {
    if 'A' <= c <= 'Z' then Some((c - 'A') as nat)
    else if 'a' <= c <= 'z' then Some((c - 'a') as nat + 26)
    else if '0' <= c <= '9' then Some((c - '0') as nat + 52)
    else if c == '-' || c == '+' then Some(62)
    else if c == '_' || c == '/' then Some(63)
    else None
  }

  /** `urlsafe_b64encode`: padded to a multiple of four. */
  function EncodePadded(b: Bytes): string {
    if b == [] then ""
    else if |b| == 1 then [Symbol(b[0] / 4), Symbol(b[0] % 4 * 16), '=', '=']
    else if |b| == 2 then
      [Symbol(b[0] / 4), Symbol(b[0] % 4 * 16 + b[1] / 16), Symbol(b[1] % 16 * 4), '=']
    else Quad(b[0], b[1], b[2]) + EncodePadded(b[3..])
  }

  function Quad(x: Byte, y: Byte, z: Byte): string {
    [Symbol(x / 4), Symbol(x % 4 * 16 + y / 16), Symbol(y % 16 * 4 + z / 64), Symbol(z % 64)]
  }

  function StripPadding(s: string): string {
    if s != [] && s[|s| - 1] == '=' then StripPadding(s[..|s| - 1]) else s
  }

  /** `_b64url_encode`. */
  function Encode(b: Bytes): string {
    StripPadding(EncodePadded(b))
  }

  /** `"=" * (-len(value) % 4)`. */
  function Padding(n: nat): string {
    match n % 4
    case 0 => ""
    case 1 => "==="
    case 2 => "=="
    case _ => "="
  }

  /** Python's lenient base64 decoder: characters outside the alphabet are skipped, a
      completed pad sequence ends the input, and a partial group at the end is an error.
      `quad` counts the symbols of the current group and `left` keeps their unused bits. */
  function Scan(s: string, quad: nat, left: nat, pads: nat): Option<Bytes>
    requires quad < 4
  {
    if s == [] then (if quad == 0 then Some([]) else None)
    else if s[0] == '=' then
      if quad >= 2 && quad + pads + 1 >= 4 then Some([])
      else Scan(s[1..], quad, left, if quad >= 2 then pads + 1 else pads)
    else
      match Value(s[0])
      case None => Scan(s[1..], quad, left, pads)
      case Some(v) =>
        if quad == 0 then Scan(s[1..], 1, v, 0)
        else if quad == 1 then Emit(left * 4 + v / 16, Scan(s[1..], 2, v % 16, 0))
        else if quad == 2 then Emit(left * 16 + v / 4, Scan(s[1..], 3, v % 4, 0))
        else Emit(left * 64 + v, Scan(s[1..], 0, 0, 0))
  }

  function Emit(byte: nat, rest: Option<Bytes>): Option<Bytes> {
    match rest
    case None => None
    case Some(b) => Some([(byte % 256) as Byte] + b)
  }

  predicate IsAscii(s: string) {
    forall c :: c in s ==> c < 128 as char
  }

  /** `_b64url_decode`; `None` is any exception it raises. */
  function Decode(value: string): Option<Bytes> {
    if !IsAscii(value) then None else Scan(value + Padding(|value|), 0, 0, 0)
  }

  // ------------------------------------------------------------ round trip

  lemma SymbolValue(v: nat)
    requires v < 64
    ensures Value(Symbol(v)) == Some(v) && Symbol(v) != '=' && Symbol(v) != '.' && Symbol(v) < 128 as char
  {
  }

  /** One alphabet symbol at each of the four places of a group. */
  lemma ScanSymbol(v: nat, s: string, quad: nat, left: nat, pads: nat)
    requires v < 64 && quad < 4
    ensures Scan([Symbol(v)] + s, quad, left, pads) ==
      if quad == 0 then Scan(s, 1, v, 0)
      else if quad == 1 then Emit(left * 4 + v / 16, Scan(s, 2, v % 16, 0))
      else if quad == 2 then Emit(left * 16 + v / 4, Scan(s, 3, v % 4, 0))
      else Emit(left * 64 + v, Scan(s, 0, 0, 0))
  {
    SymbolValue(v);
    var t := [Symbol(v)] + s;
    assert t[0] == Symbol(v) && t[1..] == s;
  }

  lemma EmitByte(x: Byte, rest: Bytes)
    ensures Emit(x, Some(rest)) == Some([x] + rest)
  {
    assert x % 256 == x;
  }

  lemma QuadDecodes(x: Byte, y: Byte, z: Byte, rest: string)
    ensures Scan(Quad(x, y, z) + rest, 0, 0, 0) == Emit(x, Emit(y, Emit(z, Scan(rest, 0, 0, 0))))
  {
    hide Scan, Symbol;
    var a, b, c, d := x / 4, x % 4 * 16 + y / 16, y % 16 * 4 + z / 64, z % 64;
    ScanSymbol(a, [Symbol(b), Symbol(c), Symbol(d)] + rest, 0, 0, 0);
    ScanSymbol(b, [Symbol(c), Symbol(d)] + rest, 1, a, 0);
    ScanSymbol(c, [Symbol(d)] + rest, 2, b % 16, 0);
    ScanSymbol(d, rest, 3, c % 4, 0);
    assert Quad(x, y, z) + rest == [Symbol(a)] + ([Symbol(b), Symbol(c), Symbol(d)] + rest);
    assert [Symbol(b), Symbol(c), Symbol(d)] + rest == [Symbol(b)] + ([Symbol(c), Symbol(d)] + rest);
    assert [Symbol(c), Symbol(d)] + rest == [Symbol(c)] + ([Symbol(d)] + rest);
    assert a * 4 + b / 16 == x && b % 16 * 16 + c / 4 == y && c % 4 * 64 + d == z;
  }

  lemma TailDecodes1(x: Byte)
    ensures Scan(EncodePadded([x]), 0, 0, 0) == Some([x])
  {
    var a, b := x / 4, x % 4 * 16;
    ScanSymbol(a, [Symbol(b)] + "==", 0, 0, 0);
    ScanSymbol(b, "==", 1, a, 0);
    assert EncodePadded([x]) == [Symbol(a)] + ([Symbol(b)] + "==");
    assert "=="[1..] == "=" && Scan("==", 2, b % 16, 0) == Scan("=", 2, b % 16, 1) == Some([]);
    assert a * 4 + b / 16 == x;
    EmitByte(x, []);
    assert [x] + [] == [x];
  }

  lemma TailDecodes2(x: Byte, y: Byte)
    ensures Scan(EncodePadded([x, y]), 0, 0, 0) == Some([x, y])
  {
    var a, b, c := x / 4, x % 4 * 16 + y / 16, y % 16 * 4;
    ScanSymbol(a, [Symbol(b), Symbol(c)] + "=", 0, 0, 0);
    ScanSymbol(b, [Symbol(c)] + "=", 1, a, 0);
    ScanSymbol(c, "=", 2, b % 16, 0);
    assert EncodePadded([x, y]) == [Symbol(a)] + ([Symbol(b), Symbol(c)] + "=");
    assert [Symbol(b), Symbol(c)] + "=" == [Symbol(b)] + ([Symbol(c)] + "=");
    assert Scan("=", 3, c % 4, 0) == Some([]);
    assert a * 4 + b / 16 == x && b % 16 * 16 + c / 4 == y;
    EmitByte(y, []);
    assert [y] + [] == [y];
    EmitByte(x, [y]);
    assert [x] + [y] == [x, y];
  }

  lemma {:induction false} PaddedRoundTrip(b: Bytes)
    ensures Scan(EncodePadded(b), 0, 0, 0) == Some(b)
  {
    hide Scan, Quad;
    if b == [] {
      EmptyDecodes();
    } else if |b| == 1 {
      assert b == [b[0]];
      TailDecodes1(b[0]);
    } else if |b| == 2 {
      assert b == [b[0], b[1]];
      TailDecodes2(b[0], b[1]);
    } else {
      QuadDecodes(b[0], b[1], b[2], EncodePadded(b[3..]));
      PaddedRoundTrip(b[3..]);
      EmitByte(b[2], b[3..]);
      EmitByte(b[1], [b[2]] + b[3..]);
      EmitByte(b[0], [b[1]] + ([b[2]] + b[3..]));
      assert b == [b[0]] + ([b[1]] + ([b[2]] + b[3..]));
    }
  }

  lemma EmptyDecodes()
    ensures Scan("", 0, 0, 0) == Some([])
  {
  }

  predicate Plain(c: char) {
    Value(c).Some? && c != '=' && c != '.' && c < 128 as char
  }

  lemma SymbolPlain(v: nat)
    requires v < 64
    ensures Plain(Symbol(v))
  {
  }

  /** Stripping the padding loses nothing: the length says how much there was. */
  lemma {:induction false} PaddingRestored(b: Bytes)
    ensures Encode(b) + Padding(|Encode(b)|) == EncodePadded(b)
    ensures forall c :: c in Encode(b) ==> Plain(c)
  {
    hide Symbol, Quad, Plain;
    if b == [] {
    } else if |b| == 1 {
      var s := [Symbol(b[0] / 4), Symbol(b[0] % 4 * 16)];
      SymbolPlain(b[0] / 4);
      SymbolPlain(b[0] % 4 * 16);
      StripsTo(s, "==");
      assert EncodePadded(b) == s + "==";
    } else if |b| == 2 {
      var s := [Symbol(b[0] / 4), Symbol(b[0] % 4 * 16 + b[1] / 16), Symbol(b[1] % 16 * 4)];
      SymbolPlain(b[0] / 4);
      SymbolPlain(b[0] % 4 * 16 + b[1] / 16);
      SymbolPlain(b[1] % 16 * 4);
      StripsTo(s, "=");
      assert EncodePadded(b) == s + "=";
    } else {
      var q := Quad(b[0], b[1], b[2]);
      QuadPlain(b[0], b[1], b[2]);
      PaddingRestored(b[3..]);
      PlainIsNoPad(q);
      StripAfter(q, EncodePadded(b[3..]));
      AfterQuad(q, Encode(b[3..]));
      assert Encode(b) == q + Encode(b[3..]);
      assert EncodePadded(b) == q + EncodePadded(b[3..]);
    }
  }

  lemma AfterQuad(q: string, e: string)
    requires |q| == 4
    ensures (q + e) + Padding(|q + e|) == q + (e + Padding(|e|))
  {
    assert |q + e| % 4 == |e| % 4;
  }

  lemma PlainIsNoPad(s: string)
    requires s != [] && forall c :: c in s ==> Plain(c)
    ensures s[|s| - 1] != '='
  {
    assert Plain(s[|s| - 1]);
  }

  lemma StripsTo(s: string, pad: string)
    requires s != [] && (forall c :: c in s ==> Plain(c)) && (pad == "==" || pad == "=")
    ensures StripPadding(s + pad) == s
  {
    PlainIsNoPad(s);
    StripAfter(s, pad);
    assert pad == "==" ==> pad[..1] == "=";
    assert "="[..0] == "";
    assert StripPadding("=") == "" && StripPadding(pad) == "";
    assert s + "" == s;
  }

  lemma QuadPlain(x: Byte, y: Byte, z: Byte)
    ensures |Quad(x, y, z)| == 4 && forall c :: c in Quad(x, y, z) ==> Plain(c)
  {
    hide Symbol;
    SymbolPlain(x / 4);
    SymbolPlain(x % 4 * 16 + y / 16);
    SymbolPlain(y % 16 * 4 + z / 64);
    SymbolPlain(z % 64);
  }

  lemma {:induction false} StripAfter(q: string, s: string)
    requires q != [] && q[|q| - 1] != '='
    ensures StripPadding(q + s) == q + StripPadding(s)
  {
    if s == [] {
      assert q + s == q;
    } else {
      assert (q + s)[..|q + s| - 1] == q + s[..|s| - 1];
      if s[|s| - 1] == '=' {
        StripAfter(q, s[..|s| - 1]);
      }
    }
  }

  /** Decoding undoes encoding on every byte string. */
  lemma RoundTrip(b: Bytes)
    ensures Decode(Encode(b)) == Some(b)
    ensures '.' !in Encode(b) && '=' !in Encode(b)
  {
    PaddingRestored(b);
    PaddedRoundTrip(b);
  }

  // ------------------------------------------------------------ which characters

  /** The alphabet by code point: A-Z, a-z, 0-9, minus, underscore (RFC 4648 table 2). */
  lemma SymbolIs(v: nat)
    requires v < 64
    ensures Symbol(v) as int ==
      if v < 26 then v + 65 else if v < 52 then v + 71 else if v < 62 then v - 4 else if v == 62 then 45 else 95
  {
  }

  /** The decoder also takes the plus and the slash of the other alphabet. */
  lemma ValueIs(c: char)
    ensures Value(c) ==
      if 65 <= c as int <= 90 then Some(c as int - 65)
      else if 97 <= c as int <= 122 then Some(c as int - 71)
      else if 48 <= c as int <= 57 then Some(c as int + 4)
      else if c as int == 45 || c as int == 43 then Some(62)
      else if c as int == 95 || c as int == 47 then Some(63)
      else None
  {
  }

  /** Bit `k` of a byte string, the highest of the first byte first; zero past the end. */
  function Bit(b: Bytes, k: nat): nat {
    if k / 8 >= |b| then 0
    else
      match k % 8
      case 0 => b[k / 8] / 128
      case 1 => b[k / 8] / 64 % 2
      case 2 => b[k / 8] / 32 % 2
      case 3 => b[k / 8] / 16 % 2
      case 4 => b[k / 8] / 8 % 2
      case 5 => b[k / 8] / 4 % 2
      case 6 => b[k / 8] / 2 % 2
      case _ => b[k / 8] % 2
  }

  /** The bits number `6 i` to `6 i + 5`, as a number. */
  function Six(b: Bytes, i: nat): nat {
    32 * Bit(b, 6 * i) + 16 * Bit(b, 6 * i + 1) + 8 * Bit(b, 6 * i + 2)
    + 4 * Bit(b, 6 * i + 3) + 2 * Bit(b, 6 * i + 4) + Bit(b, 6 * i + 5)
  }

  lemma Halves(x: Byte)
    ensures x / 128 < 2
    ensures x / 64 == 2 * (x / 128) + x / 64 % 2 && x / 32 == 2 * (x / 64) + x / 32 % 2
    ensures x / 16 == 2 * (x / 32) + x / 16 % 2 && x / 8 == 2 * (x / 16) + x / 8 % 2
    ensures x / 4 == 2 * (x / 8) + x / 4 % 2 && x / 2 == 2 * (x / 4) + x / 2 % 2 && x == 2 * (x / 2) + x % 2
  {
    assert x / 128 == x / 64 / 2 && x / 64 == x / 32 / 2 && x / 32 == x / 16 / 2;
    assert x / 16 == x / 8 / 2 && x / 8 == x / 4 / 2 && x / 4 == x / 2 / 2;
  }

  lemma Remainders(x: Byte)
    ensures x % 4 == x - 4 * (x / 4) && x % 16 == x - 16 * (x / 16) && x % 64 == x - 64 * (x / 64)
  {
  }

  lemma BitsOf(b: Bytes, j: nat)
    requires j < |b|
    ensures Bit(b, 8 * j) == b[j] / 128 && Bit(b, 8 * j + 1) == b[j] / 64 % 2
    ensures Bit(b, 8 * j + 2) == b[j] / 32 % 2 && Bit(b, 8 * j + 3) == b[j] / 16 % 2
    ensures Bit(b, 8 * j + 4) == b[j] / 8 % 2 && Bit(b, 8 * j + 5) == b[j] / 4 % 2
    ensures Bit(b, 8 * j + 6) == b[j] / 2 % 2 && Bit(b, 8 * j + 7) == b[j] % 2
  {
    var k := 8 * j;
    assert k / 8 == j && k % 8 == 0;
    assert (k + 1) / 8 == j && (k + 1) % 8 == 1 && (k + 2) / 8 == j && (k + 2) % 8 == 2;
    assert (k + 3) / 8 == j && (k + 3) % 8 == 3 && (k + 4) / 8 == j && (k + 4) % 8 == 4;
    assert (k + 5) / 8 == j && (k + 5) % 8 == 5 && (k + 6) / 8 == j && (k + 6) % 8 == 6;
    assert (k + 7) / 8 == j && (k + 7) % 8 == 7;
  }

  lemma NoBits(b: Bytes, k: nat)
    requires k >= 8 * |b|
    ensures Bit(b, k) == 0
  {
    assert k / 8 >= |b|;
  }

  lemma BitShifts(b: Bytes, k: nat)
    requires |b| >= 3
    ensures Bit(b, k + 24) == Bit(b[3..], k)
  {
    assert (k + 24) / 8 == k / 8 + 3 && (k + 24) % 8 == k % 8;
  }

  lemma SixShifts(b: Bytes, i: nat)
    requires |b| >= 3
    ensures Six(b, i + 4) == Six(b[3..], i)
  {
    BitShifts(b, 6 * i);
    BitShifts(b, 6 * i + 1);
    BitShifts(b, 6 * i + 2);
    BitShifts(b, 6 * i + 3);
    BitShifts(b, 6 * i + 4);
    BitShifts(b, 6 * i + 5);
    hide Bit;
  }

  lemma FirstSix(b: Bytes)
    requires b != []
    ensures Six(b, 0) == b[0] / 4
    ensures Six(b, 1) == b[0] % 4 * 16 + if |b| > 1 then b[1] / 16 else 0
  {
    BitsOf(b, 0);
    Halves(b[0]);
    Remainders(b[0]);
    if |b| > 1 {
      BitsOf(b, 1);
      Halves(b[1]);
    } else {
      NoBits(b, 8);
      NoBits(b, 9);
      NoBits(b, 10);
      NoBits(b, 11);
    }
    hide Bit;
  }

  lemma NextSix(b: Bytes)
    requires |b| >= 2
    ensures Six(b, 2) == b[1] % 16 * 4 + if |b| > 2 then b[2] / 64 else 0
    ensures |b| > 2 ==> Six(b, 3) == b[2] % 64
  {
    BitsOf(b, 1);
    Halves(b[1]);
    Remainders(b[1]);
    if |b| > 2 {
      BitsOf(b, 2);
      Halves(b[2]);
      Remainders(b[2]);
    } else {
      NoBits(b, 16);
      NoBits(b, 17);
    }
    hide Bit;
  }

  lemma EncodeQuad(b: Bytes)
    requires |b| >= 3
    ensures Encode(b) == Quad(b[0], b[1], b[2]) + Encode(b[3..])
  {
    hide Symbol, Quad, Plain;
    var q := Quad(b[0], b[1], b[2]);
    QuadPlain(b[0], b[1], b[2]);
    PlainIsNoPad(q);
    StripAfter(q, EncodePadded(b[3..]));
  }

  /** The last one or two bytes, without the padding. */
  lemma EncodeTail(b: Bytes)
    requires 1 <= |b| <= 2
    ensures Encode(b) ==
      if |b| == 1 then [Symbol(b[0] / 4), Symbol(b[0] % 4 * 16)]
      else [Symbol(b[0] / 4), Symbol(b[0] % 4 * 16 + b[1] / 16), Symbol(b[1] % 16 * 4)]
  {
    hide Symbol, Plain;
    if |b| == 1 {
      var s := [Symbol(b[0] / 4), Symbol(b[0] % 4 * 16)];
      SymbolPlain(b[0] / 4);
      SymbolPlain(b[0] % 4 * 16);
      StripsTo(s, "==");
      assert EncodePadded(b) == s + "==";
    } else {
      var s := [Symbol(b[0] / 4), Symbol(b[0] % 4 * 16 + b[1] / 16), Symbol(b[1] % 16 * 4)];
      SymbolPlain(b[0] / 4);
      SymbolPlain(b[0] % 4 * 16 + b[1] / 16);
      SymbolPlain(b[1] % 16 * 4);
      StripsTo(s, "=");
      assert EncodePadded(b) == s + "=";
    }
  }

  ghost predicate SixAt(b: Bytes, e: string, i: nat)
    requires i < |e|
  {
    Six(b, i) < 64 && e[i] == Symbol(Six(b, i))
  }

  lemma QuadAt(x: Byte, y: Byte, z: Byte, i: nat)
    requires i < 4
    ensures x / 4 < 64 && x % 4 * 16 + y / 16 < 64 && y % 16 * 4 + z / 64 < 64 && z % 64 < 64
    ensures Quad(x, y, z)[i] ==
      Symbol(if i == 0 then x / 4 else if i == 1 then x % 4 * 16 + y / 16 else if i == 2 then y % 16 * 4 + z / 64 else z % 64)
  {
    hide Symbol;
  }

  lemma QuadIsSix(b: Bytes, i: nat)
    requires |b| >= 3 && i < 4
    ensures Six(b, i) < 64 && Quad(b[0], b[1], b[2])[i] == Symbol(Six(b, i))
  {
    FirstSix(b);
    NextSix(b);
    QuadAt(b[0], b[1], b[2], i);
    hide *;
  }

  lemma OneIsSix(b: Bytes)
    requires |b| == 1
    ensures Six(b, 0) < 64 && Six(b, 1) < 64 && Encode(b) == [Symbol(Six(b, 0)), Symbol(Six(b, 1))]
  {
    EncodeTail(b);
    FirstSix(b);
    QuadAt(b[0], 0, 0, 0);
    hide *;
  }

  lemma TwoIsSix(b: Bytes)
    requires |b| == 2
    ensures Six(b, 0) < 64 && Six(b, 1) < 64 && Six(b, 2) < 64
    ensures Encode(b) == [Symbol(Six(b, 0)), Symbol(Six(b, 1)), Symbol(Six(b, 2))]
  {
    EncodeTail(b);
    FirstSix(b);
    NextSix(b);
    QuadAt(b[0], b[1], 0, 0);
    hide *;
  }

  lemma TailIsSix(b: Bytes, i: nat)
    requires 1 <= |b| <= 2 && i <= |b|
    ensures |Encode(b)| == |b| + 1 && SixAt(b, Encode(b), i)
  {
    hide Six, Encode, Symbol;
    if |b| == 1 {
      OneIsSix(b);
    } else {
      TwoIsSix(b);
    }
  }

  /** What encoding writes (RFC 4648 section 4): six bits a symbol, from the front, the last
      filled up with zeros, and as many symbols as that takes. */
  lemma {:induction false} EncodesSixBits(b: Bytes)
    ensures |Encode(b)| == (8 * |b| + 5) / 6
    ensures forall i: nat :: i < |Encode(b)| ==> SixAt(b, Encode(b), i)
  {
    if b == [] {
    } else if |b| <= 2 {
      TailIsSix(b, 0);
      hide Encode;
      forall i: nat | i < |Encode(b)| ensures SixAt(b, Encode(b), i) {
        TailIsSix(b, i);
      }
    } else {
      EncodesSixBits(b[3..]);
      EncodeQuad(b);
      QuadPlain(b[0], b[1], b[2]);
      hide Six, Encode, Symbol, Quad;
      forall i: nat | i < |Encode(b)| ensures SixAt(b, Encode(b), i) {
        if i >= 4 {
          SixShifts(b, i - 4);
          assert SixAt(b[3..], Encode(b[3..]), i - 4);
        } else {
          QuadIsSix(b, i);
        }
      }
    }
  }

  // ------------------------------------------------------------ what decoding takes

  /** ASCII characters outside the alphabet, other than the pad, are passed over. */
  lemma {:induction false} NoiseIsSkipped(a: string, c: char, b: string, quad: nat, left: nat, pads: nat)
    requires quad < 4 && Value(c).None? && c != '='
    ensures Scan(a + [c] + b, quad, left, pads) == Scan(a + b, quad, left, pads)
    decreases |a|
  {
    var s, r := a + [c] + b, a + b;
    if a == [] {
      assert s[0] == c && s[1..] == b && r == b;
    } else {
      assert s[0] == a[0] && s[1..] == a[1..] + [c] + b && r[0] == a[0] && r[1..] == a[1..] + b;
      if a[0] == '=' {
        NoiseIsSkipped(a[1..], c, b, quad, left, if quad >= 2 then pads + 1 else pads);
      } else {
        match Value(a[0])
        case None => NoiseIsSkipped(a[1..], c, b, quad, left, pads);
        case Some(v) =>
          if quad == 0 { NoiseIsSkipped(a[1..], c, b, 1, v, 0); }
          else if quad == 1 { NoiseIsSkipped(a[1..], c, b, 2, v % 16, 0); }
          else if quad == 2 { NoiseIsSkipped(a[1..], c, b, 3, v % 4, 0); }
          else { NoiseIsSkipped(a[1..], c, b, 0, 0, 0); }
      }
    }
  }

  /** How many bytes `n` more symbols complete, after `quad` of a group. */
  function Yield(quad: nat, n: nat): nat
    requires quad < 4
    decreases n
  {
    if n == 0 then 0 else (if quad == 0 then 0 else 1) + Yield(if quad == 3 then 0 else quad + 1, n - 1)
  }

  lemma {:induction false} YieldIs(quad: nat, n: nat)
    requires quad < 4
    ensures Yield(quad, n) == (quad + n) * 3 / 4 - quad * 3 / 4
    decreases n
  {
    if n > 0 {
      YieldIs(if quad == 3 then 0 else quad + 1, n - 1);
    }
  }

  lemma EmitMore(byte: nat, rest: Option<Bytes>)
    ensures Emit(byte, rest).Some? <==> rest.Some?
    ensures rest.Some? ==> |Emit(byte, rest).value| == 1 + |rest.value|
  {
  }

  lemma ScanOne(t: string, quad: nat, left: nat) returns (kept: nat)
    requires quad < 4 && t != [] && t[0] != '=' && Value(t[0]).Some?
    ensures var r, rest := Scan(t, quad, left, 0), Scan(t[1..], if quad == 3 then 0 else quad + 1, kept, 0);
      (r.Some? <==> rest.Some?) && (r.Some? ==> |r.value| == |rest.value| + if quad == 0 then 0 else 1)
  {
    var v := Value(t[0]).value;
    hide Value;
    kept := if quad == 0 then v else if quad == 1 then v % 16 else if quad == 2 then v % 4 else 0;
    var rest := Scan(t[1..], if quad == 3 then 0 else quad + 1, kept, 0);
    EmitMore(left * 4 + v / 16, rest);
    EmitMore(left * 16 + v / 4, rest);
    EmitMore(left * 64 + v, rest);
    hide Emit;
  }

  /** Symbols scan, with the pads their number asks for, unless one is left over. */
  lemma {:induction false} SymbolsScan(s: string, quad: nat, left: nat, total: nat)
    requires quad < 4 && (forall c :: c in s ==> Value(c).Some? && c != '=')
    requires (quad + |s|) % 4 == total % 4
    ensures var r := Scan(s + Padding(total), quad, left, 0);
      if total % 4 == 1 then r.None? else r.Some? && |r.value| == Yield(quad, |s|)
    decreases |s|
  {
    var pad := Padding(total);
    var t := s + pad;
    hide Scan, Value, Padding;
    if s == [] {
      assert t == pad;
      PaddingIs(total, quad);
      PadsScan(quad, left);
    } else {
      assert s[0] in s && t[0] == s[0] && t[1..] == s[1..] + pad;
      var more := if quad == 3 then 0 else quad + 1;
      var kept := ScanOne(t, quad, left);
      assert forall c :: c in s[1..] ==> c in s;
      SymbolsScan(s[1..], more, kept, total);
    }
  }

  lemma PaddingIs(n: nat, m: nat)
    requires n % 4 == m % 4
    ensures Padding(n) == Padding(m)
  {
  }

  lemma PadsScan(quad: nat, left: nat)
    requires quad < 4
    ensures var r := Scan(Padding(quad), quad, left, 0); if quad == 1 then r.None? else r == Some([])
  {
    EndScan(quad, left);
    if quad == 1 {
      assert Padding(quad) == "===" && "==="[1..] == "==" && "=="[1..] == "=" && "="[1..] == "";
      assert Scan("=", 1, left, 0) == Scan("", 1, left, 0);
      assert Scan("==", 1, left, 0) == Scan("=", 1, left, 0);
    } else if quad == 2 {
      assert Padding(quad) == "==" && "=="[1..] == "=";
      assert Scan("=", 2, left, 1) == Some([]);
    }
  }

  lemma EndScan(quad: nat, left: nat)
    requires quad < 4
    ensures Scan("", quad, left, 0) == if quad == 0 then Some([]) else None
  {
  }

  /** A text of alphabet symbols decodes unless its length is one more than a multiple of
      four, to three bytes for four symbols. */
  lemma DecodesExactly(s: string)
    requires IsAscii(s) && forall c :: c in s ==> Value(c).Some? && c != '='
    ensures if |s| % 4 == 1 then Decode(s).None? else Decode(s).Some? && |Decode(s).value| == |s| * 3 / 4
  {
    hide Scan, Value;
    SymbolsScan(s, 0, 0, |s|);
    YieldIs(0, |s|);
  }
}
