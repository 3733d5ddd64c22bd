/** The string operations the codecs of src/core/auth.py are built from. */
module Text {
  import opened Common

  type Byte = b: nat | b < 256
  type Bytes = seq<Byte>

  /** Python's `text.split(sep)` for a one-character separator. */
  function Split(text: string, sep: char): (parts: seq<string>)
    ensures |parts| >= 1
  {
    if text == [] then [""]
    else
      var rest := Split(text[1..], sep);
      if text[0] == sep then [""] + rest
      else [[text[0]] + rest[0]] + rest[1..]
  }

  /** A field without the separator is split off whole. */
  lemma {:induction false} SplitField(field: string, sep: char, rest: string)
    requires sep !in field
    ensures Split(field + [sep] + rest, sep) == [field] + Split(rest, sep)
  {
    var text := field + [sep] + rest;
    if field == [] {
      assert text[1..] == rest;
    } else {
      assert text[1..] == field[1..] + [sep] + rest;
      assert field[0] in field && sep !in field[1..];
      SplitField(field[1..], sep, rest);
      assert [field[0]] + field[1..] == field;
    }
  }

  lemma {:induction false} SplitLast(field: string, sep: char)
    requires sep !in field
    ensures Split(field, sep) == [field]
  {
    if field != [] {
      assert field[0] in field && sep !in field[1..];
      SplitLast(field[1..], sep);
      assert [field[0]] + field[1..] == field;
    }
  }

  /** Splitting makes one more part than there are separators. */
  lemma {:induction false} SplitCount(text: string, sep: char)
    ensures |Split(text, sep)| == multiset(text)[sep] + 1
  {
    if text != [] {
      SplitCount(text[1..], sep);
      assert text == [text[0]] + text[1..];
    }
  }

  // ------------------------------------------------------------ hexadecimal

  function HexDigit(v: nat): char
    requires v < 16
  {
    if v < 10 then '0' + v as char else 'a' + (v - 10) as char
  }

  /** `bytes.fromhex` also takes upper case. */
  function HexValue(c: char): Option<nat> {
    if '0' <= c <= '9' then Some((c - '0') as nat)
    else if 'a' <= c <= 'f' then Some((c - 'a') as nat + 10)
    else if 'A' <= c <= 'F' then Some((c - 'A') as nat + 10)
    else None
  }

  function Hex(b: Bytes): string {
    if b == [] then "" else [HexDigit(b[0] / 16), HexDigit(b[0] % 16)] + Hex(b[1..])
  }

  predicate IsSpace(c: char) {
    c == ' ' || '\t' <= c <= '\r'
  }

  /** The white space of C's `isspace`, by code point. */
  lemma SpacesAre(c: char)
    ensures IsSpace(c) <==> c as int == 32 || 9 <= c as int <= 13
  {
  }

  /** `bytes.fromhex`: pairs of digits, with white space allowed between pairs. */
  function FromHex(s: string): Option<Bytes> {
    if s == [] then Some([])
    else if IsSpace(s[0]) then FromHex(s[1..])
    else if |s| == 1 then None
    else
      match (HexValue(s[0]), HexValue(s[1]), FromHex(s[2..]))
      case (Some(h), Some(l), Some(rest)) =>
        if h < 16 && l < 16 then Some([(16 * h + l) as Byte] + rest) else None
      case _ => None
  }

  lemma {:induction false} HexRoundTrip(b: Bytes)
    ensures FromHex(Hex(b)) == Some(b)
    ensures forall c :: c in Hex(b) ==> HexValue(c).Some?
  {
    if b != [] {
      HexRoundTrip(b[1..]);
      var s := Hex(b);
      assert s[2..] == Hex(b[1..]);
      HexDigitValue(b[0] / 16);
      HexDigitValue(b[0] % 16);
      assert b == [b[0]] + b[1..];
    }
  }

  /** Hexadecimal is printed in lower case, two digits a byte. */
  lemma {:induction false} HexIsLower(b: Bytes)
    ensures |Hex(b)| == 2 * |b| && forall c :: c in Hex(b) ==> '0' <= c <= '9' || 'a' <= c <= 'f'
  {
    if b != [] {
      HexIsLower(b[1..]);
    }
  }

  lemma HexDigitValue(v: nat)
    requires v < 16
    ensures HexValue(HexDigit(v)) == Some(v) && !IsSpace(HexDigit(v))
  {
  }

  // ------------------------------------------------------------ decimals

  function Decimal(n: nat): (s: string)
    ensures |s| >= 1
  {
    if n < 10 then ['0' + n as char] else Decimal(n / 10) + ['0' + (n % 10) as char]
  }

  /** The ASCII digits of `int(text)`, with single underscores allowed between them. */
  function Digits(s: string): Option<nat> {
    if s == [] then None
    else
      var last := s[|s| - 1];
      var before := s[..|s| - 1];
      if !('0' <= last <= '9') then None
      else if before == [] then Some((last - '0') as nat)
      else
        var stem := if |before| >= 2 && before[|before| - 1] == '_' then before[..|before| - 1] else before;
        match Digits(stem)
        case Some(v) => Some(10 * v + (last - '0') as nat)
        case None => None
  }

  function StripLeft(s: string): string {
    if s != [] && IsSpace(s[0]) then StripLeft(s[1..]) else s
  }

  function StripRight(s: string): string {
    if s != [] && IsSpace(s[|s| - 1]) then StripRight(s[..|s| - 1]) else s
  }

  /** `int(text)` for ASCII text. */
  function ParseInt(text: string): Option<int> {
    var s := StripRight(StripLeft(text));
    if s == [] then None
    else if s[0] == '-' || s[0] == '+' then
      match Digits(s[1..])
      case Some(v) => Some(if s[0] == '-' then -(v as int) else v as int)
      case None => None
    else
      match Digits(s)
      case Some(v) => Some(v)
      case None => None
  }

  lemma {:induction false} DecimalDigits(n: nat)
    ensures Digits(Decimal(n)) == Some(n)
    ensures forall c :: c in Decimal(n) ==> '0' <= c <= '9'
  {
    if n >= 10 {
      DecimalDigits(n / 10);
      var s := Decimal(n);
      assert s[..|s| - 1] == Decimal(n / 10);
      assert Decimal(n / 10)[|Decimal(n / 10)| - 1] in Decimal(n / 10);
    }
  }

  lemma DecimalRoundTrip(n: nat)
    ensures ParseInt(Decimal(n)) == Some(n)
  {
    DecimalDigits(n);
    var s := Decimal(n);
    assert s[0] in s && s[|s| - 1] in s;
  }
}
