/** Password records of src/core/auth.py: four `$`-separated fields. */
module PasswordRecords {
  import opened Common
  import opened Text

  /** PBKDF2-HMAC: algorithm, password, salt and iterations to a key. `None` is the
      exception it raises: for an algorithm it does not know, or a count that is not
      positive or does not fit a C int. */
  datatype Kdf = Kdf(known: set<string>, derive: (string, string, Bytes, int) -> Option<Bytes>) {
    ghost predicate Lawful() {
      forall a, p, s, n :: derive(a, p, s, n).Some? <==> a in known && 1 <= n <= MAX_COUNT
    }
  }

  const MAX_COUNT := 0x7FFF_FFFF

  const ALGORITHM := "sha256"
  const ITERATIONS: nat := 210_000

  /** `verify_password` guards the parsing, not the key derivation: that can raise. */
  datatype Check = Matches(same: bool) | Raises

  datatype Record = Record(algorithm: string, iterations: int, salt: Bytes, digest: Bytes)

  /** `hash_password` for the salt it drew and the key it derived. */
  function Print(salt: Bytes, digest: Bytes): string {
    "pbkdf2_" + ALGORITHM + "$" + Decimal(ITERATIONS) + "$" + Hex(salt) + "$" + Hex(digest)
  }

  function RemovePrefix(s: string, prefix: string): string {
    if prefix <= s then s[|prefix|..] else s
  }

  /** The guarded half of `verify_password`. */
  function Parse(text: string): Option<Record> {
    var fields := Split(text, '$');
    if |fields| != 4 then None else FromFields(fields[0], fields[1], fields[2], fields[3])
  }

  function FromFields(algorithm: string, count: string, salt: string, digest: string): Option<Record> {
    match (ParseInt(count), FromHex(salt), FromHex(digest))
    case (Some(n), Some(s), Some(d)) => Some(Record(RemovePrefix(algorithm, "pbkdf2_"), n, s, d))
    case _ => None
  }

  function Verify(kdf: Kdf, password: string, text: string): Check {
    match Parse(text)
    case None => Matches(false)
    case Some(r) =>
      match kdf.derive(r.algorithm, password, r.salt, r.iterations)
      case None => Raises
      case Some(key) => Matches(key == r.digest)
  }

  /** Four fields joined by `$` are read as exactly those four. */
  lemma FourFields(f0: string, f1: string, f2: string, f3: string)
    requires '$' !in f0 && '$' !in f1 && '$' !in f2 && '$' !in f3
    ensures Parse(f0 + "$" + f1 + "$" + f2 + "$" + f3) == FromFields(f0, f1, f2, f3)
  {
    hide FromFields, Split;
    SplitField(f0, '$', f1 + "$" + f2 + "$" + f3);
    SplitField(f1, '$', f2 + "$" + f3);
    SplitField(f2, '$', f3);
    SplitLast(f3, '$');
    assert f0 + "$" + f1 + "$" + f2 + "$" + f3 == f0 + ['$'] + (f1 + "$" + f2 + "$" + f3);
    assert f1 + "$" + f2 + "$" + f3 == f1 + ['$'] + (f2 + "$" + f3);
    assert f2 + "$" + f3 == f2 + ['$'] + f3;
  }

  /** A printed record reads back as the algorithm, count, salt and digest it holds. */
  lemma RecordsRoundTrip(salt: Bytes, digest: Bytes)
    ensures Print(salt, digest) == "pbkdf2_" + "sha256" + "$" + Decimal(210_000) + "$" + Hex(salt) + "$" + Hex(digest)
    ensures Parse(Print(salt, digest)) == Some(Record("sha256", 210_000, salt, digest))
  {
    HexRoundTrip(salt);
    HexRoundTrip(digest);
    DecimalDigits(ITERATIONS);
    DecimalRoundTrip(ITERATIONS);
    hide Decimal, Hex, FromHex, ParseInt, Parse;
    FourFields("pbkdf2_" + ALGORITHM, Decimal(ITERATIONS), Hex(salt), Hex(digest));
  }

  /** The original password is accepted, and any other exactly when it derives the
      same key under the stored salt and count. */
  lemma VerifiesExactly(kdf: Kdf, salt: Bytes, original: string, other: string)
    requires kdf.Lawful() && ALGORITHM in kdf.known
    ensures kdf.derive(ALGORITHM, original, salt, ITERATIONS).Some?
    ensures var key := kdf.derive(ALGORITHM, original, salt, ITERATIONS);
      && Verify(kdf, original, Print(salt, key.value)) == Matches(true)
      && Verify(kdf, other, Print(salt, key.value))
         == Matches(kdf.derive(ALGORITHM, other, salt, ITERATIONS) == key)
  {
    assert kdf.derive(ALGORITHM, other, salt, ITERATIONS).Some?;
    RecordsRoundTrip(salt, kdf.derive(ALGORITHM, original, salt, ITERATIONS).value);
    hide Print, Parse;
  }

  // ------------------------------------------------------------ which texts are records

  /** Whole pairs of hexadecimal digits, with white space before, between and after. */
  predicate HexText(s: string) {
    if s == [] then true
    else if IsSpace(s[0]) then HexText(s[1..])
    else |s| >= 2 && HexChar(s[0]) && HexChar(s[1]) && HexText(s[2..])
  }

  /** A digit or a letter from A to F in either case, by code point. */
  predicate HexChar(c: char) {
    48 <= c as int <= 57 || 65 <= c as int <= 70 || 97 <= c as int <= 102
  }

  lemma HexCharHasValue(c: char)
    ensures HexChar(c) <==> HexValue(c).Some?
    ensures HexValue(c).Some? ==> HexValue(c).value < 16
  {
  }

  lemma {:induction false} HexTextExactly(s: string)
    ensures FromHex(s).Some? <==> HexText(s)
  {
    if s != [] {
      if IsSpace(s[0]) {
        HexTextExactly(s[1..]);
      } else if |s| >= 2 {
        HexTextExactly(s[2..]);
        assert HexValue(s[0]).Some? ==> HexValue(s[0]).value < 16;
        assert HexValue(s[1]).Some? ==> HexValue(s[1]).value < 16;
      }
    }
  }

  /** Digits with single underscores between them. */
  predicate DigitText(s: string) {
    && s != [] && Digit(s[0]) && Digit(s[|s| - 1])
    && (forall i :: 0 <= i < |s| ==> Digit(s[i]) || s[i] == '_')
    && (forall i :: 0 <= i < |s| - 1 ==> Digit(s[i]) || Digit(s[i + 1]))
  }

  predicate Digit(c: char) {
    '0' <= c <= '9'
  }

  lemma {:induction false} DigitTextExactly(s: string)
    ensures Digits(s).Some? <==> DigitText(s)
    decreases |s|
  {
    if s != [] && Digit(s[|s| - 1]) && |s| > 1 {
      var before := s[..|s| - 1];
      var stem := if |before| >= 2 && before[|before| - 1] == '_' then before[..|before| - 1] else before;
      DigitTextExactly(stem);
      StemIsDigitText(s, stem);
    }
  }

  lemma StemIsDigitText(s: string, stem: string)
    requires |s| > 1 && Digit(s[|s| - 1])
    requires var before := s[..|s| - 1];
      stem == if |before| >= 2 && before[|before| - 1] == '_' then before[..|before| - 1] else before
    ensures DigitText(stem) <==> DigitText(s)
  {
    assert stem <= s;
    if DigitText(s) {
      assert Digit(s[|s| - 2]) || s[|s| - 2] == '_';
      if s[|s| - 2] == '_' {
        assert Digit(s[|s| - 3]);
      }
    }
    if DigitText(stem) {
      forall i | 0 <= i < |s| ensures Digit(s[i]) || s[i] == '_' {
        if i < |stem| { assert s[i] == stem[i]; }
      }
      forall i | 0 <= i < |s| - 1 ensures Digit(s[i]) || Digit(s[i + 1]) {
        if i + 1 < |stem| { assert s[i] == stem[i] && s[i + 1] == stem[i + 1]; }
      }
    }
  }

  function Stripped(text: string): string {
    StripRight(StripLeft(text))
  }

  /** An integer as `int` takes it: digits, a sign before them, white space around. */
  predicate IntText(text: string) {
    var s := Stripped(text);
    s != [] && DigitText(if s[0] == '-' || s[0] == '+' then s[1..] else s)
  }

  lemma IntTextExactly(text: string)
    ensures ParseInt(text).Some? <==> IntText(text)
  {
    var s := Stripped(text);
    if s != [] {
      DigitTextExactly(s);
      DigitTextExactly(s[1..]);
    }
  }

  /** Exactly four fields, of which the second is an integer and the last two are
      hexadecimal. */
  predicate IsRecord(text: string) {
    var f := Split(text, '$');
    multiset(text)['$'] == 3 && |f| == 4 && IntText(f[1]) && HexText(f[2]) && HexText(f[3])
  }

  /** A string parses exactly when it is such a record; any other is rejected whatever the
      password. */
  lemma {:induction false} RejectedExactly(kdf: Kdf, password: string, text: string)
    ensures Parse(text).Some? <==> IsRecord(text)
    ensures !IsRecord(text) ==> Verify(kdf, password, text) == Matches(false)
  {
    SplitCount(text, '$');
    var f := Split(text, '$');
    if |f| == 4 {
      IntTextExactly(f[1]);
      HexTextExactly(f[2]);
      HexTextExactly(f[3]);
    }
    hide Split, IntText, HexText, ParseInt, FromHex;
  }

  // ------------------------------------------------------------ what the fields mean

  /** The digits of a text as a decimal number; anything else in it is passed over. */
  function Number(s: string): nat {
    if s == [] then 0
    else if Digit(s[|s| - 1]) then 10 * Number(s[..|s| - 1]) + (s[|s| - 1] as int - 48)
    else Number(s[..|s| - 1])
  }

  function IntOf(text: string): int {
    var s := Stripped(text);
    if s != [] && s[0] == '-' then -(Number(s) as int) else Number(s)
  }

  lemma {:induction false} DigitsAreNumber(s: string)
    requires DigitText(s)
    ensures Digits(s) == Some(Number(s))
    decreases |s|
  {
    if |s| == 1 {
      assert s[..0] == [] && Number(s[..0]) == 0;
    } else {
      var before := s[..|s| - 1];
      var stem := if |before| >= 2 && before[|before| - 1] == '_' then before[..|before| - 1] else before;
      StemIsDigitText(s, stem);
      DigitsAreNumber(stem);
      assert Number(before) == Number(stem);
    }
  }

  lemma {:induction false} NumberAfterSign(s: string)
    requires s != [] && !Digit(s[0])
    ensures Number(s) == Number(s[1..])
    decreases |s|
  {
    if |s| == 1 {
      assert s[..0] == [] && s[1..] == [];
    } else {
      NumberAfterSign(s[..|s| - 1]);
      assert s[..|s| - 1][1..] == s[1..][..|s| - 2];
    }
  }

  /** `int` reads the digits, with the sign before them, and passes over underscores and
      the white space around. */
  lemma IntIsNumber(text: string)
    requires IntText(text)
    ensures ParseInt(text) == Some(IntOf(text))
  {
    var s := Stripped(text);
    if s[0] == '-' || s[0] == '+' {
      DigitsAreNumber(s[1..]);
      NumberAfterSign(s);
    } else {
      DigitsAreNumber(s);
    }
    hide Digits, DigitText, Number;
  }

  /** What one hexadecimal digit is worth, by code point. */
  function Nibble(c: char): int {
    if 48 <= c as int <= 57 then c as int - 48
    else if 97 <= c as int <= 102 then c as int - 87
    else c as int - 55
  }

  function Unspaced(s: string): (r: string)
    ensures forall c :: c in r ==> c in s && !IsSpace(c)
  {
    if s == [] then [] else if IsSpace(s[0]) then Unspaced(s[1..]) else [s[0]] + Unspaced(s[1..])
  }

  /** The bytes are the digits that are left without white space, two by two. */
  predicate Spells(s: string, bytes: Bytes) {
    Pairs(Unspaced(s), bytes)
  }

  predicate Pairs(h: string, bytes: Bytes) {
    |h| == 2 * |bytes| && forall i :: 0 <= i < |bytes| ==> bytes[i] == 16 * Nibble(h[2 * i]) + Nibble(h[2 * i + 1])
  }

  function BytesOf(text: string): Bytes {
    match FromHex(text)
    case Some(b) => b
    case None => []
  }

  lemma NibblesAre(c: char)
    requires HexValue(c).Some?
    ensures 0 <= Nibble(c) < 16 && HexValue(c).value == Nibble(c)
  {
  }

  lemma PairFirst(s: string)
    requires |s| >= 2 && !IsSpace(s[0]) && !IsSpace(s[1])
    ensures Unspaced(s) == [s[0], s[1]] + Unspaced(s[2..])
  {
    assert s[1..][1..] == s[2..];
  }

  lemma PairSpelled(x: char, y: char, rest: string, more: Bytes)
    requires 0 <= Nibble(x) < 16 && 0 <= Nibble(y) < 16
    requires Pairs(rest, more)
    ensures Pairs([x, y] + rest, [(16 * Nibble(x) + Nibble(y)) as Byte] + more)
  {
    hide Nibble;
    var h, b := [x, y] + rest, [(16 * Nibble(x) + Nibble(y)) as Byte] + more;
    forall i | 0 <= i < |b| ensures b[i] == 16 * Nibble(h[2 * i]) + Nibble(h[2 * i + 1]) {
      if i > 0 {
        assert b[i] == more[i - 1];
        assert h[2 * i] == rest[2 * (i - 1)] && h[2 * i + 1] == rest[2 * (i - 1) + 1];
      }
    }
  }

  lemma PairRead(s: string, more: Bytes)
    requires |s| >= 2 && !IsSpace(s[0]) && HexValue(s[0]).Some? && HexValue(s[1]).Some?
    requires FromHex(s[2..]) == Some(more)
    ensures 0 <= Nibble(s[0]) < 16 && 0 <= Nibble(s[1]) < 16 && !IsSpace(s[1])
    ensures FromHex(s) == Some([(16 * Nibble(s[0]) + Nibble(s[1])) as Byte] + more)
  {
    NibblesAre(s[0]);
    NibblesAre(s[1]);
    hide HexValue, Nibble;
  }

  lemma SpellsPair(s: string, more: Bytes)
    requires |s| >= 2 && !IsSpace(s[0]) && !IsSpace(s[1]) && Spells(s[2..], more)
    requires 0 <= Nibble(s[0]) < 16 && 0 <= Nibble(s[1]) < 16
    ensures Spells(s, [(16 * Nibble(s[0]) + Nibble(s[1])) as Byte] + more)
  {
    PairFirst(s);
    hide Unspaced, Nibble, Pairs;
    PairSpelled(s[0], s[1], Unspaced(s[2..]), more);
  }

  lemma SpellsSpaced(s: string, bytes: Bytes)
    requires s != [] && IsSpace(s[0]) && Spells(s[1..], bytes)
    ensures Spells(s, bytes)
  {
  }

  /** `bytes.fromhex` reads a text of hexadecimal digits two by two. */
  lemma {:induction false} HexIsSpelled(s: string)
    requires HexText(s)
    ensures FromHex(s) == Some(BytesOf(s)) && Spells(s, BytesOf(s))
    decreases |s|
  {
    hide Spells, HexValue, Nibble;
    if s == [] {
      EmptySpelled();
    } else if IsSpace(s[0]) {
      HexIsSpelled(s[1..]);
      SpellsSpaced(s, BytesOf(s[1..]));
    } else {
      HexIsSpelled(s[2..]);
      HexCharHasValue(s[0]);
      HexCharHasValue(s[1]);
      PairRead(s, BytesOf(s[2..]));
      SpellsPair(s, BytesOf(s[2..]));
      hide FromHex, HexText, IsSpace;
    }
  }

  lemma EmptySpelled()
    ensures FromHex("") == Some([]) && Spells("", [])
  {
  }

  // ------------------------------------------------------------ what verification decides

  /** The name the derivation is asked for. */
  function AlgorithmOf(field: string): string {
    if |field| >= 7 && field[..7] == "pbkdf2_" then field[7..] else field
  }

  lemma PrefixGoes(field: string)
    ensures RemovePrefix(field, "pbkdf2_") == AlgorithmOf(field)
  {
    assert |"pbkdf2_"| == 7;
    if "pbkdf2_" <= field {
      assert field[..7] == "pbkdf2_";
    }
  }

  /** Verification of any text: not a record, it is rejected; a record whose algorithm is
      unknown or whose count is out of range raises; any other, whatever its algorithm and
      count, is accepted exactly when the password derives the stored digest from the
      stored salt. */
  lemma {:induction false} VerifyDecides(kdf: Kdf, password: string, text: string)
    requires kdf.Lawful()
    ensures var f := Split(text, '$');
      if !IsRecord(text) then Verify(kdf, password, text) == Matches(false)
      else if AlgorithmOf(f[0]) !in kdf.known || !(1 <= IntOf(f[1]) <= 0x7FFF_FFFF)
      then Verify(kdf, password, text) == Raises
      else
        Spells(f[2], BytesOf(f[2])) && Spells(f[3], BytesOf(f[3])) &&
        Verify(kdf, password, text)
        == Matches(kdf.derive(AlgorithmOf(f[0]), password, BytesOf(f[2]), IntOf(f[1])) == Some(BytesOf(f[3])))
  {
    RejectedExactly(kdf, password, text);
    if IsRecord(text) {
      var f := Split(text, '$');
      RecordRead(text);
      HexIsSpelled(f[2]);
      HexIsSpelled(f[3]);
      hide Parse, Split, IsRecord, IntOf, BytesOf, Spells, AlgorithmOf;
      VerifyParsed(kdf, password, text, Record(AlgorithmOf(f[0]), IntOf(f[1]), BytesOf(f[2]), BytesOf(f[3])));
      hide Verify, Kdf.Lawful;
    }
  }

  lemma Derives(kdf: Kdf, password: string, algorithm: string, salt: Bytes, count: int)
    requires kdf.Lawful()
    ensures kdf.derive(algorithm, password, salt, count).Some?
      <==> algorithm in kdf.known && 1 <= count <= 0x7FFF_FFFF
  {
  }

  lemma VerifyParsed(kdf: Kdf, password: string, text: string, r: Record)
    requires kdf.Lawful() && Parse(text) == Some(r)
    ensures Verify(kdf, password, text) ==
      if r.algorithm !in kdf.known || !(1 <= r.iterations <= 0x7FFF_FFFF) then Raises
      else Matches(kdf.derive(r.algorithm, password, r.salt, r.iterations) == Some(r.digest))
  {
    Derives(kdf, password, r.algorithm, r.salt, r.iterations);
    hide Parse, Kdf.Lawful;
  }

  lemma RecordRead(text: string)
    requires IsRecord(text)
    ensures var f := Split(text, '$');
      Parse(text) == Some(Record(AlgorithmOf(f[0]), IntOf(f[1]), BytesOf(f[2]), BytesOf(f[3])))
  {
    var f := Split(text, '$');
    IntIsNumber(f[1]);
    HexIsSpelled(f[2]);
    HexIsSpelled(f[3]);
    PrefixGoes(f[0]);
    hide Split, IntText, HexText, ParseInt, FromHex, RemovePrefix, IntOf, BytesOf, Spells, AlgorithmOf;
  }

  /** A record with any algorithm, count, salt and digest, as `hash_password` would spell
      it: the count travels with it, so records older than the present count verify too. */
  lemma RecordsVerify(kdf: Kdf, password: string, algorithm: string, count: nat, salt: Bytes, digest: Bytes)
    requires kdf.Lawful() && '$' !in algorithm
    ensures Verify(kdf, password, "pbkdf2_" + algorithm + "$" + Decimal(count) + "$" + Hex(salt) + "$" + Hex(digest))
      == if algorithm in kdf.known && 1 <= count <= 0x7FFF_FFFF
         then Matches(kdf.derive(algorithm, password, salt, count) == Some(digest)) else Raises
  {
    HexRoundTrip(salt);
    HexRoundTrip(digest);
    DecimalDigits(count);
    DecimalRoundTrip(count);
    hide Decimal, Hex, FromHex, ParseInt, Parse;
    var f0 := "pbkdf2_" + algorithm;
    FourFields(f0, Decimal(count), Hex(salt), Hex(digest));
    assert f0[|"pbkdf2_"|..] == algorithm;
    Derives(kdf, password, algorithm, salt, count);
  }

  /** Verification raises if and only if the text is a record whose algorithm is unknown or
      whose count is out of range: what the fields say, before any key is derived. */
  lemma {:induction false} RaisesExactly(kdf: Kdf, password: string, text: string)
    requires kdf.Lawful()
    ensures Verify(kdf, password, text).Raises? <==>
      && IsRecord(text)
      && var f := Split(text, '$');
         AlgorithmOf(f[0]) !in kdf.known || !(1 <= IntOf(f[1]) <= 0x7FFF_FFFF)
  {
    VerifyDecides(kdf, password, text);
    hide *;
  }

  const ZERO_COUNT := "sha256" + "$" + "0" + "$" + "" + "$" + ""

  /** One such record. */
  lemma ZeroCountRaises(kdf: Kdf, password: string)
    requires kdf.Lawful()
    ensures Verify(kdf, password, ZERO_COUNT).Raises?
  {
    FourFields("sha256", "0", "", "");
    DecimalRoundTrip(0);
    assert Decimal(0) == "0";
    hide Parse, ParseInt, Decimal;
    assert "sha256"[0] != "pbkdf2_"[0];
  }
}
