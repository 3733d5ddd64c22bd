/** src/core/bounded_gzip.py: inflating an untrusted gzip body under a cap.

    zlib itself is not modelled. What is assumed of it is `Engine.Lawful`: it is a
    deterministic stream machine that reads the body from the front, never reads
    past the end of the first gzip member, never returns more than it was asked
    for, always makes progress, and may hold output back until `flush`.
 */
module BoundedGzip {
  import opened Common
  import opened Text

  /** What a whole body means (RFC 1952 section 2.2), whoever inflates it. */
  datatype Meaning =
    | Partial(out: Bytes)              // a proper beginning of a member
    | Complete(out: Bytes)             // exactly one member
    | Trailing(out: Bytes)             // one member and at least one more byte
    | Broken                           // not the beginning of any member

  /** One reply of the machine. `tail` is its `unconsumed_tail`, `unused` its `unused_data`. */
  datatype Reply<S> =
    | Bad
    | Piece(next: S, piece: Bytes, tail: Bytes, unused: Bytes)

  /** One call of the machine. */
  datatype Move = Feed(input: Bytes, limit: nat) | End

  /** `fed` and `got` say which bytes a state has consumed and produced so far. */
  datatype Engine<!S(!new)> = Engine(
    start: S,
    decompress: (S, Bytes, nat) -> Reply<S>,
    flush: S -> Reply<S>,
    eof: S -> bool,
    fed: S -> Bytes,
    got: S -> Bytes,
    meaning: Bytes -> Meaning)
  {
    ghost predicate Lawful() {
      && fed(start) == [] && got(start) == [] && !eof(start)
      && meaning([]) == Partial([])
      && MeaningGrows()
      && DecompressLaw()
      && FlushLaw()
    }

    function Answer(s: S, move: Move): Reply<S> {
      match move
      case Feed(input, limit) => decompress(s, input, limit)
      case End => flush(s)
    }

    /** The state a series of calls leads to, unless one of them fails. */
    ghost function Reached(moves: seq<Move>): Option<S> {
      if moves == [] then Some(start)
      else
        match Reached(moves[..|moves| - 1])
        case None => None
        case Some(s) =>
          match Answer(s, moves[|moves| - 1])
          case Bad => None
          case Piece(next, _, _, _) => Some(next)
    }

    /** Some series of calls gets more than `cap` bytes out of a beginning of the body. */
    ghost predicate Overflows(body: Bytes, cap: nat) {
      exists moves :: OverflowsBy(moves, body, cap)
    }

    ghost predicate OverflowsBy(moves: seq<Move>, body: Bytes, cap: nat) {
      Reached(moves).Some? && fed(Reached(moves).value) <= body && |got(Reached(moves).value)| > cap
    }

    /** Meaning of a longer body follows from that of a beginning of it. */
    ghost predicate MeaningGrows() {
      forall a, b :: GrowsAt(a, b)
    }

    ghost predicate GrowsAt(a: Bytes, b: Bytes) {
      b != [] ==>
        match meaning(a)
        case Broken => meaning(a + b) == Broken
        case Complete(out) => meaning(a + b) == Trailing(out)
        case Trailing(out) => meaning(a + b) == Trailing(out)
        case Partial(out) => meaning(a + b).Broken? || out <= meaning(a + b).out
    }

    /** A state between calls. It never consumed past the end of the member; what it
        produced is a beginning of the output its input determines, unless that
        input is broken and it has not noticed yet; and it reports the end exactly
        when the member is complete and fully produced. */
    ghost predicate Coherent(s: S) {
      && (match meaning(fed(s))
          case Partial(out) => got(s) <= out
          case Complete(out) => got(s) <= out
          case Trailing(_) => false
          case Broken => true)
      && (eof(s) <==> meaning(fed(s)) == Complete(got(s)))
    }

    /** Some beginning of `input` turns what was already read into no gzip at all. */
    ghost predicate BreaksIn(read: Bytes, input: Bytes) {
      exists k :: 0 <= k <= |input| && meaning(read + input[..k]) == Broken
    }

    ghost predicate DecompressLaw() {
      forall s, input, limit :: DecompressAt(s, input, limit)
    }

    /** One call with input and a positive limit. */
    ghost predicate DecompressAt(s: S, input: Bytes, limit: nat) {
      Coherent(s) && !eof(s) && input != [] && limit >= 1 ==>
        match decompress(s, input, limit)
        case Bad => BreaksIn(fed(s), input)
        case Piece(next, piece, tail, unused) =>
          && fed(next) + tail + unused == fed(s) + input
          && |tail| + |unused| <= |input|
          && (|tail| + |unused| < |input| || piece != [])
          && got(next) == got(s) + piece
          && |piece| <= limit
          && Coherent(next)
          && (if eof(next) then tail == [] else unused == [])
    }

    ghost predicate FlushLaw() {
      forall s :: FlushAt(s)
    }

    /** `flush` hands over everything still held back. */
    ghost predicate FlushAt(s: S) {
      Coherent(s) ==>
        match flush(s)
        case Bad => meaning(fed(s)) == Broken
        case Piece(next, piece, tail, unused) =>
          && fed(next) == fed(s)
          && got(next) == got(s) + piece
          && Coherent(next)
          && (match meaning(fed(s))
              case Partial(out) => got(next) == out
              case Complete(out) => got(next) == out
              case _ => true)
    }
  }

  lemma MovesOn<S(!new)>(engine: Engine<S>, moves: seq<Move>, move: Move)
    requires engine.Reached(moves).Some?
    ensures engine.Answer(engine.Reached(moves).value, move).Piece? ==>
      engine.Reached(moves + [move]) == Some(engine.Answer(engine.Reached(moves).value, move).next)
  {
    assert (moves + [move])[..|moves|] == moves;
  }

  /** `zlib.decompressobj(wbits=31)`: the machine with the attributes Python shows. */
  class Inflater<S(!new)> {
    const engine: Engine<S>
    var state: S
    var eof: bool
    var unconsumedTail: Bytes
    var unusedData: Bytes
    ghost var moves: seq<Move>

    ghost predicate Valid() reads this {
      engine.Lawful() && engine.Coherent(state) && eof == engine.eof(state) && engine.Reached(moves) == Some(state)
    }

    constructor (engine: Engine<S>)
      requires engine.Lawful()
      ensures this.engine == engine && Valid()
      ensures state == engine.start && !eof && unconsumedTail == [] && unusedData == []
    {
      this.engine := engine;
      state := engine.start;
      eof := engine.eof(engine.start);
      unconsumedTail, unusedData := [], [];
      moves := [];
    }

    /** `None` is `zlib.error`. */
    method Decompress(input: Bytes, limit: nat) returns (piece: Option<Bytes>)
      requires Valid() && !eof && input != [] && limit >= 1
      modifies this
      ensures piece.None? ==> engine.BreaksIn(engine.fed(old(state)), input)
      ensures piece.Some? ==>
        && Valid()
        && |piece.value| <= limit
        && engine.got(state) == engine.got(old(state)) + piece.value
        && engine.fed(state) + unconsumedTail + unusedData == engine.fed(old(state)) + input
        && |unconsumedTail| + |unusedData| <= |input|
        && (|unconsumedTail| + |unusedData| < |input| || piece.value != [])
        && (if eof then unconsumedTail == [] else unusedData == [])
    {
      assert engine.DecompressAt(state, input, limit);
      match engine.decompress(state, input, limit)
      case Bad =>
        piece := None;
      case Piece(next, p, tail, unused) =>
        MovesOn(engine, moves, Feed(input, limit));
        moves := moves + [Feed(input, limit)];
        state, unconsumedTail, unusedData := next, tail, unused;
        eof := engine.eof(next);
        piece := Some(p);
    }

    method Flush() returns (piece: Option<Bytes>)
      requires Valid()
      modifies this
      ensures piece.None? ==> engine.meaning(engine.fed(old(state))) == Broken
      ensures piece.Some? ==>
        && Valid()
        && engine.fed(state) == engine.fed(old(state))
        && engine.got(state) == engine.got(old(state)) + piece.value
        && (match engine.meaning(engine.fed(state))
            case Partial(out) => engine.got(state) == out
            case Complete(out) => engine.got(state) == out
            case _ => true)
    {
      assert engine.FlushAt(state);
      match engine.flush(state)
      case Bad =>
        piece := None;
      case Piece(next, p, _, _) =>
        MovesOn(engine, moves, End);
        moves := moves + [End];
        state := next;
        eof := engine.eof(next);
        piece := Some(p);
    }
  }

  /** A SHA-256 accumulator: `sha` is the hash function, taken as given. */
  class Digest {
    const sha: Bytes -> string
    var hashed: Bytes

    constructor (sha: Bytes -> string)
      ensures this.sha == sha && hashed == []
    {
      this.sha := sha;
      hashed := [];
    }

    method Update(piece: Bytes)
      modifies this
      ensures hashed == old(hashed) + piece
    {
      hashed := hashed + piece;
    }

    function HexDigest(): string reads this {
      sha(hashed)
    }
  }

  datatype Outcome = Ok(data: Bytes, sha256: string) | TooLarge | InvalidGzip

  const CHUNK: nat := 64 * 1024

  /** The answer the module promises for a body with this meaning. A body that
      breaks off or is followed by more bytes can still be refused as too large
      first; a body that is not gzip at all is refused either way. */
  ghost predicate Answers(m: Meaning, sha: Bytes -> string, maxOutput: nat, r: Outcome) {
    match m
    case Complete(out) => r == if |out| <= maxOutput then Ok(out, sha(out)) else TooLarge
    case Partial(out) => r == if |out| <= maxOutput then InvalidGzip else TooLarge
    case Trailing(out) => r == if |out| <= maxOutput then InvalidGzip else TooLarge
    case Broken => !r.Ok?
  }

  // ------------------------------------------------------------ consequences of the law

  /** Reading on from a beginning of the body keeps what that beginning determined. */
  lemma MeaningOfMore<S(!new)>(engine: Engine<S>, a: Bytes, body: Bytes)
    requires engine.Lawful() && a <= body
    ensures match engine.meaning(a)
      case Broken => engine.meaning(body) == Broken
      case Complete(out) => engine.meaning(body) == if |a| < |body| then Trailing(out) else Complete(out)
      case Trailing(out) => engine.meaning(body) == Trailing(out)
      case Partial(out) => engine.meaning(body).Broken? || out <= engine.meaning(body).out
  {
    var b := body[|a|..];
    assert body == a + b && engine.GrowsAt(a, b);
    if b == [] {
      assert a == body;
    }
  }

  /** A machine that produced more than the cap was fed a body that is too large or broken. */
  lemma OverflowIsReal<S(!new)>(engine: Engine<S>, s: S, body: Bytes, sha: Bytes -> string, maxOutput: nat)
    requires engine.Lawful() && engine.Coherent(s) && engine.fed(s) <= body
    requires |engine.got(s)| > maxOutput
    ensures Answers(engine.meaning(body), sha, maxOutput, TooLarge)
  {
    MeaningOfMore(engine, engine.fed(s), body);
  }

  lemma BreakIsReal<S(!new)>(engine: Engine<S>, read: Bytes, input: Bytes, body: Bytes)
    requires engine.Lawful() && engine.BreaksIn(read, input) && read + input <= body
    ensures engine.meaning(body) == Broken
  {
    var k :| 0 <= k <= |input| && engine.meaning(read + input[..k]) == Broken;
    MeaningOfMore(engine, read + input[..k], body);
  }

  // ------------------------------------------------------------ the routine

  /** `_append`: refuses a piece that would pass the cap, else stores and hashes it. */
  method Append(out: Bytes, digest: Digest, piece: Bytes, maxOutput: nat)
    returns (longer: Bytes, tooLarge: bool)
    modifies digest
    ensures tooLarge <==> |out| + |piece| > maxOutput
    ensures !tooLarge ==> longer == out + piece && digest.hashed == old(digest.hashed) + piece
  {
    longer, tooLarge := out, |out| + |piece| > maxOutput;
    if !tooLarge {
      longer := out + piece;
      digest.Update(piece);
    }
  }

  /** The inner loop: feeds one chunk, as often as the machine leaves a tail. Every
      limit passed is at least 1 and at most one more than the room left. */
  method InflateChunk<S(!new)>(inflater: Inflater<S>, digest: Digest, soFar: Bytes, input: Bytes,
                               maxOutput: nat, ghost body: Bytes)
    returns (out: Bytes, failure: Option<Outcome>)
    requires inflater.Valid() && !inflater.eof
    requires inflater.engine.got(inflater.state) == soFar == digest.hashed && |soFar| <= maxOutput
    requires inflater.engine.fed(inflater.state) + input <= body
    modifies inflater, digest
    ensures failure.Some? ==>
      Answers(inflater.engine.meaning(body), digest.sha, maxOutput, failure.value)
    ensures failure == Some(TooLarge) ==>
      inflater.engine.Overflows(body, maxOutput) && |inflater.engine.got(inflater.state)| == maxOutput + 1
    ensures failure.None? ==>
      && inflater.Valid()
      && inflater.engine.got(inflater.state) == out == digest.hashed && |out| <= maxOutput
      && inflater.engine.fed(inflater.state) + (if inflater.eof then inflater.unusedData else [])
         == old(inflater.engine.fed(inflater.state)) + input
  {
    hide Engine.Lawful, Engine.BreaksIn, Engine.Coherent, Engine.Reached;
    ghost var engine := inflater.engine;
    ghost var total := engine.fed(inflater.state) + input;
    out, failure := soFar, None;
    var pending := input;
    while pending != []
      invariant inflater.Valid() && !inflater.eof
      invariant engine.fed(inflater.state) + pending == total
      invariant engine.got(inflater.state) == out == digest.hashed && |out| <= maxOutput
      decreases |pending| + (maxOutput - |out|)
    {
      ghost var read := engine.fed(inflater.state);
      var piece := inflater.Decompress(pending, maxOutput - |out| + 1);
      if piece.None? {
        BreakIsReal(engine, read, pending, body);
        return out, Some(InvalidGzip);
      }
      assert engine.fed(inflater.state) <= total;
      var tooLarge;
      out, tooLarge := Append(out, digest, piece.value, maxOutput);
      if tooLarge {
        OverflowIsReal(engine, inflater.state, body, digest.sha, maxOutput);
        assert engine.OverflowsBy(inflater.moves, body, maxOutput);
        return out, Some(TooLarge);
      }
      pending := inflater.unconsumedTail;
      if inflater.eof {
        break;
      }
    }
  }

  /** `gunzip_capped`, for any size of input chunk. */
  method GunzipCapped<S(!new)>(engine: Engine<S>, sha: Bytes -> string, body: Bytes, maxOutput: nat,
                               chunk: nat := CHUNK)
    returns (r: Outcome)
    requires engine.Lawful() && chunk >= 1
    ensures Answers(engine.meaning(body), sha, maxOutput, r)
    ensures r.TooLarge? ==> engine.Overflows(body, maxOutput)
  {
    hide Engine.MeaningGrows, Engine.DecompressLaw, Engine.FlushLaw, Engine.Reached;
    var inflater := new Inflater(engine);
    var digest := new Digest(sha);
    var out: Bytes := [];
    var start := 0;
    while start < |body|
      invariant inflater.Valid() && inflater.engine == engine && !inflater.eof
      invariant engine.fed(inflater.state) == body[..if start < |body| then start else |body|]
      invariant engine.got(inflater.state) == out == digest.hashed && |out| <= maxOutput
      invariant digest.sha == sha
    {
      var end := if start + chunk < |body| then start + chunk else |body|;
      assert body[..start] + body[start..end] == body[..end];
      var failure;
      out, failure := InflateChunk(inflater, digest, out, body[start..end], maxOutput, body);
      if failure.Some? {
        return failure.value;
      }
      if inflater.eof {
        MeaningOfMore(engine, engine.fed(inflater.state), body);
        if inflater.unusedData != [] || start + chunk < |body| {
          return InvalidGzip;
        }
        assert engine.fed(inflater.state) == body;
        break;
      }
      start := start + chunk;
    }
    assert engine.fed(inflater.state) == body by {
      assert body[..|body|] == body;
    }
    hide Engine.Lawful;
    var last := inflater.Flush();
    if last.None? {
      return InvalidGzip;
    }
    var tooLarge;
    out, tooLarge := Append(out, digest, last.value, maxOutput);
    if tooLarge {
      OverflowIsReal(engine, inflater.state, body, sha, maxOutput);
      assert engine.OverflowsBy(inflater.moves, body, maxOutput);
      return TooLarge;
    }
    if !inflater.eof {
      return InvalidGzip;
    }
    return Ok(out, digest.HexDigest());
  }

  /** Two runs over one body, with any two chunk sizes: they accept alike and return the
      same; a body that is no gzip both refuse. */
  method ChunkingDoesNotMatter<S(!new)>(engine: Engine<S>, sha: Bytes -> string, body: Bytes, maxOutput: nat,
                                        chunk: nat, chunk': nat)
    returns (r: Outcome, r': Outcome)
    requires engine.Lawful() && chunk >= 1 && chunk' >= 1
    ensures r.Ok? || r'.Ok? || !engine.meaning(body).Broken? ==> r == r'
    ensures r.Ok? <==> engine.meaning(body).Complete? && |engine.meaning(body).out| <= maxOutput
    ensures r.Ok? ==> r.data == engine.meaning(body).out && r.sha256 == sha(r.data)
  {
    r := GunzipCapped(engine, sha, body, maxOutput, chunk);
    r' := GunzipCapped(engine, sha, body, maxOutput, chunk');
  }

  /** A small lawful machine: a member is a length byte and that many literal bytes,
      read one byte per call. */
  function LiteralMeaning(b: Bytes): Meaning {
    if b == [] then Partial([])
    else if |b| - 1 < b[0] then Partial(b[1..])
    else if |b| - 1 == b[0] then Complete(b[1..])
    else Trailing(b[1..1 + b[0]])
  }

  function LiteralDecompress(read: Bytes, input: Bytes, limit: nat): Reply<Bytes> {
    if input == [] then Bad
    else
      var next := read + [input[0]];
      var piece := if read == [] then [] else [input[0]];
      if LiteralMeaning(next).Complete? then Piece(next, piece, [], input[1..])
      else Piece(next, piece, input[1..], [])
  }

  function LiteralEngine(): Engine<Bytes> {
    Engine([], LiteralDecompress, read => Piece(read, [], [], []),
           read => LiteralMeaning(read).Complete?, read => read,
           read => if read == [] then [] else read[1..], LiteralMeaning)
  }

  lemma LiteralDecompressIsLawful(s: Bytes, input: Bytes, limit: nat)
    ensures LiteralEngine().DecompressAt(s, input, limit)
  {
    var e := LiteralEngine();
    if e.Coherent(s) && !e.eof(s) && input != [] && limit >= 1 {
      var next := s + [input[0]];
      assert next + input[1..] == s + input;
      assert s != [] ==> next[1..] == s[1..] + [input[0]];
    }
  }

  lemma LiteralEngineIsLawful()
    ensures LiteralEngine().Lawful()
  {
    var e := LiteralEngine();
    forall a, b ensures e.GrowsAt(a, b) {
      assert a != [] ==> (a + b)[0] == a[0] && (a + b)[1..] == a[1..] + b;
    }
    forall s, input, limit ensures e.DecompressAt(s, input, limit) {
      LiteralDecompressIsLawful(s, input, limit);
    }
    forall s ensures e.FlushAt(s) {
    }
  }
}
