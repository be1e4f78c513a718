/** The parser's whole state as a value, and the transition function that feeding one
    character applies to it. The class in module Parser is proved to implement these. */
module ParserSpec {
  import opened Nmea

  datatype Option<T> = None | Some(value: T)

  /** The public output fields. */
  datatype Outputs = Outputs(
    timeMessageReady: bool,
    hour: uint8, minute: uint8, second: uint8, subSec: uint8,
    day: uint8, month: uint8, year: uint8,
    valid: Char8,
    nsatMessageReady: bool,
    nsat: uint8)

  /** Every field of a parser: the private parse state, the received-checksum accumulator
      and the outputs. `buf` is the whole scratch buffer, not only its filled part. */
  datatype Snapshot = Snapshot(
    state: NmeaState,
    id: NmeaId,
    checksum: bv8,
    tokenNumber: uint8,
    bufPos: uint8,
    buf: seq<Char8>,
    rChecksum: bv8,
    out: Outputs)

  function Zeros(n: nat): (z: seq<Char8>)
    ensures |z| == n && forall i :: 0 <= i < n ==> z[i] == '\0'
  {
    seq(n, _ => '\0')
  }

  /** The scratch buffer holding field `f`: `f` followed by NULs. */
  function Pad(f: seq<Char8>): (b: seq<Char8>)
    requires |f| <= BuffSize
  {
    f + Zeros(BuffSize - |f|)
  }

  /** The buffer invariant: the buffer has its fixed capacity, the fill index lies within it,
      and every slot from the fill index on holds NUL. */
  predicate WellFormed(s: Snapshot)
  {
    |s.buf| == BuffSize && s.bufPos <= BuffSize &&
    forall i :: s.bufPos <= i < BuffSize ==> s.buf[i] == '\0'
  }

  /** Facts about the parse state that hold in every state the parser reaches from its
      initial state: the address phase has no kind and no field counted yet, the data phase
      always has a recognised kind, no ready flag is raised while a sentence is being read,
      and the two ready flags are never raised together. */
  predicate Consistent(s: Snapshot)
  {
    (s.state == Id ==> s.id == Other && s.tokenNumber == 0) &&
    (s.state == Data ==> s.id != Other) &&
    (s.state != Wait ==> !s.out.timeMessageReady && !s.out.nsatMessageReady) &&
    !(s.out.timeMessageReady && s.out.nsatMessageReady)
  }

  /** Between `$` and `*`: the phases in which characters enter the running checksum. */
  predicate InSentence(s: Snapshot)
  {
    s.state == Id || s.state == Data
  }

  /** What the constructor builds; it never sets `valid`, so that is a parameter. */
  function Initial(valid: Char8): (s: Snapshot)
    ensures WellFormed(s) && s.bufPos == 0 && s.state == Wait && s.out.valid == valid
    ensures !s.out.timeMessageReady && !s.out.nsatMessageReady
  {
    Snapshot(Wait, Other, 0, 0, 0, Zeros(BuffSize), 0,
             Outputs(false, 0, 0, 0, 0, 0, 0, 0, valid, false, 0))
  }

  /** clear_buf: NUL over every filled slot, counting the fill index down to 0. */
  function Cleared(s: Snapshot): (r: Snapshot)
    requires s.bufPos <= |s.buf|
    ensures r == s.(buf := r.buf, bufPos := 0) && |r.buf| == |s.buf|
    ensures WellFormed(s) ==> WellFormed(r) && r.buf == Zeros(BuffSize)
  {
    var r := s.(buf := Zeros(s.bufPos) + s.buf[s.bufPos..], bufPos := 0);
    assert WellFormed(s) ==> r.buf == Zeros(BuffSize);
    r
  }

  /** reset: clears the buffer, the parse state, both ready flags and every numeric output;
      `valid` and the received-checksum accumulator are kept. */
  function Restarted(s: Snapshot): (r: Snapshot)
    requires s.bufPos <= |s.buf|
    ensures WellFormed(s) ==> r == Initial(s.out.valid).(rChecksum := s.rChecksum)
  {
    Cleared(s).(state := Wait, id := Other, checksum := 0, tokenNumber := 0,
                out := s.out.(timeMessageReady := false,
                              hour := 0, minute := 0, second := 0, subSec := 0,
                              day := 0, month := 0, year := 0,
                              nsatMessageReady := false, nsat := 0))
  }

  /** data_rmc_reader: decodes the buffered field of an RMC sentence by its index. */
  function RmcRead(s: Snapshot): (r: Snapshot)
    requires |s.buf| == BuffSize
    ensures r == s.(out := r.out)
  {
    var b := s.buf;
    if b[0] == '\0' then s
    else if s.tokenNumber == 0 then
      s.(out := s.out.(hour := Str2Decimal(b[0], b[1]), minute := Str2Decimal(b[2], b[3]),
                       second := Str2Decimal(b[4], b[5]), subSec := Str2Decimal(b[7], b[8])))
    else if s.tokenNumber == 1 then
      s.(out := s.out.(valid := b[0]))
    else if s.tokenNumber == 8 then
      s.(out := s.out.(day := Str2Decimal(b[0], b[1]), month := Str2Decimal(b[2], b[3]),
                       year := Str2Decimal(b[4], b[5])))
    else s
  }

  /** data_gga_reader: decodes the buffered field of a GGA sentence by its index. */
  function GgaRead(s: Snapshot): (r: Snapshot)
    requires |s.buf| == BuffSize
    ensures r == s.(out := r.out)
  {
    if s.buf[0] == '\0' then s
    else if s.tokenNumber == 6 then s.(out := s.out.(nsat := Str2Decimal(s.buf[0], s.buf[1])))
    else s
  }

  /** The field reader chosen by the sentence kind. */
  function FieldRead(s: Snapshot): (r: Snapshot)
    requires |s.buf| == BuffSize
    ensures r == s.(out := r.out)
  {
    match s.id
    case Rmc => RmcRead(s)
    case Gga => GgaRead(s)
    case Other => s
  }

  /** `buf[buf_pos++] = c`. */
  function Appended(s: Snapshot, c: Char8): (r: Snapshot)
    requires |s.buf| == BuffSize && s.bufPos < BuffSize
  {
    s.(buf := s.buf[s.bufPos := c], bufPos := s.bufPos + 1)
  }

  /** Storing a character puts it right after the characters already buffered and keeps the
      buffer invariant; nothing but the buffer and the fill index changes. */
  lemma AppendedExtends(s: Snapshot, c: Char8)
    requires WellFormed(s) && s.bufPos < BuffSize
    ensures var r := Appended(s, c);
            WellFormed(r) && r == s.(buf := r.buf, bufPos := s.bufPos + 1) &&
            r.buf[..r.bufPos] == s.buf[..s.bufPos] + [c]
  {
  }

  /** Feeding `c` in snapshot `s` stores `c` in the scratch buffer. */
  predicate Appends(s: Snapshot, c: Char8)
  {
    c != '$' && InSentence(s) && c != '*' && c != ','
  }

  /** The source writes to the buffer without a bounds check: a step is defined only when it
      does not write past the buffer's capacity. */
  predicate CanStep(s: Snapshot, c: Char8)
  {
    Appends(s, c) ==> s.bufPos < BuffSize
  }

  /** The checksum value carried by the characters `h1 h2` after `*`: each shifts the
      8-bit accumulator left by four bits and ORs in its digit value, so whatever the
      accumulator held before is shifted out. */
  function Received(h1: Char8, h2: Char8): (r: bv8)
  {
    ((HexChar(h1) as bv8) << 4) | (HexChar(h2) as bv8)
  }

  /** nmea_parse: the transition made by feeding one character. */
  function Step(s: Snapshot, c: Char8): (r: Snapshot)
    requires WellFormed(s) && CanStep(s, c)
    ensures WellFormed(r)
  {
    if c == '$' then
      Restarted(s).(state := Id)
    else if s.state == Wait then
      s
    else if c == '*' then
      Cleared(s).(state := Checksum)
    else if s.state == Checksum then
      ChecksumStep(s, c)
    else
      SentenceStep(s, c)
  }

  /** A character other than `$` and `*` after `*`: a checksum digit, or the terminator
      that compares the two checksums. */
  function ChecksumStep(s: Snapshot, c: Char8): (r: Snapshot)
    ensures r == s.(rChecksum := r.rChecksum, state := r.state,
                    out := s.out.(timeMessageReady := r.out.timeMessageReady,
                                  nsatMessageReady := r.out.nsatMessageReady))
    ensures s.out.timeMessageReady ==> r.out.timeMessageReady
    ensures s.out.nsatMessageReady ==> r.out.nsatMessageReady
    ensures r.state == Wait || r.rChecksum == (s.rChecksum << 4) | (HexChar(c) as bv8)
  {
    if c != '\r' && c != '\n' then
      s.(rChecksum := (s.rChecksum << 4) | (HexChar(c) as bv8))
    else
      var matched := s.checksum == s.rChecksum;
      s.(rChecksum := 0, state := Wait,
         out := s.out.(timeMessageReady := s.out.timeMessageReady || (matched && s.id == Rmc),
                       nsatMessageReady := s.out.nsatMessageReady || (matched && s.id == Gga)))
  }

  /** A character other than `$` and `*` between `$` and `*`: it enters the running checksum
      and is either stored or, for `,`, ends the current field. */
  function SentenceStep(s: Snapshot, c: Char8): (r: Snapshot)
    requires WellFormed(s) && InSentence(s)
    requires c != ',' ==> s.bufPos < BuffSize
    ensures WellFormed(r) && InSentence(r)
    ensures r.checksum == s.checksum ^ (c as int as bv8) && r.rChecksum == s.rChecksum
    ensures r.out.timeMessageReady == s.out.timeMessageReady
    ensures r.out.nsatMessageReady == s.out.nsatMessageReady
  {
    var t := s.(checksum := s.checksum ^ (c as int as bv8));
    if c != ',' then
      Appended(t, c)
    else if s.state == Id then
      var kind := CheckMessageId(t.buf);
      Cleared(t.(id := kind, state := if kind != Other then Data else Id))
    else
      var u := FieldRead(t);
      Cleared(u.(tokenNumber := ToUint8(u.tokenNumber + 1)))
  }

  /** Feeding a stream of characters in order; `None` when some character would be written
      past the end of the scratch buffer. */
  function Run(s: Snapshot, cs: seq<Char8>): (r: Option<Snapshot>)
    requires WellFormed(s)
    ensures r.Some? ==> WellFormed(r.value)
    decreases |cs|
  {
    if cs == [] then Some(s)
    else
      match Run(s, cs[..|cs| - 1])
      case None => None
      case Some(t) => if CanStep(t, cs[|cs| - 1]) then Some(Step(t, cs[|cs| - 1])) else None
  }

  /** The NMEA 0183 checksum of a character sequence: the XOR of all its characters. */
  function XorAll(cs: seq<Char8>): (x: bv8)
    decreases |cs|
  {
    if cs == [] then 0 else XorAll(cs[..|cs| - 1]) ^ (cs[|cs| - 1] as int as bv8)
  }

  /** The characters of a stream after its last `$` (all of them if it has none). */
  function SinceLastDollar(cs: seq<Char8>): (r: seq<Char8>)
    ensures '$' !in r
    decreases |cs|
  {
    if cs == [] then []
    else if cs[|cs| - 1] == '$' then []
    else SinceLastDollar(cs[..|cs| - 1]) + [cs[|cs| - 1]]
  }
}
