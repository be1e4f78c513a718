/** Types, constants and character-level helpers of the NMEA 0183 sentence parser. */
module Nmea {

  /** Capacity of the per-field scratch buffer. */
  const BuffSize := 64

  /** An 8-bit C `char`. Whether the platform's `char` is signed makes no difference to the
      parser: every use of a character either compares it with an ASCII character or is
      reduced modulo 256. */
  type Char8 = c: char | c as int < 256 witness '\0'

  /** A C `uint8_t`, held as an integer; arithmetic on it is reduced modulo 256 explicitly. */
  type uint8 = x: int | 0 <= x < 256

  /** Conversion of a C `int` to `uint8_t`: reduction modulo 256, written as repeated
      wrap-around so that a value already in range is returned after one test. This form
      keeps `%` out of the facts the solver sees wherever a field is decoded, which keeps
      the proofs about whole sentences cheap; `ToUint8IsMod` shows it equals `x % 256`. */
  function ToUint8(x: int): (r: uint8)
    ensures 0 <= x < 256 ==> r == x
    decreases if x < 0 then 256 - x else x
  {
    if x < 0 then ToUint8(x + 256)
    else if x >= 256 then ToUint8(x - 256)
    else x
  }

  /** The conversion keeps exactly the value modulo 256. */
  lemma {:induction false} ToUint8IsMod(x: int)
    ensures ToUint8(x) == x % 256
    decreases if x < 0 then 256 - x else x
  {
    if x < 0 {
      ToUint8IsMod(x + 256);
    } else if x >= 256 {
      ToUint8IsMod(x - 256);
    }
  }

  /** Phase of the parser within one sentence; `Wait` is the phase a new parser starts in. */
  datatype NmeaState = Wait | Id | Data | Checksum

  /** Kind of the sentence being parsed; `Other` until an address field is recognised. */
  datatype NmeaId = Other | Rmc | Gga

  predicate IsDigit(c: char) { '0' <= c <= '9' }

  predicate IsHexDigit(c: char) { '0' <= c <= '9' || 'a' <= c <= 'f' || 'A' <= c <= 'F' }

  /** The ASCII digit of a value 0..9. */
  function DigitChar(d: int): (c: Char8)
    requires 0 <= d < 10
  {
    (d + '0' as int) as char
  }

  /** How a value 0..99 is written in a two-digit NMEA field ("09" for nine). */
  function TwoDigits(v: int): (s: seq<Char8>)
    requires 0 <= v < 100
  {
    [DigitChar(v / 10), DigitChar(v % 10)]
  }

  /** The upper-case hexadecimal digit of a value 0..15, as a talker writes its checksum. */
  function HexDigit(v: int): (c: Char8)
    requires 0 <= v < 16
  {
    if v < 10 then DigitChar(v) else (v - 10 + 'A' as int) as char
  }

  /** The lower-case hexadecimal digit of a value 0..15. */
  function LowerHexDigit(v: int): (c: Char8)
    requires 0 <= v < 16
  {
    if v < 10 then DigitChar(v) else (v - 10 + 'a' as int) as char
  }

  /** str2decimal: the value of the two-character decimal field starting at `d0`. The
      source computes in `int` and truncates to `uint8_t`, so malformed characters give
      that raw arithmetic modulo 256. */
  function Str2Decimal(d0: Char8, d1: Char8): (r: uint8)
    ensures IsDigit(d0) && IsDigit(d1) ==>
              r == 10 * (d0 as int - '0' as int) + (d1 as int - '0' as int)
  {
    ToUint8(10 * (d0 as int - '0' as int) + (d1 as int - '0' as int))
  }

  /** Two ASCII digits decode to a value 0..99 that is written back as the same two digits. */
  lemma Str2DecimalOfDigits(d0: Char8, d1: Char8)
    requires IsDigit(d0) && IsDigit(d1)
    ensures Str2Decimal(d0, d1) < 100 && TwoDigits(Str2Decimal(d0, d1)) == [d0, d1]
  {
  }

  /** Decoding what `TwoDigits` writes gives the value back. */
  lemma Str2DecimalOfTwoDigits(v: int)
    requires 0 <= v < 100
    ensures Str2Decimal(TwoDigits(v)[0], TwoDigits(v)[1]) == v
  {
  }

  /** hexchar: the value of one checksum digit, either case. Any other character gives the
      `uint8_t` truncation of its distance from '0'. */
  function HexChar(a: Char8): (r: uint8)
    ensures IsHexDigit(a) ==> r < 16
    ensures IsDigit(a) ==> r == a as int - '0' as int
  {
    if 'a' <= a <= 'f' then a as int - 'a' as int + 10
    else if 'A' <= a <= 'F' then a as int - 'A' as int + 10
    else ToUint8(a as int - '0' as int)
  }

  /** A hexadecimal digit of either case reads as the value 0..15 it is the digit of. */
  lemma HexCharOfHexDigitChar(a: Char8)
    requires IsHexDigit(a)
    ensures HexChar(a) < 16 && (a == HexDigit(HexChar(a)) || a == LowerHexDigit(HexChar(a)))
  {
  }

  /** Reading a hexadecimal digit of either case gives back the value it was written from. */
  lemma HexCharOfHexDigit(v: int)
    requires 0 <= v < 16
    ensures HexChar(HexDigit(v)) == v && HexChar(LowerHexDigit(v)) == v
  {
  }

  /** A talker ID the parser accepts: G followed by A (Galileo), L (GLONASS), N (multi-GNSS)
      or P (GPS). */
  predicate IsTalker(t: seq<char>)
  {
    |t| == 2 && t[0] == 'G' && t[1] in "ALNP"
  }

  /** check_message_id: the sentence kind named by the address field held in the first five
      characters of the scratch buffer. */
  function CheckMessageId(b: seq<Char8>): (r: NmeaId)
    requires |b| >= 5
    ensures r != Other ==> IsTalker(b[..2])
  {
    if b[0] != 'G' then Other
    else if b[1] != 'A' && b[1] != 'L' && b[1] != 'N' && b[1] != 'P' then Other
    else if b[2] == 'R' && b[3] == 'M' && b[4] == 'C' then Rmc
    else if b[2] == 'G' && b[3] == 'G' && b[4] == 'A' then Gga
    else Other
  }

  /** The address test: RMC exactly when the buffer starts with an accepted talker ID
      followed by "RMC", GGA exactly when it is followed by "GGA", OTHER otherwise. */
  lemma CheckMessageIdMeaning(b: seq<Char8>)
    requires |b| >= 5
    ensures CheckMessageId(b) == Rmc <==> IsTalker(b[..2]) && b[2..5] == "RMC"
    ensures CheckMessageId(b) == Gga <==> IsTalker(b[..2]) && b[2..5] == "GGA"
  {
  }
}
