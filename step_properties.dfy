/** What feeding one character does, branch by branch of nmea_parse, and the invariant every
    step keeps. */
module StepProperties {
  import opened Nmea
  import opened ParserSpec

  /** Appending one character to a stream XORs it into the stream's checksum. */
  lemma XorAllSnoc(fed: seq<Char8>, c: Char8)
    ensures XorAll(fed + [c]) == XorAll(fed) ^ (c as int as bv8)
  {
    assert (fed + [c])[..|fed|] == fed;
  }

  /** One step keeps the running checksum equal to the XOR of the characters fed since the
      last `$`, none of which is `*`, for as long as the parser is between `$` and `*`. */
  lemma StepChecksum(s: Snapshot, c: Char8, fed: seq<Char8>)
    requires WellFormed(s) && CanStep(s, c)
    requires InSentence(s) && c != '$' ==> s.checksum == XorAll(fed) && '*' !in fed
    ensures var fed' := if c == '$' then [] else fed + [c];
            InSentence(Step(s, c)) ==> Step(s, c).checksum == XorAll(fed') && '*' !in fed'
  {
    if c != '$' && InSentence(s) && c != '*' {
      XorAllSnoc(fed, c);
    }
  }

  /** `$`, in any state, starts a sentence from scratch: address phase, no sentence kind,
      checksum, field index and buffer emptied, every numeric output and both ready flags
      cleared; only `valid` and the received-checksum accumulator survive. */
  lemma DollarRestarts(s: Snapshot)
    requires WellFormed(s)
    ensures var r := Step(s, '$');
            r.state == Id && r.id == Other && r.checksum == 0 && r.tokenNumber == 0 &&
            r.bufPos == 0 && r.buf == Zeros(BuffSize) && r.rChecksum == s.rChecksum &&
            r.out == Outputs(false, 0, 0, 0, 0, 0, 0, 0, s.out.valid, false, 0)
  {
  }

  /** Before the first `$` of a sentence every other character is ignored. */
  lemma WaitIgnores(s: Snapshot, c: Char8)
    requires WellFormed(s) && s.state == Wait && c != '$'
    ensures CanStep(s, c) && Step(s, c) == s
  {
  }

  /** `*` after `$` ends the data without decoding the pending field or counting it: only the
      phase and the buffer change. */
  lemma StarEntersChecksum(s: Snapshot)
    requires WellFormed(s) && s.state != Wait
    ensures CanStep(s, '*')
    ensures Step(s, '*') == s.(state := Checksum, buf := Zeros(BuffSize), bufPos := 0)
  {
  }

  /** A checksum digit shifts the accumulator left by four bits and ORs in its value. */
  lemma ChecksumDigit(s: Snapshot, c: Char8)
    requires WellFormed(s) && s.state == Checksum
    requires c != '$' && c != '*' && c != '\r' && c != '\n'
    ensures CanStep(s, c)
    ensures Step(s, c) == s.(rChecksum := (s.rChecksum << 4) | (HexChar(c) as bv8))
  {
  }

  /** Two checksum characters leave exactly the value they carry in the accumulator, whatever
      it held before. */
  lemma ReceivedChecksum(s: Snapshot, h1: Char8, h2: Char8)
    requires WellFormed(s) && s.state == Checksum
    requires h1 != '$' && h1 != '*' && h1 != '\r' && h1 != '\n'
    requires h2 != '$' && h2 != '*' && h2 != '\r' && h2 != '\n'
    ensures CanStep(s, h1) && CanStep(Step(s, h1), h2)
    ensures Step(Step(s, h1), h2) == s.(rChecksum := Received(h1, h2))
  {
    ChecksumDigit(s, h1);
    var t := Step(s, h1);
    ChecksumDigit(t, h2);
    var a := HexChar(h1) as bv8;
    var b := HexChar(h2) as bv8;
    assert (((s.rChecksum << 4) | a) << 4) | b == (a << 4) | b by {
      assert ((s.rChecksum << 4) | a) << 4 == a << 4;
    }
  }

  /** Converting a value 0..15 to `bv8` and back gives it unchanged. */
  lemma NibbleRoundTrip(a: int)
    requires 0 <= a < 16
    ensures (a as bv8) as int == a
  {
  }

  /** The high and low four bits of a byte are its quotient and remainder by 16. */
  lemma Nibbles(v: bv8)
    ensures (v >> 4) as int == v as int / 16 && (v & 15) as int == v as int % 16
    ensures v >> 4 < 16 && v & 15 < 16
  {
  }

  /** Packing two values below 16 into the high and low four bits of a byte. */
  lemma PackNibbles(a: bv8, b: bv8)
    requires a as int < 16 && b as int < 16
    ensures ((a << 4) | b) as int == 16 * (a as int) + b as int
  {
    Nibbles(a);
    Nibbles(b);
    var x := (a << 4) | b;
    assert x >> 4 == a && x & 15 == b;
    Nibbles(x);
  }

  /** Two hexadecimal digits of either case carry the value 16 * first + second. */
  lemma ReceivedOfHexDigits(h1: Char8, h2: Char8)
    requires IsHexDigit(h1) && IsHexDigit(h2)
    ensures Received(h1, h2) as int == 16 * HexChar(h1) + HexChar(h2)
  {
    HexCharOfHexDigitChar(h1);
    HexCharOfHexDigitChar(h2);
    NibbleRoundTrip(HexChar(h1));
    NibbleRoundTrip(HexChar(h2));
    PackNibbles(HexChar(h1) as bv8, HexChar(h2) as bv8);
  }

  /** Two bytes with the same value are the same byte. */
  lemma Bv8Injective(x: bv8, y: bv8)
    requires x as int == y as int
    ensures x == y
  {
  }

  /** A checksum written as two upper-case hexadecimal digits is read back as itself. */
  lemma ReceivedOfHexByte(v: bv8)
    ensures Received(HexDigit(v as int / 16), HexDigit(v as int % 16)) == v
  {
    var h1 := HexDigit(v as int / 16);
    var h2 := HexDigit(v as int % 16);
    HexCharOfHexDigit(v as int / 16);
    HexCharOfHexDigit(v as int % 16);
    ReceivedOfHexDigits(h1, h2);
    Bv8Injective(Received(h1, h2), v);
  }

  /** CR or LF after the checksum: the time flag is raised exactly when the checksums match in
      an RMC sentence, the satellite flag exactly when they match in a GGA sentence; a flag
      already raised stays raised, at most one flag changes, nothing else but the phase and
      the accumulator changes. */
  lemma TerminatorFlags(s: Snapshot, c: Char8)
    requires WellFormed(s) && s.state == Checksum && (c == '\r' || c == '\n')
    ensures CanStep(s, c)
    ensures var r := Step(s, c);
            var matched := s.checksum == s.rChecksum;
            r.out.timeMessageReady == (s.out.timeMessageReady || (matched && s.id == Rmc)) &&
            r.out.nsatMessageReady == (s.out.nsatMessageReady || (matched && s.id == Gga)) &&
            !(r.out.timeMessageReady != s.out.timeMessageReady &&
              r.out.nsatMessageReady != s.out.nsatMessageReady) &&
            r == s.(state := Wait, rChecksum := 0,
                    out := s.out.(timeMessageReady := r.out.timeMessageReady,
                                  nsatMessageReady := r.out.nsatMessageReady))
  {
  }

  /** Any character but `$`, `*` and `,` between `$` and `*` is XORed into the running
      checksum and stored at the fill index. */
  lemma StoreStep(s: Snapshot, c: Char8)
    requires WellFormed(s) && InSentence(s) && s.bufPos < BuffSize
    requires c != '$' && c != '*' && c != ','
    ensures CanStep(s, c)
    ensures Step(s, c) == s.(checksum := s.checksum ^ (c as int as bv8),
                             buf := s.buf[s.bufPos := c], bufPos := s.bufPos + 1)
  {
    assert Step(s, c) == SentenceStep(s, c);
  }

  /** While the address is being read no character but `$` changes an output: an
      unrecognised sentence, which never leaves the address phase, decodes nothing. */
  lemma AddressPhaseKeepsOutputs(s: Snapshot, c: Char8)
    requires WellFormed(s) && s.state == Id && CanStep(s, c) && c != '$'
    ensures Step(s, c).out == s.out
  {
    if c != '*' && c != ',' {
      StoreStep(s, c);
    }
  }

  /** `,` ending the address field: the kind is what the address test says of the buffer, an
      unrecognised kind keeps the parser in the address phase, and no output changes. */
  lemma AddressComma(s: Snapshot)
    requires WellFormed(s) && s.state == Id
    ensures CanStep(s, ',')
    ensures var r := Step(s, ',');
            var kind := CheckMessageId(s.buf);
            r.id == kind && r.state == (if kind == Other then Id else Data) &&
            r.checksum == s.checksum ^ (',' as int as bv8) &&
            r.tokenNumber == s.tokenNumber && r.out == s.out && r.rChecksum == s.rChecksum &&
            r.bufPos == 0 && r.buf == Zeros(BuffSize)
  {
  }

  /** `,` ending a data field: the field is decoded by the sentence kind, the field index goes
      up by one modulo 256 and the buffer is emptied; nothing else changes. */
  lemma DataComma(s: Snapshot)
    requires WellFormed(s) && s.state == Data
    ensures CanStep(s, ',')
    ensures var r := Step(s, ',');
            r.state == Data && r.id == s.id && r.checksum == s.checksum ^ (',' as int as bv8) &&
            r.tokenNumber == ToUint8(s.tokenNumber + 1) && r.out == FieldRead(s).out &&
            r.rChecksum == s.rChecksum && r.bufPos == 0 && r.buf == Zeros(BuffSize)
  {
  }

  /** An empty data field changes no output. */
  lemma EmptyFieldRead(s: Snapshot)
    requires |s.buf| == BuffSize && s.buf[0] == '\0'
    ensures FieldRead(s) == s
  {
  }

  /** Only RMC fields 0, 1 and 8 and GGA field 6 are decoded; every other field changes no
      output. */
  lemma UndecodedFieldRead(s: Snapshot)
    requires |s.buf| == BuffSize
    requires !(s.id == Rmc && (s.tokenNumber == 0 || s.tokenNumber == 1 || s.tokenNumber == 8))
    requires !(s.id == Gga && s.tokenNumber == 6)
    ensures FieldRead(s) == s
  {
  }

  /** RMC field 0, `hhmmss.ss`: hour, minute, second and hundredths are read from offsets 0, 2,
      4 and 7, whatever stands at offset 6; no other output changes. */
  lemma RmcTimeRead(s: Snapshot, hh: int, mm: int, ss: int, sep: Char8, cc: int)
    requires |s.buf| == BuffSize && s.id == Rmc && s.tokenNumber == 0
    requires 0 <= hh < 100 && 0 <= mm < 100 && 0 <= ss < 100 && 0 <= cc < 100
    requires s.buf[..9] == TwoDigits(hh) + TwoDigits(mm) + TwoDigits(ss) + [sep] + TwoDigits(cc)
    ensures FieldRead(s).out == s.out.(hour := hh, minute := mm, second := ss, subSec := cc)
  {
    var b := s.buf;
    assert b[0] == TwoDigits(hh)[0] && b[1] == TwoDigits(hh)[1];
    assert b[2] == TwoDigits(mm)[0] && b[3] == TwoDigits(mm)[1];
    assert b[4] == TwoDigits(ss)[0] && b[5] == TwoDigits(ss)[1];
    assert b[7] == TwoDigits(cc)[0] && b[8] == TwoDigits(cc)[1];
    Str2DecimalOfTwoDigits(hh);
    Str2DecimalOfTwoDigits(mm);
    Str2DecimalOfTwoDigits(ss);
    Str2DecimalOfTwoDigits(cc);
  }

  /** RMC field 1: its first character, the fix status, becomes `valid`. */
  lemma RmcStatusRead(s: Snapshot)
    requires |s.buf| == BuffSize && s.id == Rmc && s.tokenNumber == 1 && s.buf[0] != '\0'
    ensures FieldRead(s).out == s.out.(valid := s.buf[0])
  {
  }

  /** RMC field 8, `ddmmyy`: day, month and two-digit year are read from offsets 0, 2 and 4;
      no other output changes. */
  lemma RmcDateRead(s: Snapshot, dd: int, mo: int, yy: int)
    requires |s.buf| == BuffSize && s.id == Rmc && s.tokenNumber == 8
    requires 0 <= dd < 100 && 0 <= mo < 100 && 0 <= yy < 100
    requires s.buf[..6] == TwoDigits(dd) + TwoDigits(mo) + TwoDigits(yy)
    ensures FieldRead(s).out == s.out.(day := dd, month := mo, year := yy)
  {
    var b := s.buf;
    assert b[0] == TwoDigits(dd)[0] && b[1] == TwoDigits(dd)[1];
    assert b[2] == TwoDigits(mo)[0] && b[3] == TwoDigits(mo)[1];
    assert b[4] == TwoDigits(yy)[0] && b[5] == TwoDigits(yy)[1];
    Str2DecimalOfTwoDigits(dd);
    Str2DecimalOfTwoDigits(mo);
    Str2DecimalOfTwoDigits(yy);
  }

  /** GGA field 6: the two-digit satellite count becomes `nsat`; no other output changes. */
  lemma GgaSatellitesRead(s: Snapshot, n: int)
    requires |s.buf| == BuffSize && s.id == Gga && s.tokenNumber == 6
    requires 0 <= n < 100 && s.buf[..2] == TwoDigits(n)
    ensures FieldRead(s).out == s.out.(nsat := n)
  {
    assert s.buf[0] == TwoDigits(n)[0] && s.buf[1] == TwoDigits(n)[1];
    Str2DecimalOfTwoDigits(n);
  }

  /** The parser starts consistent. */
  lemma InitialConsistent(valid: Char8)
    ensures Consistent(Initial(valid)) && WellFormed(Initial(valid))
  {
  }

  /** Every step keeps the parser consistent. */
  lemma StepConsistent(s: Snapshot, c: Char8)
    requires WellFormed(s) && CanStep(s, c) && Consistent(s)
    ensures Consistent(Step(s, c))
  {
    if c == '$' || s.state == Wait || c == '*' {
    } else if s.state == Checksum {
      if c == '\r' || c == '\n' {
        TerminatorFlags(s, c);
      }
    } else if c != ',' {
    } else if s.state == Id {
      AddressComma(s);
    } else {
      DataComma(s);
    }
  }
}
