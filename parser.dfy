/** The parser object: the fields it updates in place and the methods that update them,
    each proved to do what the matching function of ParserSpec describes. */
module Parser {
  import opened Nmea
  import opened ParserSpec
  import opened StepProperties

  class GPSParser {
    var state: NmeaState
    var id: NmeaId
    var checksum: bv8
    var tokenNumber: uint8
    var bufPos: uint8
    const buf: array<Char8>
    /** The received-checksum accumulator: a function-static variable in the source, held
        here by the instance. */
    var rChecksum: bv8

    var timeMessageReady: bool
    var hour: uint8
    var minute: uint8
    var second: uint8
    var subSec: uint8
    var day: uint8
    var month: uint8
    var year: uint8
    var valid: Char8
    var nsatMessageReady: bool
    var nsat: uint8

    /** Every character fed since the last `$`. */
    ghost var sinceStart: seq<Char8>

    ghost function View(): (s: Snapshot)
      reads this, buf
    {
      Snapshot(state, id, checksum, tokenNumber, bufPos, buf[..], rChecksum,
               Outputs(timeMessageReady, hour, minute, second, subSec, day, month, year,
                       valid, nsatMessageReady, nsat))
    }

    /** The buffer invariant, the consistency of phase, kind and ready flags, and: between
        `$` and `*` the running checksum is the XOR of every character fed since the `$`, and
        none of them is `*`. */
    ghost predicate Valid()
      reads this, buf
    {
      WellFormed(View()) && Consistent(View()) &&
      (InSentence(View()) ==> checksum == XorAll(sinceStart) && '*' !in sinceStart)
    }

    constructor ()
      ensures Valid() && fresh(buf)
      ensures View() == Initial(valid)
    {
      state := Wait;
      id := Other;
      checksum := 0;
      tokenNumber := 0;
      bufPos := BuffSize;
      rChecksum := 0;
      timeMessageReady := false;
      hour, minute, second, subSec := 0, 0, 0, 0;
      day, month, year := 0, 0, 0;
      nsatMessageReady := false;
      nsat := 0;
      sinceStart := [];
      buf := new Char8[BuffSize];
      new;
      ClearBuf();
    }

    /** clear_buf */
    method ClearBuf()
      requires bufPos as int <= buf.Length == BuffSize
      modifies this`bufPos, buf
      ensures View() == Cleared(old(View()))
    {
      while bufPos > 0
        invariant bufPos <= old(bufPos)
        invariant forall i :: bufPos <= i < old(bufPos) ==> buf[i] == '\0'
        invariant forall i :: 0 <= i < bufPos || old(bufPos) <= i < BuffSize ==> buf[i] == old(buf[i])
      {
        bufPos := bufPos - 1;
        buf[bufPos] := '\0';
      }
      assert buf[..] == Zeros(old(bufPos)) + old(buf[..])[old(bufPos)..];
    }

    /** reset: empties the buffer, then the parse state, then the outputs. */
    method Reset()
      requires bufPos as int <= buf.Length == BuffSize
      modifies this`bufPos, buf, this`state, this`id, this`checksum, this`tokenNumber,
               this`timeMessageReady, this`hour, this`minute, this`second, this`subSec,
               this`day, this`month, this`year, this`nsatMessageReady, this`nsat
      ensures View() == Restarted(old(View()))
    {
      ClearBuf();
      ResetParseState();
      ClearOutputs();
    }

    /** The parse-state half of reset. */
    method ResetParseState()
      modifies this`state, this`id, this`checksum, this`tokenNumber
      ensures View() == old(View()).(state := Wait, id := Other, checksum := 0, tokenNumber := 0)
    {
      state := Wait;
      id := Other;
      checksum := 0;
      tokenNumber := 0;
    }

    /** The output half of reset: both ready flags and every numeric output become 0;
        `valid` is not touched. */
    method ClearOutputs()
      modifies this`timeMessageReady, this`hour, this`minute, this`second, this`subSec,
               this`day, this`month, this`year, this`nsatMessageReady, this`nsat
      ensures !timeMessageReady && !nsatMessageReady && nsat == 0
      ensures hour == 0 && minute == 0 && second == 0 && subSec == 0
      ensures day == 0 && month == 0 && year == 0
    {
      timeMessageReady := false;
      hour := 0;
      minute := 0;
      second := 0;
      subSec := 0;
      day := 0;
      month := 0;
      year := 0;
      nsatMessageReady := false;
      nsat := 0;
    }

    /** data_rmc_reader */
    method DataRmcReader()
      requires buf.Length == BuffSize
      modifies this`hour, this`minute, this`second, this`subSec, this`valid,
               this`day, this`month, this`year
      ensures View() == RmcRead(old(View()))
    {
      if buf[0] == '\0' {
        return;
      }
      if tokenNumber == 0 {
        ReadTime();
      } else if tokenNumber == 1 {
        valid := buf[0];
      } else if tokenNumber == 8 {
        ReadDate();
      }
    }

    /** The time field `hhmmss.ss` of an RMC sentence. */
    method ReadTime()
      requires buf.Length == BuffSize
      modifies this`hour, this`minute, this`second, this`subSec
      ensures hour == Str2Decimal(buf[0], buf[1]) && minute == Str2Decimal(buf[2], buf[3])
      ensures second == Str2Decimal(buf[4], buf[5]) && subSec == Str2Decimal(buf[7], buf[8])
    {
      hour := Str2Decimal(buf[0], buf[1]);
      minute := Str2Decimal(buf[2], buf[3]);
      second := Str2Decimal(buf[4], buf[5]);
      subSec := Str2Decimal(buf[7], buf[8]);
    }

    /** The date field `ddmmyy` of an RMC sentence. */
    method ReadDate()
      requires buf.Length == BuffSize
      modifies this`day, this`month, this`year
      ensures day == Str2Decimal(buf[0], buf[1]) && month == Str2Decimal(buf[2], buf[3])
      ensures year == Str2Decimal(buf[4], buf[5])
    {
      day := Str2Decimal(buf[0], buf[1]);
      month := Str2Decimal(buf[2], buf[3]);
      year := Str2Decimal(buf[4], buf[5]);
    }

    /** data_gga_reader */
    method DataGgaReader()
      requires buf.Length == BuffSize
      modifies this`nsat
      ensures View() == GgaRead(old(View()))
    {
      if buf[0] == '\0' {
        return;
      }
      if tokenNumber == 6 {
        nsat := Str2Decimal(buf[0], buf[1]);
      }
    }

    /** nmea_parse: feed one character. A character that would be stored past the end of the
        scratch buffer is excluded: the source writes it without a bounds check. */
    method NmeaParse(c: Char8)
      requires Valid() && CanStep(View(), c)
      modifies this, buf
      ensures Valid()
      ensures View() == Step(old(View()), c)
      ensures sinceStart == if c == '$' then [] else old(sinceStart) + [c]
    {
      StepChecksum(View(), c, sinceStart);
      StepConsistent(View(), c);
      sinceStart := if c == '$' then [] else sinceStart + [c];
      Dispatch(c);
    }

    /** The branches of nmea_parse, in the source's order; each branch is one of the methods
        below. */
    method Dispatch(c: Char8)
      requires WellFormed(View()) && CanStep(View(), c)
      modifies this`bufPos, buf, this`state, this`id, this`checksum, this`tokenNumber,
               this`rChecksum, this`timeMessageReady, this`hour, this`minute, this`second,
               this`subSec, this`valid, this`day, this`month, this`year,
               this`nsatMessageReady, this`nsat
      ensures View() == Step(old(View()), c)
    {
      if c == '$' {
        StartSentence();
      } else if state == Wait {
      } else if c == '*' {
        EnterChecksum();
      } else if state == Checksum {
        ChecksumChar(c);
      } else {
        SentenceChar(c);
      }
    }

    /** `$`: reset, then expect the address field. */
    method StartSentence()
      requires WellFormed(View())
      modifies this`bufPos, buf, this`state, this`id, this`checksum, this`tokenNumber,
               this`timeMessageReady, this`hour, this`minute, this`second, this`subSec,
               this`day, this`month, this`year, this`nsatMessageReady, this`nsat
      ensures View() == Restarted(old(View())).(state := Id)
    {
      Reset();
      state := Id;
    }

    /** `*` after `$`: the received checksum follows. */
    method EnterChecksum()
      requires WellFormed(View())
      modifies this`bufPos, buf, this`state
      ensures View() == Cleared(old(View())).(state := Checksum)
    {
      state := Checksum;
      ClearBuf();
    }

    /** A character after `*`: a checksum digit, or CR/LF, which compares the checksums and
        raises the ready flag of a recognised sentence whose checksum matched. */
    method ChecksumChar(c: Char8)
      modifies this`rChecksum, this`state, this`timeMessageReady, this`nsatMessageReady
      ensures View() == ChecksumStep(old(View()), c)
    {
      if c != '\r' && c != '\n' {
        rChecksum := rChecksum << 4;
        rChecksum := rChecksum | (HexChar(c) as bv8);
        return;
      }
      if checksum == rChecksum {
        if id == Rmc {
          timeMessageReady := true;
        }
        if id == Gga {
          nsatMessageReady := true;
        }
      }
      rChecksum := 0;
      state := Wait;
    }

    /** A character between `$` and `*`: XOR it into the running checksum, then store it or,
        for `,`, end the current field. */
    method SentenceChar(c: Char8)
      requires WellFormed(View()) && InSentence(View())
      requires c != ',' ==> bufPos < BuffSize
      modifies this`checksum, this`bufPos, buf, this`id, this`state, this`tokenNumber,
               this`hour, this`minute, this`second, this`subSec, this`valid,
               this`day, this`month, this`year, this`nsat
      ensures View() == SentenceStep(old(View()), c)
    {
      checksum := checksum ^ (c as int as bv8);
      if c != ',' {
        StoreChar(c);
      } else if state == Id {
        EndIdField();
      } else {
        EndDataField();
      }
    }

    /** `buf[buf_pos++] = c` */
    method StoreChar(c: Char8)
      requires bufPos < BuffSize == buf.Length
      modifies this`bufPos, buf
      ensures View() == Appended(old(View()), c)
    {
      buf[bufPos] := c;
      bufPos := bufPos + 1;
    }

    /** `,` ending the address field: recognise the sentence kind; only a recognised kind
        moves on to the data fields. */
    method EndIdField()
      requires WellFormed(View())
      modifies this`id, this`state, this`bufPos, buf
      ensures var kind := CheckMessageId(old(buf[..]));
              View() == Cleared(old(View()).(id := kind, state := if kind != Other then Data else old(state)))
    {
      id := CheckMessageId(buf[..]);
      if id != Other {
        state := Data;
      }
      ClearBuf();
    }

    /** `,` ending a data field: decode it by the sentence kind, count it, empty the buffer.
        The source then tests for `*`, which cannot hold there: `*` was handled earlier. */
    method EndDataField()
      requires WellFormed(View())
      modifies this`tokenNumber, this`bufPos, buf,
               this`hour, this`minute, this`second, this`subSec, this`valid,
               this`day, this`month, this`year, this`nsat
      ensures var u := FieldRead(old(View()));
              View() == Cleared(u.(tokenNumber := ToUint8(u.tokenNumber + 1)))
    {
      match id {
        case Rmc => DataRmcReader();
        case Gga => DataGgaReader();
        case Other =>
      }
      tokenNumber := ToUint8(tokenNumber + 1);
      ClearBuf();
    }
  }
}
