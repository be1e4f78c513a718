/** Feeding whole character streams: the running checksum, the invariant of every reachable
    state, the reading of one field, and the verdict on a complete sentence. */
module StreamProperties {
  import opened Nmea
  import opened ParserSpec
  import opened StepProperties

  /** Feeding a single character is one step. */
  lemma RunOne(s: Snapshot, c: Char8)
    requires WellFormed(s) && CanStep(s, c)
    ensures Run(s, [c]) == Some(Step(s, c))
  {
    assert [c][..0] == [];
  }

  /** Feeding `a` and then `b` is feeding `a + b`. */
  lemma {:induction false} RunAppend(s: Snapshot, a: seq<Char8>, b: seq<Char8>)
    requires WellFormed(s) && Run(s, a).Some?
    ensures Run(s, a + b) == Run(Run(s, a).value, b)
    decreases |b|
  {
    if b == [] {
      assert a + b == a;
    } else {
      var b' := b[..|b| - 1];
      RunAppend(s, a, b');
      assert (a + b)[..|a + b| - 1] == a + b';
      assert (a + b)[|a + b| - 1] == b[|b| - 1];
    }
  }

  /** Feeding `c` and then `cs` is one step followed by the rest of the stream. */
  lemma RunCons(s: Snapshot, c: Char8, cs: seq<Char8>)
    requires WellFormed(s) && CanStep(s, c)
    ensures Run(s, [c] + cs) == Run(Step(s, c), cs)
  {
    RunOne(s, c);
    RunAppend(s, [c], cs);
  }

  /** Until a `$` arrives, a waiting parser ignores the whole stream. */
  lemma {:induction false} WaitIgnoresStream(s: Snapshot, cs: seq<Char8>)
    requires WellFormed(s) && s.state == Wait && '$' !in cs
    ensures Run(s, cs) == Some(s)
    decreases |cs|
  {
    if cs != [] {
      var init := cs[..|cs| - 1];
      assert '$' !in init by {
        assert forall x :: x in init ==> x in cs;
      }
      WaitIgnoresStream(s, init);
      WaitIgnores(s, cs[|cs| - 1]);
    }
  }

  /** The running checksum over a whole stream: whenever the parser is between `$` and `*`,
      `checksum` is the XOR of every character fed since the last `$` (commas included), and
      no `*` has been fed since then. The only exception is a parser that was already inside
      a sentence and has not seen a `$` since. */
  lemma {:induction false} RunningChecksum(s: Snapshot, cs: seq<Char8>)
    requires WellFormed(s) && Run(s, cs).Some?
    requires '$' in cs || !InSentence(s)
    ensures var t := Run(s, cs).value;
            InSentence(t) ==>
              t.checksum == XorAll(SinceLastDollar(cs)) && '*' !in SinceLastDollar(cs)
    decreases |cs|
  {
    if cs != [] {
      var init, c := cs[..|cs| - 1], cs[|cs| - 1];
      assert cs == init + [c];
      var t := Run(s, init).value;
      if c == '$' {
        StepChecksum(t, c, []);
      } else {
        assert '$' in init || !InSentence(s);
        RunningChecksum(s, init);
        StepChecksum(t, c, SinceLastDollar(init));
      }
    }
  }

  /** A consistent parser stays consistent whatever it is fed. */
  lemma {:induction false} RunConsistent(s: Snapshot, cs: seq<Char8>)
    requires WellFormed(s) && Consistent(s) && Run(s, cs).Some?
    ensures Consistent(Run(s, cs).value)
    decreases |cs|
  {
    if cs != [] {
      var init := cs[..|cs| - 1];
      RunConsistent(s, init);
      StepConsistent(Run(s, init).value, cs[|cs| - 1]);
    }
  }

  /** Every state reached from a new parser is consistent, and its running checksum is the
      XOR of the characters fed since the last `$`. */
  lemma Reachable(valid: Char8, cs: seq<Char8>)
    requires Run(Initial(valid), cs).Some?
    ensures var t := Run(Initial(valid), cs).value;
            Consistent(t) &&
            (InSentence(t) ==> t.checksum == XorAll(SinceLastDollar(cs)))
  {
    InitialConsistent(valid);
    RunConsistent(Initial(valid), cs);
    RunningChecksum(Initial(valid), cs);
  }

  /** The characters after the `$` that opens a stream without another `$`. */
  lemma {:induction false} SinceOpeningDollar(p: seq<Char8>)
    requires '$' !in p
    ensures SinceLastDollar(['$'] + p) == p
    decreases |p|
  {
    if p != [] {
      var init := p[..|p| - 1];
      assert (['$'] + p)[..|['$'] + p| - 1] == ['$'] + init;
      assert '$' !in init by {
        assert forall x :: x in init ==> x in p;
      }
      SinceOpeningDollar(init);
      assert p == init + [p[|p| - 1]];
    }
  }

  /** Storing `c` at the fill index of a buffer holding `pre + g` and NULs. */
  lemma StoreAfter(pre: seq<Char8>, g: seq<Char8>, c: Char8, n: nat)
    requires n > 0
    ensures (pre + g + Zeros(n))[|pre| + |g| := c] == pre + (g + [c]) + Zeros(n - 1)
  {
    var x := (pre + g + Zeros(n))[|pre| + |g| := c];
    var y := pre + (g + [c]) + Zeros(n - 1);
    assert |x| == |y|;
    forall i | 0 <= i < |x|
      ensures x[i] == y[i]
    {
      if i < |pre| + |g| {
        assert x[i] == (pre + g)[i] == y[i];
      }
    }
  }

  /** A well-formed buffer is its filled part followed by NULs. */
  lemma UnfilledTail(s: Snapshot)
    requires WellFormed(s)
    ensures s.buf[..s.bufPos] + Zeros(BuffSize - s.bufPos) == s.buf
  {
    assert s.buf == s.buf[..s.bufPos] + s.buf[s.bufPos..];
  }

  /** Feeding one more character that is stored in the buffer. */
  lemma RunStore(s: Snapshot, g: seq<Char8>, c: Char8)
    requires WellFormed(s) && Run(s, g).Some?
    requires InSentence(Run(s, g).value) && Run(s, g).value.bufPos < BuffSize
    requires c != '$' && c != '*' && c != ','
    ensures var t := Run(s, g).value;
            Run(s, g + [c]) == Some(t.(checksum := t.checksum ^ (c as int as bv8),
                                       buf := t.buf[t.bufPos := c], bufPos := t.bufPos + 1))
  {
    assert (g + [c])[..|g|] == g;
    StoreStep(Run(s, g).value, c);
  }

  /** Characters other than `$`, `*` and `,` within a field: each is XORed into the running
      checksum and stored after those already buffered. */
  lemma {:induction false} FeedField(s: Snapshot, f: seq<Char8>)
    requires WellFormed(s) && InSentence(s) && s.bufPos + |f| <= BuffSize
    requires forall i :: 0 <= i < |f| ==> f[i] != '$' && f[i] != '*' && f[i] != ','
    ensures Run(s, f) ==
            Some(s.(checksum := s.checksum ^ XorAll(f), bufPos := s.bufPos + |f|,
                    buf := s.buf[..s.bufPos] + f + Zeros(BuffSize - s.bufPos - |f|)))
    decreases |f|
  {
    if f == [] {
      UnfilledTail(s);
      assert s.buf[..s.bufPos] + f == s.buf[..s.bufPos];
    } else {
      var g, c := f[..|f| - 1], f[|f| - 1];
      FeedField(s, g);
      var t := Run(s, g).value;
      assert f == g + [c];
      RunStore(s, g, c);
      XorAllSnoc(g, c);
      var pre := s.buf[..s.bufPos];
      StoreAfter(pre, g, c, BuffSize - s.bufPos - |g|);
    }
  }

  /** An address field `a` and its comma, fed right after `$`: the sentence kind is what the
      address test says of `a`, and only a recognised kind moves on to the data fields. */
  lemma AddressField(s: Snapshot, a: seq<Char8>)
    requires WellFormed(s) && s.state == Id && s.bufPos == 0 && |a| <= BuffSize
    requires forall i :: 0 <= i < |a| ==> a[i] != '$' && a[i] != '*' && a[i] != ','
    ensures Run(s, a + [',']).Some?
    ensures var r := Run(s, a + [',']).value;
            r.id == CheckMessageId(Pad(a)) &&
            r.state == (if r.id == Other then Id else Data) &&
            r.checksum == s.checksum ^ XorAll(a + [',']) &&
            r.tokenNumber == s.tokenNumber && r.out == s.out &&
            r.bufPos == 0 && r.buf == Zeros(BuffSize)
  {
    FeedField(s, a);
    var t := Run(s, a).value;
    assert t.buf == Pad(a);
    RunAppend(s, a, [',']);
    AddressComma(t);
    RunOne(t, ',');
    XorAllSnoc(a, ',');
  }

  /** The field readers look only at the buffer, the sentence kind and the field index. */
  lemma FieldReadIgnoresChecksum(s: Snapshot, s': Snapshot)
    requires |s.buf| == BuffSize && s'.buf == s.buf
    requires s'.id == s.id && s'.tokenNumber == s.tokenNumber && s'.out == s.out
    ensures FieldRead(s').out == FieldRead(s).out
  {
  }

  /** A data field `f` and its comma: the field is decoded by the sentence kind as the field
      reader sees it in the buffer, the field index goes up by one and the buffer is
      emptied. */
  lemma DataField(s: Snapshot, f: seq<Char8>)
    requires WellFormed(s) && s.state == Data && s.bufPos == 0 && |f| <= BuffSize
    requires forall i :: 0 <= i < |f| ==> f[i] != '$' && f[i] != '*' && f[i] != ','
    ensures Run(s, f + [',']).Some?
    ensures Run(s, f + [',']).value.out == FieldRead(s.(buf := Pad(f))).out
    ensures Run(s, f + [',']).value.state == Data && Run(s, f + [',']).value.id == s.id
    ensures Run(s, f + [',']).value.checksum == s.checksum ^ XorAll(f + [','])
    ensures Run(s, f + [',']).value.tokenNumber == ToUint8(s.tokenNumber + 1)
    ensures Run(s, f + [',']).value.bufPos == 0
    ensures Run(s, f + [',']).value.buf == Zeros(BuffSize)
  {
    FeedField(s, f);
    var t := Run(s, f).value;
    assert t.buf == Pad(f) && t.tokenNumber == s.tokenNumber;
    RunAppend(s, f, [',']);
    DataComma(t);
    RunOne(t, ',');
    XorAllSnoc(f, ',');
    FieldReadIgnoresChecksum(t, s.(buf := Pad(f)));
  }

  /** The RMC time field `hhmmss.ss` read through the stream: it sets hour, minute, second and
      hundredths and no other output. */
  lemma RmcTimeField(s: Snapshot, hh: int, mm: int, ss: int, cc: int)
    requires WellFormed(s) && s.state == Data && s.bufPos == 0
    requires s.id == Rmc && s.tokenNumber == 0
    requires 0 <= hh < 100 && 0 <= mm < 100 && 0 <= ss < 100 && 0 <= cc < 100
    ensures var f := TwoDigits(hh) + TwoDigits(mm) + TwoDigits(ss) + ['.'] + TwoDigits(cc);
            Run(s, f + [',']).Some? &&
            Run(s, f + [',']).value.out ==
              s.out.(hour := hh, minute := mm, second := ss, subSec := cc)
  {
    var f := TwoDigits(hh) + TwoDigits(mm) + TwoDigits(ss) + ['.'] + TwoDigits(cc);
    DataField(s, f);
    assert Pad(f)[..9] == f;
    RmcTimeRead(s.(buf := Pad(f)), hh, mm, ss, '.', cc);
  }

  /** A parser inside a sentence stays inside it until `$` or `*`, and neither the ready flags
      nor the received-checksum accumulator change meanwhile. */
  lemma {:induction false} SentenceBody(s: Snapshot, p: seq<Char8>)
    requires WellFormed(s) && InSentence(s) && '$' !in p && '*' !in p && Run(s, p).Some?
    ensures var u := Run(s, p).value;
            InSentence(u) && u.rChecksum == s.rChecksum &&
            u.out.timeMessageReady == s.out.timeMessageReady &&
            u.out.nsatMessageReady == s.out.nsatMessageReady
    decreases |p|
  {
    if p != [] {
      var init := p[..|p| - 1];
      assert '$' !in init && '*' !in init by {
        assert forall x :: x in init ==> x in p;
      }
      SentenceBody(s, init);
    }
  }

  /** After a recognised address the sentence kind and the data phase last until `$` or
      `*`. */
  lemma {:induction false} KindKept(s: Snapshot, p: seq<Char8>)
    requires WellFormed(s) && s.state == Data && '$' !in p && '*' !in p && Run(s, p).Some?
    ensures Run(s, p).value.state == Data && Run(s, p).value.id == s.id
    decreases |p|
  {
    if p != [] {
      var init := p[..|p| - 1];
      assert '$' !in init && '*' !in init by {
        assert forall x :: x in init ==> x in p;
      }
      KindKept(s, init);
    }
  }

  /** `* h1 h2` and CR or LF fed inside a sentence: the sentence's ready flag is raised exactly
      when the running checksum equals the value of `h1 h2`, and the parser then waits. */
  lemma ChecksumTail(u: Snapshot, h1: Char8, h2: Char8, t: Char8)
    requires WellFormed(u) && InSentence(u)
    requires h1 != '$' && h1 != '*' && h1 != '\r' && h1 != '\n'
    requires h2 != '$' && h2 != '*' && h2 != '\r' && h2 != '\n'
    requires t == '\r' || t == '\n'
    ensures var r := Run(u, ['*', h1, h2, t]);
            var matched := u.checksum == Received(h1, h2);
            r.Some? && r.value.state == Wait && r.value.rChecksum == 0 &&
            r.value.out == u.out.(
              timeMessageReady := u.out.timeMessageReady || (matched && u.id == Rmc),
              nsatMessageReady := u.out.nsatMessageReady || (matched && u.id == Gga))
  {
    StarEntersChecksum(u);
    var u1 := Step(u, '*');
    ReceivedChecksum(u1, h1, h2);
    var u3 := Step(Step(u1, h1), h2);
    TerminatorFlags(u3, t);
    assert ['*', h1, h2, t] == ['*'] + ([h1] + ([h2] + [t]));
    RunCons(u, '*', [h1] + ([h2] + [t]));
    RunCons(u1, h1, [h2] + [t]);
    RunCons(Step(u1, h1), h2, [t]);
    RunOne(u3, t);
  }

  /** A complete sentence `$ p * h1 h2` ended by CR or LF, fed in any state: the time flag is
      raised exactly when the XOR of `p` equals the value of `h1 h2` and the sentence was
      taken as RMC, the satellite flag exactly when they are equal and it was taken as GGA,
      and the parser waits for the next `$`. Every other output is what the fields of `p`
      left there, whether the checksums match or not. */
  lemma SentenceVerdict(s: Snapshot, p: seq<Char8>, h1: Char8, h2: Char8, t: Char8)
    requires WellFormed(s) && '$' !in p && '*' !in p
    requires h1 != '$' && h1 != '*' && h1 != '\r' && h1 != '\n'
    requires h2 != '$' && h2 != '*' && h2 != '\r' && h2 != '\n'
    requires t == '\r' || t == '\n'
    requires Run(s, ['$'] + p).Some?
    ensures var u := Run(s, ['$'] + p).value;
            var r := Run(s, ['$'] + p + ['*', h1, h2, t]);
            var matched := XorAll(p) == Received(h1, h2);
            r.Some? && r.value.state == Wait && r.value.rChecksum == 0 &&
            r.value.out == u.out.(timeMessageReady := matched && u.id == Rmc,
                                  nsatMessageReady := matched && u.id == Gga)
  {
    SentenceOpened(s, p);
    RunAppend(s, ['$'] + p, ['*', h1, h2, t]);
    ChecksumTail(Run(s, ['$'] + p).value, h1, h2, t);
  }

  /** After `$ p`, the parser is inside the sentence with both flags lowered, a zero
      received-checksum accumulator and the XOR of `p` as its running checksum. */
  lemma SentenceOpened(s: Snapshot, p: seq<Char8>)
    requires WellFormed(s) && '$' !in p && '*' !in p && Run(s, ['$'] + p).Some?
    ensures var u := Run(s, ['$'] + p).value;
            InSentence(u) && u.checksum == XorAll(p) &&
            !u.out.timeMessageReady && !u.out.nsatMessageReady
  {
    DollarRestarts(s);
    RunCons(s, '$', p);
    SentenceBody(Step(s, '$'), p);
    RunningChecksum(s, ['$'] + p);
    SinceOpeningDollar(p);
  }

  /** A sentence whose checksum field is the upper-case hexadecimal XOR of its body raises the
      flag of its kind, RMC or GGA. */
  lemma MatchingChecksumAccepted(s: Snapshot, p: seq<Char8>, t: Char8)
    requires WellFormed(s) && '$' !in p && '*' !in p && (t == '\r' || t == '\n')
    requires Run(s, ['$'] + p).Some?
    ensures var u := Run(s, ['$'] + p).value;
            var v := XorAll(p) as int;
            var r := Run(s, ['$'] + p + ['*', HexDigit(v / 16), HexDigit(v % 16), t]);
            r.Some? && r.value.out.timeMessageReady == (u.id == Rmc) &&
            r.value.out.nsatMessageReady == (u.id == Gga)
  {
    var v := XorAll(p) as int;
    ReceivedOfHexByte(XorAll(p));
    SentenceVerdict(s, p, HexDigit(v / 16), HexDigit(v % 16), t);
  }

  /** A sentence whose checksum field does not carry the XOR of its body raises no ready
      flag, though the fields it has delivered stay in the outputs. */
  lemma CorruptedChecksumRejected(s: Snapshot, p: seq<Char8>, h1: Char8, h2: Char8, t: Char8)
    requires WellFormed(s) && '$' !in p && '*' !in p
    requires h1 != '$' && h1 != '*' && h1 != '\r' && h1 != '\n'
    requires h2 != '$' && h2 != '*' && h2 != '\r' && h2 != '\n'
    requires t == '\r' || t == '\n'
    requires Run(s, ['$'] + p).Some? && XorAll(p) != Received(h1, h2)
    ensures var r := Run(s, ['$'] + p + ['*', h1, h2, t]);
            r.Some? &&
            r.value.out == Run(s, ['$'] + p).value.out.(timeMessageReady := false,
                                                        nsatMessageReady := false)
  {
    SentenceVerdict(s, p, h1, h2, t);
  }

  /** The kind of a sentence is decided by its first field when that names RMC or GGA: the
      rest of the sentence, up to `*`, does not change it. */
  lemma AddressDecidesKind(s: Snapshot, a: seq<Char8>, rest: seq<Char8>)
    requires WellFormed(s) && |a| <= BuffSize && '$' !in rest && '*' !in rest
    requires forall i :: 0 <= i < |a| ==> a[i] != '$' && a[i] != '*' && a[i] != ','
    requires CheckMessageId(Pad(a)) != Other
    requires Run(s, ['$'] + a + [','] + rest).Some?
    ensures Run(s, ['$'] + a + [','] + rest).value.id == CheckMessageId(Pad(a))
  {
    DollarRestarts(s);
    RunCons(s, '$', a + [',']);
    AddressField(Step(s, '$'), a);
    assert ['$'] + a + [','] == ['$'] + (a + [',']);
    RunAppend(s, ['$'] + a + [','], rest);
    KindKept(Run(s, ['$'] + a + [',']).value, rest);
  }

  /** An unrecognised address leaves the parser in the address phase, so the next field is
      tested as an address in its turn: `$GPGSV,GPRMC,` is taken as an RMC sentence. */
  lemma UnrecognisedAddressRetried(s: Snapshot, a1: seq<Char8>, a2: seq<Char8>)
    requires WellFormed(s) && s.state == Id && s.bufPos == 0
    requires |a1| <= BuffSize && |a2| <= BuffSize
    requires forall i :: 0 <= i < |a1| ==> a1[i] != '$' && a1[i] != '*' && a1[i] != ','
    requires forall i :: 0 <= i < |a2| ==> a2[i] != '$' && a2[i] != '*' && a2[i] != ','
    requires CheckMessageId(Pad(a1)) == Other
    ensures Run(s, a1 + [','] + a2 + [',']).Some?
    ensures var r := Run(s, a1 + [','] + a2 + [',']).value;
            r.id == CheckMessageId(Pad(a2)) && r.state == (if r.id == Other then Id else Data)
  {
    AddressField(s, a1);
    var t := Run(s, a1 + [',']).value;
    AddressField(t, a2);
    assert a1 + [','] + a2 + [','] == (a1 + [',']) + (a2 + [',']);
    RunAppend(s, a1 + [','], a2 + [',']);
  }
}
