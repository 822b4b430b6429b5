/** What a Beast splitter makes of a stream that is entered between the two bytes of an
    escape pair: exactly, for every frame, every pair in it and whatever frames follow. */
module BeastSplitPair {
  import opened Basics
  import opened StreamSplitter
  import opened BeastFormat
  import opened BeastScan

  // --- what a splitter does with a 0x1A and the byte after it ------------------------------

  /** The shortest message has 11 bytes. */
  ghost predicate WaitsForEleven(split: SplitFunc) {
    forall s :: |s| < 11 ==> split(s) == MORE
  }

  /** A 0x1A before a byte that is neither a message type nor 0x1A is skipped alone. */
  ghost predicate SkipsUnknown(split: SplitFunc) {
    forall s :: |s| >= 11 && s[0] == ESC && s[1] != ESC && MessageLength(s[1]).None? ==> split(s) == Scanned(1, None)
  }

  /** A 0x1A before a message type is taken for a message once 50 bytes are there. */
  ghost predicate TakesMessages(split: SplitFunc) {
    forall s :: |s| >= 2 && s[0] == ESC && MessageLength(s[1]).Some? ==> TakenAsMessage(split(s), s)
  }

  predicate TakenAsMessage(r: Scanned, s: seq<byte>)
    requires |s| >= 2 && MessageLength(s[1]).Some?
  {
    if |s| < TOKEN_BUF_LEN then r == MORE
    else r.token.Some? && |r.token.value| == MessageLength(s[1]).value && r.token.value[..2] == s[..2]
  }

  ghost predicate PairSplitter(split: SplitFunc) {
    BeastSplitter(split) && WaitsForEleven(split) && SkipsUnknown(split) && TakesMessages(split)
  }

  // --- the streams --------------------------------------------------------------------------

  /** How many 0x1A bytes q begins with. */
  function LeadingEscs(q: seq<byte>): (n: nat)
    ensures n <= |q| && forall i :: 0 <= i < n ==> q[i] == ESC
    ensures n < |q| ==> q[n] != ESC
  {
    if q != [] && q[0] == ESC then 1 + LeadingEscs(q[1..]) else 0
  }

  /** The second byte of a pair, and what is printed after it: q is the rest of the payload. */
  function AfterSplit(q: seq<byte>, fs: seq<Frame>): seq<byte> {
    [ESC] + (Escape(q) + PrintAll(fs))
  }

  /** These are the streams that a frame leaves when it is cut inside the pair after a. */
  lemma CutInsidePair(f: Frame, a: seq<byte>, q: seq<byte>, fs: seq<Frame>)
    requires f.payload == a + ([ESC] + q)
    ensures var cut := 3 + |Escape(a)|;
            cut <= |Print(f)| && Print(f)[cut..] + PrintAll(fs) == AfterSplit(q, fs)
  {
    CutFrame(f, a, q);
    AppendAssociates([ESC], Escape(q), PrintAll(fs));
  }

  lemma CutFrame(f: Frame, a: seq<byte>, q: seq<byte>)
    requires f.payload == a + ([ESC] + q)
    ensures 3 + |Escape(a)| <= |Print(f)| && Print(f)[3 + |Escape(a)|..] == [ESC] + Escape(q)
  {
    EscapedPair(a, q);
    CutAt([ESC, f.kind], Escape(a), Escape(q));
  }

  lemma EscapedPair(a: seq<byte>, q: seq<byte>)
    ensures Escape(a + ([ESC] + q)) == Escape(a) + ([ESC, ESC] + Escape(q))
  {
    EscapeAppend(a, [ESC] + q);
    assert ([ESC] + q)[1..] == q;
  }

  lemma CutAt(head: seq<byte>, x: seq<byte>, y: seq<byte>)
    ensures (head + (x + ([ESC, ESC] + y)))[|head| + |x| + 1..] == [ESC] + y
  {
  }

  lemma NothingInEleven(split: SplitFunc, s: seq<byte>)
    requires InBounds(split) && WaitsForEleven(split) && |s| < 11
    ensures Drain(split, s) == Drained([], s)
  {
    assert split(s) == MORE;
  }

  /** Pairs are skipped until the first byte that is not 0x1A. */
  lemma {:induction false} SkipsLeadingPairs(split: SplitFunc, q: seq<byte>, fs: seq<Frame>)
    requires InBounds(split) && SkipsPairs(split) && WaitsForEleven(split)
    ensures Drain(split, AfterSplit(q, fs)).tokens == Drain(split, AfterSplit(q[LeadingEscs(q)..], fs)).tokens
  {
    if q != [] && q[0] == ESC {
      var t := AfterSplit(q[1..], fs);
      FirstPair(q, fs);
      DrainSkipsPair(split, t);
      if |t| + 2 < 11 {
        NothingInEleven(split, t);
      }
      SkipsLeadingPairs(split, q[1..], fs);
      assert q[1..][LeadingEscs(q[1..])..] == q[LeadingEscs(q)..];
    } else {
      assert q[0..] == q;
    }
  }

  lemma FirstPair(q: seq<byte>, fs: seq<Frame>)
    requires q != [] && q[0] == ESC
    ensures AfterSplit(q, fs) == [ESC, ESC] + AfterSplit(q[1..], fs)
  {
  }

  function Later(fs: seq<Frame>): seq<Frame> {
    if fs == [] then [] else fs[1..]
  }

  lemma FromBoundary(split: SplitFunc, p: seq<byte>, s: seq<byte>, fs: seq<Frame>)
    requires BeastSplitter(split) && AllWellFormed(fs) && s == Escape(p) + PrintAll(fs)
    ensures Drain(split, s).tokens == Messages(fs[..Ready(fs, 0)])
  {
    Resynchronises(split, p, fs);
    RoundTrip(split, fs);
  }

  lemma SwallowedAs(f: Frame, rest: seq<byte>)
    requires f.kind != ESC
    ensures [ESC] + (Print(f) + rest) == Escape([ESC, f.kind] + f.payload) + rest
  {
    var body := [f.kind] + f.payload;
    assert body[1..] == f.payload;
    assert Escape(body) == [f.kind] + Escape(f.payload);
    assert ([ESC] + body)[1..] == body && [ESC] + body == [ESC, f.kind] + f.payload;
    assert Escape([ESC] + body) == [ESC, ESC] + Escape(body);
  }

  lemma SwallowedStream(fs: seq<Frame>)
    requires AllWellFormed(fs) && fs != []
    ensures AllWellFormed(fs[1..])
    ensures AfterSplit([], fs) == Escape([ESC, fs[0].kind] + fs[0].payload) + PrintAll(fs[1..])
  {
    assert WellFormed(fs[0]);
    SwallowedAs(fs[0], PrintAll(fs[1..]));
    assert AfterSplit([], fs) == [ESC] + (Print(fs[0]) + PrintAll(fs[1..]));
  }

  /** The split byte pairs up with the first byte of the next frame. */
  lemma FrameSwallowed(split: SplitFunc, fs: seq<Frame>)
    requires BeastSplitter(split) && AllWellFormed(fs) && fs != []
    ensures Drain(split, AfterSplit([], fs)).tokens == Messages(fs[1..][..Ready(fs[1..], 0)])
  {
    SwallowedStream(fs);
    FromBoundary(split, [ESC, fs[0].kind] + fs[0].payload, AfterSplit([], fs), fs[1..]);
  }

  lemma NextFrameSwallowed(split: SplitFunc, fs: seq<Frame>)
    requires BeastSplitter(split) && WaitsForEleven(split) && AllWellFormed(fs)
    ensures Drain(split, AfterSplit([], fs)).tokens == Messages(Later(fs)[..Ready(Later(fs), 0)])
  {
    if fs == [] {
      NothingInEleven(split, AfterSplit([], fs));
    } else {
      FrameSwallowed(split, fs);
    }
  }

  /** Followed by a message type, the split byte starts a false frame once the window is
      full, and nothing at all comes out before. */
  lemma FakeFrame(split: SplitFunc, q: seq<byte>, fs: seq<Frame>)
    requires InBounds(split) && TakesMessages(split) && q != [] && MessageLength(q[0]).Some?
    ensures var s := AfterSplit(q, fs);
            && TakenAsMessage(split(s), s)
            && (|s| < TOKEN_BUF_LEN ==> Drain(split, s).tokens == [])
            && (|s| >= TOKEN_BUF_LEN ==>
                  Drain(split, s).tokens == [split(s).token.value] + Drain(split, s[split(s).advance..]).tokens)
  {
    var s := AfterSplit(q, fs);
    assert s[0] == ESC && s[1] == q[0];
    assert TakenAsMessage(split(s), s);
  }

  /** Followed by anything else it is skipped alone, and nothing is lost. */
  lemma SkippedAlone(split: SplitFunc, q: seq<byte>, fs: seq<Frame>)
    requires BeastSplitter(split) && WaitsForEleven(split) && SkipsUnknown(split)
    requires q != [] && q[0] != ESC && MessageLength(q[0]).None? && AllWellFormed(fs)
    ensures Drain(split, AfterSplit(q, fs)).tokens == Messages(fs[..Ready(fs, 0)])
  {
    FromBoundary(split, q, Escape(q) + PrintAll(fs), fs);
    DropsSplitByte(split, q, fs);
  }

  lemma DropsSplitByte(split: SplitFunc, q: seq<byte>, fs: seq<Frame>)
    requires InBounds(split) && WaitsForEleven(split) && SkipsUnknown(split)
    requires q != [] && q[0] != ESC && MessageLength(q[0]).None?
    ensures Drain(split, AfterSplit(q, fs)).tokens == Drain(split, Escape(q) + PrintAll(fs)).tokens
  {
    var s := AfterSplit(q, fs);
    assert s[1..] == Escape(q) + PrintAll(fs);
    if |s| < 11 {
      NothingInEleven(split, s);
      NothingInEleven(split, s[1..]);
    } else {
      assert s[0] == ESC && s[1] == q[0];
      assert split(s) == Scanned(1, None);
    }
  }

  /** The three things that can happen, exactly: with nothing but 0x1A left in the payload the
      next frame is lost; with a message type as the first other byte a false frame comes
      first, if and only if 50 bytes are there from its 0x1A on; otherwise all is well. */
  ghost predicate SplitOutcome(split: SplitFunc, q: seq<byte>, fs: seq<Frame>, tokens: seq<seq<byte>>)
    requires InBounds(split)
  {
    var n := LeadingEscs(q);
    && (n == |q| ==> tokens == Messages(Later(fs)[..Ready(Later(fs), 0)]))
    && (n < |q| && MessageLength(q[n]).None? ==> tokens == Messages(fs[..Ready(fs, 0)]))
    && (n < |q| && MessageLength(q[n]).Some? ==>
          var s := AfterSplit(q[n..], fs);
          if |s| < TOKEN_BUF_LEN then tokens == [] else FakeFirst(split, s, q[n], tokens))
  }

  ghost predicate FakeFirst(split: SplitFunc, s: seq<byte>, kind: byte, tokens: seq<seq<byte>>)
    requires InBounds(split) && MessageLength(kind).Some?
  {
    var r := split(s);
    && r.token.Some? && |r.token.value| == MessageLength(kind).value && r.token.value[..2] == [ESC, kind]
    && tokens == [r.token.value] + Drain(split, s[r.advance..]).tokens
  }

  lemma SplitPairExact(split: SplitFunc, q: seq<byte>, fs: seq<Frame>)
    requires PairSplitter(split) && AllWellFormed(fs)
    ensures SplitOutcome(split, q, fs, Drain(split, AfterSplit(q, fs)).tokens)
  {
    SkipsLeadingPairs(split, q, fs);
    var n := LeadingEscs(q);
    if n == |q| {
      assert q[n..] == [];
      NextFrameSwallowed(split, fs);
    } else if MessageLength(q[n]).None? {
      SkippedAlone(split, q[n..], fs);
    } else {
      FakeFrame(split, q[n..], fs);
      assert AfterSplit(q[n..], fs)[..2] == [ESC, q[n]];
    }
  }

  // --- inputs that show it ------------------------------------------------------------------

  /** A payload that ends in 0x1A, cut inside that pair: whatever follows, the first frame
      that ought to come out does not, and the others do. */
  lemma FrameLost(split: SplitFunc, f: Frame, a: seq<byte>, fs: seq<Frame>)
    requires PairSplitter(split) && f.payload == a + [ESC] && AllWellFormed(fs) && Ready(fs, 0) > 0
    ensures 3 + |Escape(a)| <= |Print(f)|
    ensures [Message(fs[0])] + Drain(split, Print(f)[3 + |Escape(a)|..] + PrintAll(fs)).tokens == Messages(fs[..Ready(fs, 0)])
  {
    assert a + [ESC] == a + ([ESC] + []);
    CutInsidePair(f, a, [], fs);
    NextFrameSwallowed(split, fs);
    FirstMessage(fs, Ready(fs, 0));
  }

  /** A payload that ends in 0x1A 0x33, cut inside that pair, is taken for a long message that
      reaches into the next frames and equals none of the messages sent. */
  lemma FakeCrossesFrames(split: SplitFunc, f: Frame, a: seq<byte>, fs: seq<Frame>)
    requires PairSplitter(split) && f.payload == a + [ESC, 0x33] && |PrintAll(fs)| >= 48
    requires f.kind != 0x33 && forall g :: g in fs ==> g.kind != 0x33
    ensures 3 + |Escape(a)| <= |Print(f)|
    ensures var tokens := Drain(split, Print(f)[3 + |Escape(a)|..] + PrintAll(fs)).tokens;
            && |tokens| > 0 && |tokens[0]| == 23
            && tokens[0] != Message(f) && forall g :: g in fs ==> tokens[0] != Message(g)
  {
    assert a + [ESC, 0x33] == a + ([ESC] + [0x33]);
    CutInsidePair(f, a, [0x33], fs);
    FakeFrame(split, [0x33], fs);
    var s := AfterSplit([0x33], fs);
    assert s[..2][1] == 0x33;
    var t := split(s).token.value;
    assert t[..2][1] == t[1];
  }

  const SEVEN := seq(7, _ => 0 as byte)

  const CUT := Frame(0x31, SEVEN + [ESC, 0x33])

  const WHOLE := Frame(0x32, seq(14, _ => 0 as byte))

  lemma CleanLength(fs: seq<Frame>)
    requires fs != [] && ESC !in fs[0].payload
    ensures |PrintAll(fs)| == |fs[0].payload| + 2 + |PrintAll(fs[1..])|
  {
    EscapeClean(fs[0].payload);
  }

  lemma ThreeWhole()
    ensures |Escape(SEVEN)| == 7 && |PrintAll([WHOLE, WHOLE, WHOLE])| == 48
  {
    EscapeClean(SEVEN);
    assert ESC !in WHOLE.payload && |WHOLE.payload| == 14;
    var three, two, one := [WHOLE, WHOLE, WHOLE], [WHOLE, WHOLE], [WHOLE];
    CleanLength(three);
    assert three[1..] == two;
    CleanLength(two);
    assert two[1..] == one;
    CleanLength(one);
  }

  /** There are such frames: a short message follows, three times, and the first token is none
      of them. */
  lemma FakeWitness(split: SplitFunc)
    requires PairSplitter(split)
    ensures WellFormed(CUT) && WellFormed(WHOLE) && |Print(CUT)| >= 10
    ensures var tokens := Drain(split, Print(CUT)[10..] + PrintAll([WHOLE, WHOLE, WHOLE])).tokens;
            |tokens| > 0 && tokens[0] != Message(CUT) && tokens[0] != Message(WHOLE)
  {
    ThreeWhole();
    FakeCrossesFrames(split, CUT, SEVEN, [WHOLE, WHOLE, WHOLE]);
  }

  // --- for the splitter of the code -----------------------------------------------------------

  lemma ScanTakesMessages(s: seq<byte>)
    requires |s| >= 2 && s[0] == ESC && MessageLength(s[1]).Some?
    ensures TakenAsMessage(Scan(s), s)
  {
    FirstByte(s, 0);
    assert s[0..] == s;
    if |s| >= TOKEN_BUF_LEN {
      var n := MessageLength(s[1]).value;
      UnescapedFirst(s, n);
      UnescapedFirst(s[1..], n - 1);
      assert Unescaped(s, n)[..2] == s[..2];
    }
  }

  lemma ScanIsPairSplitter()
    ensures PairSplitter(Scan)
  {
    ScanKeepsLaws();
    forall s: seq<byte> | |s| < 11
      ensures Scan(s) == MORE
    {
    }
    forall s: seq<byte> | |s| >= 11 && s[0] == ESC && s[1] != ESC && MessageLength(s[1]).None?
      ensures Scan(s) == Scanned(1, None)
    {
      FirstByte(s, 0);
    }
    forall s: seq<byte> | |s| >= 2 && s[0] == ESC && MessageLength(s[1]).Some?
      ensures TakenAsMessage(Scan(s), s)
    {
      ScanTakesMessages(s);
    }
  }

  /** A frame cut inside the pair after a, with the rest q of its payload and other frames
      behind it. */
  lemma BeastSplitPairExact(f: Frame, a: seq<byte>, q: seq<byte>, fs: seq<Frame>)
    requires f.payload == a + ([ESC] + q) && AllWellFormed(fs)
    ensures PairSplitter(Scan) && 3 + |Escape(a)| <= |Print(f)|
    ensures SplitOutcome(Scan, q, fs, Drain(Scan, Print(f)[3 + |Escape(a)|..] + PrintAll(fs)).tokens)
  {
    ScanIsPairSplitter();
    CutInsidePair(f, a, q, fs);
    SplitPairExact(Scan, q, fs);
  }

  /** The loss does occur: the first message that ought to come out is the one missing. */
  lemma BeastFrameLost(f: Frame, a: seq<byte>, fs: seq<Frame>)
    requires f.payload == a + [ESC] && AllWellFormed(fs) && Ready(fs, 0) > 0
    ensures PairSplitter(Scan) && 3 + |Escape(a)| <= |Print(f)|
    ensures [Message(fs[0])] + Drain(Scan, Print(f)[3 + |Escape(a)|..] + PrintAll(fs)).tokens == Messages(fs[..Ready(fs, 0)])
  {
    ScanIsPairSplitter();
    FrameLost(Scan, f, a, fs);
  }

  /** And so does the false frame. */
  lemma BeastFakeWitness()
    ensures PairSplitter(Scan) && WellFormed(CUT) && WellFormed(WHOLE) && |Print(CUT)| >= 10
    ensures var tokens := Drain(Scan, Print(CUT)[10..] + PrintAll([WHOLE, WHOLE, WHOLE])).tokens;
            |tokens| > 0 && tokens[0] != Message(CUT) && tokens[0] != Message(WHOLE)
  {
    ScanIsPairSplitter();
    FakeWitness(Scan);
  }

  // --- what comes after the false frame -------------------------------------------------------

  /** Escaped bytes, and frames behind them. */
  function Stream(p: seq<byte>, fs: seq<Frame>): seq<byte> {
    Escape(p) + PrintAll(fs)
  }

  /** Exactly the first j frames begin before the last n bytes of the stream. */
  ghost predicate BegunBefore(fs: seq<Frame>, j: nat, n: nat) {
    j <= |fs| && forall i :: 0 <= i < |fs| ==> (i < j <==> |PrintAll(fs[i..])| > n)
  }

  lemma FirstOfPair(x: seq<byte>)
    ensures PairLength([ESC, ESC] + x) == 2 && ([ESC, ESC] + x)[2..] == x
  {
  }

  lemma FirstOfOther(b: byte, x: seq<byte>)
    requires x != [] && (b != ESC || x[0] != ESC)
    ensures PairLength([b] + x) == 1 && ([b] + x)[1..] == x
  {
  }

  lemma FirstOfBytes(p: seq<byte>, rest: seq<byte>, s: seq<byte>)
    requires p != [] && s == Escape(p) + rest && |s| >= 2
    ensures s[PairLength(s)..] == Escape(p[1..]) + rest
  {
    var x := Escape(p[1..]) + rest;
    if p[0] == ESC {
      AppendAssociates([ESC, ESC], Escape(p[1..]), rest);
      FirstOfPair(x);
    } else {
      AppendAssociates([p[0]], Escape(p[1..]), rest);
      FirstOfOther(p[0], x);
    }
  }

  lemma FirstOfFrame(f: Frame, rest: seq<byte>)
    requires f.kind != ESC
    ensures var s := Print(f) + rest;
            |s| >= 2 && s[PairLength(s)..] == Escape([f.kind] + f.payload) + rest
  {
    FrameWithoutEsc(f);
    AppendAssociates([ESC], Escape([f.kind] + f.payload), rest);
    FirstOfOther(ESC, Escape([f.kind] + f.payload) + rest);
  }

  /** One message byte is one byte of p or of a frame, however many raw bytes it takes. */
  lemma FirstUnit(p: seq<byte>, fs: seq<Frame>)
    requires AllWellFormed(fs) && |Stream(p, fs)| >= 2
    ensures var s := Stream(p, fs);
            s[PairLength(s)..] == if p != [] then Stream(p[1..], fs) else Stream([fs[0].kind] + fs[0].payload, fs[1..])
    ensures p == [] ==> fs != []
  {
    if p != [] {
      FirstOfBytes(p, PrintAll(fs), Stream(p, fs));
    } else {
      assert WellFormed(fs[0]);
      FirstOfFrame(fs[0], PrintAll(fs[1..]));
      assert Stream(p, fs) == PrintAll(fs);
    }
  }

  lemma FrameWithoutEsc(f: Frame)
    requires f.kind != ESC
    ensures Print(f) == [ESC] + Escape([f.kind] + f.payload) && Escape([f.kind] + f.payload)[0] == f.kind
  {
    var body := [f.kind] + f.payload;
    assert body[1..] == f.payload;
    assert Escape(body) == [f.kind] + Escape(f.payload);
  }

  lemma PrintsShrink(fs: seq<Frame>, i: nat, j: nat)
    requires i <= j <= |fs|
    ensures |PrintAll(fs[j..])| <= |PrintAll(fs[i..])|
  {
    PrintSuffixShorter(fs[i..], j - i);
    assert fs[i..][j - i..] == fs[j..];
  }

  lemma SpanLeft(s: seq<byte>, t: seq<byte>, n: nat)
    requires 0 < n && |s| >= 2 * n && t == s[PairLength(s)..]
    ensures |t| >= 2 * (n - 1) && s[Span(s, n)..] == t[Span(t, n - 1)..]
  {
    SpanFirst(s, n);
    SuffixOfSuffix(s, PairLength(s), Span(t, n - 1));
  }

  /** What is left of the stream after n message bytes: again escaped bytes and whole frames, and
      only the rest of the frame begun last comes before those. */
  ghost predicate Left(p: seq<byte>, fs: seq<Frame>, n: nat, q: seq<byte>, j: nat) {
    && |Stream(p, fs)| >= 2 * n && j <= |fs|
    && Stream(p, fs)[Span(Stream(p, fs), n)..] == Stream(q, fs[j..])
    && (j > 0 ==> |Escape(q)| < |Print(fs[j - 1])|)
  }

  lemma UnitOfBytes(p: seq<byte>, fs: seq<Frame>, n: nat, q: seq<byte>, j: nat)
    requires AllWellFormed(fs) && 0 < n && |Stream(p, fs)| >= 2 * n && p != [] && Left(p[1..], fs, n - 1, q, j)
    ensures Left(p, fs, n, q, j)
  {
    FirstUnit(p, fs);
    SpanLeft(Stream(p, fs), Stream(p[1..], fs), n);
  }

  lemma FrameSpan(fs: seq<Frame>, body: seq<byte>, n: nat)
    requires AllWellFormed(fs) && 0 < n && |Stream([], fs)| >= 2 * n && fs != [] && body == [fs[0].kind] + fs[0].payload
    ensures |Stream(body, fs[1..])| >= 2 * (n - 1)
    ensures Stream([], fs)[Span(Stream([], fs), n)..] == Stream(body, fs[1..])[Span(Stream(body, fs[1..]), n - 1)..]
  {
    FirstUnit([], fs);
    SpanLeft(Stream([], fs), Stream(body, fs[1..]), n);
  }

  lemma UnitOfFrame(fs: seq<Frame>, n: nat, q: seq<byte>, j: nat)
    requires AllWellFormed(fs) && 0 < n && |Stream([], fs)| >= 2 * n && fs != [] && fs[0].kind != ESC
    requires Left([fs[0].kind] + fs[0].payload, fs[1..], n - 1, q, j)
    ensures Left([], fs, n, q, j + 1)
  {
    FrameSpan(fs, [fs[0].kind] + fs[0].payload, n);
    assert fs[1..][j..] == fs[j + 1..];
    if j == 0 {
      WithinFrame(fs[0], fs[1..], n - 1, q);
    }
  }

  lemma WithinFrame(f: Frame, rest: seq<Frame>, n: nat, q: seq<byte>)
    requires f.kind != ESC && Left([f.kind] + f.payload, rest, n, q, 0)
    ensures |Escape(q)| < |Print(f)|
  {
    assert rest[0..] == rest;
    FrameWithoutEsc(f);
  }

  lemma LeftAtOnce(p: seq<byte>, fs: seq<Frame>)
    ensures Left(p, fs, 0, p, 0)
  {
    assert fs[0..] == fs;
  }

  lemma BytesRemain(p: seq<byte>, fs: seq<Frame>, n: nat)
    requires AllWellFormed(fs) && 0 < n && |Stream(p, fs)| >= 2 * n && p != []
    ensures |Stream(p[1..], fs)| >= 2 * (n - 1)
  {
    FirstUnit(p, fs);
  }

  lemma FrameRemains(fs: seq<Frame>, n: nat)
    requires AllWellFormed(fs) && 0 < n && |Stream([], fs)| >= 2 * n
    ensures fs != [] && AllWellFormed(fs[1..]) && fs[0].kind != ESC
    ensures |Stream([fs[0].kind] + fs[0].payload, fs[1..])| >= 2 * (n - 1)
  {
    FirstUnit([], fs);
    assert WellFormed(fs[0]);
  }

  /** Taking n message bytes never splits a pair. */
  lemma {:induction false} TakingUnits(p: seq<byte>, fs: seq<Frame>, n: nat) returns (q: seq<byte>, j: nat)
    requires AllWellFormed(fs) && |Stream(p, fs)| >= 2 * n
    ensures Left(p, fs, n, q, j)
    decreases n
  {
    if n == 0 {
      q, j := p, 0;
      LeftAtOnce(p, fs);
    } else if p != [] {
      BytesRemain(p, fs, n);
      q, j := TakingUnits(p[1..], fs, n - 1);
      UnitOfBytes(p, fs, n, q, j);
    } else {
      FrameRemains(fs, n);
      q, j := TakingUnits([fs[0].kind] + fs[0].payload, fs[1..], n - 1);
      UnitOfFrame(fs, n, q, j);
      j := j + 1;
    }
  }

  lemma BegunAt(q: seq<byte>, fs: seq<Frame>, j: nat, i: nat)
    requires j <= |fs| && (j > 0 ==> |Escape(q)| < |Print(fs[j - 1])|) && i < |fs|
    ensures i < j <==> |PrintAll(fs[i..])| > |Stream(q, fs[j..])|
  {
    if i < j {
      PrintsShrink(fs, i, j - 1);
      assert fs[j - 1..][1..] == fs[j..];
    } else {
      PrintsShrink(fs, j, i);
    }
  }

  lemma BegunExactly(q: seq<byte>, fs: seq<Frame>, j: nat)
    requires j <= |fs| && (j > 0 ==> |Escape(q)| < |Print(fs[j - 1])|)
    ensures BegunBefore(fs, j, |Stream(q, fs[j..])|)
  {
    forall i: nat | i < |fs|
      ensures i < j <==> |PrintAll(fs[i..])| > |Stream(q, fs[j..])|
    {
      BegunAt(q, fs, j, i);
    }
  }

  lemma AfterSplitStarts(q: seq<byte>, fs: seq<Frame>)
    requires q != [] && q[0] != ESC
    ensures var s := AfterSplit(q, fs); |s| >= 2 && PairLength(s) == 1 && s[PairLength(s)..] == Stream(q, fs)
  {
    assert AfterSplit(q, fs)[1] == q[0];
  }

  /** What is left after the false frame in a stream that begins with its 0x1A. */
  lemma AfterFake(q: seq<byte>, fs: seq<Frame>, n: nat) returns (p: seq<byte>, j: nat)
    requires q != [] && q[0] != ESC && AllWellFormed(fs) && 0 < n && |AfterSplit(q, fs)| >= 2 * n
    ensures j <= |fs| && AfterSplit(q, fs)[Span(AfterSplit(q, fs), n)..] == Stream(p, fs[j..])
    ensures BegunBefore(fs, j, |AfterSplit(q, fs)| - Span(AfterSplit(q, fs), n))
  {
    var s := AfterSplit(q, fs);
    AfterSplitStarts(q, fs);
    SpanLeft(s, Stream(q, fs), n);
    p, j := TakingUnits(q, fs, n - 1);
    BegunExactly(p, fs, j);
  }

  /** A frame cut inside a pair with a message type behind the 0x1A bytes, and the window full:
      there is one false frame, and after it come exactly the frames that begin after it, as
      far as they are ready. */
  lemma BeastRecovers(f: Frame, a: seq<byte>, q: seq<byte>, fs: seq<Frame>) returns (j: nat)
    requires f.payload == a + ([ESC] + q) && AllWellFormed(fs)
    requires LeadingEscs(q) < |q| && MessageLength(q[LeadingEscs(q)]).Some?
    requires |AfterSplit(q[LeadingEscs(q)..], fs)| >= TOKEN_BUF_LEN
    ensures PairSplitter(Scan) && 3 + |Escape(a)| <= |Print(f)| && j <= |fs|
    ensures var s, n := AfterSplit(q[LeadingEscs(q)..], fs), MessageLength(q[LeadingEscs(q)]).value;
            && BegunBefore(fs, j, |s| - Span(s, n))
            && Drain(Scan, Print(f)[3 + |Escape(a)|..] + PrintAll(fs)).tokens
            == [Unescaped(s, n)] + Messages(fs[j..][..Ready(fs[j..], 0)])
  {
    ScanIsPairSplitter();
    CutInsidePair(f, a, q, fs);
    SkipsLeadingPairs(Scan, q, fs);
    var q' := q[LeadingEscs(q)..];
    var s, n := AfterSplit(q', fs), MessageLength(q'[0]).value;
    FakeFrame(Scan, q', fs);
    FakeScanned(q', fs);
    var p;
    p, j := AfterFake(q', fs, n);
    assert AllWellFormed(fs[j..]);
    FromBoundary(Scan, p, s[Span(s, n)..], fs[j..]);
  }

  lemma FakeScanned(q: seq<byte>, fs: seq<Frame>)
    requires q != [] && MessageLength(q[0]).Some? && |AfterSplit(q, fs)| >= TOKEN_BUF_LEN
    ensures var s, n := AfterSplit(q, fs), MessageLength(q[0]).value;
            Scan(s) == Scanned(Span(s, n), Some(Unescaped(s, n)))
  {
    var s := AfterSplit(q, fs);
    FirstByte(s, 0);
    assert s[0] == ESC && s[1] == q[0] && s[0..] == s;
  }
}
