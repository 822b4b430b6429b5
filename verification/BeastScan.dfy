/** The Beast frame splitter of lib/producer/beast.go. */
module BeastScan {
  import opened Basics
  import opened StreamSplitter
  import opened BeastFormat

  /** bytes.IndexByte: the first occurrence, or -1. */
  function IndexByte(data: seq<byte>, b: byte): (i: int)
    ensures -1 <= i < |data|
    ensures i == -1 <==> b !in data
    ensures i >= 0 ==> data[i] == b && b !in data[..i]
  {
    if |data| == 0 then -1
    else if data[0] == b then 0
    else
      var j := IndexByte(data[1..], b);
      assert data == [data[0]] + data[1..];
      if j == -1 then -1
      else
        assert data[..j + 1] == [data[0]] + data[1..][..j];
        j + 1
  }

  predicate PairAt(s: seq<byte>)
    requires |s| >= 2
  {
    s[0] == ESC && s[1] == ESC
  }

  /** Raw bytes that the first n message bytes of s occupy. */
  function Span(s: seq<byte>, n: nat): (k: nat)
    requires |s| >= 2 * n
    ensures n <= k <= 2 * n
  {
    if n == 0 then 0
    else if PairAt(s) then 2 + Span(s[2..], n - 1)
    else 1 + Span(s[1..], n - 1)
  }

  /** The first n message bytes of s, doubled escapes taken once. */
  function Unescaped(s: seq<byte>, n: nat): (t: seq<byte>)
    requires |s| >= 2 * n
    ensures |t| == n
  {
    if n == 0 then []
    else [s[0]] + Unescaped(s[if PairAt(s) then 2 else 1..], n - 1)
  }

  /** What the splitter does with a buffer. */
  function Scan(data: seq<byte>): (r: Scanned)
    ensures r.advance <= |data|
    ensures r.token.Some? ==> r.advance > 0
  {
    var i := IndexByte(data, ESC);
    if i == -1 || |data| < i + 11 then MORE
    else if data[i + 1] == ESC then Scanned(i + 2, None)
    else if MessageLength(data[i + 1]).None? then Scanned(i + 1, None)
    else if |data| - i < TOKEN_BUF_LEN then MORE
    else
      var n := MessageLength(data[i + 1]).value;
      Scanned(i + Span(data[i..], n), Some(Unescaped(data[i..], n)))
  }

  function PairLength(s: seq<byte>): nat
    requires |s| >= 2
  {
    if PairAt(s) then 2 else 1
  }

  lemma {:induction false} SpanStep(s: seq<byte>, n: nat)
    requires |s| >= 2 * (n + 1)
    ensures Span(s, n + 1) == Span(s, n) + PairLength(s[Span(s, n)..])
  {
    if n == 0 {
      assert s[0..] == s;
    } else {
      var d, rest := PairLength(s), s[PairLength(s)..];
      SpanStep(rest, n - 1);
      SpanFirst(s, n);
      SpanFirst(s, n + 1);
      SuffixOfSuffix(s, d, Span(rest, n - 1));
    }
  }

  lemma SpanFirst(s: seq<byte>, n: nat)
    requires 0 < n && |s| >= 2 * n
    ensures Span(s, n) == PairLength(s) + Span(s[PairLength(s)..], n - 1)
  {
  }

  lemma SuffixOfSuffix<T>(s: seq<T>, a: nat, b: nat)
    requires a + b <= |s|
    ensures s[a..][b..] == s[a + b..]
  {
  }

  lemma {:induction false} UnescapedStep(s: seq<byte>, n: nat)
    requires |s| >= 2 * (n + 1)
    ensures Unescaped(s, n + 1) == Unescaped(s, n) + [s[Span(s, n)]]
  {
    var d := if PairAt(s) then 2 else 1;
    if n > 0 {
      var rest := s[d..];
      UnescapedStep(rest, n - 1);
      assert s[Span(s, n)] == rest[Span(rest, n - 1)];
      AppendAssociates([s[0]], Unescaped(rest, n - 1), [s[Span(s, n)]]);
      UnescapedFirst(s, n);
      UnescapedFirst(s, n + 1);
    } else {
      assert Unescaped(s[d..], 0) == [];
    }
  }

  lemma UnescapedFirst(s: seq<byte>, n: nat)
    requires 0 < n && |s| >= 2 * n
    ensures Unescaped(s, n) == [s[0]] + Unescaped(s[if PairAt(s) then 2 else 1..], n - 1)
  {
  }

  lemma {:induction false} MessageByte(s: seq<byte>, n: nat, j: nat)
    requires j < n && |s| >= 2 * n
    ensures Unescaped(s, n)[j] == s[Span(s, j)]
  {
    UnescapedStep(s, n - 1);
    if j < n - 1 {
      MessageByte(s, n - 1, j);
    }
  }

  lemma SpanInData(data: seq<byte>, i: nat, s: seq<byte>, n: nat, k: nat)
    requires i <= |data| && s == data[i..] && |s| >= 2 * (n + 1) && k == Span(s, n)
    ensures i + k + 1 < |data| && s[k] == data[i + k]
    ensures Span(s, n + 1) == k + if data[i + k] == ESC && data[i + k + 1] == ESC then 2 else 1
  {
    SpanStep(s, n);
    assert s[k..] == data[i + k..];
  }

  /** Where each message byte stands in the window. */
  lemma Positions(data: seq<byte>, i: nat, n: nat) returns (at: seq<nat>)
    requires i + TOKEN_BUF_LEN <= |data| && n <= 23
    ensures |at| == n + 1 && at[0] == 0 && at[n] == Span(data[i..], n)
    ensures forall j :: 0 <= j <= n ==> at[j] <= 2 * j
    ensures forall j, k :: 0 <= j < k <= n && k == j + 1 ==>
              at[k] == at[j] + (if data[i + at[j]] == ESC && data[i + at[j] + 1] == ESC then 2 else 1)
    ensures forall j :: 0 <= j < n ==> data[i + at[j]] == Unescaped(data[i..], n)[j]
  {
    var s := data[i..];
    at := seq(n + 1, j requires 0 <= j <= n => Span(s, j));
    forall j | 0 <= j < n
      ensures data[i + at[j]] == Unescaped(s, n)[j]
      ensures at[j + 1] == at[j] + if data[i + at[j]] == ESC && data[i + at[j] + 1] == ESC then 2 else 1
    {
      SpanInData(data, i, s, j, at[j]);
      MessageByte(s, n, j);
    }
  }

  /** The un-escaping loop: all reads are within the 50-byte window, and the token is
      always filled up to the message length before the window ends. */
  method FillToken(data: seq<byte>, i: nat, msgLen: nat) returns (bufferAdvance: nat, out: seq<byte>)
    requires i + TOKEN_BUF_LEN <= |data| && msgLen <= 23
    ensures bufferAdvance == i + Span(data[i..], msgLen) <= |data|
    ensures out == Unescaped(data[i..], msgLen)
  {
    ghost var at := Positions(data, i, msgLen);
    ghost var message := Unescaped(data[i..], msgLen);
    bufferAdvance := i + msgLen;
    var token := new byte[TOKEN_BUF_LEN](_ => 0);
    var dataIndex, tokenIndex := i, 0;
    while tokenIndex < msgLen && dataIndex < i + TOKEN_BUF_LEN
      invariant 0 <= tokenIndex <= msgLen
      invariant dataIndex == i + at[tokenIndex]
      invariant bufferAdvance == msgLen + dataIndex - tokenIndex
      invariant forall j :: 0 <= j < tokenIndex ==> token[j] == message[j]
    {
      assert at[tokenIndex + 1] <= 2 * (tokenIndex + 1);
      token[tokenIndex] := data[dataIndex];
      if data[dataIndex] == 0x1A && data[dataIndex + 1] == 0x1A {
        bufferAdvance := bufferAdvance + 1;
        dataIndex := dataIndex + 1;
      }
      dataIndex := dataIndex + 1;
      tokenIndex := tokenIndex + 1;
    }
    assert token[0..msgLen] == message;
    return bufferAdvance, token[0..msgLen];
  }

  /** ScanBeast: the advance never passes the end of the data. */
  method ScanBeast(data: seq<byte>, atEOF: bool) returns (advance: nat, out: Option<seq<byte>>)
    ensures Scanned(advance, out) == Scan(data)
    ensures advance <= |data|
  {
    if atEOF && |data| == 0 {
      return 0, None;
    }
    var i := IndexByte(data, ESC);
    if i == -1 || |data| < i + 11 {
      return 0, None;
    }
    var msgLen := 0;
    match data[i + 1] {
      case 0x31 => msgLen := 11;
      case 0x32 => msgLen := 16;
      case 0x33 => msgLen := 23;
      case 0x34 => msgLen := 11;
      case 0x1A => return i + 2, None;
      case _ => return i + 1, None;
    }
    var bufLen := |data| - i;
    if bufLen >= TOKEN_BUF_LEN {
      var bufferAdvance, token := FillToken(data, i, msgLen);
      return bufferAdvance, Some(token);
    }
    return 0, None;
  }

  lemma FirstByte(data: seq<byte>, i: nat)
    requires i < |data| && data[i] == ESC && ESC !in data[..i]
    ensures IndexByte(data, ESC) == i
  {
  }

  lemma IndexByteStable(data: seq<byte>, ext: seq<byte>)
    requires ESC in data
    ensures IndexByte(data + ext, ESC) == IndexByte(data, ESC)
  {
    var i := IndexByte(data, ESC);
    assert (data + ext)[..i] == data[..i];
    FirstByte(data + ext, i);
  }

  lemma {:induction false} UnescapeStable(s: seq<byte>, ext: seq<byte>, n: nat)
    requires |s| >= 2 * n
    ensures Span(s + ext, n) == Span(s, n) && Unescaped(s + ext, n) == Unescaped(s, n)
  {
    if n > 0 {
      var d := if PairAt(s) then 2 else 1;
      assert (s + ext)[d..] == s[d..] + ext;
      UnescapeStable(s[d..], ext, n - 1);
    }
  }

  /** Progress made on a buffer is not changed by bytes that arrive later. */
  lemma ScanStable(data: seq<byte>, ext: seq<byte>)
    requires Scan(data).advance > 0
    ensures Scan(data + ext) == Scan(data)
  {
    IndexByteStable(data, ext);
    var i := IndexByte(data, ESC);
    if data[i + 1] != ESC && MessageLength(data[i + 1]).Some? {
      assert (data + ext)[i..] == data[i..] + ext;
      UnescapeStable(data[i..], ext, MessageLength(data[i + 1]).value);
    }
  }

  lemma {:induction false} EscapeInverts(p: seq<byte>, rest: seq<byte>)
    requires |Escape(p) + rest| >= 2 * |p|
    ensures Span(Escape(p) + rest, |p|) == |Escape(p)| && Unescaped(Escape(p) + rest, |p|) == p
  {
    if |p| > 0 {
      var s := Escape(p) + rest;
      var d := if p[0] == ESC then 2 else 1;
      assert s[d..] == Escape(p[1..]) + rest;
      assert PairAt(s) <==> p[0] == ESC;
      EscapeInverts(p[1..], rest);
    }
  }

  /** Printing then scanning one frame, with anything after it. */
  lemma ScanFrame(f: Frame, rest: seq<byte>)
    requires WellFormed(f)
    ensures Scan(Print(f) + rest) == FrameScan(f, rest)
  {
    var s := Print(f) + rest;
    FirstByte(s, 0);
    assert s[1] == f.kind;
    if |s| >= TOKEN_BUF_LEN {
      assert s[0..] == s;
      PrintInverts(f, rest);
    }
  }

  lemma PrintInverts(f: Frame, rest: seq<byte>)
    requires f.kind != ESC && |Print(f) + rest| >= 2 * |f.payload| + 4
    ensures var s := Print(f) + rest;
            Span(s, |f.payload| + 2) == |Print(f)| && Unescaped(s, |f.payload| + 2) == Message(f)
  {
    PrintedAs(f, rest);
    EscapeInverts(f.payload, rest);
    TwoBytes(f.kind, Escape(f.payload) + rest, |f.payload|);
  }

  lemma PrintedAs(f: Frame, rest: seq<byte>)
    ensures Print(f) + rest == [ESC] + ([f.kind] + (Escape(f.payload) + rest))
    ensures Message(f) == [ESC] + ([f.kind] + f.payload)
  {
  }

  lemma TwoBytes(kind: byte, t: seq<byte>, n: nat)
    requires kind != ESC && |t| >= 2 * n + 2
    ensures Span([ESC] + ([kind] + t), n + 2) == 2 + Span(t, n)
    ensures Unescaped([ESC] + ([kind] + t), n + 2) == [ESC] + ([kind] + Unescaped(t, n))
  {
    SingleByte(kind, t, n);
    SingleByte(ESC, [kind] + t, n + 1);
  }

  lemma SingleByte(b: byte, t: seq<byte>, n: nat)
    requires |t| >= 2 * n + 1 && (b != ESC || t[0] != ESC)
    ensures Span([b] + t, n + 1) == 1 + Span(t, n)
    ensures Unescaped([b] + t, n + 1) == [b] + Unescaped(t, n)
  {
    assert ([b] + t)[1..] == t;
  }

  lemma ScanJunk(junk: seq<byte>, s: seq<byte>)
    requires ESC !in junk && |s| > 0 && s[0] == ESC
    ensures Scan(junk + s) == if Scan(s).advance == 0 then MORE
                              else Scanned(|junk| + Scan(s).advance, Scan(s).token)
  {
    var data := junk + s;
    assert data[..|junk|] == junk;
    FirstByte(data, |junk|);
    FirstByte(s, 0);
    assert data[|junk|..] == s == s[0..];
    assert data[|junk| + 1..] == s[1..];
  }

  lemma ScanPair(s: seq<byte>)
    ensures Scan([ESC, ESC] + s) == if |s| + 2 < 11 then MORE else Scanned(2, None)
  {
    FirstByte([ESC, ESC] + s, 0);
  }

  /** The splitter keeps every law of a Beast splitter. */
  lemma ScanKeepsLaws()
    ensures BeastSplitter(Scan)
  {
    forall data, ext | Scan(data).advance > 0
      ensures Scan(data + ext) == Scan(data)
    {
      ScanStable(data, ext);
    }
    forall f, rest | WellFormed(f)
      ensures Scan(Print(f) + rest) == FrameScan(f, rest)
    {
      ScanFrame(f, rest);
    }
    forall junk, s | ESC !in junk && |s| > 0 && s[0] == ESC
      ensures Scan(junk + s) == if Scan(s).advance == 0 then MORE
                                else Scanned(|junk| + Scan(s).advance, Scan(s).token)
    {
      ScanJunk(junk, s);
    }
    forall s: seq<byte>
      ensures Scan([ESC, ESC] + s) == if |s| + 2 < 11 then MORE else Scanned(2, None)
    {
      ScanPair(s);
    }
  }

  /** Chunking independence of the Beast splitter. */
  lemma BeastChunking(es: seq<ReaderEvent>)
    ensures BeastSplitter(Scan)
    ensures var s := ReaderRun(Scan, es);
            Drain(Scan, Arrived(es)) == Drained(s.tokens + Drain(Scan, s.buffer).tokens, Drain(Scan, s.buffer).rest)
  {
    ScanKeepsLaws();
    ChunkingIndependence(Scan, es);
  }

  /** Beast round trip: scanning a printed list of frames returns exactly the frames that
      start at least 50 bytes before the end, and keeps the bytes of the others. */
  lemma BeastRoundTrip(fs: seq<Frame>)
    requires AllWellFormed(fs)
    ensures BeastSplitter(Scan)
    ensures Drain(Scan, PrintAll(fs)) == Drained(Messages(fs[..Ready(fs, 0)]), PrintAll(fs[Ready(fs, 0)..]))
    ensures forall k: nat :: k < |fs| ==> (k < Ready(fs, 0) <==> |PrintAll(fs[k..])| >= 50)
  {
    ScanKeepsLaws();
    RoundTrip(Scan, fs);
    forall k: nat | k < |fs|
      ensures k < Ready(fs, 0) <==> |PrintAll(fs[k..])| >= 50
    {
      ReadyExact(fs, 0, k);
    }
  }

  function ReportedData(kind: byte): nat
    requires 0x31 <= kind <= 0x34
  {
    match kind
    case 0x31 => 2
    case 0x32 => 7
    case 0x33 => 14
    case _ => 2
  }

  lemma MessageLayout(f: Frame, timestamp: seq<byte>, signal: byte, data: seq<byte>)
    requires 0x31 <= f.kind <= 0x34 && |timestamp| == 6 && |data| == ReportedData(f.kind) && f.payload == timestamp + [signal] + data
    ensures WellFormed(f) && Message(f) == [0x1A, f.kind] + timestamp + [signal] + data
  {
  }

  lemma FirstOfStream(split: SplitFunc, f: Frame, timestamp: seq<byte>, signal: byte, data: seq<byte>, message: seq<byte>, fs: seq<Frame>)
    requires 0x31 <= f.kind <= 0x34 && |timestamp| == 6 && |data| == ReportedData(f.kind) && f.payload == timestamp + [signal] + data
    requires message == [0x1A, f.kind] + timestamp + [signal] + data
    requires BeastSplitter(split) && AllWellFormed(fs) && |Print(f) + PrintAll(fs)| >= 50
    ensures Drain(split, Print(f) + PrintAll(fs)).tokens == [message] + Messages(fs[..Ready(fs, 0)])
  {
    MessageLayout(f, timestamp, signal, data);
    DrainFrame(split, f, PrintAll(fs));
    RoundTrip(split, fs);
  }

  /** A message of any of the four types comes out byte for byte, and the frames behind it as if
      it had not been there: a configuration message takes 11 bytes and not one more. */
  lemma BeastFirstFrame(f: Frame, timestamp: seq<byte>, signal: byte, data: seq<byte>, message: seq<byte>, fs: seq<Frame>)
    requires 0x31 <= f.kind <= 0x34 && |timestamp| == 6 && |data| == ReportedData(f.kind) && f.payload == timestamp + [signal] + data
    requires message == [0x1A, f.kind] + timestamp + [signal] + data
    requires AllWellFormed(fs) && |Print(f) + PrintAll(fs)| >= 50
    ensures BeastSplitter(Scan)
    ensures |message| == match f.kind case 0x31 => 11 case 0x32 => 16 case 0x33 => 23 case _ => 11
    ensures Drain(Scan, Print(f) + PrintAll(fs)).tokens == [message] + Messages(fs[..Ready(fs, 0)])
  {
    ScanKeepsLaws();
    FirstOfStream(Scan, f, timestamp, signal, data, message, fs);
  }

  /** Beast resynchronisation after starting anywhere in a frame but inside a pair. */
  lemma BeastResync(f: Frame, c: nat, fs: seq<Frame>)
    requires AllWellFormed(fs) && WellFormed(f) && c <= |f.payload| + 1
    ensures BeastSplitter(Scan)
    ensures var cut := 1 + |Escape(([f.kind] + f.payload)[..c])|;
            && cut <= |Print(f)|
            && Drain(Scan, Print(f)[cut..] + PrintAll(fs)).tokens == Messages(fs[..Ready(fs, 0)])
  {
    ScanKeepsLaws();
    ResumesAfterCut(Scan, f, c, fs);
  }
}
